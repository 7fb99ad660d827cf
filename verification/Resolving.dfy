/** Resolving the active workspace: a look, a second look under the lock, and, with the lock
    released, the default workspace. What a concurrent switch can lose. */
module Resolving {
  import opened Wrappers
  import opened Workspaces
  import Sets

  predicate HasActive(rows: map<string, Row>, key: string) {
    exists id :: id in rows && IsActive(rows, key, id)
  }

  predicate IsActive(rows: map<string, Row>, key: string, id: string) {
    OwnedId(rows, key, id) && rows[id].active
  }

  /** The steps by which a principal makes some workspace its active one. */
  predicate Activates(a: Action, key: string) {
    (a.Activate? || a.Use? || (a.GetOrCreate? && a.activate)) && a.key == key
  }

  lemma {:induction false} StepActivates(s: Store, a: Action, key: string)
    requires Inv(s) && !HasActive(s.rows, key) && HasActive(Apply(s, a).rows, key)
    ensures Activates(a, key)
  {
    hide RowsOk, TableName, SchemaName, ToolName, Owned, FreeDraw, SchemasOf;
    var rows' := Apply(s, a).rows;
    var id :| id in rows' && IsActive(rows', key, id);
    assert forall i :: i in s.rows ==> !IsActive(s.rows, key, i);
  }

  /** The last step of a call that found no active workspace: it has released the lock. */
  function FallBack(key: string, draws: seq<string>, newId: string): Action {
    GetOrCreate(key, DEFAULT, true, draws, newId)
  }

  /** A workspace other than the default one loses its active flag. */
  predicate Stomps(rows: map<string, Row>, rows': map<string, Row>, key: string, id: string) {
    id in rows && IsActive(rows, key, id) && rows[id].name != DEFAULT && id in rows' && !rows'[id].active
  }

  /** The fallback, when it succeeds, takes the flag from whatever else is active. */
  lemma {:induction false} FallBackStomps(s: Store, key: string, draws: seq<string>, newId: string, id: string)
    requires Inv(s) && FreshId(s, FallBack(key, draws, newId))
    requires CreateReply(s, FallBack(key, draws, newId)).Existing? || CreateReply(s, FallBack(key, draws, newId)).New?
    ensures Stomps(s.rows, Apply(s, FallBack(key, draws, newId)).rows, key, id)
       <==> id in s.rows && IsActive(s.rows, key, id) && s.rows[id].name != DEFAULT
  {
    hide RowsOk, TableName, SchemaName, ToolName, Owned, FreeDraw, SchemasOf;
  }

  /** So a switch that lands between the second look and the creation is undone. */
  lemma {:induction false} SwitchUndone(s: Store, key: string, name: string, id: string, draws: seq<string>, newId: string)
    requires Inv(s) && !HasActive(s.rows, key) && IsNamed(s.rows, key, name, id) && name != DEFAULT
    requires FreshId(s, FallBack(key, draws, newId))
    requires var used := Apply(s, Use(key, name));
             CreateReply(used, FallBack(key, draws, newId)).Existing? || CreateReply(used, FallBack(key, draws, newId)).New?
    ensures var used := Apply(s, Use(key, name));
            IsActive(used.rows, key, id) && Stomps(used.rows, Apply(used, FallBack(key, draws, newId)).rows, key, id)
  {
    hide RowsOk, TableName, SchemaName, ToolName, Owned, FreeDraw, SchemasOf, CreateReply, GetOrCreated;
    var used := Apply(s, Use(key, name));
    StepKeeps(s, Use(key, name));
    assert FindNamed(s.rows, key, name) == Some(id) by { NamedOnce(s.rows, key, name, id); }
    FallBackStomps(used, key, draws, newId, id);
  }

  /** Without an activation by the same principal since the second look there is nothing to
      undo. */
  lemma {:induction false} QuietResolve(s: Store, between: seq<Action>, key: string)
    requires Inv(s) && !HasActive(s.rows, key)
    requires forall k :: 0 <= k < |between| ==> !Activates(between[k], key)
    ensures !HasActive(Run(s, between).rows, key)
  {
    hide Inv, Apply, HasActive;
    if between != [] {
      var front, last := between[..|between| - 1], between[|between| - 1];
      QuietResolve(s, front, key);
      RunKeeps(s, front);
      if HasActive(Apply(Run(s, front), last).rows, key) { StepActivates(Run(s, front), last, key); }
    }
  }

  // ---- the whole call ----

  /** The last transaction of a call, as the stores before and after it. Each of the two
      looks ends the call if it finds an active workspace; `first` runs between them and
      `second` between the second look and the fallback. */
  ghost function LastStep(s: Store, key: string, first: seq<Action>, second: seq<Action>, fallBack: Action): (Store, Store) {
    if HasActive(s.rows, key) then (s, s)
    else
      var mid := Run(s, first);
      if HasActive(mid.rows, key) then (mid, mid)
      else
        var late := Run(mid, second);
        (late, Apply(late, fallBack))
  }

  /** The call's own transaction takes the active flag from workspace `id`. */
  ghost predicate Undoes(s: Store, key: string, first: seq<Action>, second: seq<Action>, draws: seq<string>,
                         newId: string, id: string)
  {
    FreshId(Run(Run(s, first), second), FallBack(key, draws, newId)) &&
    var (before, after) := LastStep(s, key, first, second, FallBack(key, draws, newId));
    Stomps(before.rows, after.rows, key, id)
  }

  /** Some interleaving makes a call that starts now undo a switch. */
  ghost predicate CanUndo(s: Store, key: string) {
    exists first, second, draws, newId, id :: Undoes(s, key, first, second, draws, newId, id)
  }

  lemma {:induction false} RunNext(s: Store, steps: seq<Action>, a: Action)
    ensures Run(s, steps + [a]) == Apply(Run(s, steps), a)
  {
    hide Apply;
    assert (steps + [a])[..|steps|] == steps;
  }

  lemma {:induction false} RunNone(s: Store)
    ensures Run(s, []) == s
  {}

  function Repeated(draw: string): seq<string> {
    [draw, draw, draw, draw]
  }

  predicate Unused(s: Store, draw: string, newId: string) {
    SchemaName(draw) && draw !in SchemasOf(s.rows) && newId !in s.usedIds
  }

  /** The key owns a workspace besides the default one, and the fallback would succeed. */
  ghost predicate Ready(s: Store, key: string, id: string) {
    OwnedId(s.rows, key, id) && s.rows[id].name != DEFAULT &&
    (FindNamed(s.rows, key, DEFAULT).Some? || |Owned(s.rows, key)| < MAX_PER_KEY)
  }

  lemma {:induction false} DefaultIsName()
    ensures TableName(DEFAULT) && ToolName(DEFAULT) && TableName("a") && ToolName("a") && "a" != DEFAULT
  {}

  lemma {:induction false} FreeDraws(rows: map<string, Row>, draw: string)
    requires draw !in SchemasOf(rows)
    ensures |Repeated(draw)| == DRAWS && FreeDraw(rows, Repeated(draw), 0) == Some(draw)
  {}

  /** The switch that the fallback undoes. */
  lemma {:induction false} ReadySwitch(s: Store, key: string, id: string, draw: string, newId: string)
    requires Inv(s) && Ready(s, key, id) && Unused(s, draw, newId)
    ensures var fallBack := FallBack(key, Repeated(draw), newId);
            var late := Apply(s, Activate(key, id));
            FreshId(late, fallBack) && Stomps(late.rows, Apply(late, fallBack).rows, key, id)
  {
    hide RowsOk, TableName, SchemaName, ToolName, SchemasOf, FreeDraw, Stomps, GetOrCreated;
    var late := Apply(s, Activate(key, id));
    var fallBack := FallBack(key, Repeated(draw), newId);
    StepKeeps(s, Activate(key, id));
    ChangeKeeps(s, Activate(key, id));
    DefaultIsName();
    FreeDraws(late.rows, draw);
    ActivateKeepsNames(s.rows, key, id);
    FallBackStomps(late, key, Repeated(draw), newId, id);
  }

  lemma {:induction false} ActivateKeepsNames(rows: map<string, Row>, key: string, id: string)
    requires OwnedId(rows, key, id)
    ensures var rows' := Activated(rows, key, id);
            OwnedId(rows', key, id) && rows'[id].active && rows'[id].name == rows[id].name &&
            Owned(rows', key) == Owned(rows, key) &&
            (FindNamed(rows, key, DEFAULT).Some? <==> FindNamed(rows', key, DEFAULT).Some?)
  {
    var rows' := Activated(rows, key, id);
    assert forall i :: IsNamed(rows, key, DEFAULT, i) <==> IsNamed(rows', key, DEFAULT, i);
  }

  /** A key with nothing but perhaps the default workspace can create another. */
  lemma {:induction false} ReadyByCreating(s: Store, key: string, draw: string, newId: string)
    requires Inv(s) && Unused(s, draw, newId)
    requires forall i :: OwnedId(s.rows, key, i) ==> s.rows[i].name == DEFAULT
    ensures var create := GetOrCreate(key, "a", false, Repeated(draw), newId);
            var s' := Apply(s, create);
            Ready(s', key, newId) && s'.usedIds == s.usedIds + {newId} && SchemasOf(s'.rows) == SchemasOf(s.rows) + {draw}
  {
    hide RowsOk, TableName, SchemaName, ToolName, SchemasOf, FreeDraw;
    var create := GetOrCreate(key, "a", false, Repeated(draw), newId);
    DefaultIsName();
    FreeDraws(s.rows, draw);
    assert newId !in s.rows by { IdsAreUsed(s); }
    assert |Owned(s.rows, key)| <= 1 by { OnlyDefault(s.rows, key); }
    assert CreateReply(s, create) == New(newId);
    InsertSchemas(s.rows, create, draw);
    InsertOwned(s.rows, create, draw, key);
  }

  lemma {:induction false} OnlyDefault(rows: map<string, Row>, key: string)
    requires RowsOk(rows) && forall i :: OwnedId(rows, key, i) ==> rows[i].name == DEFAULT
    ensures |Owned(rows, key)| <= 1
  {
    hide TableName, SchemaName, Quota;
    Sets.AtMostOne(Owned(rows, key));
  }

  /** A key at its quota can make room by deleting another workspace. */
  lemma {:induction false} ReadyByDeleting(s: Store, key: string, id: string, other: string)
    requires Inv(s) && OwnedId(s.rows, key, id) && s.rows[id].name != DEFAULT
    requires OwnedId(s.rows, key, other) && other != id
    ensures var s' := Apply(s, Delete(key, other, s.rows[other].schema));
            Ready(s', key, id) && s'.usedIds == s.usedIds && SchemasOf(s'.rows) <= SchemasOf(s.rows)
  {
    hide TableName, SchemaName, FindNamed, OneActive, UniqueNames, UniqueSchemas, SchemasOf;
    assert ToolSchemaName(s.rows[other].schema);
    DeleteRows(s.rows, other);
    var rows' := s.rows - {other};
    assert Owned(rows', key) == Owned(s.rows, key) - {other};
    assert other in Owned(s.rows, key) && |Owned(s.rows, key)| <= MAX_PER_KEY;
  }

  /** Whatever the key owns, one transaction at most makes it ready, and leaves one schema
      name and one id unused. */
  lemma {:induction false} BecomesReady(s: Store, key: string, draw: string, newId: string, draw': string, newId': string)
    returns (steps: seq<Action>, id: string)
    requires Inv(s) && Unused(s, draw, newId) && Unused(s, draw', newId') && draw != draw' && newId != newId'
    ensures Inv(Run(s, steps)) && Ready(Run(s, steps), key, id) && Unused(Run(s, steps), draw', newId')
  {
    hide RowsOk, SchemaName, SchemasOf, FindNamed, Apply;
    steps := [];
    RunNone(s);
    if i :| i in s.rows && OwnedId(s.rows, key, i) && s.rows[i].name != DEFAULT {
      id := i;
      if !Ready(s, key, i) {
        var other := AnotherOwned(s.rows, key, i);
        var delete := Delete(key, other, s.rows[other].schema);
        ReadyByDeleting(s, key, i, other);
        RunNext(s, [], delete);
        steps := [] + [delete];
      }
    } else {
      var create := GetOrCreate(key, "a", false, Repeated(draw), newId);
      ReadyByCreating(s, key, draw, newId);
      RunNext(s, [], create);
      steps, id := [] + [create], newId;
    }
    RunKeeps(s, steps);
  }

  lemma {:induction false} AnotherOwned(rows: map<string, Row>, key: string, id: string) returns (other: string)
    requires |Owned(rows, key)| >= MAX_PER_KEY
    ensures OwnedId(rows, key, other) && other != id
  {
    if Owned(rows, key) <= {id} { Sets.SubsetSize(Owned(rows, key), {id}); }
    other :| other in Owned(rows, key) && other != id;
  }

  /** A call that finds an active workspace changes nothing; one that does not can undo a
      switch made after its second look. So a call can undo a switch exactly when its key
      has no active workspace as it starts. Two unused schema names and two unused ids are
      taken to exist. */
  lemma {:induction false} StompExactly(s: Store, key: string, draw: string, newId: string, draw': string, newId': string)
    requires Inv(s) && Unused(s, draw, newId) && Unused(s, draw', newId') && draw != draw' && newId != newId'
    ensures CanUndo(s, key) <==> !HasActive(s.rows, key)
  {
    hide Inv, Apply, Ready, FreshId;
    if !HasActive(s.rows, key) {
      var steps, id := BecomesReady(s, key, draw, newId, draw', newId');
      var ready := Run(s, steps);
      ReadySwitch(ready, key, id, draw', newId');
      RunNext(s, steps, Activate(key, id));
      RunNone(s);
      assert Undoes(s, key, [], steps + [Activate(key, id)], Repeated(draw'), newId', id);
    }
  }

  /** So it happens to any key from the empty store. */
  lemma {:induction false} UndoneFromEmpty(key: string)
    ensures CanUndo(EMPTY, key)
  {
    hide CanUndo, Inv;
    EmptyOk();
    var draw, draw' := "ws_00000000", "ws_00000001";
    assert draw[..3] == "ws_" && draw'[..3] == "ws_" && draw[10] != draw'[10];
    assert SchemaName(draw) && SchemaName(draw') && SchemasOf(EMPTY.rows) == {};
    StompExactly(EMPTY, key, draw, "1", draw', "2");
  }
}
