/** The workspace tables and schemas as the transactions of the tools change them. */
module WorkspaceStore {
  import opened Wrappers
  import opened Workspaces
  import opened Resolving

  datatype Deletion = Removed | NotOwned | SuspiciousName | WrongSchema

  datatype Resolved = Found(id: string) | Refused(reply: Created)

  /** A unique name is found wherever one looks for it. */
  lemma {:induction false} FoundOnce(rows: map<string, Row>, key: string, name: string, id: string)
    requires RowsOk(rows) && IsNamed(rows, key, name, id)
    ensures FindNamed(rows, key, name) == Some(id)
  {
    NamedOnce(rows, key, name, id);
  }

  /** Workspace `id` is the active one of the key; no other row of any key changes but for
      losing the key's flag. */
  ghost predicate Switched(rows: map<string, Row>, rows': map<string, Row>, key: string, id: string) {
    rows'.Keys == rows.Keys && id in rows && rows[id].key == key &&
    forall i :: i in rows ==>
      rows'[i].key == rows[i].key && rows'[i].name == rows[i].name && rows'[i].schema == rows[i].schema &&
      rows'[i].active == (i == id || (rows[i].active && rows[i].key != key))
  }

  predicate Holds(rows: map<string, Row>, key: string, name: string, id: string) {
    id in rows && rows[id].key == key && rows[id].name == name
  }

  predicate InUse(rows: map<string, Row>, schema: string) {
    exists i :: i in rows && rows[i].schema == schema
  }

  /** One more row, of this key and name, with a drawn schema name that was free. */
  ghost predicate Added(rows: map<string, Row>, rows': map<string, Row>, key: string, name: string, draws: seq<string>, id: string) {
    id !in rows && rows'.Keys == rows.Keys + {id} && (forall i :: i in rows ==> rows'[i] == rows[i]) &&
    rows'[id].key == key && rows'[id].name == name && !rows'[id].active &&
    exists k :: FirstUnused(rows, draws, k, rows'[id].schema)
  }

  predicate FirstUnused(rows: map<string, Row>, draws: seq<string>, k: nat, schema: string) {
    k < 4 && k < |draws| && schema == draws[k] && !InUse(rows, schema) && forall j :: 0 <= j < k ==> InUse(rows, draws[j])
  }

  predicate Renames(rows: map<string, Row>, rows': map<string, Row>, id: string, newName: string) {
    id in rows && rows'.Keys == rows.Keys && rows'[id] == rows[id].(name := newName) &&
    forall i :: i in rows && i != id ==> rows'[i] == rows[i]
  }

  lemma {:induction false} RenamesNow(rows: map<string, Row>, rows': map<string, Row>, id: string, newName: string)
    requires id in rows && rows'.Keys == rows.Keys && rows'[id] == rows[id].(name := newName)
    requires forall i :: i in rows && i != id ==> rows'[i] == rows[i]
    ensures Renames(rows, rows', id, newName)
  {}

  lemma {:induction false} NameTaken(rows: map<string, Row>, key: string, name: string, found: Option<string>)
    requires RowsOk(rows) && found == FindNamed(rows, key, name)
    ensures forall i :: Holds(rows, key, name, i) <==> found == Some(i)
  {
    hide RowsOk;
    forall i | Holds(rows, key, name, i) ensures found == Some(i) { FoundOnce(rows, key, name, i); }
  }

  lemma {:induction false} NameMoved(rows: map<string, Row>, rows': map<string, Row>, key: string, id: string, newName: string)
    requires RowsOk(rows) && OwnedId(rows, key, id) && Renames(rows, rows', id, newName)
    requires forall i :: Holds(rows, key, newName, i) ==> i == id
    ensures forall i :: Holds(rows', key, newName, i) ==> i == id
    ensures newName != rows[id].name ==> forall i :: !Holds(rows', key, rows[id].name, i)
  {
    hide Quota, WellNamed, OneActive, UniqueSchemas;
    forall i | i in rows && i != id ensures Holds(rows', key, rows'[i].name, i) == Holds(rows, key, rows[i].name, i) {}
  }

  /** What asking for a workspace by name did. */
  ghost predicate Provided(rows: map<string, Row>, rows': map<string, Row>, key: string, name: string, activate: bool,
                           draws: seq<string>, newId: string, reply: Created)
  {
    match reply
    case Existing(id) => Holds(rows, key, name, id) && if activate then Switched(rows, rows', key, id) else rows' == rows
    case New(id) =>
      id == newId && (forall i :: !Holds(rows, key, name, i)) &&
      if activate then exists mid :: Added(rows, mid, key, name, draws, id) && Switched(mid, rows', key, id)
      else Added(rows, rows', key, name, draws, id)
    case LimitReached =>
      rows' == rows && |set i | i in rows && rows[i].key == key| >= 20 && forall i :: !Holds(rows, key, name, i)
    case NoSchemaFree => rows' == rows && forall k :: 0 <= k < 4 && k < |draws| ==> InUse(rows, draws[k])
    case BadName => rows' == rows && !ToolName(name)
    case CheckViolation => rows' == rows && !TableName(name)
  }

  class Database {
    var rows: map<string, Row>
    var schemas: set<string>
    ghost var usedIds: set<string>
    var ensuring: map<nat, Ensuring>
    var sweeping: Option<set<string>>

    ghost function S(): Store
      reads this
    {
      Store(rows, schemas, usedIds, ensuring, sweeping)
    }

    constructor ()
      ensures S() == EMPTY && Inv(S())
    {
      rows, schemas, usedIds, ensuring, sweeping := map[], {}, {}, map[], None;
      EmptyOk();
    }

    /** The workspace of that name, under the key's lock. */
    method OwnedByName(key: string, name: string) returns (id: Option<string>)
      requires RowsOk(rows)
      ensures id == FindNamed(rows, key, name)
      ensures forall i :: Holds(rows, key, name, i) <==> id == Some(i)
    {
      hide RowsOk, Holds;
      NameTaken(rows, key, name, FindNamed(rows, key, name));
      if exists i :: i in rows && IsNamed(rows, key, name, i) {
        var found :| found in rows && IsNamed(rows, key, name, found);
        FoundOnce(rows, key, name, found);
        return Some(found);
      }
      assert forall i :: IsNamed(rows, key, name, i) ==> i in rows;
      return None;
    }

    /** Clears the old flag, then sets the new one. */
    method SetActive(key: string, id: string)
      requires OwnedId(rows, key, id)
      modifies `rows
      ensures rows == Activated(old(rows), key, id) && Switched(old(rows), rows, key, id)
    {
      rows := map i | i in rows :: if rows[i].key == key && rows[i].active then rows[i].(active := false) else rows[i];
      rows := rows[id := rows[id].(active := true)];
    }

    /** The insertion is tried with up to four drawn names; a name in use violates the
        unique index and costs one draw. */
    method InsertRow(key: string, name: string, draws: seq<string>, newId: string) returns (schema: Option<string>)
      requires |draws| == DRAWS && newId !in rows
      modifies `rows
      ensures schema == FreeDraw(old(rows), draws, 0)
      ensures rows == if schema.Some? then old(rows)[newId := Row(key, name, schema.value, false)] else old(rows)
      ensures schema.Some? ==> Added(old(rows), rows, key, name, draws, newId)
      ensures schema.None? ==> forall k :: 0 <= k < 4 ==> InUse(rows, draws[k])
    {
      schema := None;
      var k := 0;
      ghost var found := 0;
      while k < DRAWS && schema.None?
        invariant k <= DRAWS && rows == old(rows)
        invariant schema.None? ==> FreeDraw(rows, draws, 0) == FreeDraw(rows, draws, k)
        invariant schema.Some? ==> FreeDraw(rows, draws, 0) == schema
        invariant schema.None? ==> forall j :: 0 <= j < k ==> InUse(rows, draws[j])
        invariant schema.Some? ==> FirstUnused(rows, draws, found, schema.value)
      {
        var draw := draws[k];
        if draw !in (set i | i in rows :: rows[i].schema) {
          schema, found := Some(draw), k;
        }
        k := k + 1;
      }
      if schema.Some? {
        rows := rows[newId := Row(key, name, schema.value, false)];
      }
    }

    method GetOrCreateWorkspace(key: string, name: string, activate: bool, draws: seq<string>, newId: string)
      returns (reply: Created)
      requires Inv(S()) && FreshId(S(), GetOrCreate(key, name, activate, draws, newId))
      modifies this
      ensures reply == CreateReply(old(S()), GetOrCreate(key, name, activate, draws, newId))
      ensures S() == Apply(old(S()), GetOrCreate(key, name, activate, draws, newId)) && Inv(S())
      ensures Provided(old(rows), rows, key, name, activate, draws, newId, reply)
    {
      hide RowsOk, TableName, ToolName, SchemaName, Activated, SchemasOf, Switched, Added, InUse;
      StepKeeps(S(), GetOrCreate(key, name, activate, draws, newId));
      if !ToolName(name) { return BadName; }
      assert newId !in rows by { IdsAreUsed(S()); }
      var id := OwnedByName(key, name);
      assert Owned(rows, key) == set i | i in rows && rows[i].key == key;
      if id.Some? {
        if activate { SetActive(key, id.value); }
        return Existing(id.value);
      }
      if |Owned(rows, key)| >= MAX_PER_KEY { return LimitReached; }
      if !TableName(name) { return CheckViolation; }
      var schema := InsertRow(key, name, draws, newId);
      if schema.None? { return NoSchemaFree; }
      usedIds := usedIds + {newId};
      if activate { SetActive(key, newId); }
      return New(newId);
    }

    method ActivateWorkspace(key: string, id: string) returns (ok: bool)
      modifies `rows
      ensures ok == OwnedId(old(rows), key, id) && S() == Apply(old(S()), Activate(key, id))
      ensures if ok then Switched(old(rows), rows, key, id) else rows == old(rows) && (id !in rows || rows[id].key != key)
    {
      hide Activated;
      if id !in rows || rows[id].key != key { return false; }
      SetActive(key, id);
      return true;
    }

    method UseWorkspace(key: string, name: string) returns (id: Option<string>)
      requires Inv(S())
      modifies `rows
      ensures id == FindNamed(old(rows), key, name) && S() == Apply(old(S()), Use(key, name))
      ensures if id.Some? then Holds(old(rows), key, name, id.value) && Switched(old(rows), rows, key, id.value)
              else rows == old(rows) && forall i :: !Holds(rows, key, name, i)
    {
      hide Activated, RowsOk;
      id := OwnedByName(key, name);
      if id.Some? { SetActive(key, id.value); }
    }

    method RenameWorkspace(key: string, id: string, newName: string, allowSame: bool) returns (reply: Renamed)
      requires Inv(S())
      modifies `rows
      ensures reply == RenameReply(old(S()), Rename(key, id, newName, allowSame))
      ensures S() == Apply(old(S()), Rename(key, id, newName, allowSame))
      ensures reply == Done <==> TableName(newName) && id in old(rows) && old(rows)[id].key == key &&
                                 forall i :: Holds(old(rows), key, newName, i) ==> allowSame && i == id
      ensures reply == Done ==> rows.Keys == old(rows).Keys && rows[id] == old(rows)[id].(name := newName) &&
                                forall i :: i in rows && i != id ==> rows[i] == old(rows)[i]
      ensures reply == Done ==> forall i :: Holds(rows, key, newName, i) ==> i == id
      ensures reply == Done && newName != old(rows)[id].name ==> forall i :: !Holds(rows, key, old(rows)[id].name, i)
      ensures reply != Done ==> rows == old(rows)
    {
      hide RowsOk, TableName, SchemaName, Holds;
      if !ToolName(newName) { return UnusableName; }
      if id !in rows || rows[id].key != key { return Unknown; }
      var clash := OwnedByName(key, newName);
      ghost var before := rows;
      if clash.Some? && (!allowSame || clash.value != id) { return Clash; }
      if !TableName(newName) { return NameCheckViolation; }
      rows := rows[id := rows[id].(name := newName)];
      NameMoved(before, rows, key, id, newName);
      return Done;
    }

    /** The schema goes first, the row last, in one transaction. */
    method DeleteWorkspace(key: string, id: string, schema: string) returns (reply: Deletion)
      modifies this
      ensures S() == Apply(old(S()), Delete(key, id, schema))
      ensures reply == Removed <==> Deletes(old(S()), Delete(key, id, schema))
      ensures reply == Removed <==> ToolSchemaName(schema) && id in old(rows) && old(rows)[id].key == key &&
                                    old(rows)[id].schema == schema
      ensures if reply == Removed then rows == old(rows) - {id} && schemas == old(schemas) - {schema}
              else rows == old(rows) && schemas == old(schemas)
    {
      hide SchemaName;
      if !ToolSchemaName(schema) { return SuspiciousName; }
      if id !in rows || rows[id].key != key { return NotOwned; }
      if rows[id].schema != schema { return WrongSchema; }
      schemas := schemas - {schema};
      rows := rows - {id};
      return Removed;
    }

    method DeleteByName(key: string, name: string) returns (reply: Deletion)
      requires Inv(S())
      modifies this
      ensures S() == Apply(old(S()), DeleteNamed(key, name))
      ensures reply == Removed <==> exists id :: Holds(old(rows), key, name, id)
      ensures reply != Removed ==> rows == old(rows) && schemas == old(schemas)
      ensures reply == Removed ==> exists id :: Holds(old(rows), key, name, id) && rows == old(rows) - {id} &&
                                                schemas == old(schemas) - {old(rows)[id].schema}
    {
      hide RowsOk;
      var id := OwnedByName(key, name);
      if id.None? { return NotOwned; }
      assert Holds(rows, key, name, id.value);
      assert ToolSchemaName(rows[id.value].schema) by { Named(rows, id.value); }
      reply := DeleteWorkspace(key, id.value, rows[id.value].schema);
    }

    /** The read before the lock. */
    method EnsureSchemaRead(call: nat, id: string) returns (known: bool)
      modifies `ensuring
      ensures S() == Apply(old(S()), EnsureRead(call, id)) && known == (id in rows)
    {
      if id !in rows { return false; }
      ensuring := ensuring[call := Ensuring(id, rows[id].schema, rows[id].key)];
      return true;
    }

    /** The re-read under the lock, and the creation of the schema. */
    method EnsureSchemaCommit(call: nat) returns (schema: Option<string>)
      requires Inv(S()) && call in ensuring
      modifies this
      ensures S() == Apply(old(S()), EnsureCommit(call))
      ensures schema.Some? <==> old(ensuring)[call].id in rows
      ensures schema.Some? ==> schema.value in schemas && rows[old(ensuring)[call].id].schema == schema.value
      ensures rows == old(rows) && schemas == if schema.Some? then old(schemas) + {schema.value} else old(schemas)
    {
      hide RowsOk;
      var read := ensuring[call];
      if read.id in rows {
        EnsuredOwned(S(), call);
        schema := Some(read.schema);
        schemas := schemas + {read.schema};
      } else {
        schema := None;
      }
      ensuring := ensuring - {call};
    }

    method SweepListOrphans()
      modifies `sweeping
      ensures S() == Apply(old(S()), SweepList)
      ensures sweeping.Some? && forall x :: x in sweeping.value <==> x in schemas && SchemaName(x) && !InUse(rows, x)
    {
      sweeping := Some(set x | x in schemas && SchemaName(x) && x !in SchemasOf(rows));
    }

    /** Drops the listed schemas one by one. */
    method SweepDropListed()
      requires sweeping.Some?
      modifies `schemas, `sweeping
      ensures S() == Apply(old(S()), SweepDrop) && schemas == old(schemas) - old(sweeping).value
    {
      var left := sweeping.value;
      while left != {}
        invariant sweeping == old(sweeping) && left <= sweeping.value
        invariant schemas == old(schemas) - (sweeping.value - left)
      {
        var x :| x in left;
        schemas := schemas - {x};
        left := left - {x};
      }
      sweeping := None;
    }

    /** The active workspace of a key, if it has one. */
    method TouchActive(key: string) returns (id: Option<string>)
      ensures id.Some? ==> id.value in rows && IsActive(rows, key, id.value)
      ensures id.None? ==> !HasActive(rows, key)
    {
      if exists i :: i in rows && IsActive(rows, key, i) {
        var found :| found in rows && IsActive(rows, key, found);
        return Some(found);
      }
      return None;
    }

    /** What other transactions do meanwhile. */
    method Meanwhile(ghost steps: seq<Action>, after: Store)
      requires Inv(S()) && after == Run(S(), steps)
      modifies this
      ensures S() == Run(old(S()), steps) && Inv(S())
    {
      RunKeeps(S(), steps);
      rows, schemas, usedIds, ensuring, sweeping := after.rows, after.schemas, after.usedIds, after.ensuring, after.sweeping;
    }

    /** Renaming by name reads the id before it takes the lock; the id is checked again
        under it, the old name is not. */
    method RenameByName(key: string, name: string, newName: string, ghost between: seq<Action>, after: Store)
      returns (reply: Renamed)
      requires Inv(S()) && after == Run(S(), between)
      modifies this
      ensures var read := FindNamed(old(rows), key, name);
              if !ToolName(newName) then reply == UnusableName && S() == old(S())
              else if read.None? then reply == Unknown && S() == old(S())
              else reply == RenameReply(after, Rename(key, read.value, newName, false)) &&
                   S() == Apply(after, Rename(key, read.value, newName, false))
      ensures reply == Done ==> exists id :: Holds(old(rows), key, name, id) && id in after.rows && after.rows[id].key == key &&
                                             Renames(after.rows, rows, id, newName)
      ensures reply == Done && between == [] ==> forall i :: !Holds(rows, key, name, i)
    {
      hide RowsOk, ToolName, Apply, RenameReply, Renames;
      if !ToolName(newName) { return UnusableName; }
      var id := OwnedByName(key, name);
      if id.None? { return Unknown; }
      Meanwhile(between, after);
      reply := RenameWorkspace(key, id.value, newName, false);
      if reply == Done {
        assert Renames(after.rows, rows, id.value, newName) by { RenamesNow(after.rows, rows, id.value, newName); }
        assert between == [] ==> after == old(S()) by { RunNone(old(S())); }
      }
    }

    /** Resolving without a selected workspace: a look, a second look under the lock, and
        then, the lock released, the default workspace. */
    method Resolve(key: string, draws: seq<string>, newId: string, ghost first: seq<Action>, afterFirst: Store,
                   ghost second: seq<Action>, afterSecond: Store) returns (result: Resolved)
      requires Inv(S()) && afterFirst == Run(S(), first) && afterSecond == Run(afterFirst, second)
      requires FreshId(afterSecond, FallBack(key, draws, newId))
      modifies this
      ensures Inv(S())
      ensures result.Found? ==> result.id in rows && IsActive(rows, key, result.id)
      ensures S() == LastStep(old(S()), key, first, second, FallBack(key, draws, newId)).1
    {
      hide Inv, Apply, HasActive, FreshId;
      var id := TouchActive(key);
      if id.Some? {
        assert HasActive(rows, key) by { ActiveNow(rows, key, id.value); }
        return Found(id.value);
      }
      Meanwhile(first, afterFirst);
      id := TouchActive(key);
      if id.Some? {
        assert HasActive(rows, key) by { ActiveNow(rows, key, id.value); }
        return Found(id.value);
      }
      Meanwhile(second, afterSecond);
      ghost var before := S();
      var reply := GetOrCreateWorkspace(key, DEFAULT, true, draws, newId);
      if reply.Existing? || reply.New? {
        CreatedActive(before, key, draws, newId);
        return Found(reply.id);
      }
      return Refused(reply);
    }
  }

  lemma {:induction false} ActiveNow(rows: map<string, Row>, key: string, id: string)
    requires id in rows && IsActive(rows, key, id)
    ensures HasActive(rows, key)
  {}

  lemma {:induction false} Named(rows: map<string, Row>, id: string)
    requires RowsOk(rows) && id in rows
    ensures ToolSchemaName(rows[id].schema)
  {
    hide SchemaName, TableName, Quota;
  }

  lemma {:induction false} CreatedActive(s: Store, key: string, draws: seq<string>, newId: string)
    requires FreshId(s, FallBack(key, draws, newId))
    requires CreateReply(s, FallBack(key, draws, newId)).Existing? || CreateReply(s, FallBack(key, draws, newId)).New?
    ensures var id := CreateReply(s, FallBack(key, draws, newId)).id;
            var rows' := Apply(s, FallBack(key, draws, newId)).rows;
            id in rows' && IsActive(rows', key, id)
  {
    hide TableName, ToolName, SchemaName, FreeDraw, Owned;
  }
}
