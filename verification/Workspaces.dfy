/** Durable workspaces: every committed transaction of the tools is one step, in any
    interleaving. Transactions of one principal are serialized by its lock; those that read
    first and lock later are split where another transaction can come in between. */
module Workspaces {
  import opened Wrappers
  import Sets

  const MAX_PER_KEY: nat := 20
  const DRAWS: nat := 4
  const DEFAULT := "default"

  datatype Row = Row(key: string, name: string, schema: string, active: bool)

  /** What an ensure-schema call read before taking the lock. */
  datatype Ensuring = Ensuring(id: string, schema: string, key: string)

  /** `sweeping` is what a sweep listed and has not dropped yet; `usedIds` is history. */
  datatype Store = Store(rows: map<string, Row>, schemas: set<string>, usedIds: set<string>,
                         ensuring: map<nat, Ensuring>, sweeping: Option<set<string>>)

  /** `draws` are the random schema names of one creation, `newId` the id it would get. */
  datatype Action = GetOrCreate(key: string, name: string, activate: bool, draws: seq<string>, newId: string)
                  | Activate(key: string, id: string)
                  | Use(key: string, name: string)
                  | Rename(key: string, id: string, newName: string, allowSame: bool)
                  | Delete(key: string, id: string, schema: string)
                  | DeleteNamed(key: string, name: string)
                  | EnsureRead(call: nat, id: string) | EnsureCommit(call: nat)
                  | SweepList | SweepDrop

  // ---- names ----

  predicate Lower(c: char) { 'a' <= c <= 'z' || '0' <= c <= '9' }

  /** The check of the table: at most 40 characters, nothing after them. */
  predicate TableName(s: string) {
    1 <= |s| <= 40 && Lower(s[0]) && forall k :: 1 <= k < |s| ==> Lower(s[k]) || s[k] == '_' || s[k] == '-'
  }

  /** The check of the tools, whose `$` also matches before a final line feed. */
  predicate ToolName(s: string) {
    TableName(s) || (|s| >= 1 && s[|s| - 1] == '\n' && TableName(s[..|s| - 1]))
  }

  predicate Hex(c: char) { '0' <= c <= '9' || 'a' <= c <= 'f' }

  predicate SchemaName(s: string) {
    |s| == 11 && s[..3] == "ws_" && forall k :: 3 <= k < 11 ==> Hex(s[k])
  }

  predicate ToolSchemaName(s: string) {
    SchemaName(s) || (|s| == 12 && s[11] == '\n' && SchemaName(s[..11]))
  }

  // ---- rows ----

  predicate OwnedId(rows: map<string, Row>, key: string, id: string) {
    id in rows && rows[id].key == key
  }

  function Owned(rows: map<string, Row>, key: string): set<string> {
    set id | id in rows && OwnedId(rows, key, id)
  }

  predicate IsNamed(rows: map<string, Row>, key: string, name: string, id: string) {
    OwnedId(rows, key, id) && rows[id].name == name
  }

  ghost function FindNamed(rows: map<string, Row>, key: string, name: string): (r: Option<string>)
    ensures r.Some? ==> IsNamed(rows, key, name, r.value)
    ensures r.None? ==> forall id :: !IsNamed(rows, key, name, id)
  {
    if exists id :: IsNamed(rows, key, name, id)
    then var id :| IsNamed(rows, key, name, id); Some(id)
    else None
  }

  function SchemasOf(rows: map<string, Row>): set<string> {
    set id | id in rows :: rows[id].schema
  }

  /** The first draw that no row uses, among the four that are tried. */
  function FreeDraw(rows: map<string, Row>, draws: seq<string>, n: nat): (r: Option<string>)
    requires n <= |draws|
    ensures r.Some? ==> r.value in draws && r.value !in SchemasOf(rows)
    decreases |draws| - n
  {
    if n == |draws| || n == DRAWS then None
    else if draws[n] !in SchemasOf(rows) then Some(draws[n])
    else FreeDraw(rows, draws, n + 1)
  }

  function Activated(rows: map<string, Row>, key: string, id: string): map<string, Row>
    requires id in rows
  {
    (map i | i in rows :: if rows[i].key == key then rows[i].(active := false) else rows[i])[id := rows[id].(active := true)]
  }

  // ---- operations ----

  datatype Created = Existing(id: string) | New(id: string) | BadName | LimitReached | NoSchemaFree | CheckViolation

  /** What a creation does: the name is looked up and counted under the lock. */
  ghost function CreateReply(s: Store, a: Action): Created
    requires a.GetOrCreate?
  {
    if !ToolName(a.name) then BadName
    else
      match FindNamed(s.rows, a.key, a.name)
      case Some(id) => Existing(id)
      case None =>
        if |Owned(s.rows, a.key)| >= MAX_PER_KEY then LimitReached
        else if !TableName(a.name) then CheckViolation
        else if FreeDraw(s.rows, a.draws, 0).None? then NoSchemaFree
        else New(a.newId)
  }

  function Insert(rows: map<string, Row>, a: Action, schema: string): map<string, Row>
    requires a.GetOrCreate?
  {
    rows[a.newId := Row(a.key, a.name, schema, false)]
  }

  ghost function GetOrCreated(s: Store, a: Action): Store
    requires a.GetOrCreate?
  {
    match CreateReply(s, a)
    case Existing(id) => if a.activate then s.(rows := Activated(s.rows, a.key, id)) else s
    case New(id) =>
      var rows := Insert(s.rows, a, FreeDraw(s.rows, a.draws, 0).value);
      s.(rows := if a.activate then Activated(rows, a.key, id) else rows, usedIds := s.usedIds + {id})
    case _ => s
  }

  datatype Renamed = Done | UnusableName | Unknown | Clash | NameCheckViolation

  ghost function RenameReply(s: Store, a: Action): Renamed
    requires a.Rename?
  {
    if !ToolName(a.newName) then UnusableName
    else if !OwnedId(s.rows, a.key, a.id) then Unknown
    else if FindNamed(s.rows, a.key, a.newName).Some? && (!a.allowSame || FindNamed(s.rows, a.key, a.newName) != Some(a.id))
      then Clash
    else if !TableName(a.newName) then NameCheckViolation
    else Done
  }

  /** The row and its schema go in one transaction. */
  function Deleted(s: Store, id: string): Store
    requires id in s.rows
  {
    s.(rows := s.rows - {id}, schemas := s.schemas - {s.rows[id].schema})
  }

  predicate Deletes(s: Store, a: Action) {
    a.Delete? && ToolSchemaName(a.schema) && OwnedId(s.rows, a.key, a.id) && s.rows[a.id].schema == a.schema
  }

  predicate Ensures(s: Store, call: nat) {
    call in s.ensuring && s.ensuring[call].id in s.rows
  }

  function Orphans(s: Store): set<string> {
    set x | x in s.schemas && SchemaName(x) && x !in SchemasOf(s.rows)
  }

  predicate FreshId(s: Store, a: Action) {
    a.GetOrCreate? ==> a.newId !in s.usedIds && |a.draws| == DRAWS && forall k :: 0 <= k < DRAWS ==> SchemaName(a.draws[k])
  }

  /** One transaction; one that is refused changes nothing. */
  ghost function Apply(s: Store, a: Action): Store {
    if !FreshId(s, a) then s
    else
      match a
      case GetOrCreate(_, _, _, _, _) => GetOrCreated(s, a)
      case Activate(key, id) => if OwnedId(s.rows, key, id) then s.(rows := Activated(s.rows, key, id)) else s
      case Use(key, name) =>
        (match FindNamed(s.rows, key, name)
         case Some(id) => s.(rows := Activated(s.rows, key, id))
         case None => s)
      case Rename(_, id, newName, _) =>
        if RenameReply(s, a) == Done then s.(rows := s.rows[id := s.rows[id].(name := newName)]) else s
      case Delete(_, id, _) => if Deletes(s, a) then Deleted(s, id) else s
      case DeleteNamed(key, name) =>
        (match FindNamed(s.rows, key, name)
         case Some(id) => Deleted(s, id)
         case None => s)
      case EnsureRead(call, id) =>
        if id in s.rows then s.(ensuring := s.ensuring[call := Ensuring(id, s.rows[id].schema, s.rows[id].key)]) else s
      case EnsureCommit(call) =>
        if Ensures(s, call) then s.(schemas := s.schemas + {s.ensuring[call].schema}, ensuring := s.ensuring - {call})
        else s.(ensuring := s.ensuring - {call})
      case SweepList => s.(sweeping := Some(Orphans(s)))
      case SweepDrop =>
        if s.sweeping.Some? then s.(schemas := s.schemas - s.sweeping.value, sweeping := None) else s
  }

  ghost function Run(s: Store, steps: seq<Action>): Store {
    if steps == [] then s else Apply(Run(s, steps[..|steps| - 1]), steps[|steps| - 1])
  }

  const EMPTY := Store(map[], {}, {}, map[], None)

  // ---- the invariant ----

  predicate OneActive(rows: map<string, Row>) {
    forall i, j :: i in rows && j in rows && i != j && rows[i].active && rows[j].active ==> rows[i].key != rows[j].key
  }

  ghost predicate Quota(rows: map<string, Row>) {
    forall key :: |Owned(rows, key)| <= MAX_PER_KEY
  }

  predicate UniqueNames(rows: map<string, Row>) {
    forall i, j :: i in rows && j in rows && i != j && rows[i].key == rows[j].key ==> rows[i].name != rows[j].name
  }

  predicate UniqueSchemas(rows: map<string, Row>) {
    forall i, j :: i in rows && j in rows && i != j ==> rows[i].schema != rows[j].schema
  }

  predicate WellNamed(rows: map<string, Row>) {
    forall i :: i in rows ==> TableName(rows[i].name) && SchemaName(rows[i].schema)
  }

  predicate IdsOk(s: Store) {
    s.rows.Keys <= s.usedIds && forall c :: c in s.ensuring ==>
      var e := s.ensuring[c];
      e.id in s.usedIds && (e.id in s.rows ==> s.rows[e.id].schema == e.schema && s.rows[e.id].key == e.key)
  }

  ghost predicate RowsOk(rows: map<string, Row>) {
    OneActive(rows) && Quota(rows) && UniqueNames(rows) && UniqueSchemas(rows) && WellNamed(rows)
  }

  ghost predicate Inv(s: Store) {
    RowsOk(s.rows) && IdsOk(s)
  }

  // ---- rows under each change ----

  /** Changing flags, names or nothing at all keeps who owns what. */
  lemma {:induction false} SameOwners(rows: map<string, Row>, rows': map<string, Row>)
    requires rows'.Keys == rows.Keys && forall i :: i in rows ==> rows'[i].key == rows[i].key
    ensures forall key :: Owned(rows', key) == Owned(rows, key)
    ensures Quota(rows) ==> Quota(rows')
  {
    forall key ensures Owned(rows', key) == Owned(rows, key) {}
  }

  lemma {:induction false} ActivateRows(rows: map<string, Row>, key: string, id: string)
    requires RowsOk(rows) && OwnedId(rows, key, id)
    ensures RowsOk(Activated(rows, key, id)) && SchemasOf(Activated(rows, key, id)) == SchemasOf(rows)
  {
    hide TableName, SchemaName, Quota, OneActive, UniqueNames, UniqueSchemas, WellNamed;
    var rows' := Activated(rows, key, id);
    SameOwners(rows, rows');
    SameSchemas(rows, rows');
    SameLabels(rows, rows');
    OneActivated(rows, key, id);
  }

  lemma {:induction false} OneActivated(rows: map<string, Row>, key: string, id: string)
    requires OneActive(rows) && OwnedId(rows, key, id)
    ensures OneActive(Activated(rows, key, id))
  {}

  lemma {:induction false} SameLabels(rows: map<string, Row>, rows': map<string, Row>)
    requires rows'.Keys == rows.Keys
    requires forall i :: i in rows ==> rows'[i].key == rows[i].key && rows'[i].name == rows[i].name && rows'[i].schema == rows[i].schema
    ensures UniqueNames(rows) ==> UniqueNames(rows')
    ensures UniqueSchemas(rows) ==> UniqueSchemas(rows')
    ensures WellNamed(rows) ==> WellNamed(rows')
  {
    hide TableName, SchemaName;
  }

  lemma {:induction false} SameSchemas(rows: map<string, Row>, rows': map<string, Row>)
    requires rows'.Keys == rows.Keys && forall i :: i in rows ==> rows'[i].schema == rows[i].schema
    ensures SchemasOf(rows') == SchemasOf(rows)
  {
    forall x | x in SchemasOf(rows) ensures x in SchemasOf(rows') {
      var i :| i in rows && rows[i].schema == x;
      assert rows'[i].schema == x;
    }
    forall x | x in SchemasOf(rows') ensures x in SchemasOf(rows) {
      var i :| i in rows' && rows'[i].schema == x;
      assert rows[i].schema == x;
    }
  }

  lemma {:induction false} RenameRows(rows: map<string, Row>, key: string, id: string, name: string)
    requires RowsOk(rows) && OwnedId(rows, key, id) && TableName(name)
    requires forall i :: IsNamed(rows, key, name, i) ==> i == id
    ensures var rows' := rows[id := rows[id].(name := name)];
            RowsOk(rows') && SchemasOf(rows') == SchemasOf(rows)
  {
    hide TableName, SchemaName, Quota;
    var rows' := rows[id := rows[id].(name := name)];
    SameOwners(rows, rows');
    SameSchemas(rows, rows');
    assert forall j :: j in rows && j != id && rows[j].key == key ==> !IsNamed(rows, key, name, j);
  }

  lemma {:induction false} DeleteQuota(rows: map<string, Row>, id: string)
    requires Quota(rows) && id in rows
    ensures Quota(rows - {id})
  {
    forall key ensures |Owned(rows - {id}, key)| <= MAX_PER_KEY {
      Sets.SubsetSize(Owned(rows - {id}, key), Owned(rows, key));
    }
  }

  lemma {:induction false} DeleteRows(rows: map<string, Row>, id: string)
    requires RowsOk(rows) && id in rows
    ensures RowsOk(rows - {id})
    ensures SchemasOf(rows - {id}) == SchemasOf(rows) - {rows[id].schema}
  {
    hide TableName, SchemaName, Quota;
    DeleteQuota(rows, id);
    forall x | x in SchemasOf(rows) && x != rows[id].schema ensures x in SchemasOf(rows - {id}) {
      var i :| i in rows && rows[i].schema == x;
      assert i in rows - {id};
    }
  }

  lemma {:induction false} InsertOwned(rows: map<string, Row>, a: Action, schema: string, key: string)
    requires a.GetOrCreate? && a.newId !in rows
    ensures Owned(Insert(rows, a, schema), key) == Owned(rows, key) + if key == a.key then {a.newId} else {}
  {}

  lemma {:induction false} InsertQuota(rows: map<string, Row>, a: Action, schema: string)
    requires a.GetOrCreate? && a.newId !in rows && Quota(rows) && |Owned(rows, a.key)| < MAX_PER_KEY
    ensures Quota(Insert(rows, a, schema))
  {
    hide Owned, Insert;
    forall key ensures |Owned(Insert(rows, a, schema), key)| <= MAX_PER_KEY {
      InsertOwned(rows, a, schema, key);
    }
  }

  lemma {:induction false} InsertSchemas(rows: map<string, Row>, a: Action, schema: string)
    requires a.GetOrCreate? && a.newId !in rows
    ensures SchemasOf(Insert(rows, a, schema)) == SchemasOf(rows) + {schema}
    ensures UniqueSchemas(rows) && schema !in SchemasOf(rows) ==> UniqueSchemas(Insert(rows, a, schema))
  {
    var rows' := Insert(rows, a, schema);
    assert forall i :: i in rows ==> rows[i].schema in SchemasOf(rows);
    forall x | x in SchemasOf(rows) ensures x in SchemasOf(rows') {
      var i :| i in rows && rows[i].schema == x;
      assert rows'[i].schema == x;
    }
    assert rows'[a.newId].schema == schema;
  }

  lemma {:induction false} InsertLabels(rows: map<string, Row>, a: Action, schema: string)
    requires a.GetOrCreate? && a.newId !in rows && TableName(a.name) && SchemaName(schema)
    requires OneActive(rows) && UniqueNames(rows) && WellNamed(rows) && forall i :: !IsNamed(rows, a.key, a.name, i)
    ensures var rows' := Insert(rows, a, schema); OneActive(rows') && UniqueNames(rows') && WellNamed(rows')
  {
    hide TableName, SchemaName;
    assert forall j :: j in rows && rows[j].key == a.key ==> !IsNamed(rows, a.key, a.name, j);
  }

  lemma {:induction false} InsertRows(rows: map<string, Row>, a: Action, schema: string)
    requires RowsOk(rows) && a.GetOrCreate? && a.newId !in rows && |Owned(rows, a.key)| < MAX_PER_KEY
    requires TableName(a.name) && SchemaName(schema) && schema !in SchemasOf(rows)
    requires forall i :: !IsNamed(rows, a.key, a.name, i)
    ensures RowsOk(Insert(rows, a, schema)) && SchemasOf(Insert(rows, a, schema)) == SchemasOf(rows) + {schema}
  {
    hide TableName, SchemaName, Quota, OneActive, UniqueNames, UniqueSchemas, WellNamed, SchemasOf, Insert, Owned;
    InsertQuota(rows, a, schema);
    InsertSchemas(rows, a, schema);
    InsertLabels(rows, a, schema);
  }

  // ---- every step keeps the invariant ----

  /** A change of rows that neither re-points an id nor revives one. */
  predicate KeepsIds(s: Store, s': Store) {
    s'.usedIds >= s.usedIds && s'.rows.Keys <= s'.usedIds && s'.ensuring == s.ensuring &&
    forall i :: i in s'.rows && i in s.usedIds ==>
      i in s.rows && s'.rows[i].schema == s.rows[i].schema && s'.rows[i].key == s.rows[i].key
  }

  lemma {:induction false} IdsKept(s: Store, s': Store)
    requires IdsOk(s) && KeepsIds(s, s')
    ensures IdsOk(s')
  {}

  lemma {:induction false} CreateKeeps(s: Store, a: Action)
    requires Inv(s) && a.GetOrCreate? && FreshId(s, a)
    ensures Inv(GetOrCreated(s, a))
    ensures SchemasOf(s.rows) <= SchemasOf(GetOrCreated(s, a).rows) && GetOrCreated(s, a).schemas == s.schemas
  {
    hide RowsOk, TableName, SchemaName, SchemasOf, Owned, FindNamed, FreeDraw, ToolName, IdsOk;
    match CreateReply(s, a) {
      case Existing(id) =>
        if a.activate { ActivateRows(s.rows, a.key, id); }
      case New(id) =>
        var schema := FreeDraw(s.rows, a.draws, 0).value;
        assert a.newId !in s.rows by { IdsAreUsed(s); }
        InsertRows(s.rows, a, schema);
        if a.activate { ActivateRows(Insert(s.rows, a, schema), a.key, id); }
      case _ =>
    }
    CreateKeepsIds(s, a);
    IdsKept(s, GetOrCreated(s, a));
  }

  lemma {:induction false} IdsAreUsed(s: Store)
    requires IdsOk(s)
    ensures s.rows.Keys <= s.usedIds
  {}

  lemma {:induction false} CreateKeepsIds(s: Store, a: Action)
    requires IdsOk(s) && a.GetOrCreate? && FreshId(s, a)
    ensures KeepsIds(s, GetOrCreated(s, a))
  {
    hide SchemaName, TableName, SchemasOf, Owned, FreeDraw, ToolName;
  }

  /** The row changes of the other steps. */
  lemma {:induction false} ChangeKeeps(s: Store, a: Action)
    requires Inv(s) && (a.Activate? || a.Use? || a.Rename?)
    ensures Inv(Apply(s, a)) && SchemasOf(Apply(s, a).rows) == SchemasOf(s.rows) && Apply(s, a).schemas == s.schemas
  {
    hide RowsOk, TableName, SchemaName, SchemasOf, FindNamed, ToolName;
    match a
    case Activate(key, id) => if OwnedId(s.rows, key, id) { ActivateRows(s.rows, key, id); }
    case Use(key, name) =>
      var found := FindNamed(s.rows, key, name);
      if found.Some? { ActivateRows(s.rows, key, found.value); }
    case Rename(key, id, newName, allowSame) =>
      if RenameReply(s, a) == Done {
        RenameFree(s, a);
        RenameRows(s.rows, key, id, newName);
      }
  }

  lemma {:induction false} RenameFree(s: Store, a: Action)
    requires Inv(s) && a.Rename? && RenameReply(s, a) == Done
    ensures forall i :: IsNamed(s.rows, a.key, a.newName, i) ==> i == a.id
  {
    hide TableName, ToolName, SchemaName, Quota;
  }

  lemma {:induction false} DeletedKeeps(s: Store, id: string)
    requires Inv(s) && id in s.rows
    ensures Inv(Deleted(s, id))
    ensures SchemasOf(Deleted(s, id).rows) == SchemasOf(s.rows) - {s.rows[id].schema}
  {
    hide RowsOk, SchemasOf;
    DeleteRows(s.rows, id);
  }

  lemma {:induction false} StepKeeps(s: Store, a: Action)
    requires Inv(s)
    ensures Inv(Apply(s, a))
  {
    hide RowsOk, TableName, SchemaName, SchemasOf, FindNamed, ToolName, Activated, GetOrCreated, RenameReply, FreeDraw;
    if FreshId(s, a) {
      match a
      case GetOrCreate(_, _, _, _, _) => CreateKeeps(s, a);
      case Delete(_, id, _) => if Deletes(s, a) { DeletedKeeps(s, id); }
      case DeleteNamed(key, name) =>
        var found := FindNamed(s.rows, key, name);
        if found.Some? { DeletedKeeps(s, found.value); }
      case Activate(_, _) => ChangeKeeps(s, a);
      case Use(_, _) => ChangeKeeps(s, a);
      case Rename(_, _, _, _) => ChangeKeeps(s, a);
      case _ =>
    }
  }

  lemma {:induction false} RunKeeps(s: Store, steps: seq<Action>)
    requires Inv(s)
    ensures Inv(Run(s, steps))
  {
    hide Inv, Apply;
    if steps != [] {
      RunKeeps(s, steps[..|steps| - 1]);
      StepKeeps(Run(s, steps[..|steps| - 1]), steps[|steps| - 1]);
    }
  }

  lemma {:induction false} EmptyOk()
    ensures Inv(EMPTY)
  {
    forall key ensures |Owned(EMPTY.rows, key)| <= MAX_PER_KEY { assert Owned(EMPTY.rows, key) == {}; }
  }

  /** In every interleaving: per key at most one active workspace, at most twenty, and no
      two of the same name; no two workspaces of any keys share a schema. */
  lemma {:induction false} AlwaysConsistent(steps: seq<Action>)
    ensures var rows := Run(EMPTY, steps).rows;
            OneActive(rows) && Quota(rows) && UniqueNames(rows) && UniqueSchemas(rows) && WellNamed(rows)
  {
    hide OneActive, Quota, UniqueNames, UniqueSchemas, WellNamed;
    EmptyOk();
    RunKeeps(EMPTY, steps);
  }

  // ---- other principals ----

  /** The principal whose transaction the step is; sweeps and schema creation have none that
      matters to rows. */
  predicate ActsFor(a: Action, key: string) {
    (a.GetOrCreate? || a.Activate? || a.Use? || a.Rename? || a.Delete? || a.DeleteNamed?) && a.key == key
  }

  ghost predicate SameRowsOf(rows: map<string, Row>, rows': map<string, Row>, key: string) {
    (forall i :: OwnedId(rows, key, i) ==> OwnedId(rows', key, i) && rows'[i] == rows[i]) &&
    forall i :: OwnedId(rows', key, i) ==> OwnedId(rows, key, i)
  }

  lemma {:induction false} StepFrames(s: Store, a: Action, key: string)
    requires Inv(s) && !ActsFor(a, key)
    ensures SameRowsOf(s.rows, Apply(s, a).rows, key)
  {
    hide Inv, TableName, SchemaName, ToolName, Owned, FreeDraw, SchemasOf, GetOrCreated, Activated, RenameReply, Deleted,
         SameRowsOf;
    SameRowsAgain(s.rows, key);
    if FreshId(s, a) {
      match a
      case GetOrCreate(_, _, _, _, _) => CreateFrames(s, a, key);
      case Activate(k, id) => if OwnedId(s.rows, k, id) { ActivateFrames(s.rows, k, id, key); }
      case Use(k, name) =>
        var found := FindNamed(s.rows, k, name);
        if found.Some? { ActivateFrames(s.rows, k, found.value, key); }
      case Rename(k, id, newName, _) =>
        if RenameReply(s, a) == Done {
          RenameOwned(s, a);
          RenameFrames(s.rows, k, id, newName, key);
        }
      case Delete(k, id, _) => if Deletes(s, a) { DeleteFrames(s, k, id, key); }
      case DeleteNamed(k, name) =>
        var found := FindNamed(s.rows, k, name);
        if found.Some? { DeleteFrames(s, k, found.value, key); }
      case _ =>
    }
  }

  lemma {:induction false} SameRowsAgain(rows: map<string, Row>, key: string)
    ensures SameRowsOf(rows, rows, key)
  {}

  lemma {:induction false} RenameFrames(rows: map<string, Row>, k: string, id: string, name: string, key: string)
    requires OwnedId(rows, k, id) && k != key
    ensures SameRowsOf(rows, rows[id := rows[id].(name := name)], key)
  {}

  lemma {:induction false} DeleteFrames(s: Store, k: string, id: string, key: string)
    requires OwnedId(s.rows, k, id) && k != key
    ensures SameRowsOf(s.rows, Deleted(s, id).rows, key)
  {}

  lemma {:induction false} RenameOwned(s: Store, a: Action)
    requires a.Rename? && RenameReply(s, a) == Done
    ensures OwnedId(s.rows, a.key, a.id)
  {}

  lemma {:induction false} ActivateFrames(rows: map<string, Row>, k: string, id: string, key: string)
    requires OwnedId(rows, k, id) && k != key
    ensures SameRowsOf(rows, Activated(rows, k, id), key)
  {}

  lemma {:induction false} CreateFrames(s: Store, a: Action, key: string)
    requires Inv(s) && a.GetOrCreate? && FreshId(s, a) && a.key != key
    ensures SameRowsOf(s.rows, GetOrCreated(s, a).rows, key)
  {
    hide RowsOk, TableName, SchemaName, ToolName, Owned, FreeDraw, SchemasOf, FindNamed, Activated;
    match CreateReply(s, a)
    case Existing(id) => if a.activate { ActivateFrames(s.rows, a.key, id, key); }
    case New(id) =>
      var rows := Insert(s.rows, a, FreeDraw(s.rows, a.draws, 0).value);
      assert SameRowsOf(s.rows, rows, key);
      if a.activate { ActivateFrames(rows, a.key, id, key); }
    case _ =>
  }

  /** A principal's workspaces are exactly as its own transactions left them. */
  lemma {:induction false} Untouched(s: Store, steps: seq<Action>, key: string)
    requires Inv(s) && forall k :: 0 <= k < |steps| ==> !ActsFor(steps[k], key)
    ensures SameRowsOf(s.rows, Run(s, steps).rows, key)
  {
    hide Inv, Apply;
    if steps != [] {
      var front := steps[..|steps| - 1];
      Untouched(s, front, key);
      RunKeeps(s, front);
      StepFrames(Run(s, front), steps[|steps| - 1], key);
    }
  }

  // ---- schemas and the sweep ----

  /** Every schema belongs to a workspace, and no sweep is about to drop anything. */
  predicate Clean(s: Store) {
    s.schemas <= SchemasOf(s.rows) && (s.sweeping.Some? ==> s.sweeping.value == {})
  }

  lemma {:induction false} StepClean(s: Store, a: Action)
    requires Inv(s) && Clean(s)
    ensures Clean(Apply(s, a))
    ensures a == SweepList ==> Apply(s, a).sweeping == Some({})
    ensures a == SweepDrop ==> Apply(s, a).schemas == s.schemas
  {
    hide RowsOk, TableName, SchemaName, SchemasOf, ToolName, FindNamed, FreeDraw, Activated, GetOrCreated;
    if FreshId(s, a) {
      match a
      case GetOrCreate(_, _, _, _, _) =>
        CreateKeeps(s, a);
        assert Apply(s, a).sweeping == s.sweeping by { CreateLeaves(s, a); }
      case Delete(_, id, _) => if Deletes(s, a) { DeletedKeeps(s, id); }
      case DeleteNamed(key, name) =>
        var found := FindNamed(s.rows, key, name);
        if found.Some? { DeletedKeeps(s, found.value); }
      case EnsureCommit(call) => if Ensures(s, call) { EnsuredOwned(s, call); }
      case Activate(_, _) => ChangeKeeps(s, a);
      case Use(_, _) => ChangeKeeps(s, a);
      case Rename(_, _, _, _) => ChangeKeeps(s, a);
      case _ =>
    }
  }

  lemma {:induction false} CreateLeaves(s: Store, a: Action)
    requires a.GetOrCreate?
    ensures GetOrCreated(s, a).sweeping == s.sweeping && GetOrCreated(s, a).schemas == s.schemas
    ensures GetOrCreated(s, a).ensuring == s.ensuring
  {
    hide TableName, ToolName, FreeDraw, Activated, Owned, FindNamed;
  }

  /** The re-read under the lock is what makes the schema owned. */
  lemma {:induction false} EnsuredOwned(s: Store, call: nat)
    requires IdsOk(s) && Ensures(s, call)
    ensures s.ensuring[call].schema == s.rows[s.ensuring[call].id].schema
    ensures s.ensuring[call].schema in SchemasOf(s.rows)
  {}

  /** From a clean start, in every interleaving, every existing schema has an owner and
      sweeps find and drop nothing. */
  lemma {:induction false} SweepHarmless(s: Store, steps: seq<Action>)
    requires Inv(s) && Clean(s)
    ensures Clean(Run(s, steps)) && Apply(Run(s, steps), SweepDrop).schemas == Run(s, steps).schemas
  {
    hide Inv, Apply, Clean;
    if steps == [] {
      StepClean(s, SweepDrop);
    } else {
      var front, last := steps[..|steps| - 1], steps[|steps| - 1];
      SweepHarmless(s, front);
      RunKeeps(s, front);
      StepClean(Run(s, front), last);
      StepKeeps(Run(s, front), last);
      StepClean(Run(s, steps), SweepDrop);
    }
  }

  predicate DropsSchema(s: Store, a: Action, schema: string) {
    (a.Delete? || a.DeleteNamed?) && exists id :: id in s.rows && IsSchemaOf(s, id, a.key, schema)
  }

  predicate IsSchemaOf(s: Store, id: string, key: string, schema: string) {
    id in s.rows && s.rows[id].key == key && s.rows[id].schema == schema
  }

  /** From a clean start a schema disappears only when its own principal deletes the
      workspace that owns it. */
  lemma {:induction false} OnlyDeleteDrops(s: Store, a: Action, schema: string)
    requires Inv(s) && Clean(s) && schema in s.schemas && schema !in Apply(s, a).schemas
    ensures DropsSchema(s, a, schema)
  {
    hide RowsOk, TableName, SchemaName, ToolName, FreeDraw, Activated, SchemasOf, CreateReply;
    if a.GetOrCreate? { CreateLeaves(s, a); }
    if a.Delete? { assert IsSchemaOf(s, a.id, a.key, schema); }
    if a.DeleteNamed? {
      var found := FindNamed(s.rows, a.key, a.name);
      assert IsSchemaOf(s, found.value, a.key, schema);
    }
  }

  /** A created workspace finds its schema already there, with whatever tables it holds,
      exactly when the name it drew is an orphan's; from a clean start it begins empty. */
  lemma {:induction false} BeginsEmptyExactly(s: Store, a: Action)
    requires Inv(s) && a.GetOrCreate? && FreshId(s, a) && CreateReply(s, a).New?
    ensures a.newId in Apply(s, a).rows
    ensures Apply(s, a).rows[a.newId].schema in Apply(s, a).schemas <==> Apply(s, a).rows[a.newId].schema in Orphans(s)
    ensures Clean(s) ==> Apply(s, a).rows[a.newId].schema !in Apply(s, a).schemas
  {
    hide RowsOk, TableName, ToolName, SchemaName, SchemasOf, Owned, FindNamed;
    CreateLeaves(s, a);
  }

  /** The creation succeeds and its schema was there before. */
  ghost predicate BeginsFull(s: Store, a: Action) {
    a.GetOrCreate? && FreshId(s, a) && CreateReply(s, a).New? && a.newId in Apply(s, a).rows &&
    Apply(s, a).rows[a.newId].schema in s.schemas
  }

  ghost predicate CanBeginFull(s: Store, key: string, name: string, activate: bool, newId: string) {
    exists draws :: BeginsFull(s, GetOrCreate(key, name, activate, draws, newId))
  }

  /** A creation that nothing refuses can find its schema already there exactly when an
      orphan exists as it is called. */
  lemma {:induction false} BeginFullExactly(s: Store, key: string, name: string, activate: bool, newId: string)
    requires Inv(s) && newId !in s.usedIds && TableName(name)
    requires FindNamed(s.rows, key, name).None? && |Owned(s.rows, key)| < MAX_PER_KEY
    ensures CanBeginFull(s, key, name, activate, newId) <==> Orphans(s) != {}
  {
    hide RowsOk, TableName, SchemasOf, SchemaName, Owned, FindNamed;
    if CanBeginFull(s, key, name, activate, newId) {
      var draws :| BeginsFull(s, GetOrCreate(key, name, activate, draws, newId));
      var a := GetOrCreate(key, name, activate, draws, newId);
      BeginsEmptyExactly(s, a);
      CreateLeaves(s, a);
    }
    if Orphans(s) != {} {
      var orphan :| orphan in Orphans(s);
      var draws := [orphan, orphan, orphan, orphan];
      var a := GetOrCreate(key, name, activate, draws, newId);
      assert FreeDraw(s.rows, draws, 0) == Some(orphan);
      assert ToolName(name) && CreateReply(s, a) == New(newId);
      BeginsEmptyExactly(s, a);
      assert BeginsFull(s, a);
    }
  }

  // ---- a start that is not clean ----

  /** What a sweep listed stays listed, whatever happens before it drops. */
  lemma {:induction false} ListStays(s: Store, steps: seq<Action>)
    requires forall k :: 0 <= k < |steps| ==> !steps[k].SweepList? && !steps[k].SweepDrop?
    ensures Run(s, steps).sweeping == s.sweeping
  {
    if steps != [] {
      var front, last := steps[..|steps| - 1], steps[|steps| - 1];
      ListStays(s, front);
      if last.GetOrCreate? { CreateLeaves(Run(s, front), last); }
    }
  }

  /** A sweep can drop only what was an orphan when it was listed. */
  lemma {:induction false} OnlyOrphansDropped(s: Store, between: seq<Action>, schema: string)
    requires forall k :: 0 <= k < |between| ==> !between[k].SweepList? && !between[k].SweepDrop?
    requires var late := Run(Apply(s, SweepList), between);
             schema in late.schemas && schema !in Apply(late, SweepDrop).schemas
    ensures schema in Orphans(s)
  {
    ListStays(Apply(s, SweepList), between);
  }

  /** Listing and dropping are two statements: a workspace whose drawn name is an orphan's,
      created in between, loses the schema it has just come to own. */
  lemma {:induction false} OrphanAdopted(s: Store, key: string, newId: string, orphan: string)
    requires Inv(s) && orphan in Orphans(s) && Owned(s.rows, key) == {} && newId !in s.usedIds
    ensures var create := GetOrCreate(key, DEFAULT, true, [orphan, orphan, orphan, orphan], newId);
            var late := Apply(Apply(s, SweepList), create);
            newId in late.rows && late.rows[newId].schema == orphan && orphan in late.schemas &&
            orphan !in Apply(late, SweepDrop).schemas
  {
    hide RowsOk, SchemaName;
    var draws := [orphan, orphan, orphan, orphan];
    var create := GetOrCreate(key, DEFAULT, true, draws, newId);
    var listed := Apply(s, SweepList);
    forall id ensures !IsNamed(listed.rows, key, DEFAULT, id) { assert id !in Owned(s.rows, key); }
    assert FreeDraw(listed.rows, draws, 0) == Some(orphan);
    assert TableName(DEFAULT);
    assert CreateReply(listed, create) == New(newId);
    CreateLeaves(listed, create);
  }

  /** Some run between listing and dropping costs a live workspace its schema. */
  ghost predicate SweepCanHurt(s: Store) {
    exists between: seq<Action>, id: string :: Hurts(s, between, id)
  }

  ghost predicate Hurts(s: Store, between: seq<Action>, id: string) {
    (forall k :: 0 <= k < |between| ==> !between[k].SweepList? && !between[k].SweepDrop?) &&
    var late := Run(Apply(s, SweepList), between);
    id in late.rows && late.rows[id].schema in late.schemas &&
    late.rows[id].schema !in Apply(late, SweepDrop).schemas
  }

  /** A sweep can cost a live workspace its schema exactly when an orphan exists as it
      lists; some principal without workspaces and an unused id are taken to exist. */
  lemma {:induction false} SweepSafeExactly(s: Store, key: string, newId: string)
    requires Inv(s) && Owned(s.rows, key) == {} && newId !in s.usedIds
    ensures SweepCanHurt(s) <==> Orphans(s) != {}
  {
    hide Inv;
    if SweepCanHurt(s) {
      var between: seq<Action>, id: string :| Hurts(s, between, id);
      OnlyOrphansDropped(s, between, Run(Apply(s, SweepList), between).rows[id].schema);
    }
    if Orphans(s) != {} {
      var orphan :| orphan in Orphans(s);
      OrphanAdopted(s, key, newId, orphan);
      var create := GetOrCreate(key, DEFAULT, true, [orphan, orphan, orphan, orphan], newId);
      var listed := Apply(s, SweepList);
      assert [create][..0] == [];
      assert Run(listed, []) == listed;
      assert Run(listed, [create]) == Apply(listed, create);
      assert Hurts(s, [create], newId);
    }
  }

  /** A store left with one schema that nobody owns is such a start. */
  lemma {:induction false} OrphanHurts(key: string, newId: string)
    ensures var s := EMPTY.(schemas := {"ws_00000000"}); Inv(s) && SweepCanHurt(s)
  {
    hide SweepCanHurt, Inv;
    var s := EMPTY.(schemas := {"ws_00000000"});
    EmptyOk();
    assert Inv(s) by { SameRowsSameInv(EMPTY, s); }
    var orphan := "ws_00000000";
    assert orphan[..3] == "ws_" && SchemaName(orphan) && SchemasOf(s.rows) == {};
    assert orphan in Orphans(s) && Owned(s.rows, key) == {};
    SweepSafeExactly(s, key, newId);
  }

  lemma {:induction false} SameRowsSameInv(s: Store, t: Store)
    requires Inv(s) && t == s.(schemas := t.schemas)
    ensures Inv(t)
  {
    hide RowsOk;
  }

  lemma {:induction false} NamedOnce(rows: map<string, Row>, key: string, name: string, id: string)
    requires RowsOk(rows) && IsNamed(rows, key, name, id)
    ensures FindNamed(rows, key, name) == Some(id)
  {
    hide TableName, SchemaName, Quota;
  }
}
