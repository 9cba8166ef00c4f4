// The SQLite state store: rows under optimistic concurrency, the workspace
// encoding of keys, and transactions of many clients stepping in any order.
module State {
  import opened Common
  import StringOrder

  /** JSON values are opaque; UUIDs and timestamps are numbers. */
  type Json = string

  datatype ResourceKey = ResourceKey(kind: string, name: string, workspace: Option<string>)

  /** The UNIQUE(kind, name, workspace) columns. */
  datatype DbKey = DbKey(kind: string, name: string, workspace: string)

  datatype Row = Row(
    uuid: nat, revision: nat, spec: Json, status: Option<Json>, createdAt: int, updatedAt: int)

  datatype StoredResource = StoredResource(
    uuid: nat, key: ResourceKey, revision: nat, spec: Json, status: Option<Json>,
    createdAt: int, updatedAt: int)

  type Table = map<DbKey, Row>

  // ---- workspace encoding ----------------------------------------------

  function WsToDb(ws: Option<string>): string {
    match ws case Some(w) => w case None => ""
  }

  function WsFromDb(w: string): Option<string> {
    if w == "" then None else Some(w)
  }

  /** The one workspace that does not survive the store is the empty name. */
  lemma WorkspaceRoundTrip(ws: Option<string>)
    ensures WsFromDb(WsToDb(ws)) == ws <==> ws != Some("")
  {
  }

  function Db(k: ResourceKey): DbKey {
    DbKey(k.kind, k.name, WsToDb(k.workspace))
  }

  /** Two keys share a row exactly when they are equal or differ only in
      naming the cluster scope as None and as the empty workspace. */
  lemma KeysShareARow(a: ResourceKey, b: ResourceKey)
    ensures Db(a) == Db(b) <==>
      a == b || (a.kind == b.kind && a.name == b.name && {a.workspace, b.workspace} == {None, Some("")})
  {
    if a.workspace != b.workspace && WsToDb(a.workspace) == WsToDb(b.workspace) {
      assert {a.workspace, b.workspace} == {None, Some("")};
    }
    if {a.workspace, b.workspace} == {None, Some("")} {
      assert a.workspace in {None, Some("")} && b.workspace in {None, Some("")};
    }
  }

  // ---- what one client sees ------------------------------------------------

  datatype Request =
    | Save(key: ResourceKey, spec: Json, expected: Option<nat>, uuid: nat, now: int)
    | Delete(key: ResourceKey, expected: Option<nat>)
    | PutStatus(key: ResourceKey, status: Json, now: int)
    | Load(key: ResourceKey)

  datatype Response =
    | Saved(resource: StoredResource)
    | Deleted
    | StatusPut
    | Loaded(found: Option<StoredResource>)
    | RevisionConflict(wanted: Option<nat>, actual: nat)
    | NotFound

  function Stored(k: DbKey, r: Row): StoredResource {
    StoredResource(r.uuid, ResourceKey(k.kind, k.name, WsFromDb(k.workspace)),
                   r.revision, r.spec, r.status, r.createdAt, r.updatedAt)
  }

  /** What `save` returns: the caller's key and spec, and no status. */
  function Echo(key: ResourceKey, r: Row): StoredResource {
    StoredResource(r.uuid, key, r.revision, r.spec, None, r.createdAt, r.updatedAt)
  }

  /** The contract of the store on a map of rows, one request at a time. */
  function Serve(t: Table, q: Request): (Table, Response) {
    var k := Db(q.key);
    match q
    case Load(_) =>
      (t, Loaded(if k in t then Some(Stored(k, t[k])) else None))
    case PutStatus(_, status, now) =>
      if k !in t then (t, NotFound)
      else (t[k := t[k].(status := Some(status), updatedAt := now)], StatusPut)
    case Delete(_, expected) =>
      if k !in t then (t, NotFound)
      else if expected.Some? && expected.value != t[k].revision then
        (t, RevisionConflict(expected, t[k].revision))
      else (t - {k}, Deleted)
    case Save(_, spec, None, uuid, now) =>
      if k in t then (t, RevisionConflict(None, t[k].revision))
      else
        var row := Row(uuid, 1, spec, None, now, now);
        (t[k := row], Saved(Echo(q.key, row)))
    case Save(_, spec, Some(r), _, now) =>
      if k !in t then (t, NotFound)
      else if t[k].revision != r then (t, RevisionConflict(Some(r), t[k].revision))
      else
        var row := t[k].(spec := spec, revision := r + 1, updatedAt := now);
        (t[k := row], Saved(Echo(q.key, row)))
  }

  // ---- how the code decides -------------------------------------------------

  function Select(t: Table, k: DbKey): Option<Row> {
    if k in t then Some(t[k]) else None
  }

  datatype Statement =
    | Insert(key: DbKey, row: Row)
    | Update(key: DbKey, spec: Json, revision: nat, updatedAt: int)
    | Remove(key: DbKey)

  datatype Decision = Reject(response: Response) | Issue(stmt: Statement, onCommit: Response)

  /** What the code decides from the selected row alone. */
  function Decide(existing: Option<Row>, q: Request): Decision
    requires q.Save? || q.Delete?
  {
    var k := Db(q.key);
    match q
    case Delete(_, expected) =>
      (match existing
       case None => Reject(NotFound)
       case Some(row) =>
         if expected.Some? && row.revision != expected.value then
           Reject(RevisionConflict(expected, row.revision))
         else Issue(Remove(k), Deleted))
    case Save(_, spec, expected, uuid, now) =>
      match (existing, expected)
      case (None, None) =>
        var row := Row(uuid, 1, spec, None, now, now);
        Issue(Insert(k, row), Saved(Echo(q.key, row)))
      case (None, Some(_)) => Reject(NotFound)
      case (Some(row), None) => Reject(RevisionConflict(None, row.revision))
      case (Some(row), Some(want)) =>
        if row.revision != want then Reject(RevisionConflict(expected, row.revision))
        else Issue(Update(k, spec, row.revision + 1, now),
                   Saved(StoredResource(row.uuid, q.key, row.revision + 1, spec, None, row.createdAt, now)))
  }

  /** INSERT, UPDATE and DELETE with the statement's columns only. */
  function Execute(t: Table, s: Statement): Table {
    match s
    case Insert(k, row) => t[k := row]
    case Update(k, spec, revision, now) =>
      if k in t then t[k := t[k].(spec := spec, revision := revision, updatedAt := now)] else t
    case Remove(k) => t - {k}
  }

  /** Deciding on the selected row and executing the statement is the contract. */
  lemma StatementMeetsContract(t: Table, q: Request)
    requires q.Save? || q.Delete?
    ensures match Decide(Select(t, Db(q.key)), q)
      case Reject(a) => Serve(t, q) == (t, a)
      case Issue(stmt, a) => Serve(t, q) == (Execute(t, stmt), a)
  {
  }

  // ---- laws across calls -----------------------------------------------------

  /** A load after a successful save gives what the save answered, with the
      status that was there. */
  lemma LoadAfterSave(t: Table, key: ResourceKey, spec: Json, expected: Option<nat>, uuid: nat, now: int)
    ensures var (t', a) := Serve(t, Save(key, spec, expected, uuid, now));
      a.Saved? ==>
        var l := Serve(t', Load(key));
        && l.0 == t' && l.1.Loaded? && l.1.found.Some?
        && var x := l.1.found.value;
           && x.uuid == a.resource.uuid && x.revision == a.resource.revision && x.spec == spec == a.resource.spec
           && x.createdAt == a.resource.createdAt && x.updatedAt == now == a.resource.updatedAt
           && a.resource.key == key && x.key.kind == key.kind && x.key.name == key.name
           && x.status == (if expected.None? then None else t[Db(key)].status)
  {
  }

  /** A load after a status write gives that status, and all else as before. */
  lemma LoadAfterStatus(t: Table, key: ResourceKey, status: Json, now: int)
    ensures var (t', a) := Serve(t, PutStatus(key, status, now));
      a == StatusPut ==>
        var before, after := Serve(t, Load(key)).1, Serve(t', Load(key)).1;
        && before.Loaded? && before.found.Some? && after.Loaded? && after.found.Some?
        && var x, y := before.found.value, after.found.value;
           && y.status == Some(status) && y.updatedAt == now
           && y.uuid == x.uuid && y.revision == x.revision && y.spec == x.spec
           && y.createdAt == x.createdAt && y.key == x.key
  {
  }

  /** Whoever loads a row can save it with the revision he got: the next revision
      of the same row, with the status in place. */
  lemma SaveAfterLoad(t: Table, key: ResourceKey, spec: Json, uuid: nat, now: int)
    ensures var l := Serve(t, Load(key)).1;
      l.Loaded? && (l.found.Some? ==>
        var x := l.found.value;
        var (t', a) := Serve(t, Save(key, spec, Some(x.revision), uuid, now));
        && a.Saved? && a.resource.uuid == x.uuid && a.resource.revision == x.revision + 1
        && Serve(t', Load(key)).1.Loaded? && Serve(t', Load(key)).1.found.Some?
        && Serve(t', Load(key)).1.found.value.status == x.status)
  {
  }

  /** After a delete there is nothing to load, and other rows load as before. */
  lemma LoadAfterDelete(t: Table, key: ResourceKey, expected: Option<nat>, other: ResourceKey)
    ensures var (t', a) := Serve(t, Delete(key, expected));
      a == Deleted ==>
        && Serve(t', Load(key)).1 == Loaded(None)
        && (Db(other) != Db(key) ==> Serve(t', Load(other)).1 == Serve(t, Load(other)).1)
  {
  }

  // ---- the store as an object ------------------------------------------------

  class SqliteStore {
    var resources: Table

    constructor ()
      ensures resources == map[]
    {
      resources := map[];
    }

    method Save(key: ResourceKey, spec: Json, expected: Option<nat>, uuid: nat, now: int)
      returns (r: Response)
      modifies this
      ensures (resources, r) == Serve(old(resources), Request.Save(key, spec, expected, uuid, now))
      ensures r.Saved? <==>
        (if expected.None? then Db(key) !in old(resources)
         else Db(key) in old(resources) && old(resources)[Db(key)].revision == expected.value)
      ensures !r.Saved? ==> resources == old(resources)
      ensures r.Saved? && expected.None? ==>
        resources == old(resources)[Db(key) := Row(uuid, 1, spec, None, now, now)]
      ensures r.Saved? && expected.Some? ==> var was := old(resources)[Db(key)];
        resources == old(resources)[Db(key) := Row(was.uuid, was.revision + 1, spec, was.status, was.createdAt, now)]
      ensures r.Saved? ==> var row := resources[Db(key)];
        r.resource == StoredResource(row.uuid, key, row.revision, spec, None, row.createdAt, now)
      ensures r == NotFound <==> expected.Some? && Db(key) !in old(resources)
      ensures !r.Saved? && Db(key) in old(resources) ==>
        r == RevisionConflict(expected, old(resources)[Db(key)].revision)
    {
      var q := Request.Save(key, spec, expected, uuid, now);
      StatementMeetsContract(resources, q);
      match Decide(Select(resources, Db(key)), q) {
        case Reject(answer) =>
          r := answer;
        case Issue(stmt, answer) =>
          resources := Execute(resources, stmt);
          r := answer;
      }
    }

    method LoadRow(key: ResourceKey) returns (r: Option<StoredResource>)
      ensures Loaded(r) == Serve(resources, Load(key)).1
      ensures r.Some? <==> Db(key) in resources
      ensures r.Some? ==> var row := resources[Db(key)];
        && r.value.uuid == row.uuid && r.value.revision == row.revision
        && r.value.spec == row.spec && r.value.status == row.status
        && r.value.createdAt == row.createdAt && r.value.updatedAt == row.updatedAt
        && r.value.key.kind == key.kind && r.value.key.name == key.name
      ensures r.Some? && key.workspace != Some("") ==> r.value.key == key
    {
      var k := Db(key);
      if k !in resources {
        return None;
      }
      r := Some(Stored(k, resources[k]));
    }

    method PutStatus(key: ResourceKey, status: Json, now: int) returns (r: Response)
      modifies this
      ensures (resources, r) == Serve(old(resources), Request.PutStatus(key, status, now))
      ensures r == NotFound || r == StatusPut
      ensures r == StatusPut <==> Db(key) in old(resources)
      ensures r == StatusPut ==> resources[Db(key)].status == Some(status) && resources[Db(key)].updatedAt == now
      ensures forall k :: k in resources && k != Db(key) ==> resources[k] == old(resources)[k]
      ensures resources.Keys == old(resources).Keys
      ensures forall k :: k in resources ==>
        && resources[k].spec == old(resources)[k].spec
        && resources[k].revision == old(resources)[k].revision
        && resources[k].uuid == old(resources)[k].uuid
        && resources[k].createdAt == old(resources)[k].createdAt
    {
      var k := Db(key);
      var n := if k in resources then 1 else 0;
      if n > 0 {
        resources := resources[k := resources[k].(status := Some(status), updatedAt := now)];
      }
      r := if n == 0 then NotFound else StatusPut;
    }

    method DeleteRow(key: ResourceKey, expected: Option<nat>) returns (r: Response)
      modifies this
      ensures (resources, r) == Serve(old(resources), Delete(key, expected))
      ensures r.Deleted? <==>
        Db(key) in old(resources) && (expected.None? || expected.value == old(resources)[Db(key)].revision)
      ensures resources == if r.Deleted? then old(resources) - {Db(key)} else old(resources)
      ensures r == NotFound <==> Db(key) !in old(resources)
      ensures !r.Deleted? && Db(key) in old(resources) ==>
        r == RevisionConflict(expected, old(resources)[Db(key)].revision)
    {
      var q := Delete(key, expected);
      StatementMeetsContract(resources, q);
      match Decide(Select(resources, Db(key)), q) {
        case Reject(answer) =>
          r := answer;
        case Issue(stmt, answer) =>
          resources := Execute(resources, stmt);
          r := answer;
      }
    }

    /** All rows of one kind and workspace, in name order. */
    method List(kind: string, workspace: Option<string>) returns (r: seq<StoredResource>)
      ensures var names := set k | k in resources && k.kind == kind && k.workspace == WsToDb(workspace) :: k.name;
        StringOrder.Lists(seq(|r|, i requires 0 <= i < |r| => r[i].key.name), names)
      ensures forall i :: 0 <= i < |r| ==> var k := DbKey(kind, r[i].key.name, WsToDb(workspace));
        && k in resources && r[i] == Stored(k, resources[k])
        && r[i].uuid == resources[k].uuid && r[i].revision == resources[k].revision
        && r[i].spec == resources[k].spec && r[i].status == resources[k].status
        && r[i].createdAt == resources[k].createdAt && r[i].updatedAt == resources[k].updatedAt
        && r[i].key.kind == kind && (workspace != Some("") ==> r[i].key.workspace == workspace)
    {
      var ws := WsToDb(workspace);
      var names := set k | k in resources && k.kind == kind && k.workspace == ws :: k.name;
      var order := StringOrder.SortNames(names);
      r := [];
      for i := 0 to |order|
        invariant |r| == i
        invariant forall j :: 0 <= j < i ==> r[j].key.name == order[j]
        invariant forall j :: 0 <= j < i ==> var k := DbKey(kind, r[j].key.name, ws);
          k in resources && r[j] == Stored(k, resources[k])
      {
        assert order[i] in names;
        var k := DbKey(kind, order[i], ws);
        r := r + [Stored(k, resources[k])];
      }
      assert seq(|r|, i requires 0 <= i < |r| => r[i].key.name) == order;
    }
  }
}
