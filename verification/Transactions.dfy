// Many clients on one state store. A save or delete is a transaction of
// separate begin, read, write and commit steps on a snapshot; the commit fails
// when another commit has overtaken the snapshot.
module Transactions {
  import opened Common
  import opened State

  /** PRIMARY KEY (uuid) and UNIQUE(kind, name, workspace). */
  predicate Permitted(t: Table, s: Statement) {
    s.Insert? ==> s.key !in t && forall k :: k in t ==> t[k].uuid != s.row.uuid
  }

  datatype Tx =
    | Began(q: Request)
    | Read(q: Request, snapshot: nat, view: Table, stmt: Statement, onCommit: Response)
    | Wrote(q: Request, snapshot: nat, view: Table, stmt: Statement, onCommit: Response)

  /** A finished request and the answer its client got. */
  datatype Entry = Entry(q: Request, a: Response)

  /** `version` counts committed writes; `log` is ghost history. */
  datatype World = World(table: Table, version: nat, open: map<nat, Tx>, log: seq<Entry>)

  const START := World(map[], 0, map[], [])

  datatype Step =
    | DoBegin(client: nat, q: Request)
    | DoRead(client: nat)
    | DoWrite(client: nat)
    | DoCommit(client: nat)
    | DoAbort(client: nat)
    | DoSingle(q: Request)   // put_status and load: one statement, committed at once

  function Drop(w: World, c: nat): World {
    w.(open := w.open - {c})
  }

  /** One step; a step that is not enabled changes nothing. */
  function Next(w: World, s: Step): World {
    match s
    case DoSingle(q) =>
      if q.PutStatus? || q.Load? then
        var (t, a) := Serve(w.table, q);
        World(t, if a == StatusPut then w.version + 1 else w.version, w.open, w.log + [Entry(q, a)])
      else w
    case DoBegin(c, q) =>
      if c !in w.open && (q.Save? || q.Delete?) then w.(open := w.open[c := Began(q)]) else w
    case DoAbort(c) => Drop(w, c)
    case DoRead(c) =>
      if c in w.open && w.open[c].Began? && (w.open[c].q.Save? || w.open[c].q.Delete?) then
        var q := w.open[c].q;
        match Decide(Select(w.table, Db(q.key)), q)
        case Reject(a) => Drop(w, c).(log := w.log + [Entry(q, a)])
        case Issue(stmt, a) => w.(open := w.open[c := Read(q, w.version, w.table, stmt, a)])
      else w
    case DoWrite(c) =>
      if c in w.open && w.open[c].Read? then
        var x := w.open[c];
        if Permitted(x.view, x.stmt) then
          w.(open := w.open[c := Wrote(x.q, x.snapshot, Execute(x.view, x.stmt), x.stmt, x.onCommit)])
        else Drop(w, c)
      else w
    case DoCommit(c) =>
      if c in w.open && w.open[c].Wrote? then
        var x := w.open[c];
        if x.snapshot == w.version then
          World(x.view, w.version + 1, w.open - {c}, w.log + [Entry(x.q, x.onCommit)])
        else Drop(w, c)
      else w
  }

  function Trace(steps: seq<Step>): World {
    if steps == [] then START else Next(Trace(steps[..|steps| - 1]), steps[|steps| - 1])
  }

  // ---- serializability ---------------------------------------------------

  /** The table after serving the logged requests one after another. */
  function Serial(log: seq<Entry>): Table {
    if log == [] then map[] else Serve(Serial(log[..|log| - 1]), log[|log| - 1].q).0
  }

  /** Every client got the answer the serial run gives it. */
  predicate Answered(log: seq<Entry>) {
    log == [] ||
    (Answered(log[..|log| - 1])
     && log[|log| - 1].a == Serve(Serial(log[..|log| - 1]), log[|log| - 1].q).1)
  }

  ghost predicate TxSound(w: World, x: Tx) {
    match x
    case Began(q) => q.Save? || q.Delete?
    case Read(q, snap, view, stmt, a) =>
      && (q.Save? || q.Delete?) && snap <= w.version
      && (snap == w.version ==> view == w.table)
      && Serve(view, q) == (Execute(view, stmt), a)
    case Wrote(q, snap, view, stmt, a) =>
      && (q.Save? || q.Delete?) && snap <= w.version
      && (snap == w.version ==> Serve(w.table, q) == (view, a))
  }

  ghost predicate Sound(w: World) {
    && Serial(w.log) == w.table
    && Answered(w.log)
    && forall c :: c in w.open ==> TxSound(w, w.open[c])
  }

  lemma Logged(log: seq<Entry>, e: Entry)
    requires Answered(log) && e.a == Serve(Serial(log), e.q).1
    ensures Answered(log + [e]) && Serial(log + [e]) == Serve(Serial(log), e.q).0
  {
    assert (log + [e])[..|log|] == log;
  }

  /** Open transactions survive a step that leaves the table alone, and one that
      moves the version on. */
  lemma OthersSound(w: World, w': World)
    requires Sound(w) && ((w.table == w'.table && w.version == w'.version) || w.version < w'.version)
    ensures forall c :: c in w.open ==> TxSound(w', w.open[c])
  {
    forall c | c in w.open ensures TxSound(w', w.open[c]) {
      assert TxSound(w, w.open[c]);
    }
  }

  lemma SingleSound(w: World, q: Request)
    requires Sound(w) && (q.PutStatus? || q.Load?)
    ensures Sound(Next(w, DoSingle(q)))
  {
    var e := Entry(q, Serve(w.table, q).1);
    Logged(w.log, e);
    UnmovedVersion(w.table, q);
    OthersSound(w, World(Serve(w.table, q).0, if e.a == StatusPut then w.version + 1 else w.version, w.open, w.log + [e]));
  }

  /** A put_status or load that moves no version changes no row. */
  lemma UnmovedVersion(t: Table, q: Request)
    requires q.PutStatus? || q.Load?
    ensures Serve(t, q).1 != StatusPut ==> Serve(t, q).0 == t
  {
  }

  lemma ReadSound(w: World, c: nat)
    requires Sound(w) && c in w.open && w.open[c].Began?
    ensures Sound(Next(w, DoRead(c)))
  {
    var q, w' := w.open[c].q, Next(w, DoRead(c));
    assert TxSound(w, w.open[c]);
    StatementMeetsContract(w.table, q);
    OthersSound(w, w');
    var d := Decide(Select(w.table, Db(q.key)), q);
    if d.Reject? {
      Logged(w.log, Entry(q, d.response));
    } else {
      assert TxSound(w', w'.open[c]);
    }
  }

  lemma WriteSound(w: World, c: nat)
    requires Sound(w) && c in w.open && w.open[c].Read?
    ensures Sound(Next(w, DoWrite(c)))
  {
    var w' := Next(w, DoWrite(c));
    assert TxSound(w, w.open[c]);
    OthersSound(w, w');
    if c in w'.open { assert TxSound(w', w'.open[c]); }
  }

  lemma CommitSound(w: World, c: nat)
    requires Sound(w) && c in w.open && w.open[c].Wrote?
    ensures Sound(Next(w, DoCommit(c)))
  {
    var x := w.open[c];
    assert TxSound(w, x);
    OthersSound(w, Next(w, DoCommit(c)));
    if x.snapshot == w.version { Logged(w.log, Entry(x.q, x.onCommit)); }
  }

  lemma NextSound(w: World, s: Step)
    requires Sound(w)
    ensures Sound(Next(w, s))
  {
    OthersSound(w, w);
    match s
    case DoSingle(q) => if q.PutStatus? || q.Load? { SingleSound(w, q); }
    case DoBegin(c, q) => assert forall x: Tx :: x.Began? && (x.q.Save? || x.q.Delete?) ==> TxSound(w, x);
    case DoAbort(c) =>
    case DoRead(c) => if c in w.open && w.open[c].Began? { ReadSound(w, c); }
    case DoWrite(c) => if c in w.open && w.open[c].Read? { WriteSound(w, c); }
    case DoCommit(c) => if c in w.open && w.open[c].Wrote? { CommitSound(w, c); }
  }

  /** Whatever the interleaving, the table and every answer are those of a
      serial run of the finished requests in log order. */
  lemma {:induction false} Serializable(steps: seq<Step>)
    ensures Sound(Trace(steps))
    ensures Serial(Trace(steps).log) == Trace(steps).table && Answered(Trace(steps).log)
  {
    if steps != [] {
      Serializable(steps[..|steps| - 1]);
      NextSound(Trace(steps[..|steps| - 1]), steps[|steps| - 1]);
    }
  }

  /** A client that nobody disturbs. */
  function Alone(w: World, c: nat, q: Request): World {
    Next(Next(Next(Next(w, DoBegin(c, q)), DoRead(c)), DoWrite(c)), DoCommit(c))
  }

  /** And progress: an undisturbed transaction, with a UUID that no row has, ends
      with the answer of the contract on the shared table and its effect. */
  lemma UndisturbedCommits(w: World, c: nat, q: Request)
    requires c !in w.open && (q.Save? || q.Delete?)
    requires q.Save? ==> forall k :: k in w.table ==> w.table[k].uuid != q.uuid
    ensures var v := Alone(w, c, q);
      && v.table == Serve(w.table, q).0
      && v.log == w.log + [Entry(q, Serve(w.table, q).1)]
      && v.open == w.open
  {
    StatementMeetsContract(w.table, q);
    var w1 := Next(w, DoBegin(c, q));
    assert w1.open[c] == Began(q) && w1.open - {c} == w.open;
    var w2 := Next(w1, DoRead(c));
    match Decide(Select(w.table, Db(q.key)), q)
    case Reject(a) =>
      assert w2.open == w.open && Alone(w, c, q) == w2;
    case Issue(stmt, a) =>
      assert w2.open[c] == Read(q, w.version, w.table, stmt, a);
      assert Permitted(w.table, stmt);
      var w3 := Next(w2, DoWrite(c));
      assert w3.open[c] == Wrote(q, w.version, Execute(w.table, stmt), stmt, a);
      assert w3.open - {c} == w.open;
  }

  /** A status write or a load is answered at once. */
  lemma SingleAnswers(w: World, q: Request)
    requires q.PutStatus? || q.Load?
    ensures var v := Next(w, DoSingle(q));
      v.table == Serve(w.table, q).0 && v.log == w.log + [Entry(q, Serve(w.table, q).1)] && v.open == w.open
  {
  }

  // ---- revisions within one row lifetime -------------------------------------

  predicate Creates(e: Entry) {
    e.q.Save? && e.q.expected.None? && e.a.Saved?
  }

  function Created(log: seq<Entry>): set<nat> {
    set i | 0 <= i < |log| && Creates(log[i]) :: log[i].q.uuid
  }

  /** Version-4 UUIDs are never drawn twice. */
  ghost predicate FreshUuids(log: seq<Entry>) {
    forall i, j :: 0 <= i < j < |log| && Creates(log[i]) && Creates(log[j]) ==> log[i].q.uuid != log[j].q.uuid
  }

  /** The successful saves of the row lifetime `u`, in commit order. */
  function Saves(log: seq<Entry>, u: nat): seq<StoredResource> {
    if log == [] then []
    else
      var e := log[|log| - 1];
      Saves(log[..|log| - 1], u) + if e.a.Saved? && e.a.resource.uuid == u then [e.a.resource] else []
  }

  /** The saves of one lifetime carry revisions 1, 2, 3, ... */
  ghost predicate Counted(saves: seq<StoredResource>) {
    forall i :: 0 <= i < |saves| ==> saves[i].revision == i + 1
  }

  /** A row holds the revision, spec and key of the last save of its lifetime. */
  ghost predicate Current(saves: seq<StoredResource>, k: DbKey, row: Row) {
    && |saves| == row.revision >= 1
    && saves[|saves| - 1].spec == row.spec && Db(saves[|saves| - 1].key) == k
  }

  /** Rows, the UUIDs created so far and the saves of each lifetime agree. */
  ghost predicate Lifetime(t: Table, created: set<nat>, saves: nat -> seq<StoredResource>) {
    && (forall u :: saves(u) != [] ==> u in created)
    && (forall u :: Counted(saves(u)))
    && (forall k :: k in t ==> Current(saves(t[k].uuid), k, t[k]))
  }

  function SavesOf(log: seq<Entry>): nat -> seq<StoredResource> {
    (u: nat) => Saves(log, u)
  }

  /** In each row lifetime the committed saves carry revisions 1, 2, 3, ... in
      order, and the row holds the spec and revision of the last one. */
  lemma {:induction false} Lifetimes(log: seq<Entry>)
    requires Answered(log) && FreshUuids(log)
    ensures Lifetime(Serial(log), Created(log), SavesOf(log))
  {
    if log != [] {
      var init, e := log[..|log| - 1], log[|log| - 1];
      Lifetimes(init);
      CreatedGrows(log);
      if Creates(e) { NotCreatedBefore(log); }
      if e.a.Saved? {
        SaveStep(Serial(init), e.q, Created(init), Created(log), SavesOf(init), SavesOf(log));
      } else {
        OtherStep(Serial(init), e.q, Created(init), SavesOf(init), SavesOf(log));
      }
    }
  }

  /** The same for every interleaving: a row of the shared table has revision
      1 plus the number of updates committed in its lifetime. */
  lemma RevisionCountsCommittedSaves(steps: seq<Step>)
    requires FreshUuids(Trace(steps).log)
    ensures RowsCounted(Trace(steps).table, Trace(steps).log)
  {
    Serializable(steps);
    RowsCountSaves(Trace(steps).log);
  }

  /** Every row has as many saves in its lifetime as its revision says, numbered
      from 1, and is the last of them. */
  ghost predicate RowsCounted(t: Table, log: seq<Entry>) {
    forall k :: k in t ==> Counted(Saves(log, t[k].uuid)) && Current(Saves(log, t[k].uuid), k, t[k])
  }

  lemma RowsCountSaves(log: seq<Entry>)
    requires Answered(log) && FreshUuids(log)
    ensures RowsCounted(Serial(log), log)
  {
    var t := Serial(log);
    Lifetimes(log);
    forall k | k in t ensures Counted(Saves(log, t[k].uuid)) && Current(Saves(log, t[k].uuid), k, t[k]) {
      assert Counted(SavesOf(log)(t[k].uuid));
      assert Current(SavesOf(log)(t[k].uuid), k, t[k]);
    }
  }

  lemma CreatedGrows(log: seq<Entry>)
    requires log != []
    ensures Created(log) == Created(log[..|log| - 1]) +
      if Creates(log[|log| - 1]) then {log[|log| - 1].q.uuid} else {}
  {
    var n := |log| - 1;
    forall u | u in Created(log)
      ensures u in Created(log[..n]) + if Creates(log[n]) then {log[n].q.uuid} else {}
    {
      var i :| 0 <= i < |log| && Creates(log[i]) && u == log[i].q.uuid;
      if i < n { assert Creates(log[..n][i]); }
    }
    forall u | u in Created(log[..n]) ensures u in Created(log) {
      var i :| 0 <= i < n && Creates(log[..n][i]) && u == log[..n][i].q.uuid;
      assert Creates(log[i]);
    }
  }

  lemma OtherStep(t: Table, q: Request, created: set<nat>,
                  saves: nat -> seq<StoredResource>, saves': nat -> seq<StoredResource>)
    requires Lifetime(t, created, saves) && !Serve(t, q).1.Saved?
    requires forall u :: saves'(u) == saves(u)
    ensures Lifetime(Serve(t, q).0, created, saves')
  {
    var t' := Serve(t, q).0;
    forall k | k in t' ensures Current(saves'(t'[k].uuid), k, t'[k]) {
      UntouchedRow(t, q, k);
      assert Current(saves(t[k].uuid), k, t[k]);
    }
  }

  lemma UntouchedRow(t: Table, q: Request, k: DbKey)
    requires !Serve(t, q).1.Saved? && k in Serve(t, q).0
    ensures k in t
    ensures var row := Serve(t, q).0[k];
      row.uuid == t[k].uuid && row.revision == t[k].revision && row.spec == t[k].spec
  {
  }

  /** What a successful save does to the table. */
  lemma SavedRow(t: Table, q: Request)
    requires Serve(t, q).1.Saved?
    ensures var (t', k, res) := (Serve(t, q).0, Db(q.key), Serve(t, q).1.resource);
      && q.Save? && t' == t[k := t'[k]]
      && t'[k].uuid == res.uuid && t'[k].revision == res.revision
      && t'[k].spec == res.spec && res.key == q.key
      && (q.expected.None? ==> res.uuid == q.uuid && res.revision == 1)
      && (q.expected.Some? ==> k in t && res.uuid == t[k].uuid && res.revision == t[k].revision + 1)
  {
  }

  function Extended(saves: seq<StoredResource>, res: StoredResource, u: nat): seq<StoredResource> {
    if u == res.uuid then saves + [res] else saves
  }

  lemma SaveStep(t: Table, q: Request, created: set<nat>, created': set<nat>,
                 saves: nat -> seq<StoredResource>, saves': nat -> seq<StoredResource>)
    requires Lifetime(t, created, saves) && Serve(t, q).1.Saved?
    requires q.Save? && q.expected.None? ==> q.uuid !in created
    requires created' == created + if q.Save? && q.expected.None? then {q.uuid} else {}
    requires forall u :: saves'(u) == Extended(saves(u), Serve(t, q).1.resource, u)
    ensures Lifetime(Serve(t, q).0, created', saves')
  {
    var t', res, k := Serve(t, q).0, Serve(t, q).1.resource, Db(q.key);
    SavedRow(t, q);
    assert Counted(saves(res.uuid));
    assert q.expected.Some? ==> Current(saves(t[k].uuid), k, t[k]);
    forall l | l in t && t[l].uuid == res.uuid ensures Current(saves(res.uuid), l, t[l]) {
      assert Current(saves(t[l].uuid), l, t[l]);
    }
    RowsAfterSave(t, saves(res.uuid), k, res, t'[k], q.expected.None?);
    forall l | l in t' && l != k ensures Current(saves'(t'[l].uuid), l, t'[l]) {
      assert t'[l] == t[l] && Current(saves(t[l].uuid), l, t[l]);
    }
    forall u ensures Counted(saves'(u)) {
      assert Counted(saves(u));
    }
  }

  /** The new save extends its own lifetime and no other row belongs to it. */
  lemma RowsAfterSave(t: Table, saves: seq<StoredResource>, k: DbKey, res: StoredResource, row: Row, first: bool)
    requires Counted(saves) && Db(res.key) == k
    requires row.uuid == res.uuid && row.revision == res.revision && row.spec == res.spec
    requires first ==> saves == [] && res.revision == 1
    requires !first ==> k in t && t[k].uuid == res.uuid && res.revision == t[k].revision + 1
    requires forall l :: l in t && t[l].uuid == res.uuid ==> Current(saves, l, t[l])
    ensures Counted(saves + [res]) && Current(saves + [res], k, row)
    ensures forall l :: l in t && l != k ==> t[l].uuid != res.uuid
  {
    if !first { assert Current(saves, k, t[k]); }
    forall l | l in t && l != k ensures t[l].uuid != res.uuid {
      var row := t[l];
      assert row.uuid == res.uuid ==> Current(saves, l, row);
    }
  }

  lemma NotCreatedBefore(log: seq<Entry>)
    requires log != [] && FreshUuids(log) && Creates(log[|log| - 1])
    ensures log[|log| - 1].q.uuid !in Created(log[..|log| - 1])
  {
    var init := log[..|log| - 1];
    forall i | 0 <= i < |init| && Creates(init[i]) ensures init[i].q.uuid != log[|log| - 1].q.uuid {
      assert Creates(log[i]);
    }
  }

  /** No lost update: a save that expects revision r and commits replaces the
      spec that the save with revision r wrote, in the same lifetime. */
  lemma SaveReplacesItsPredecessor(log: seq<Entry>, i: nat)
    requires Answered(log) && FreshUuids(log) && i < |log|
    requires log[i].q.Save? && log[i].q.expected.Some? && log[i].a.Saved?
    ensures var before, k, r := Serial(log[..i]), Db(log[i].q.key), log[i].q.expected.value;
      && k in before && before[k].revision == r >= 1
      && log[i].a.resource.revision == r + 1 && log[i].a.resource.uuid == before[k].uuid
      && |Saves(log[..i], before[k].uuid)| == r
      && before[k].spec == Saves(log[..i], before[k].uuid)[r - 1].spec
  {
    var p := log[..i];
    AnsweredAt(log, i);
    Lifetimes(p);
    SavedRow(Serial(p), log[i].q);
    var k := Db(log[i].q.key);
    assert Current(SavesOf(p)(Serial(p)[k].uuid), k, Serial(p)[k]);
  }

  lemma {:induction false} AnsweredPrefix(log: seq<Entry>, n: nat)
    requires Answered(log) && n <= |log|
    ensures Answered(log[..n])
    decreases |log|
  {
    if n < |log| {
      AnsweredPrefix(log[..|log| - 1], n);
      assert log[..|log| - 1][..n] == log[..n];
    } else {
      assert log[..n] == log;
    }
  }

  lemma AnsweredAt(log: seq<Entry>, i: nat)
    requires Answered(log) && i < |log|
    ensures Answered(log[..i]) && log[i].a == Serve(Serial(log[..i]), log[i].q).1
  {
    AnsweredPrefix(log, i + 1);
    assert log[..i + 1][..i] == log[..i];
  }

  /** Two clients that both expect revision r of one lifetime cannot both save. */
  lemma OneWinnerPerRevision(log: seq<Entry>, i: nat, j: nat)
    requires Answered(log) && FreshUuids(log) && i < j < |log|
    requires log[i].a.Saved? && log[j].a.Saved? && log[i].a.resource.uuid == log[j].a.resource.uuid
    ensures log[i].a.resource.revision < log[j].a.resource.revision
  {
    var u := log[i].a.resource.uuid;
    SaveRevisionIsRank(log, i);
    SaveRevisionIsRank(log, j);
    SavesGrow(log, u, i + 1, j);
    SavesSnoc(log, u, j);
  }

  lemma SavesSnoc(log: seq<Entry>, u: nat, j: nat)
    requires j < |log|
    ensures Saves(log[..j + 1], u) == Saves(log[..j], u) +
      if log[j].a.Saved? && log[j].a.resource.uuid == u then [log[j].a.resource] else []
  {
    assert log[..j + 1][..j] == log[..j];
  }

  /** A committed save carries its rank among the saves of its lifetime. */
  lemma SaveRevisionIsRank(log: seq<Entry>, i: nat)
    requires Answered(log) && FreshUuids(log) && i < |log| && log[i].a.Saved?
    ensures log[i].a.resource.revision == |Saves(log[..i + 1], log[i].a.resource.uuid)|
  {
    var p, u := log[..i + 1], log[i].a.resource.uuid;
    assert p[..i] == log[..i];
    AnsweredPrefix(log, i + 1);
    Lifetimes(p);
    var s := SavesOf(p)(u);
    assert Counted(s);
    assert s[|s| - 1] == log[i].a.resource;
  }

  lemma {:induction false} SavesGrow(log: seq<Entry>, u: nat, m: nat, n: nat)
    requires m <= n <= |log|
    ensures |Saves(log[..m], u)| <= |Saves(log[..n], u)|
    decreases n
  {
    if m < n {
      SavesGrow(log, u, m, n - 1);
      SavesSnoc(log, u, n - 1);
    }
  }

  // ---- status writes are invisible to revision checks -------------------------

  ghost predicate SameButStatus(a: Table, b: Table) {
    a.Keys == b.Keys && forall k :: k in a ==>
      a[k].uuid == b[k].uuid && a[k].revision == b[k].revision && a[k].spec == b[k].spec
      && a[k].createdAt == b[k].createdAt
  }

  /** The requests that remain when every put_status is struck out. */
  function WithoutStatus(qs: seq<Request>): seq<Request> {
    if qs == [] then []
    else WithoutStatus(qs[..|qs| - 1]) + if qs[|qs| - 1].PutStatus? then [] else [qs[|qs| - 1]]
  }

  function After(qs: seq<Request>): Table {
    if qs == [] then map[] else Serve(After(qs[..|qs| - 1]), qs[|qs| - 1]).0
  }

  /** Answers to the saves and deletes of a serial run. */
  function Decisions(qs: seq<Request>): seq<Response> {
    if qs == [] then []
    else
      var q := qs[|qs| - 1];
      Decisions(qs[..|qs| - 1]) +
        if q.Save? || q.Delete? then [Serve(After(qs[..|qs| - 1]), q).1] else []
  }

  lemma AlikeTables(a: Table, b: Table, q: Request)
    requires SameButStatus(a, b)
    ensures SameButStatus(Serve(a, q).0, Serve(b, q).0)
    ensures q.Save? || q.Delete? ==> Serve(a, q).1 == Serve(b, q).1
    ensures q.PutStatus? ==> SameButStatus(Serve(a, q).0, b)
  {
    var k := Db(q.key);
    assert k in a <==> k in b;
  }

  /** Striking out every put_status changes no answer to a save or delete:
      a status write never surfaces as a revision conflict. */
  lemma {:induction false} StatusWritesAreInvisible(qs: seq<Request>)
    ensures SameButStatus(After(qs), After(WithoutStatus(qs)))
    ensures Decisions(qs) == Decisions(WithoutStatus(qs))
  {
    if qs != [] {
      var init, q := qs[..|qs| - 1], qs[|qs| - 1];
      var kept := WithoutStatus(init);
      StatusWritesAreInvisible(init);
      AlikeTables(After(init), After(kept), q);
      if q.PutStatus? {
        assert WithoutStatus(qs) == kept;
      } else {
        Snoc(kept, q);
      }
    }
  }

  lemma Snoc(qs: seq<Request>, q: Request)
    ensures After(qs + [q]) == Serve(After(qs), q).0
    ensures Decisions(qs + [q]) == Decisions(qs) + if q.Save? || q.Delete? then [Serve(After(qs), q).1] else []
  {
    assert (qs + [q])[..|qs|] == qs;
  }
}
