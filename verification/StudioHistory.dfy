// Runs of studio calls: paths stay unique, and the snapshots of a file together
// with its content are a lossless record of what was written to it.
module StudioHistory {
  import opened Common
  import opened StringOrder
  import opened Timestamps
  import opened Studio

  datatype Op =
    | Create(id: string, path: string, content: string, now: Utc)
    | Edit(id: string, newPath: Option<string>, newContent: Option<string>, now: Utc, disk: Disk)
    | Trash(id: string, now: Utc)
    | Untrash(id: string)
    | Delete(id: string)
    | Purge(cutoff: Utc, force: set<string>)

  /** The past of one living file: every content set on it in order, how many
      updates left a snapshot without going through, and whether each update
      carried a later stamp than the one before. */
  datatype Past = Past(written: seq<string>, strays: nat, forward: bool)

  datatype World = World(t: Tables, past: map<string, Past>)

  const START := World(Tables(map[], []), map[])

  function Forget(w: World, gone: set<string>): World {
    World(Remove(w.t, gone), w.past - gone)
  }

  /** The past after an update that took the tables from `t` to `t'`. */
  function Later(p: Past, t: Tables, t': Tables, row: FileRow, c: Option<string>, now: string, r: Updated): Past {
    if r.Done? then
      Past(p.written + if c.Some? then [c.value] else [], p.strays, p.forward && Less(row.updatedAt, now))
    else if t'.revisions != t.revisions then p.(strays := p.strays + 1)
    else p
  }

  function Next(w: World, op: Op): World {
    match op
    case Create(id, path, content, now) =>
      if id in w.t.files || PathTaken(w.t.files, path, id) then w
      else World(Inserted(w.t, id, path, content, Rfc3339(now)), w.past[id := Past([content], 0, true)])
    case Edit(id, path, content, now, disk) =>
      var (t, r) := Update(w.t, id, path, content, Rfc3339(now), disk);
      if id !in w.t.files || id !in w.past then w.(t := t)
      else World(t, w.past[id := Later(w.past[id], w.t, t, w.t.files[id], content, Rfc3339(now), r)])
    case Trash(id, now) => w.(t := Stamped(w.t, id, Some(Rfc3339(now))))
    case Untrash(id) => w.(t := Stamped(w.t, id, None))
    case Delete(id) => Forget(w, {id})
    case Purge(cutoff, force) => Forget(w, Purged(w.t.files, Rfc3339(cutoff), force))
  }

  function Run(ops: seq<Op>): World {
    if ops == [] then START else Next(Run(ops[..|ops| - 1]), ops[|ops| - 1])
  }

  // ---- paths -------------------------------------------------------------

  lemma NextPaths(w: World, op: Op)
    requires PathsDistinct(w.t.files)
    ensures PathsDistinct(Next(w, op).t.files)
  {
    if op.Edit? {
      var t := Update(w.t, op.id, op.newPath, op.newContent, Rfc3339(op.now), op.disk).0;
      assert Next(w, op).t == t;
    }
  }

  /** Over any run paths stay unique across live and trashed rows. */
  lemma {:induction false} PathsStayDistinct(ops: seq<Op>)
    ensures PathsDistinct(Run(ops).t.files)
    ensures var files := Run(ops).t.files;
      forall k, l :: k in files && l in files && k != l ==> files[k].path != files[l].path
  {
    if ops != [] {
      PathsStayDistinct(ops[..|ops| - 1]);
      NextPaths(Run(ops[..|ops| - 1]), ops[|ops| - 1]);
    }
  }

  // ---- what a lossless history is ------------------------------------------

  /** Adjacent repeats collapsed. */
  function Collapse(cs: seq<string>): (r: seq<string>)
    ensures cs != [] ==> r != [] && r[|r| - 1] == cs[|cs| - 1]
  {
    if |cs| <= 1 then cs
    else if cs[|cs| - 1] == cs[|cs| - 2] then Collapse(cs[..|cs| - 1])
    else Collapse(cs[..|cs| - 1]) + [cs[|cs| - 1]]
  }

  function NonEmpty(cs: seq<string>): seq<string> {
    if cs == [] then []
    else NonEmpty(cs[..|cs| - 1]) + if cs[|cs| - 1] == "" then [] else [cs[|cs| - 1]]
  }

  /** What the revisions and the current content should read, oldest first:
      repeats collapsed, then empty texts dropped except as the final one. */
  function Record(cs: seq<string>): seq<string>
    requires cs != []
  {
    var d := Collapse(cs);
    NonEmpty(d[..|d| - 1]) + [d[|d| - 1]]
  }

  function Contents(revs: seq<Revision>): (r: seq<string>)
    ensures |r| == |revs|
  {
    if revs == [] then [] else Contents(revs[..|revs| - 1]) + [revs[|revs| - 1].content]
  }

  lemma RecordStep(cs: seq<string>, c: string)
    requires cs != []
    ensures var last := cs[|cs| - 1];
      Record(cs + [c]) ==
        if c == last then Record(cs)
        else Record(cs)[..|Record(cs)| - 1] + (if last == "" then [] else [last]) + [c]
  {
    assert (cs + [c])[..|cs|] == cs;
    var d := Collapse(cs);
    var next := Collapse(cs + [c]);
    if c != cs[|cs| - 1] {
      assert next == d + [c] && next[..|next| - 1] == d;
      assert Record(cs)[..|Record(cs)| - 1] == NonEmpty(d[..|d| - 1]);
    }
  }

  // ---- the invariant -------------------------------------------------------

  /** A row, its snapshots in insertion order and its past agree. */
  ghost predicate FileSound(row: FileRow, revs: seq<Revision>, p: Past) {
    && p.written != [] && row.content == p.written[|p.written| - 1]
    && |revs| + 1 == |Record(p.written)| + p.strays
    && (p.strays == 0 ==> Contents(revs) + [row.content] == Record(p.written))
    && (p.strays == 0 && p.forward ==> Rising(revs, row.updatedAt))
  }

  ghost predicate HoldsAt(w: World, id: string)
    requires id in w.t.files && id in w.past
  {
    FileSound(w.t.files[id], RevisionsOf(w.t.revisions, id), w.past[id])
  }

  /** Every file is sound, and every snapshot belongs to one. */
  ghost predicate Holds(w: World) {
    && w.past.Keys == w.t.files.Keys
    && (forall i :: 0 <= i < |w.t.revisions| ==> w.t.revisions[i].fileId in w.t.files)
    && forall id :: id in w.t.files ==> HoldsAt(w, id)
  }

  /** Snapshot times strictly ascend and stay below the time of the last update. */
  ghost predicate Rising(revs: seq<Revision>, below: string) {
    && (forall i :: 0 <= i < |revs| ==> Less(revs[i].createdAt, below))
    && forall i, j :: 0 <= i < j < |revs| ==> Less(revs[i].createdAt, revs[j].createdAt)
  }

  // ---- one step ------------------------------------------------------------

  lemma {:induction false} OtherRevisions(revs: seq<Revision>, gone: set<string>, id: string)
    ensures id !in gone ==> RevisionsOf(Without(revs, gone), id) == RevisionsOf(revs, id)
    ensures forall i :: 0 <= i < |Without(revs, gone)| ==>
      Without(revs, gone)[i].fileId !in gone && Without(revs, gone)[i] in revs
  {
    if revs != [] {
      var init, last := revs[..|revs| - 1], revs[|revs| - 1];
      OtherRevisions(init, gone, id);
      var w := Without(init, gone);
      assert (w + [last])[..|w|] == w;
      assert w + [] == w;
    }
  }

  lemma {:induction false} NoRevisions(revs: seq<Revision>, id: string)
    requires forall i :: 0 <= i < |revs| ==> revs[i].fileId != id
    ensures RevisionsOf(revs, id) == []
  {
    if revs != [] { NoRevisions(revs[..|revs| - 1], id); }
  }

  lemma ForgetHolds(w: World, gone: set<string>)
    requires Holds(w)
    ensures Holds(Forget(w, gone))
  {
    var w' := Forget(w, gone);
    OtherRevisions(w.t.revisions, gone, "");
    forall id | id in w'.t.files ensures HoldsAt(w', id) {
      OtherRevisions(w.t.revisions, gone, id);
      assert HoldsAt(w, id);
    }
  }

  /** Moving to and from the trash touches neither content nor stamps. */
  lemma TrashHolds(w: World, id: string, at: Option<string>)
    requires Holds(w)
    ensures Holds(w.(t := Stamped(w.t, id, at)))
  {
    var w' := w.(t := Stamped(w.t, id, at));
    forall k | k in w'.t.files ensures HoldsAt(w', k) {
      assert HoldsAt(w, k);
    }
  }

  lemma CreateHolds(w: World, op: Op)
    requires Holds(w) && op.Create?
    ensures Holds(Next(w, op))
  {
    var w' := Next(w, op);
    if w' != w {
      NoRevisions(w.t.revisions, op.id);
      NewFile(w'.t.files[op.id], op.content);
      forall id | id in w'.t.files ensures HoldsAt(w', id) {
        if id != op.id { assert HoldsAt(w, id); }
      }
    }
  }

  lemma NewFile(row: FileRow, content: string)
    requires row.content == content
    ensures FileSound(row, [], Past([content], 0, true))
  {
    assert Record([content]) == [content];
  }

  lemma SnapshotRow(revs: seq<Revision>, r: Revision, id: string)
    ensures RevisionsOf(revs + [r], id) == RevisionsOf(revs, id) + if r.fileId == id then [r] else []
  {
    assert (revs + [r])[..|revs|] == revs;
  }

  lemma ContentsSnoc(revs: seq<Revision>, r: Revision)
    ensures Contents(revs + [r]) == Contents(revs) + [r.content]
  {
    assert (revs + [r])[..|revs|] == revs;
  }

  lemma Raised(revs: seq<Revision>, at: string, now: string, r: Revision)
    requires Rising(revs, at) && Less(at, now) && r.createdAt == at
    ensures Rising(revs, now) && Rising(revs + [r], now)
  {
    forall i | 0 <= i < |revs| ensures Less(revs[i].createdAt, now) {
      Transitive(revs[i].createdAt, at, now);
    }
  }

  /** An update that goes through: what was set is on record. */
  lemma UpdatedFile(row: FileRow, revs: seq<Revision>, p: Past, row': FileRow, content: Option<string>, r: Revision)
    requires FileSound(row, revs, p)
    requires row'.content == if content.Some? then content.value else row.content
    requires r.content == row.content && r.createdAt == row.updatedAt
    ensures var written := if content.Some? then p.written + [content.value] else p.written;
      FileSound(row', if Snapshots(row, content) then revs + [r] else revs,
        Past(written, p.strays, p.forward && Less(row.updatedAt, row'.updatedAt)))
  {
    if p.strays == 0 && p.forward && Less(row.updatedAt, row'.updatedAt) {
      Raised(revs, row.updatedAt, row'.updatedAt, r);
    }
    if content.Some? {
      RecordKept(row.content, Contents(revs), p.written, p.strays, content.value);
      ContentsSnoc(revs, r);
    }
  }

  /** The record of one more content, next to the snapshots that the update leaves. */
  lemma RecordKept(last: string, kept: seq<string>, cs: seq<string>, n: nat, c: string)
    requires cs != [] && last == cs[|cs| - 1] && |kept| + 1 == |Record(cs)| + n
    requires n == 0 ==> kept + [last] == Record(cs)
    ensures var kept' := if c != last && last != "" then kept + [last] else kept;
      && |kept'| + 1 == |Record(cs + [c])| + n
      && (n == 0 ==> kept' + [c] == Record(cs + [c]))
  {
    RecordStep(cs, c);
    var k := |Record(cs)| - 1;
    if n == 0 { assert kept == Record(cs)[..k]; }
  }

  lemma StrayFile(row: FileRow, revs: seq<Revision>, p: Past, r: Revision)
    requires FileSound(row, revs, p)
    ensures FileSound(row, revs + [r], p.(strays := p.strays + 1))
  {
  }

  function Snapshot(w: World, id: string): Revision
    requires id in w.t.files
  {
    Revision(id, w.t.files[id].content, w.t.files[id].updatedAt)
  }

  /** What an update of file `id` with new content `c` does: `done` tells whether
      it went through, `snap` whether it left a snapshot. */
  ghost predicate EditedTo(w: World, w': World, id: string, c: Option<string>, now: string, done: bool, snap: bool)
    requires id in w.t.files && id in w.past
  {
    var row, p := w.t.files[id], w.past[id];
    && w'.t.revisions == (if snap then w.t.revisions + [Snapshot(w, id)] else w.t.revisions)
    && id in w'.t.files && w'.t.files == w.t.files[id := w'.t.files[id]]
    && (done ==> snap == Snapshots(row, c))
    && (!done ==> w'.t.files == w.t.files && w'.past == w.past[id := if snap then p.(strays := p.strays + 1) else p])
    && (done ==> w'.t.files[id].content == if c.Some? then c.value else row.content)
    && (done ==> w'.t.files[id].updatedAt == now)
    && (done ==> w'.past == w.past[id :=
          Past(if c.Some? then p.written + [c.value] else p.written, p.strays, p.forward && Less(row.updatedAt, now))])
  }

  lemma EditEffect(w: World, op: Op) returns (done: bool, snap: bool)
    requires op.Edit? && op.id in w.t.files && op.id in w.past
    ensures EditedTo(w, Next(w, op), op.id, op.newContent, Rfc3339(op.now), done, snap)
  {
    var (t, r) := Update(w.t, op.id, op.newPath, op.newContent, Rfc3339(op.now), op.disk);
    done := r.Done?;
    snap := Snapshots(w.t.files[op.id], op.newContent) && op.disk != NoInsert;
    assert snap ==> |t.revisions| == |w.t.revisions| + 1;
    assert w.past[op.id].written + [] == w.past[op.id].written;
  }

  /** The addressed file stays sound, whether or not the update went through. */
  lemma EditedFile(w: World, w': World, id: string, c: Option<string>, now: string, done: bool, snap: bool)
    requires id in w.t.files && id in w.past && EditedTo(w, w', id, c, now, done, snap)
    requires HoldsAt(w, id)
    ensures id in w'.past && HoldsAt(w', id)
  {
    var row, r := w.t.files[id], Snapshot(w, id);
    var revs, p := RevisionsOf(w.t.revisions, id), w.past[id];
    SnapshotRow(w.t.revisions, r, id);
    if done {
      UpdatedFile(row, revs, p, w'.t.files[id], c, r);
    } else if snap {
      StrayFile(row, revs, p, r);
    }
  }

  /** Updates leave the other files alone. */
  lemma OtherFile(w: World, w': World, id: string, c: Option<string>, now: string, done: bool, snap: bool, k: string)
    requires id in w.t.files && id in w.past && EditedTo(w, w', id, c, now, done, snap)
    requires k in w.t.files && k in w.past && k != id && HoldsAt(w, k)
    ensures k in w'.past && HoldsAt(w', k)
  {
    SnapshotRow(w.t.revisions, Snapshot(w, id), k);
    assert RevisionsOf(w.t.revisions, k) + [] == RevisionsOf(w.t.revisions, k);
    assert RevisionsOf(w'.t.revisions, k) == RevisionsOf(w.t.revisions, k);
  }

  /** Files keep their pasts, and the snapshot belongs to its file. */
  lemma EditedKeys(w: World, w': World, id: string, c: Option<string>, now: string, done: bool, snap: bool)
    requires w.past.Keys == w.t.files.Keys && id in w.t.files && EditedTo(w, w', id, c, now, done, snap)
    requires forall i :: 0 <= i < |w.t.revisions| ==> w.t.revisions[i].fileId in w.t.files
    ensures w'.t.files.Keys == w.t.files.Keys && w'.past.Keys == w'.t.files.Keys
    ensures forall i :: 0 <= i < |w'.t.revisions| ==> w'.t.revisions[i].fileId in w'.t.files
  {
  }

  lemma EditedAt(w: World, w': World, id: string, c: Option<string>, now: string, done: bool, snap: bool, k: string)
    requires id in w.t.files && id in w.past && EditedTo(w, w', id, c, now, done, snap)
    requires k in w.t.files && k in w.past && HoldsAt(w, k)
    ensures k in w'.t.files && k in w'.past && HoldsAt(w', k)
  {
    if k == id {
      EditedFile(w, w', id, c, now, done, snap);
    } else {
      OtherFile(w, w', id, c, now, done, snap, k);
    }
  }

  lemma EditedHolds(w: World, w': World, id: string, c: Option<string>, now: string, done: bool, snap: bool)
    requires Holds(w) && id in w.t.files && id in w.past && EditedTo(w, w', id, c, now, done, snap)
    ensures Holds(w')
  {
    EditedKeys(w, w', id, c, now, done, snap);
    forall k | k in w'.t.files ensures HoldsAt(w', k) {
      assert HoldsAt(w, k);
      EditedAt(w, w', id, c, now, done, snap, k);
    }
  }

  lemma EditHolds(w: World, op: Op)
    requires op.Edit? && Holds(w)
    ensures Holds(Next(w, op))
  {
    if op.id in w.t.files {
      var done, snap := EditEffect(w, op);
      EditedHolds(w, Next(w, op), op.id, op.newContent, Rfc3339(op.now), done, snap);
    }
  }

  // ---- runs ----------------------------------------------------------------

  lemma NextSound(w: World, op: Op)
    requires Holds(w)
    ensures Holds(Next(w, op))
  {
    match op
    case Create(_, _, _, _) => CreateHolds(w, op);
    case Edit(_, _, _, _, _) => EditHolds(w, op);
    case Delete(id) => ForgetHolds(w, {id});
    case Purge(cutoff, force) => ForgetHolds(w, Purged(w.t.files, Rfc3339(cutoff), force));
    case Trash(id, now) => TrashHolds(w, id, Some(Rfc3339(now)));
    case Untrash(id) => TrashHolds(w, id, None);
  }

  /** Over any run, with whatever failures and whatever the clock does. */
  lemma {:induction false} RunSound(ops: seq<Op>)
    ensures Holds(Run(ops))
  {
    if ops != [] {
      RunSound(ops[..|ops| - 1]);
      NextSound(Run(ops[..|ops| - 1]), ops[|ops| - 1]);
    }
  }

  // ---- the clock of one file ---------------------------------------------------

  /** The stamp that an operation offers for file `id`. */
  function Stamp(op: Op, id: string): Option<Utc> {
    match op
    case Create(k, _, _, now) => if k == id then Some(now) else None
    case Edit(k, _, _, now, _) => if k == id then Some(now) else None
    case _ => None
  }

  /** The clock moves forward between the creates and updates of one file. */
  ghost predicate ClockForward(ops: seq<Op>, id: string) {
    && (forall i :: 0 <= i < |ops| && Stamp(ops[i], id).Some? ==> Stamp(ops[i], id).value.Valid())
    && forall i, j :: 0 <= i < j < |ops| && Stamp(ops[i], id).Some? && Stamp(ops[j], id).Some?
         ==> Stamp(ops[i], id).value.Instant() < Stamp(ops[j], id).value.Instant()
  }

  /** The row carries stamp `u` and every update before it an earlier one. */
  ghost predicate ForwardAt(w: World, id: string, u: Utc) {
    && id in w.t.files && id in w.past
    && w.past[id].forward && w.t.files[id].updatedAt == Rfc3339(u)
  }

  /** A row and its past change only by what is done to the file itself. */
  lemma Untouched(w: World, op: Op, id: string, u: Utc)
    requires w.past.Keys == w.t.files.Keys && id in Next(w, op).t.files
    requires Stamp(op, id).None? && (id in w.t.files ==> ForwardAt(w, id, u))
    ensures ForwardAt(Next(w, op), id, u)
  {
    if op.Edit? && op.id in w.t.files { var done, snap := EditEffect(w, op); }
  }

  lemma Touched(w: World, op: Op, id: string, u: Utc)
    requires w.past.Keys == w.t.files.Keys && id in Next(w, op).t.files
    requires Stamp(op, id).Some? && (id in w.t.files ==> ForwardAt(w, id, u))
    requires id in w.t.files ==> Less(Rfc3339(u), Rfc3339(Stamp(op, id).value))
    ensures ForwardAt(Next(w, op), id, Stamp(op, id).value) || (id in w.t.files && ForwardAt(Next(w, op), id, u))
  {
    if op.Edit? && id in w.t.files { var done, snap := EditEffect(w, op); }
  }

  /** A clock that moves forward over the file shows in its past: operation `i`
      stamped the row last. */
  lemma {:induction false} ForwardRun(ops: seq<Op>, id: string) returns (i: nat)
    requires ClockForward(ops, id) && id in Run(ops).t.files
    ensures i < |ops| && Stamp(ops[i], id).Some? && ForwardAt(Run(ops), id, Stamp(ops[i], id).value)
  {
    var n := |ops| - 1;
    var w, op := Run(ops[..n]), ops[n];
    RunSound(ops[..n]);
    if id in w.t.files {
      i := ForwardRun(ops[..n], id);
      var u := Stamp(ops[i], id).value;
      if Stamp(op, id).None? {
        Untouched(w, op, id, u);
      } else {
        Rfc3339IsChronological(u, Stamp(op, id).value);
        Touched(w, op, id, u);
        if !ForwardAt(Next(w, op), id, u) { i := n; }
      }
    } else {
      i := n;
      Created(w, op, id);
    }
  }

  lemma Created(w: World, op: Op, id: string)
    requires w.past.Keys == w.t.files.Keys && id !in w.t.files && id in Next(w, op).t.files
    ensures Stamp(op, id).Some? && ForwardAt(Next(w, op), id, Stamp(op, id).value)
  {
    if op.Edit? && op.id in w.t.files { var done, snap := EditEffect(w, op); }
  }

  // ---- reading the history back --------------------------------------------

  /** An answer to `ORDER BY created_at DESC` over the snapshots of one file. */
  ghost predicate NewestFirst(listed: seq<Revision>, revs: seq<Revision>) {
    && multiset(listed) == multiset(revs)
    && forall i, j :: 0 <= i < j < |listed| ==> !Less(listed[i].createdAt, listed[j].createdAt)
  }

  lemma NewestIsListedFirst(listed: seq<Revision>, revs: seq<Revision>, below: string)
    requires Rising(revs, below) && NewestFirst(listed, revs) && revs != []
    ensures listed != [] && listed[0] == revs[|revs| - 1]
  {
    var n := |revs|;
    assert |listed| == |multiset(listed)| == |multiset(revs)| == n;
    var top := revs[n - 1];
    assert top in multiset(listed) && listed[0] in multiset(revs);
    var j :| 0 <= j < n && listed[j] == top;
    var i :| 0 <= i < n && revs[i] == listed[0];
    Irreflexive(top.createdAt);
    var first := listed[0];
    assert i < n - 1 ==> Less(first.createdAt, top.createdAt);
  }

  lemma WithoutEnd<T>(s: seq<T>, rest: seq<T>, x: T)
    requires s == [x] + rest || s == rest + [x]
    ensures multiset(rest) == multiset(s) - multiset{x}
  {
    assert multiset(s) == multiset(rest) + multiset{x};
  }

  lemma DropTop<T>(a: seq<T>, b: seq<T>)
    requires a != [] && b != [] && a[0] == b[|b| - 1] && multiset(a) == multiset(b)
    ensures multiset(a[1..]) == multiset(b[..|b| - 1])
  {
    var n := |b| - 1;
    assert a == [a[0]] + a[1..] && b == b[..n] + [b[n]];
    WithoutEnd(a, a[1..], a[0]);
    WithoutEnd(b, b[..n], b[n]);
  }

  /** With ascending snapshot times that order is the reverse of insertion. */
  lemma {:induction false} ListedInOrder(listed: seq<Revision>, revs: seq<Revision>, below: string)
    requires Rising(revs, below) && NewestFirst(listed, revs)
    ensures Reverse(listed) == revs
    decreases |revs|
  {
    if revs == [] {
      assert |multiset(listed)| == 0;
    } else {
      NewestIsListedFirst(listed, revs, below);
      DropTop(listed, revs);
      ListedInOrder(listed[1..], revs[..|revs| - 1], below);
      assert Reverse(listed) == Reverse(listed[1..]) + [listed[0]];
    }
  }

  /** The snapshots in insertion order, then the current content, are the record
      of everything written: exactly when no update left its snapshot without
      going through. */
  lemma HistoryIsLossless(ops: seq<Op>, id: string)
    requires id in Run(ops).t.files
    ensures var w := Run(ops);
      && id in w.past && w.past[id].written != []
      && (Contents(RevisionsOf(w.t.revisions, id)) + [w.t.files[id].content] == Record(w.past[id].written)
          <==> w.past[id].strays == 0)
  {
    RunSound(ops);
    assert HoldsAt(Run(ops), id);
  }

  /** So is the history page, read oldest to newest, when the clock moves
      forward between the updates of the file. */
  lemma HistoryPageIsLossless(ops: seq<Op>, id: string, listed: seq<Revision>)
    requires ClockForward(ops, id) && id in Run(ops).t.files
    requires NewestFirst(listed, RevisionsOf(Run(ops).t.revisions, id))
    ensures var w := Run(ops);
      && id in w.past && w.past[id].written != []
      && (Contents(Reverse(listed)) + [w.t.files[id].content] == Record(w.past[id].written)
          <==> w.past[id].strays == 0)
  {
    var w := Run(ops);
    RunSound(ops);
    var i := ForwardRun(ops, id);
    assert HoldsAt(w, id);
    var revs := RevisionsOf(w.t.revisions, id);
    assert |multiset(listed)| == |multiset(revs)|;
    if w.past[id].strays == 0 {
      ListedInOrder(listed, revs, w.t.files[id].updatedAt);
    }
  }
}
