// Studio workspace files: create, update with revision snapshots, the trash,
// and the purge. Timestamps are the stored RFC 3339 strings.
module Studio {
  import opened Common
  import opened StringOrder
  import opened Timestamps

  datatype FileRow = FileRow(
    path: string, content: string, createdAt: string, updatedAt: string, trashedAt: Option<string>)

  datatype Revision = Revision(fileId: string, content: string, createdAt: string)

  /** The two tables; revisions in insertion order. */
  datatype Tables = Tables(files: map<string, FileRow>, revisions: seq<Revision>)

  /** `path` belongs to some row, live or trashed, other than `id`. */
  predicate PathTaken(files: map<string, FileRow>, path: string, id: string) {
    exists k :: k in files && k != id && files[k].path == path
  }

  /** UNIQUE(path), which trashed rows take part in. */
  ghost predicate PathsDistinct(files: map<string, FileRow>) {
    forall k, l :: k in files && l in files && files[k].path == files[l].path ==> k == l
  }

  /** The rows of one file, oldest snapshot first. */
  function RevisionsOf(revs: seq<Revision>, id: string): seq<Revision> {
    if revs == [] then []
    else RevisionsOf(revs[..|revs| - 1], id) +
         if revs[|revs| - 1].fileId == id then [revs[|revs| - 1]] else []
  }

  /** ON DELETE CASCADE. */
  function Without(revs: seq<Revision>, gone: set<string>): seq<Revision> {
    if revs == [] then []
    else Without(revs[..|revs| - 1], gone) +
         if revs[|revs| - 1].fileId in gone then [] else [revs[|revs| - 1]]
  }

  function Remove(t: Tables, gone: set<string>): Tables {
    Tables(t.files - gone, Without(t.revisions, gone))
  }

  /** Trashed rows that are older than the cutoff or named by the caller. */
  function Purged(files: map<string, FileRow>, cutoff: string, force: set<string>): set<string> {
    set id | id in files && files[id].trashedAt.Some?
             && (Less(files[id].trashedAt.value, cutoff) || id in force)
  }

  /** A content change over non-empty content leaves a snapshot first. */
  predicate Snapshots(row: FileRow, content: Option<string>) {
    content.Some? && content.value != row.content && row.content != ""
  }

  /** Which statement of an update fails for a reason other than a taken path:
      a locked database, an I/O error, or a crash before it. */
  datatype Disk = Fine | NoInsert | NoUpdate

  datatype Updated = Missing | Clash | Failed | Done(file: FileRow)

  /** Snapshot, then UPDATE, without a transaction: when the UPDATE alone fails,
      the snapshot stays. */
  function Update(t: Tables, id: string, path: Option<string>, content: Option<string>, now: string, disk: Disk)
    : (Tables, Updated)
  {
    if id !in t.files then (t, Missing)
    else
      var row := t.files[id];
      var newPath := if path.Some? then path.value else row.path;
      var newContent := if content.Some? then content.value else row.content;
      if Snapshots(row, content) && disk == NoInsert then (t, Failed)
      else
        var revs :=
          if Snapshots(row, content) then t.revisions + [Revision(id, row.content, row.updatedAt)] else t.revisions;
        if disk == NoUpdate then (Tables(t.files, revs), Failed)
        else if PathTaken(t.files, newPath, id) then (Tables(t.files, revs), Clash)
        else
          (Tables(t.files[id := row.(path := newPath, content := newContent, updatedAt := now)], revs),
           Done(FileRow(newPath, newContent, row.createdAt, now, None)))
  }

  /** A new live row. */
  function Inserted(t: Tables, id: string, path: string, content: string, now: string): Tables {
    t.(files := t.files[id := FileRow(path, content, now, now, None)])
  }

  /** The trash stamp of a row, set or cleared. */
  function Stamped(t: Tables, id: string, at: Option<string>): Tables {
    if id in t.files then t.(files := t.files[id := t.files[id].(trashedAt := at)]) else t
  }

  class StudioFiles {
    var files: map<string, FileRow>
    var revisions: seq<Revision>

    function State(): Tables
      reads this
    {
      Tables(files, revisions)
    }

    constructor ()
      ensures State() == Tables(map[], [])
    {
      files, revisions := map[], [];
    }

    /** INSERT of a fresh id; refused when any row has the path. */
    method Create(id: string, path: string, content: string, now: string) returns (ok: bool)
      requires id !in files && PathsDistinct(files)
      modifies this
      ensures ok <==> !exists k :: k in old(files) && old(files)[k].path == path
      ensures ok ==> State() == Inserted(old(State()), id, path, content, now)
      ensures ok ==> files == old(files)[id := FileRow(path, content, now, now, None)] && revisions == old(revisions)
      ensures !ok ==> State() == old(State())
      ensures PathsDistinct(files)
    {
      ok := !(exists k :: k in files && k != id && files[k].path == path);
      if ok {
        files := files[id := FileRow(path, content, now, now, None)];
      }
    }

    method UpdateFile(id: string, path: Option<string>, content: Option<string>, now: string, disk: Disk)
      returns (r: Updated)
      requires PathsDistinct(files)
      modifies this
      ensures (State(), r) == Update(old(State()), id, path, content, now, disk)
      ensures PathsDistinct(files)
      ensures r == Missing <==> id !in old(files)
      ensures r.Done? ==> var was := old(files)[id];
        && files == old(files)[id := FileRow(
             if path.Some? then path.value else was.path, if content.Some? then content.value else was.content,
             was.createdAt, now, was.trashedAt)]
        && r.file == FileRow(files[id].path, files[id].content, was.createdAt, now, None)
      ensures !r.Done? ==> files == old(files)
      ensures r.Done? ==> var was := old(files)[id];
        if content.Some? && content.value != was.content && was.content != ""
        then revisions == old(revisions) + [Revision(id, was.content, was.updatedAt)]
        else revisions == old(revisions)
      ensures !r.Done? && revisions != old(revisions) ==>
        id in files && revisions == old(revisions) + [Revision(id, files[id].content, files[id].updatedAt)]
      ensures id in old(files) && disk == Fine ==>
        (r == Clash <==> path.Some? && exists k :: k in old(files) && k != id && old(files)[k].path == path.value)
    {
      if id !in files {
        return Missing;
      }
      var existing := files[id];
      var newPath := if path.Some? then path.value else existing.path;
      var newContent := if content.Some? then content.value else existing.content;
      if content.Some? {
        if content.value != existing.content && existing.content != "" {
          if disk == NoInsert {
            return Failed;
          }
          revisions := revisions + [Revision(id, existing.content, existing.updatedAt)];
        }
      }
      if disk == NoUpdate {
        return Failed;
      }
      if exists k :: k in files && k != id && files[k].path == newPath {
        return Clash;
      }
      files := files[id := existing.(path := newPath, content := newContent, updatedAt := now)];
      r := Done(FileRow(newPath, newContent, existing.createdAt, now, None));
    }

    method TrashFile(id: string, now: string) returns (ok: bool)
      modifies this
      ensures ok <==> id in old(files)
      ensures State() == Stamped(old(State()), id, Some(now))
      ensures ok ==> files == old(files)[id := files[id]] && files[id] == old(files)[id].(trashedAt := Some(now))
      ensures revisions == old(revisions) && (!ok ==> files == old(files))
    {
      ok := id in files;
      if ok {
        files := files[id := files[id].(trashedAt := Some(now))];
      }
    }

    method Restore(id: string) returns (ok: bool)
      modifies this
      ensures ok <==> id in old(files) && old(files)[id].trashedAt.Some?
      ensures State() == Stamped(old(State()), id, None)
      ensures ok ==> files == old(files)[id := files[id]] && files[id] == old(files)[id].(trashedAt := None)
      ensures revisions == old(revisions) && (!ok ==> files == old(files))
    {
      ok := id in files && files[id].trashedAt.Some?;
      if ok {
        files := files[id := files[id].(trashedAt := None)];
      }
    }

    method Delete(id: string) returns (ok: bool)
      modifies this
      ensures ok <==> id in old(files)
      ensures State() == Remove(old(State()), {id})
      ensures files == old(files) - {id}
      ensures forall k :: RevisionsOf(revisions, k) == if k == id then [] else RevisionsOf(old(revisions), k)
    {
      forall k ensures RevisionsOf(Without(revisions, {id}), k) == if k == id then [] else RevisionsOf(revisions, k) {
        KeptRevisions(revisions, {id}, k);
      }
      ok := id in files;
      files := files - {id};
      revisions := Without(revisions, {id});
    }

    /** One DELETE for the expired rows, then one per forced id, adding up the
        affected rows: exactly the trashed rows that are expired or forced go,
        and the total counts each once however often its id is given. A
        statement that fails ends the purge with Err and what went before it;
        `done` is how many statements succeed. */
    method PurgeTrash(cutoff: string, forceIds: seq<string>, done: nat) returns (total: Option<nat>)
      modifies this
      ensures total.Some? <==> done > |forceIds|
      ensures total.Some? ==>
        var gone := Purged(old(files), cutoff, ToSet(forceIds));
        State() == Remove(old(State()), gone) && total.value == |gone|
      ensures total.Some? ==> forall id :: id in files <==>
        && id in old(files)
        && !(old(files)[id].trashedAt.Some? && (Less(old(files)[id].trashedAt.value, cutoff) || id in forceIds))
      ensures total.Some? ==> total.value == |old(files).Keys| - |files.Keys|
      ensures forall id :: id in files ==> id in old(files) && files[id] == old(files)[id]
      ensures forall id :: id in files ==> RevisionsOf(revisions, id) == RevisionsOf(old(revisions), id)
      ensures done == 0 ==> State() == old(State())
      ensures 0 < done <= |forceIds| ==>
        State() == Remove(old(State()), Purged(old(files), cutoff, ToSet(forceIds[..done - 1])))
    {
      if done == 0 {
        return None;
      }
      ghost var t := State();
      ghost var gone := Purged(t.files, cutoff, {});
      var expired := Purged(files, cutoff, {});
      files := files - expired;
      revisions := Without(revisions, expired);
      var sum := |expired|;
      for i := 0 to |forceIds|
        invariant i < done
        invariant gone == Purged(t.files, cutoff, ToSet(forceIds[..i]))
        invariant State() == Remove(t, gone) && sum == |gone|
      {
        if i + 1 == done {
          RemoveKeeps(t, gone);
          return None;
        }
        var id := forceIds[i];
        var n := if id in files && files[id].trashedAt.Some? then 1 else 0;
        PurgeOneMore(t, cutoff, forceIds, i);
        if n == 1 {
          files := files - {id};
          revisions := Without(revisions, {id});
          gone := gone + {id};
        }
        sum := sum + n;
      }
      assert forceIds[..|forceIds|] == forceIds;
      RemoveKeeps(t, gone);
      Counted(t.files.Keys, gone);
      total := Some(sum);
    }
  }

  lemma {:induction false} KeptRevisions(revs: seq<Revision>, gone: set<string>, id: string)
    ensures RevisionsOf(Without(revs, gone), id) == if id in gone then [] else RevisionsOf(revs, id)
  {
    if revs != [] {
      var init, last := revs[..|revs| - 1], revs[|revs| - 1];
      KeptRevisions(init, gone, id);
      var w := Without(init, gone);
      assert (w + [last])[..|w|] == w;
      assert w + [] == w;
    }
  }

  lemma RemoveKeeps(t: Tables, gone: set<string>)
    ensures var t' := Remove(t, gone);
      && (forall id :: id in t'.files <==> id in t.files && id !in gone)
      && (forall id :: id in t'.files ==> t'.files[id] == t.files[id])
      && (forall id :: id in t'.files ==> RevisionsOf(t'.revisions, id) == RevisionsOf(t.revisions, id))
  {
    forall id | id in Remove(t, gone).files
      ensures RevisionsOf(Without(t.revisions, gone), id) == RevisionsOf(t.revisions, id)
    {
      KeptRevisions(t.revisions, gone, id);
    }
  }

  lemma Counted(all: set<string>, gone: set<string>)
    requires gone <= all
    ensures |gone| == |all| - |all - gone|
  {
    assert all == gone + (all - gone);
  }

  lemma PurgeOneMore(t: Tables, cutoff: string, ids: seq<string>, i: nat)
    requires i < |ids|
    ensures var gone := Purged(t.files, cutoff, ToSet(ids[..i]));
      var hit := ids[i] in t.files - gone && t.files[ids[i]].trashedAt.Some?;
      var next := if hit then gone + {ids[i]} else gone;
      && Purged(t.files, cutoff, ToSet(ids[..i + 1])) == next
      && (hit ==> Remove(t, next).files == t.files - gone - {ids[i]})
      && (hit ==> Remove(t, next).revisions == Without(Without(t.revisions, gone), {ids[i]}))
  {
    assert ids[..i + 1] == ids[..i] + [ids[i]];
    assert ToSet(ids[..i + 1]) == ToSet(ids[..i]) + {ids[i]};
    var gone := Purged(t.files, cutoff, ToSet(ids[..i]));
    WithoutTwice(t.revisions, gone, {ids[i]});
    assert t.files - gone - {ids[i]} == t.files - (gone + {ids[i]});
  }

  lemma {:induction false} WithoutTwice(revs: seq<Revision>, a: set<string>, b: set<string>)
    ensures Without(Without(revs, a), b) == Without(revs, a + b)
  {
    if revs != [] {
      var init, last := revs[..|revs| - 1], revs[|revs| - 1];
      WithoutTwice(init, a, b);
      var w := Without(init, a);
      assert (w + [last])[..|w|] == w;
      assert w + [] == w;
    }
  }

  /** The purge compares strings and thereby ages: a row trashed at time `t`
      goes by age exactly when `t` is before the cutoff. */
  lemma PurgeIsByAge(files: map<string, FileRow>, id: string, t: Utc, cutoff: Utc)
    requires id in files && t.Valid() && cutoff.Valid()
    ensures files[id].trashedAt == Some(Rfc3339(t)) ==>
              (id in Purged(files, Rfc3339(cutoff), {}) <==> t.Instant() < cutoff.Instant())
  {
    Rfc3339IsChronological(t, cutoff);
  }

  // ---- the two listings -----------------------------------------------------

  ghost predicate Distinct(s: seq<string>) {
    forall i, j :: 0 <= i < j < |s| ==> s[i] != s[j]
  }

  /** An answer to the default listing: live rows by path. */
  ghost predicate ListsLive(files: map<string, FileRow>, r: seq<string>) {
    && Distinct(r) && (forall id :: id in r <==> id in files && files[id].trashedAt.None?)
    && forall i, j :: 0 <= i < j < |r| ==> !Less(files[r[j]].path, files[r[i]].path)
  }

  /** An answer to the trash listing: trashed rows, newest first. */
  ghost predicate ListsTrash(files: map<string, FileRow>, r: seq<string>) {
    && Distinct(r) && (forall id :: id in r <==> id in files && files[id].trashedAt.Some?)
    && forall i, j :: 0 <= i < j < |r| ==>
         !Less(files[r[i]].trashedAt.value, files[r[j]].trashedAt.value)
  }

  /** Newest first by string is newest first by time. */
  lemma TrashListingIsByTime(files: map<string, FileRow>, r: seq<string>, i: nat, j: nat, a: Utc, b: Utc)
    requires ListsTrash(files, r) && i < j < |r| && r[i] in files && r[j] in files
    requires a.Valid() && b.Valid()
    ensures files[r[i]].trashedAt == Some(Rfc3339(a)) && files[r[j]].trashedAt == Some(Rfc3339(b)) ==>
              b.Instant() <= a.Instant()
  {
    Rfc3339IsChronological(a, b);
  }

  lemma {:induction false} DistinctCounts(s: seq<string>)
    requires Distinct(s)
    ensures multiset(s) == multiset(ToSet(s))
  {
    if s != [] {
      var t := s[1..];
      DistinctCounts(t);
      assert s == [s[0]] + t;
      assert ToSet(s) == ToSet(t) + {s[0]};
      assert s[0] !in t;
    }
  }

  /** Every row is on exactly one of the two listings, once; live paths ascend strictly. */
  lemma ListingsPartition(files: map<string, FileRow>, live: seq<string>, trash: seq<string>)
    requires PathsDistinct(files) && ListsLive(files, live) && ListsTrash(files, trash)
    ensures multiset(live) + multiset(trash) == multiset(files.Keys)
    ensures forall i, j :: 0 <= i < j < |live| ==> Less(files[live[i]].path, files[live[j]].path)
  {
    DistinctCounts(live);
    DistinctCounts(trash);
    assert ToSet(live) !! ToSet(trash) && ToSet(live) + ToSet(trash) == files.Keys;
    forall i, j | 0 <= i < j < |live| ensures Less(files[live[i]].path, files[live[j]].path) {
      assert live[i] in live && live[j] in live;
      Total(files[live[i]].path, files[live[j]].path);
    }
  }
}
