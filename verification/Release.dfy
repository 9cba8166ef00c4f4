// Release directories and the `current` symlink: installs as interruptible
// steps, and retention.
module Release {
  import opened Common
  import opened StringOrder
  import opened Timestamps

  datatype Manifest = NoManifest | Torn | Whole(version: string)

  datatype Dir = Dir(binary: Option<string>, manifest: Manifest)

  /** The directories under `<root>/releases`, the targets of `<root>/current` and `<root>/current.new`. */
  datatype Tree = Tree(releases: map<string, Dir>, current: Option<string>, staging: Option<string>)

  /** The pre-flight probe: whether a binary with these contents starts. */
  type Probe = string -> bool

  // ---- single file-system operations ------------------------------------------

  /** `create_dir_all`: an existing directory is reused as it is. */
  function NewDir(t: Tree, id: string): Tree {
    if id in t.releases then t else t.(releases := t.releases[id := Dir(None, NoManifest)])
  }

  function SetBinary(t: Tree, id: string, data: string): Tree {
    if id in t.releases then t.(releases := t.releases[id := t.releases[id].(binary := Some(data))]) else t
  }

  function SetManifest(t: Tree, id: string, m: Manifest): Tree {
    if id in t.releases then t.(releases := t.releases[id := t.releases[id].(manifest := m)]) else t
  }

  /** A release that passed its probe and carries its manifest. */
  predicate Good(t: Tree, runs: Probe, id: string) {
    && id in t.releases && t.releases[id].binary.Some? && runs(t.releases[id].binary.value)
    && t.releases[id].manifest.Whole?
  }

  /** `current` is absent or resolves to a good release. */
  predicate Serving(t: Tree, runs: Probe) {
    t.current.Some? ==> Good(t, runs, t.current.value)
  }

  // ---- retention ----------------------------------------------------------------

  /** Releases that sort after `id`. */
  function Newer(ids: set<string>, id: string): set<string> {
    set x | x in ids && Less(id, x)
  }

  /** Those with fewer than `keep` releases after them. */
  function Newest(ids: set<string>, keep: nat): set<string> {
    set id | id in ids && |Newer(ids, id)| < keep
  }

  /** The newest `keep` releases and the active one. */
  function Retained(ids: set<string>, keep: nat, current: Option<string>): set<string> {
    set id | id in ids && (|Newer(ids, id)| < keep || current == Some(id))
  }

  lemma NewerInSorted(s: seq<string>, ids: set<string>, i: nat)
    requires Lists(s, ids) && i < |s|
    ensures |Newer(ids, s[i])| == |s| - 1 - i
  {
    SliceLists(s, i + 1);
    assert Newer(ids, s[i]) == ToSet(s[i + 1..]) by {
      forall x ensures x in Newer(ids, s[i]) <==> x in s[i + 1..] {
        if x in Newer(ids, s[i]) {
          var j :| 0 <= j < |s| && s[j] == x;
          if j < i { Asymmetric(s[j], s[i]); }
          if j == i { Irreflexive(x); }
          assert s[i + 1..][j - i - 1] == x;
        }
        if x in s[i + 1..] {
          var j :| 0 <= j < |s[i + 1..]| && s[i + 1..][j] == x;
          assert s[j + i + 1] == x;
        }
      }
    }
  }

  /** The entries that pruning removes: all but the last `keep`, minus the active one. */
  function Doomed(sorted: seq<string>, keep: nat, current: Option<string>): seq<string> {
    Others(if |sorted| <= keep then [] else sorted[..|sorted| - keep], current)
  }

  function Others(s: seq<string>, current: Option<string>): (r: seq<string>)
    ensures forall x :: x in r <==> x in s && current != Some(x)
  {
    if s == [] then []
    else (if current == Some(s[0]) then [] else [s[0]]) + Others(s[1..], current)
  }

  lemma DoomedIsNotRetained(s: seq<string>, ids: set<string>, keep: nat, current: Option<string>)
    requires Lists(s, ids)
    ensures ToSet(Doomed(s, keep, current)) == ids - Retained(ids, keep, current)
  {
    var cut := if |s| <= keep then [] else s[..|s| - keep];
    forall id ensures id in Doomed(s, keep, current) <==> id in ids - Retained(ids, keep, current) {
      if id in ids {
        var i :| 0 <= i < |s| && s[i] == id;
        NewerInSorted(s, ids, i);
        if i < |cut| {
          assert cut[i] == id;
        } else if id in cut {
          var j :| 0 <= j < |cut| && cut[j] == id;
          assert s[j] == id && j < i;
          Irreflexive(id);
        }
      } else {
        assert id !in s;
      }
    }
  }

  class ReleaseRoot {
    var tree: Tree

    constructor ()
      ensures tree == Tree(map[], None, None)
    {
      tree := Tree(map[], None, None);
    }

    /** Unlink a stale staging link, link, rename. `unlinked`, `linked` and
        `renamed` are what the disk allows; an existing staging link refuses
        the symlink call. */
    method MakeCurrent(id: string, unlinked: bool, linked: bool, renamed: bool) returns (ok: bool)
      modifies this
      ensures tree.releases == old(tree).releases
      ensures ok ==> tree.current == Some(id) && tree.staging == None
      ensures !ok ==> tree.current == old(tree).current
      ensures ok <==> (unlinked || old(tree).staging.None?) && linked && renamed
    {
      if unlinked {
        tree := tree.(staging := None);
      }
      if tree.staging.Some? || !linked {
        return false;
      }
      tree := tree.(staging := Some(id));
      if !renamed {
        return false;
      }
      tree := tree.(current := tree.staging, staging := None);
      ok := true;
    }

    /** Sort the directory entries, walk the oldest, skip the active release,
        remove the rest; the answer lists what was removed, oldest first, each
        once. `seen` are the names that the walk over the directory yields: too
        few when reading it breaks off, none when its probe errs. `read` is
        whether the link could be read: if not, no release is protected. `stuck`
        is what remains of directories that cannot be removed. */
    method PruneReleases(keep: nat, seen: set<string>, read: bool, stuck: map<string, Dir>)
      returns (removed: seq<string>)
      modifies this
      ensures var doomed := OldReleases(old(tree), keep, seen, read);
        && Lists(removed, doomed - stuck.Keys)
        && tree == old(tree).(releases := Pruned(old(tree).releases, doomed, stuck))
    {
      ghost var t := tree;
      var current := if read then tree.current else None;
      var entries := SortNames(tree.releases.Keys * seen);
      removed := [];
      PrunedWalk(t, entries, keep, seen, read, stuck);
      if |entries| <= keep {
        return;
      }
      var pruneCount := |entries| - keep;
      for i := 0 to pruneCount
        invariant tree == t.(releases := Walk(t.releases, entries[..i], current, stuck))
        invariant removed == Removable(entries[..i], current, stuck.Keys)
      {
        var id := entries[i];
        assert entries[..i + 1][..i] == entries[..i];
        if current == Some(id) {
          continue;
        }
        if id in stuck {
          tree := tree.(releases := tree.releases[id := stuck[id]]);
        } else {
          tree := tree.(releases := tree.releases - {id});
          removed := removed + [id];
        }
      }
    }
  }

  /** The directories after the walk over the entries `s`. */
  function Walk(m: map<string, Dir>, s: seq<string>, current: Option<string>, stuck: map<string, Dir>): map<string, Dir> {
    if s == [] then m
    else
      var r, id := Walk(m, s[..|s| - 1], current, stuck), s[|s| - 1];
      if current == Some(id) then r else if id in stuck then r[id := stuck[id]] else r - {id}
  }

  lemma {:induction false} WalkIsPruned(m: map<string, Dir>, s: seq<string>, current: Option<string>, stuck: map<string, Dir>)
    requires forall i :: 0 <= i < |s| ==> s[i] in m
    ensures Walk(m, s, current, stuck) == Pruned(m, ToSet(Others(s, current)), stuck)
  {
    if s != [] {
      var init, id := s[..|s| - 1], s[|s| - 1];
      WalkIsPruned(m, init, current, stuck);
      assert s == init + [id];
      OthersSnoc(init, id, current);
      if current != Some(id) { PrunedMore(m, ToSet(Others(init, current)), id, stuck); }
    }
  }

  /** What pruning is about to remove: of the entries it sees, all but the newest
      `keep` and the release it knows to be active. */
  function OldReleases(t: Tree, keep: nat, seen: set<string>, read: bool): set<string> {
    var ids := t.releases.Keys * seen;
    ids - Retained(ids, keep, if read then t.current else None)
  }

  /** The directories after the removal of `doomed`, of which `stuck` remain in part. */
  function Pruned(m: map<string, Dir>, doomed: set<string>, stuck: map<string, Dir>): map<string, Dir> {
    map id | id in m && (id !in doomed || id in stuck) :: if id in doomed then stuck[id] else m[id]
  }

  lemma PrunedMore(m: map<string, Dir>, doomed: set<string>, id: string, stuck: map<string, Dir>)
    requires id in m
    ensures Pruned(m, doomed + {id}, stuck) ==
      if id in stuck then Pruned(m, doomed, stuck)[id := stuck[id]] else Pruned(m, doomed, stuck) - {id}
  {
  }

  lemma {:induction false} OthersSnoc(s: seq<string>, id: string, current: Option<string>)
    ensures ToSet(Others(s + [id], current)) == ToSet(Others(s, current)) + if current == Some(id) then {} else {id}
  {
    assert forall x :: x in s + [id] <==> x in s || x == id;
  }

  /** What the walk over the oldest entries removes. */
  lemma PrunedList(entries: seq<string>, ids: set<string>, keep: nat, current: Option<string>, stuck: set<string>)
    requires Lists(entries, ids)
    ensures var cut := if |entries| <= keep then [] else entries[..|entries| - keep];
      && ToSet(Others(cut, current)) == ids - Retained(ids, keep, current)
      && Lists(Removable(cut, current, stuck), ids - Retained(ids, keep, current) - stuck)
  {
    DoomedIsNotRetained(entries, ids, keep, current);
    RemovableLists(if |entries| <= keep then [] else entries[..|entries| - keep], current, stuck);
  }

  lemma PrunedWalk(t: Tree, entries: seq<string>, keep: nat, seen: set<string>, read: bool, stuck: map<string, Dir>)
    requires Lists(entries, t.releases.Keys * seen)
    ensures var cut := if |entries| <= keep then [] else entries[..|entries| - keep];
      var current, doomed := if read then t.current else None, OldReleases(t, keep, seen, read);
      && Lists(Removable(cut, current, stuck.Keys), doomed - stuck.Keys)
      && Walk(t.releases, cut, current, stuck) == Pruned(t.releases, doomed, stuck)
  {
    var cut := if |entries| <= keep then [] else entries[..|entries| - keep];
    var current := if read then t.current else None;
    PrunedList(entries, t.releases.Keys * seen, keep, current, stuck.Keys);
    forall i | 0 <= i < |cut| ensures cut[i] in t.releases { assert cut[i] == entries[i] && entries[i] in entries; }
    WalkIsPruned(t.releases, cut, current, stuck);
  }

  /** A prune whose removals all succeed leaves `current` in place exactly when
      the link was read, or its release was not seen or is among the newest
      `keep` of those seen. */
  lemma PruneServesIff(t: Tree, runs: Probe, keep: nat, seen: set<string>, read: bool)
    requires Serving(t, runs)
    ensures Serving(t.(releases := Pruned(t.releases, OldReleases(t, keep, seen, read), map[])), runs)
       <==> Protected(t, keep, seen, read)
  {
  }

  /** What keeps the current release from being pruned. */
  predicate Protected(t: Tree, keep: nat, seen: set<string>, read: bool) {
    read || t.current.None? || t.current.value !in seen
    || |Newer(t.releases.Keys * seen, t.current.value)| < keep
  }

  /** Entries that the walk does not yield only make the prune smaller. */
  lemma ShortListingPrunesLess(t: Tree, keep: nat, seen: set<string>, more: set<string>, read: bool)
    requires seen <= more
    ensures OldReleases(t, keep, seen, read) <= OldReleases(t, keep, more, read)
  {
    forall id | id in OldReleases(t, keep, seen, read) ensures id in OldReleases(t, keep, more, read) {
      SubsetSize(Newer(t.releases.Keys * seen, id), Newer(t.releases.Keys * more, id));
    }
  }

  /** The entries that can go, in order: not the active one, not a stuck one. */
  function Removable(s: seq<string>, current: Option<string>, stuck: set<string>): seq<string> {
    if s == [] then []
    else
      var id := s[|s| - 1];
      Removable(s[..|s| - 1], current, stuck) + if current == Some(id) || id in stuck then [] else [id]
  }

  lemma {:induction false} RemovableLists(s: seq<string>, current: Option<string>, stuck: set<string>)
    requires Sorted(s)
    ensures Lists(Removable(s, current, stuck), ToSet(Others(s, current)) - stuck)
  {
    if s != [] {
      var init, id := s[..|s| - 1], s[|s| - 1];
      RemovableLists(init, current, stuck);
      var r, names := Removable(init, current, stuck), ToSet(Others(init, current)) - stuck;
      assert s == init + [id];
      OthersSnoc(init, id, current);
      if current != Some(id) && id !in stuck {
        forall i | 0 <= i < |r| ensures Less(r[i], id) { assert r[i] in r && r[i] in init; }
        SnocLists(r, id, names);
        assert ToSet(Others(s, current)) - stuck == names + {id};
      } else {
        assert ToSet(Others(s, current)) - stuck == names;
        assert r + [] == r;
      }
    }
  }

  /** When every removal succeeds, what is left is the newest `keep` and the
      active release, at most keep + 1, and pruning again removes nothing. */
  lemma PruneLeavesTheNewest(ids: set<string>, keep: nat, current: Option<string>)
    ensures var left := Retained(ids, keep, current);
      && (if |ids| < keep then |ids| else keep) <= |left| <= keep + 1
      && (current.Some? && current.value in ids ==> current.value in left)
      && (forall x, y :: x in left && y in ids - left && current != Some(x) ==> Less(y, x))
      && Retained(left, keep, current) == left
  {
    var left := Retained(ids, keep, current);
    AtMostKeep(ids, keep);
    var top := Newest(ids, keep);
    AllKeep(ids, keep);
    SubsetSize(top, left);
    assert left <= top + (if current.Some? then {current.value} else {});
    CardinalityBound(left, top, if current.Some? then {current.value} else {});
    forall x, y | x in left && y in ids - left && current != Some(x) ensures Less(y, x) {
      Total(x, y);
      if Less(x, y) {
        assert Newer(ids, y) <= Newer(ids, x) by {
          forall z | z in Newer(ids, y) ensures Less(x, z) { Transitive(x, y, z); }
        }
        SubsetSize(Newer(ids, y), Newer(ids, x));
      }
    }
    forall id | id in left ensures |Newer(left, id)| <= |Newer(ids, id)| {
      SubsetSize(Newer(left, id), Newer(ids, id));
    }
  }

  lemma CardinalityBound(a: set<string>, b: set<string>, c: set<string>)
    requires a <= b + c && |c| <= 1
    ensures |a| <= |b| + 1
  {
    SubsetSize(a, b + c);
    assert |b + c| + |b * c| == |b| + |c|;
  }

  lemma AtMostKeep(ids: set<string>, keep: nat)
    ensures |Newest(ids, keep)| <= keep
  {
    var s := SortedList(ids);
    ListsLength(s, ids);
    var top := Newest(ids, keep);
    var cut := if |s| <= keep then 0 else |s| - keep;
    SliceLists(s, cut);
    var tail := ToSet(s[cut..]);
    assert top <= tail by {
      forall id | id in top ensures id in tail {
        assert id in s;
        var i :| 0 <= i < |s| && s[i] == id;
        NewerInSorted(s, ids, i);
        assert s[cut..][i - cut] == id;
      }
    }
    SubsetSize(top, tail);
  }

  lemma AllKeep(ids: set<string>, keep: nat)
    ensures |Newest(ids, keep)| >= if |ids| < keep then |ids| else keep
  {
    var s := SortedList(ids);
    ListsLength(s, ids);
    var cut := if |s| <= keep then 0 else |s| - keep;
    SliceLists(s, cut);
    forall id | id in s[cut..] ensures id in Newest(ids, keep) {
      var i :| 0 <= i < |s[cut..]| && s[cut..][i] == id;
      assert s[cut + i] == id && id in s;
      NewerInSorted(s, ids, cut + i);
    }
    SubsetSize(ToSet(s[cut..]), Newest(ids, keep));
  }

  /** The release that pruning considers newer was made in a later second, or
      in the same second under a version text that sorts later. */
  lemma NewerIsLater(ids: set<string>, a: Utc, v: string, b: Utc, w: string)
    requires a.Valid() && b.Valid() && ReleaseId(b, w) in ids
    ensures ReleaseId(b, w) in Newer(ids, ReleaseId(a, v)) <==>
      a.Seconds() < b.Seconds() || (a.Seconds() == b.Seconds() && Less(v, w))
  {
    ReleaseIdOrder(a, v, b, w);
  }
}
