// The installers of garage and kanidm as steps that can fail or be cut off by
// a crash anywhere: the release is staged, probed, described, swapped in, and
// old releases are pruned.
module Install {
  import opened Common
  import opened StringOrder
  import opened Release

  const RETENTION: nat := 3

  /** What an install is busy with. */
  datatype Stage = Staging | Probing | Describing | Swapping | Cleaning

  /** How the last install ended: none yet, Ok, or Err or cut off by a crash
      in some stage. */
  datatype Outcome = NotRun | Succeeded | Failed(stage: Stage) | Crashed(stage: Stage)

  /** How far the running install has come. */
  datatype Progress =
    | Idle(last: Outcome)
    | Allocated(id: string)
    | Staged(id: string)
    | Probed(id: string)
    | Described(id: string)
    | Cleared(id: string)
    | Linked(id: string)
    | Swapped
    | Pruning(todo: seq<string>)

  /** The stage in which a failure at this point happens. */
  function StageOf(at: Progress): Stage {
    match at
    case Idle(_) => Staging
    case Allocated(_) => Staging
    case Staged(_) => Probing
    case Probed(_) => Describing
    case Described(_) => Swapping
    case Cleared(_) => Swapping
    case Linked(_) => Swapping
    case Swapped => Cleaning
    case Pruning(_) => Cleaning
  }

  datatype World = World(tree: Tree, at: Progress)

  datatype Step =
    | Begin(id: string)                 // new_release
    | CopyPart(data: string)            // fs::copy under way
    | CopyAll(data: string)
    | RunProbe                          // preflight_probe
    | ManifestPart                      // fs::write under way
    | ManifestAll(version: string)
    | Unlink(ok: bool)                  // make_current: remove current.new, best effort
    | Symlink                           // refused while current.new exists
    | Rename
    | ListDirs(seen: set<string>, read: bool) // prune_releases: entries found, link read
    | RemovePart(id: string, left: Dir) // remove_dir_all under way
    | RemoveNext(ok: bool)
    | Finish                            // the rest of the install touches no release
    | Fail                              // an I/O error: the install returns Err
    | Crash

  /** One step; a step that is not enabled changes nothing. */
  ghost function Next(w: World, s: Step, runs: Probe): World {
    var t := w.tree;
    match (w.at, s)
    case (Idle(_), Fail) => w
    case (Idle(_), Crash) => w
    case (_, Fail) => World(t, Idle(Failed(StageOf(w.at))))
    case (_, Crash) => World(t, Idle(Crashed(StageOf(w.at))))
    case (Idle(_), Begin(id)) => World(NewDir(t, id), Allocated(id))
    case (Allocated(id), CopyPart(data)) => World(SetBinary(t, id, data), w.at)
    case (Allocated(id), CopyAll(data)) => World(SetBinary(t, id, data), Staged(id))
    case (Staged(id), RunProbe) =>
      var passes := id in t.releases && t.releases[id].binary.Some? && runs(t.releases[id].binary.value);
      World(t, if passes then Probed(id) else Idle(Failed(Probing)))
    case (Probed(id), ManifestPart) => World(SetManifest(t, id, Torn), w.at)
    case (Probed(id), ManifestAll(v)) => World(SetManifest(t, id, Whole(v)), Described(id))
    case (Described(id), Unlink(ok)) => World(if ok then t.(staging := None) else t, Cleared(id))
    case (Cleared(id), Symlink) =>
      if t.staging.None? then World(t.(staging := Some(id)), Linked(id)) else World(t, Idle(Failed(Swapping)))
    case (Linked(id), Rename) => World(t.(current := t.staging, staging := None), Swapped)
    case (Swapped, ListDirs(seen, read)) =>
      World(t, Pruning(Doomed(SortedList(t.releases.Keys * seen), RETENTION, if read then t.current else None)))
    case (Pruning(todo), RemovePart(id, left)) =>
      if todo != [] && id == todo[0] && id in t.releases then
        World(t.(releases := t.releases[id := left]), w.at)
      else w
    case (Pruning(todo), RemoveNext(ok)) =>
      if todo == [] then w
      else World(if ok then t.(releases := t.releases - {todo[0]}) else t, Pruning(todo[1..]))
    case (Pruning(todo), Finish) => if todo == [] then World(t, Idle(Succeeded)) else w
    case _ => w
  }

  ghost function Run(w: World, steps: seq<Step>, runs: Probe): World {
    if steps == [] then w else Next(Run(w, steps[..|steps| - 1], runs), steps[|steps| - 1], runs)
  }

  // ---- the invariant -------------------------------------------------------

  /** What the running install has established, and that until the swap it
      works on a release other than the current one. */
  predicate Established(w: World, runs: Probe) {
    var t := w.tree;
    match w.at
    case Idle(_) => true
    case Allocated(id) => t.current != Some(id)
    case Staged(id) => t.current != Some(id)
    case Probed(id) =>
      t.current != Some(id) && id in t.releases && t.releases[id].binary.Some? && runs(t.releases[id].binary.value)
    case Described(id) => t.current != Some(id) && Good(t, runs, id)
    case Cleared(id) => t.current != Some(id) && Good(t, runs, id)
    case Linked(id) => t.current != Some(id) && Good(t, runs, id) && t.staging == Some(id)
    case Swapped => true
    case Pruning(todo) => forall i :: 0 <= i < |todo| ==> t.current != Some(todo[i])
  }

  predicate Sound(w: World, runs: Probe) {
    Serving(w.tree, runs) && Established(w, runs)
  }

  /** A new install takes an id other than that of the current release; ids
      from different seconds are different. */
  predicate FreshId(w: World, s: Step) {
    s.Begin? && w.at.Idle? ==> w.tree.current != Some(s.id)
  }

  /** Pruning reads the link, or the current release is among the newest of the
      entries it sees. */
  predicate SafePrune(w: World, s: Step) {
    s.ListDirs? && w.at.Swapped? ==> Protected(w.tree, RETENTION, s.seen, s.read)
  }

  lemma ListedSound(w: World, s: Step, runs: Probe)
    requires Sound(w, runs) && w.at.Swapped? && s.ListDirs? && SafePrune(w, s)
    ensures Sound(Next(w, s, runs), runs)
  {
    var t := w.tree;
    var ids, current := t.releases.Keys * s.seen, if s.read then t.current else None;
    var todo := Doomed(SortedList(ids), RETENTION, current);
    DoomedIsNotRetained(SortedList(ids), ids, RETENTION, current);
    forall i | 0 <= i < |todo| ensures t.current != Some(todo[i]) {
      assert todo[i] in ToSet(todo);
    }
  }

  lemma NextSound(w: World, s: Step, runs: Probe)
    requires Sound(w, runs) && FreshId(w, s) && SafePrune(w, s)
    ensures Sound(Next(w, s, runs), runs)
  {
    if w.at.Swapped? && s.ListDirs? {
      ListedSound(w, s, runs);
    }
    if w.at.Pruning? && s.RemoveNext? && w.at.todo != [] {
      assert forall i :: 0 <= i < |w.at.todo[1..]| ==> w.at.todo[1..][i] == w.at.todo[i + 1];
    }
  }

  ghost predicate Careful(w: World, steps: seq<Step>, runs: Probe) {
    forall i :: 0 <= i < |steps| ==>
      var v := Run(w, steps[..i], runs); FreshId(v, steps[i]) && SafePrune(v, steps[i])
  }

  /** At every step of any run of installs, failures and crashes that takes fresh
      ids and prunes safely, `current` is absent or resolves to a release that
      passed its probe and has its manifest. */
  lemma {:induction false} AlwaysServing(w: World, steps: seq<Step>, runs: Probe)
    requires Sound(w, runs) && Careful(w, steps, runs)
    ensures Sound(Run(w, steps, runs), runs)
    ensures var t := Run(w, steps, runs).tree;
      t.current.Some? ==>
        && t.current.value in t.releases
        && var d := t.releases[t.current.value];
           d.binary.Some? && runs(d.binary.value) && d.manifest.Whole?
  {
    if steps != [] {
      var init := steps[..|steps| - 1];
      forall i | 0 <= i < |init|
        ensures var v := Run(w, init[..i], runs); FreshId(v, init[i]) && SafePrune(v, init[i])
      {
        assert init[..i] == steps[..i];
      }
      AlwaysServing(w, init, runs);
      NextSound(Run(w, init, runs), steps[|steps| - 1], runs);
    }
  }

  /** `n` removals in turn, all successful. */
  ghost function RemoveAll(w: World, n: nat, runs: Probe): World {
    Iterate((v: World) => Next(v, RemoveNext(true), runs), w, n)
  }

  /** The first `n` of the chosen directories are gone. */
  function Removed(t: Tree, todo: seq<string>, n: nat): World
    requires n <= |todo|
  {
    World(t.(releases := t.releases - ToSet(todo[..n])), Pruning(todo[n..]))
  }

  lemma RemovalStep(t: Tree, todo: seq<string>, n: nat, runs: Probe)
    requires n < |todo|
    ensures Next(Removed(t, todo, n), RemoveNext(true), runs) == Removed(t, todo, n + 1)
  {
    var id := todo[n];
    assert todo[n..][0] == id && todo[n..][1..] == todo[n + 1..];
    assert todo[..n + 1] == todo[..n] + [id];
    MinusTwice(t.releases, ToSet(todo[..n]), id);
    ToSetSnoc(todo[..n], id);
  }

  lemma RemovalsRun(t: Tree, todo: seq<string>, runs: Probe)
    ensures RemoveAll(Removed(t, todo, 0), |todo|, runs) == Removed(t, todo, |todo|)
  {
    var step := (w: World) => Next(w, RemoveNext(true), runs);
    var path := (n: nat) => if n <= |todo| then Removed(t, todo, n) else World(t, Swapped);
    forall i: nat | i < |todo| ensures step(path(i)) == path(i + 1) { RemovalStep(t, todo, i, runs); }
    IterateAlong(step, path, 0, |todo|);
  }

  /** The prune after the swap, carried through, leaves `current` in place exactly
      when it is safe. Failing input: the link cannot be read and three releases
      sort after the new one, say because the clock was set back. */
  lemma CurrentSurvivesPruneIff(t: Tree, seen: set<string>, read: bool, runs: Probe)
    requires Serving(t, runs)
    ensures var w := Next(World(t, Swapped), ListDirs(seen, read), runs);
      && w.at.Pruning?
      && (Serving(RemoveAll(w, |w.at.todo|, runs).tree, runs) <==>
            || read || t.current.None? || t.current.value !in seen
            || |Newer(t.releases.Keys * seen, t.current.value)| < 3)
  {
    var todo := Chosen(t, seen, read);
    RemovalsRun(t, todo, runs);
    assert todo[..|todo|] == todo && Removed(t, todo, 0) == World(t, Pruning(todo)) by {
      assert t.releases - ToSet(todo[..0]) == t.releases && todo[0..] == todo;
    }
    PruneServesIff(t, runs, RETENTION, seen, read);
  }

  /** The directories that the prune chose, as a list. */
  lemma Chosen(t: Tree, seen: set<string>, read: bool) returns (todo: seq<string>)
    ensures forall runs: Probe :: Next(World(t, Swapped), ListDirs(seen, read), runs) == World(t, Pruning(todo))
    ensures t.releases - ToSet(todo) == Pruned(t.releases, OldReleases(t, RETENTION, seen, read), map[])
  {
    var ids, current := t.releases.Keys * seen, if read then t.current else None;
    todo := Doomed(SortedList(ids), RETENTION, current);
    DoomedIsNotRetained(SortedList(ids), ids, RETENTION, current);
  }

  /** Why ids must differ: an install that reuses an id overwrites that release
      in place, which is harmless exactly when it is not the current one. */
  lemma ReusedIdIsSafeIffNotCurrent(t: Tree, last: Outcome, runs: Probe, id: string, junk: string)
    requires Serving(t, runs) && !runs(junk)
    ensures var w := Next(Next(World(t, Idle(last)), Begin(id), runs), CopyPart(junk), runs);
      Serving(w.tree, runs) <==> t.current != Some(id)
  {
    var t1 := NewDir(t, id);
    assert Next(World(t, Idle(last)), Begin(id), runs) == World(t1, Allocated(id));
  }

  // ---- failed installs --------------------------------------------------------

  /** What one install of `id` has done to `current`, which was `before`. */
  predicate Follows(w: World, id: string, before: Option<string>) {
    match w.at
    case Allocated(x) => x == id && w.tree.current == before
    case Staged(x) => x == id && w.tree.current == before
    case Probed(x) => x == id && w.tree.current == before
    case Described(x) => x == id && w.tree.current == before
    case Cleared(x) => x == id && w.tree.current == before
    case Linked(x) => x == id && w.tree.current == before && w.tree.staging == Some(id)
    case Swapped => w.tree.current == Some(id)
    case Pruning(_) => w.tree.current == Some(id)
    case Idle(NotRun) => false
    case Idle(Succeeded) => w.tree.current == Some(id)
    case Idle(Failed(stage)) => w.tree.current == if stage.Cleaning? then Some(id) else before
    case Idle(Crashed(stage)) => w.tree.current == if stage.Cleaning? then Some(id) else before
  }

  lemma {:induction false} OneInstallRuns(t: Tree, last: Outcome, id: string, rest: seq<Step>, runs: Probe)
    requires forall i :: 0 <= i < |rest| ==> !rest[i].Begin?
    ensures Follows(Run(Next(World(t, Idle(last)), Begin(id), runs), rest, runs), id, t.current)
  {
    var w0 := Next(World(t, Idle(last)), Begin(id), runs);
    if rest != [] {
      var n := |rest| - 1;
      OneInstallRuns(t, last, id, rest[..n], runs);
      FollowsStep(Run(w0, rest[..n], runs), rest[n], id, t.current, runs);
    }
  }

  lemma FollowsStep(w: World, s: Step, id: string, before: Option<string>, runs: Probe)
    requires Follows(w, id, before) && !s.Begin?
    ensures Follows(Next(w, s, runs), id, before)
  {
  }

  /** An install that has returned or was cut off left `current` as it was
      exactly when it did not return Ok and had not reached the cleaning after
      the swap; in every other case its own release is current. */
  lemma InstallKeepsCurrentIffEndedBeforeSwap(t: Tree, last: Outcome, id: string, rest: seq<Step>, runs: Probe)
    requires t.current != Some(id)
    requires forall i :: 0 <= i < |rest| ==> !rest[i].Begin?
    ensures var w := Run(Next(World(t, Idle(last)), Begin(id), runs), rest, runs);
      w.at.Idle? ==>
        && w.at.last != NotRun
        && (w.tree.current == t.current <==> w.at.last != Succeeded && w.at.last.stage != Cleaning)
        && (w.tree.current != t.current ==> w.tree.current == Some(id))
  {
    OneInstallRuns(t, last, id, rest, runs);
  }

  /** An error right after the rename, say in listing the releases to prune:
      the install returns Err and the new release is current. */
  lemma FailureAfterSwapKeepsTheNewRelease(w: World, id: string, runs: Probe)
    requires Sound(w, runs) && w.at == Linked(id)
    ensures var w' := Next(Next(w, Rename, runs), Fail, runs);
      w'.at == Idle(Failed(Cleaning)) && w'.tree.current == Some(id) && w'.tree.current != w.tree.current
  {
    assert Next(w, Rename, runs).tree.current == Some(id);
  }

  // ---- an install that nothing disturbs ---------------------------------------

  /** Staged, probed, described and swapped in, then the listing for the prune. */
  ghost function SwappedIn(t: Tree, last: Outcome, id: string, data: string, version: string, runs: Probe): World {
    var probed := Next(Next(Next(World(t, Idle(last)), Begin(id), runs), CopyAll(data), runs), RunProbe, runs);
    Next(Next(Next(Next(probed, ManifestAll(version), runs), Unlink(true), runs), Symlink, runs), Rename, runs)
  }

  /** The prune over a complete listing, every removal, and the return. */
  ghost function Cleaned(w: World, runs: Probe): World {
    var listed := Next(w, ListDirs(w.tree.releases.Keys, true), runs);
    if listed.at.Pruning? then Next(RemoveAll(listed, |listed.at.todo|, runs), Finish, runs) else listed
  }

  /** An undisturbed install of a binary that starts returns Ok with its release
      current, complete and described, and with nothing staged; what is left are
      the newest three releases and this one. */
  lemma UndisturbedInstallSucceeds(t: Tree, last: Outcome, id: string, data: string, version: string, runs: Probe)
    requires runs(data)
    ensures var w := Cleaned(SwappedIn(t, last, id, data, version, runs), runs);
      && w.at == Idle(Succeeded) && w.tree.current == Some(id) && w.tree.staging == None
      && id in w.tree.releases && w.tree.releases[id] == Dir(Some(data), Whole(version))
      && w.tree.releases.Keys == Retained(t.releases.Keys + {id}, 3, Some(id))
  {
    var releases := t.releases[id := Dir(Some(data), Whole(version))];
    SwappedInTree(t, last, id, data, version, runs);
    assert releases.Keys == t.releases.Keys + {id};
    PruneFinishes(Tree(releases, Some(id), None), runs);
    PrunedKeys(Tree(releases, Some(id), None), releases.Keys, id);
  }

  lemma PruneFinishes(t: Tree, runs: Probe)
    ensures Cleaned(World(t, Swapped), runs)
         == World(t.(releases := Pruned(t.releases, OldReleases(t, RETENTION, t.releases.Keys, true), map[])), Idle(Succeeded))
  {
    var todo := Chosen(t, t.releases.Keys, true);
    RemovalsRun(t, todo, runs);
    RemovedAll(t, todo);
  }

  lemma SwappedInTree(t: Tree, last: Outcome, id: string, data: string, version: string, runs: Probe)
    requires runs(data)
    ensures SwappedIn(t, last, id, data, version, runs)
         == World(Tree(t.releases[id := Dir(Some(data), Whole(version))], Some(id), None), Swapped)
  {
    var t1 := NewDir(t, id);
    var t2 := SetBinary(t1, id, data);
    var t3 := SetManifest(t2, id, Whole(version));
    assert t3.releases == t.releases[id := Dir(Some(data), Whole(version))];
    assert Next(Next(World(t, Idle(last)), Begin(id), runs), CopyAll(data), runs) == World(t2, Staged(id));
    assert Next(World(t2, Staged(id)), RunProbe, runs) == World(t2, Probed(id));
    assert Next(World(t2, Probed(id)), ManifestAll(version), runs) == World(t3, Described(id));
  }

  lemma RemovedAll(t: Tree, todo: seq<string>)
    ensures Removed(t, todo, 0) == World(t, Pruning(todo))
    ensures Removed(t, todo, |todo|) == World(t.(releases := t.releases - ToSet(todo)), Pruning([]))
  {
    assert todo[..0] == [] && todo[0..] == todo && todo[..|todo|] == todo && todo[|todo|..] == [];
    assert t.releases - ToSet([]) == t.releases;
  }

  lemma PrunedKeys(t: Tree, ids: set<string>, id: string)
    requires t.current == Some(id) && ids == t.releases.Keys
    ensures Pruned(t.releases, OldReleases(t, RETENTION, ids, true), map[]).Keys == Retained(ids, 3, Some(id))
    ensures id in t.releases ==> var left := Pruned(t.releases, OldReleases(t, RETENTION, ids, true), map[]);
      id in left && left[id] == t.releases[id]
  {
    assert ids * ids == ids;
  }
}
