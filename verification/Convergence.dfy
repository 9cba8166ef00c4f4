// The reconcile loop: it resumes after any partial apply, converges exactly on
// well-posed specs, and no shorter sequence of steps does the same.
module Convergence {
  import opened Common
  import opened StringOrder
  import opened Sql
  import opened Reconciler

  /** Observe, then plan. */
  ghost function PlanFor(desired: seq<DatabaseSpec>, s: set<string>, prune: bool): seq<DatabaseChange> {
    Plan(desired, Snapshot(s), prune)
  }

  /** No system database is asked for, and no missing database twice. */
  ghost predicate WellPosed(desired: seq<DatabaseSpec>, s: set<string>) {
    && Names(desired) !! SYSTEM
    && forall i, j :: 0 <= i < j < |desired| && desired[i].name == desired[j].name ==> desired[i].name in s
  }

  /** The server can hold every desired name whole. */
  ghost predicate NamesFit(desired: seq<DatabaseSpec>) {
    forall i :: 0 <= i < |desired| ==> |desired[i].name| <= MAX_IDENTIFIER
  }

  /** The databases that are there once a change has done what it says. */
  function Intended(s: set<string>, c: DatabaseChange): set<string> {
    match c
    case Create(db) => s + {db.name}
    case Drop(n) => s - {n}
  }

  // ---- the plan as a function of sets -----------------------------------------

  function Surplus(wanted: set<string>, actual: seq<string>): seq<string> {
    if actual == [] then []
    else (if actual[0] in wanted || actual[0] in SYSTEM then [] else [actual[0]]) + Surplus(wanted, actual[1..])
  }

  function AsDrops(names: seq<string>): (cs: seq<DatabaseChange>)
    ensures |cs| == |names| && forall i :: 0 <= i < |cs| ==> cs[i] == Drop(names[i])
  {
    if names == [] then [] else [Drop(names[0])] + AsDrops(names[1..])
  }

  lemma {:induction false} DropsAreSurplus(wanted: set<string>, actual: seq<string>)
    ensures Drops(wanted, actual) == AsDrops(Surplus(wanted, actual))
  {
    if actual != [] { DropsAreSurplus(wanted, actual[1..]); }
  }

  lemma ConsSorted(h: string, u: seq<string>, t: seq<string>)
    requires Sorted([h] + t) && Sorted(u) && forall x :: x in u ==> x in t
    ensures Sorted([h] + u)
  {
    var s := [h] + t;
    forall i | 0 <= i < |u| ensures Less(h, u[i]) {
      assert u[i] in u && u[i] in t;
      var m :| 0 <= m < |t| && t[m] == u[i];
      assert s[m + 1] == u[i] && s[0] == h;
    }
  }

  /** Filtering a sorted listing lists the filtered set. */
  lemma {:induction false} SurplusLists(wanted: set<string>, actual: seq<string>, names: set<string>)
    requires Lists(actual, names)
    ensures Lists(Surplus(wanted, actual), names - wanted - SYSTEM)
    decreases |actual|
  {
    if actual != [] {
      var h, t := actual[0], actual[1..];
      TailLists(actual, names);
      SurplusLists(wanted, t, names - {h});
      var u := Surplus(wanted, t);
      if h in wanted || h in SYSTEM {
        assert (names - {h}) - wanted - SYSTEM == names - wanted - SYSTEM;
        assert [] + u == u;
      } else {
        assert actual == [h] + t;
        ConsSorted(h, u, t);
        forall x ensures x in [h] + u <==> x in names - wanted - SYSTEM {
          assert x in [h] + u <==> x == h || x in u;
        }
      }
    }
  }

  lemma PlanShape(desired: seq<DatabaseSpec>, s: set<string>, prune: bool)
    requires Names(desired) !! SYSTEM
    ensures PlanFor(desired, s, prune) == Creates(desired, s)
      + if prune then AsDrops(SortedList(s - SYSTEM - Names(desired))) else []
  {
    var l := Snapshot(s);
    assert ToSet(l) == s - SYSTEM;
    CreatesSame(desired, s - SYSTEM, s);
    DropsAreSurplus(Names(desired), l);
    SurplusLists(Names(desired), l, s - SYSTEM);
    assert s - SYSTEM - Names(desired) - SYSTEM == s - SYSTEM - Names(desired);
    ListsIsSortedList(Surplus(Names(desired), l), s - SYSTEM - Names(desired));
  }

  lemma {:induction false} CreatesSame(desired: seq<DatabaseSpec>, p: set<string>, q: set<string>)
    requires forall i :: 0 <= i < |desired| ==> (desired[i].name in p <==> desired[i].name in q)
    ensures Creates(desired, p) == Creates(desired, q)
  {
    if desired != [] { CreatesSame(desired[1..], p, q); }
  }

  lemma {:induction false} CreatesAfterCreate(desired: seq<DatabaseSpec>, s: set<string>)
    requires Creates(desired, s) != []
    requires forall i, j :: 0 <= i < j < |desired| && desired[i].name == desired[j].name ==> desired[i].name in s
    ensures var c := Creates(desired, s)[0];
      c.Create? && c.db in desired && c.db.name !in s
      && Creates(desired, s + {c.db.name}) == Creates(desired, s)[1..]
  {
    var h, t := desired[0], desired[1..];
    if h.name in s {
      CreatesAfterCreate(t, s);
    } else {
      forall i | 0 <= i < |t| ensures t[i].name in s + {h.name} <==> t[i].name in s {
        assert t[i] == desired[i + 1];
      }
      CreatesSame(t, s + {h.name}, s);
    }
  }

  /** What is planned, for any spec and any server. */
  lemma PlannedChange(desired: seq<DatabaseSpec>, s: set<string>, prune: bool, c: DatabaseChange)
    ensures c in PlanFor(desired, s, prune) <==>
      match c
      case Create(db) => db in desired && db.name !in s - SYSTEM
      case Drop(n) => prune && n in s - SYSTEM - Names(desired)
  {
    var l := Snapshot(s);
    assert ToSet(l) == s - SYSTEM;
    CreatesMembers(desired, s - SYSTEM);
    DropsMembers(Names(desired), l);
  }

  // ---- one step ------------------------------------------------------------------

  /** The first planned change is called for, and once it has done what it
      says, planning gives the rest of the plan. */
  lemma FirstChange(desired: seq<DatabaseSpec>, s: set<string>, prune: bool)
    requires WellPosed(desired, s) && PlanFor(desired, s, prune) != []
    ensures var plan := PlanFor(desired, s, prune);
      && !Skipped(plan[0])
      && (plan[0].Create? ==> plan[0].db in desired && plan[0].db.name in Names(desired) - s)
      && (plan[0].Drop? ==> prune && plan[0].name in s - SYSTEM - Names(desired))
      && WellPosed(desired, Intended(s, plan[0]))
      && PlanFor(desired, Intended(s, plan[0]), prune) == plan[1..]
  {
    PlanShape(desired, s, prune);
    if Creates(desired, s) != [] {
      FirstCreate(desired, s, prune);
    } else {
      FirstDrop(desired, s);
    }
  }

  /** A server on which the names fit does what the change says. */
  lemma FirstApplied(desired: seq<DatabaseSpec>, s: Server, prune: bool)
    requires WellPosed(desired, s) && NamesFit(desired) && PlanFor(desired, s, prune) != []
    ensures var plan := PlanFor(desired, s, prune); Applied(s, plan[0]) == Intended(s, plan[0])
    ensures var c := PlanFor(desired, s, prune)[0];
      c.Create? ==> Cut(c.db.name) == c.db.name && c.db.name !in s
  {
    FirstChange(desired, s, prune);
  }

  lemma FirstCreate(desired: seq<DatabaseSpec>, s: set<string>, prune: bool)
    requires WellPosed(desired, s) && Creates(desired, s) != []
    ensures var plan, c := PlanFor(desired, s, prune), Creates(desired, s)[0];
      && plan != [] && plan[0] == c && c.Create? && c.db in desired && c.db.name in Names(desired) - s
      && WellPosed(desired, Intended(s, c)) && PlanFor(desired, Intended(s, c), prune) == plan[1..]
  {
    CreatesAfterCreate(desired, s);
    var c := Creates(desired, s)[0];
    var s' := s + {c.db.name};
    assert s' - SYSTEM - Names(desired) == s - SYSTEM - Names(desired);
    PlanShape(desired, s, prune);
    PlanShape(desired, s', prune);
    TailOfConcat(Creates(desired, s), Creates(desired, s'),
      if prune then AsDrops(SortedList(s - SYSTEM - Names(desired))) else []);
  }

  lemma TailOfConcat<T>(a: seq<T>, b: seq<T>, d: seq<T>)
    requires a != [] && a[1..] == b
    ensures (a + d)[0] == a[0] && (a + d)[1..] == b + d
  {
  }

  lemma FirstDrop(desired: seq<DatabaseSpec>, s: set<string>)
    requires WellPosed(desired, s) && Creates(desired, s) == [] && PlanFor(desired, s, true) != []
    ensures var plan, c := PlanFor(desired, s, true), PlanFor(desired, s, true)[0];
      && c.Drop? && c.name in s - SYSTEM - Names(desired)
      && WellPosed(desired, s - {c.name}) && PlanFor(desired, s - {c.name}, true) == plan[1..]
  {
    PlanShape(desired, s, true);
    var extra := s - SYSTEM - Names(desired);
    var l := SortedList(extra);
    assert PlanFor(desired, s, true) == AsDrops(l);
    TailLists(l, extra);
    var s' := s - {l[0]};
    assert s' - SYSTEM - Names(desired) == extra - {l[0]};
    ListsIsSortedList(l[1..], extra - {l[0]});
    CreatesSame(desired, s', s);
    PlanShape(desired, s', true);
    assert AsDrops(l)[1..] == AsDrops(l[1..]);
  }

  // ---- resuming ----------------------------------------------------------------

  /** If apply stops after any `k` changes, observing and planning again gives
      exactly the remaining changes in the same order. */
  lemma {:induction false} Resumes(desired: seq<DatabaseSpec>, s: Server, prune: bool, k: nat)
    requires WellPosed(desired, s) && NamesFit(desired) && k <= |PlanFor(desired, s, prune)|
    ensures var plan := PlanFor(desired, s, prune);
      && WellPosed(desired, After(s, plan, k))
      && PlanFor(desired, After(s, plan, k), prune) == plan[k..]
  {
    if k > 0 {
      Resumes(desired, s, prune, k - 1);
      var plan := PlanFor(desired, s, prune);
      FirstChange(desired, After(s, plan, k - 1), prune);
      FirstApplied(desired, After(s, plan, k - 1), prune);
      DropOne(plan, k);
    }
  }

  lemma DropOne<T>(s: seq<T>, k: nat)
    requires 0 < k <= |s|
    ensures s[k - 1..] != [] && s[k - 1..][0] == s[k - 1] && s[k - 1..][1..] == s[k..]
  {
  }

  /** An empty plan is a satisfied spec. */
  ghost predicate Satisfied(wanted: set<string>, s: set<string>, prune: bool) {
    wanted <= s && (prune ==> s - SYSTEM <= wanted)
  }

  lemma EmptyPlanIsSatisfied(desired: seq<DatabaseSpec>, s: set<string>, prune: bool)
    ensures PlanFor(desired, s, prune) == [] <==>
      Names(desired) !! SYSTEM && Satisfied(Names(desired), s, prune)
  {
    var plan := PlanFor(desired, s, prune);
    if plan == [] {
      forall i | 0 <= i < |desired| ensures desired[i].name in s - SYSTEM {
        PlannedChange(desired, s, prune, Create(desired[i]));
      }
      forall n | prune && n in s - SYSTEM ensures n in Names(desired) {
        PlannedChange(desired, s, prune, Drop(n));
      }
    } else {
      var c := plan[0];
      PlannedChange(desired, s, prune, c);
      if c.Create? {
        var i :| 0 <= i < |desired| && desired[i] == c.db;
        assert c.db.name in Names(desired);
      }
    }
  }

  lemma {:induction false} AfterBounds(desired: seq<DatabaseSpec>, s: Server, prune: bool, k: nat)
    requires Names(desired) !! SYSTEM && NamesFit(desired) && k <= |PlanFor(desired, s, prune)|
    ensures var s' := After(s, PlanFor(desired, s, prune), k);
      s' <= s + Names(desired) && s' * SYSTEM == s * SYSTEM && (!prune ==> s <= s')
  {
    if k > 0 {
      AfterBounds(desired, s, prune, k - 1);
      var c := PlanFor(desired, s, prune)[k - 1];
      PlannedChange(desired, s, prune, c);
      if c.Create? {
        var i :| 0 <= i < |desired| && desired[i] == c.db;
        assert Cut(c.db.name) == c.db.name && c.db.name in Names(desired);
      }
    }
  }

  /** A full apply then plans nothing exactly when the server can hold every
      desired name whole. The non-system databases are then equal to the spec
      with prune, to the spec and what was there without. */
  lemma FullApplyConverges(desired: seq<DatabaseSpec>, s: Server, prune: bool)
    requires WellPosed(desired, s)
    ensures var plan := PlanFor(desired, s, prune);
      var s' := After(s, plan, |plan|);
      && (PlanFor(desired, s', prune) == [] <==> NamesFit(desired))
      && (NamesFit(desired) ==>
            && s' - SYSTEM == (if prune then Names(desired) else (s - SYSTEM) + Names(desired))
            && s' * SYSTEM == s * SYSTEM)
  {
    var plan := PlanFor(desired, s, prune);
    var s' := After(s, plan, |plan|);
    EmptyPlanIsSatisfied(desired, s', prune);
    if NamesFit(desired) {
      Resumes(desired, s, prune, |plan|);
      AfterBounds(desired, s, prune, |plan|);
    } else {
      LongNameIsNeverThere(desired, s');
    }
  }

  /** Re-planning gives the rest of the plan after every partial apply exactly
      when the names fit. */
  lemma ResumesIffNamesFit(desired: seq<DatabaseSpec>, s: Server, prune: bool)
    requires WellPosed(desired, s)
    ensures var plan := PlanFor(desired, s, prune);
      (forall k :: 0 <= k <= |plan| ==> PlanFor(desired, After(s, plan, k), prune) == plan[k..]) <==> NamesFit(desired)
  {
    var plan := PlanFor(desired, s, prune);
    if NamesFit(desired) {
      forall k | 0 <= k <= |plan| ensures PlanFor(desired, After(s, plan, k), prune) == plan[k..] {
        Resumes(desired, s, prune, k);
      }
    } else {
      FullApplyConverges(desired, s, prune);
      assert plan[|plan|..] == [];
    }
  }

  lemma LongNameIsNeverThere(desired: seq<DatabaseSpec>, s: Server)
    requires !NamesFit(desired)
    ensures !(Names(desired) <= s)
  {
    var i :| 0 <= i < |desired| && |desired[i].name| > MAX_IDENTIFIER;
    assert desired[i].name in Names(desired);
  }

  const LONG: string := seq(64, _ => 'a')

  /** The failing input: a valid name of 64 letters. The first apply succeeds
      and makes the name of 63 letters; the next one plans the same change
      again, and that one fails. */
  lemma LongNameIsPlannedAgain(takes: Options, prune: bool)
    requires takes(None, None)
    ensures var db := DatabaseSpec(LONG, None, None);
      var s := Applied(SYSTEM, Create(db));
      && ValidSpec(db) && WellPosed([db], SYSTEM)
      && PlanFor([db], SYSTEM, prune) == [Create(db)] && Succeeds(SYSTEM, Create(db), takes)
      && Create(db) in PlanFor([db], s, prune) && !Succeeds(s, Create(db), takes)
  {
    var db := DatabaseSpec(LONG, None, None);
    var s := Applied(SYSTEM, Create(db));
    assert |Cut(LONG)| == 63;
    assert Names([db]) == {LONG} by { assert [db][0].name == LONG; }
    PlanShape([db], SYSTEM, prune);
    assert SYSTEM - SYSTEM - Names([db]) == {};
    ListsIsSortedList([], SYSTEM - SYSTEM - Names([db]));
    assert Creates([db], SYSTEM) == [Create(db)];
    PlannedChange([db], s, prune, Create(db));
  }

  // ---- when one reconcile goes through -------------------------------------------

  ghost predicate Plannable(desired: seq<DatabaseSpec>) {
    forall i :: 0 <= i < |desired| ==> ValidSpec(desired[i])
  }

  /** `plan` accepts the spec and has nothing left to do. */
  ghost predicate Quiet(desired: seq<DatabaseSpec>, s: Server, prune: bool) {
    Plannable(desired) && PlanFor(desired, s, prune) == []
  }

  /** `plan` accepts the spec, every change of `apply` succeeds, and nothing is
      left to do. */
  ghost predicate Reconciles(desired: seq<DatabaseSpec>, s: Server, prune: bool, takes: Options) {
    var plan := PlanFor(desired, s, prune);
    AllSucceed(s, plan, |plan|, takes) && Quiet(desired, After(s, plan, |plan|), prune)
  }

  ghost predicate ExtrasQuotable(desired: seq<DatabaseSpec>, s: set<string>, prune: bool) {
    prune ==> forall n :: n in s - SYSTEM - Names(desired) ==> ValidIdentifier(n)
  }

  /** What the caller can check beforehand. */
  ghost predicate Acceptable(desired: seq<DatabaseSpec>, s: Server, prune: bool, takes: Options) {
    && Plannable(desired) && WellPosed(desired, s) && NamesFit(desired)
    && (forall i :: 0 <= i < |desired| && desired[i].name !in s ==>
          takes(CutOwner(desired[i].owner), desired[i].encoding))
    && ExtrasQuotable(desired, s, prune)
  }

  /** Change `k` of an acceptable plan runs and can be quoted. */
  lemma PlannedSucceeds(desired: seq<DatabaseSpec>, s: Server, prune: bool, takes: Options, k: nat)
    requires Acceptable(desired, s, prune, takes) && k < |PlanFor(desired, s, prune)|
    ensures Succeeds(After(s, PlanFor(desired, s, prune), k), PlanFor(desired, s, prune)[k], takes)
  {
    var plan := PlanFor(desired, s, prune);
    var s', c := After(s, plan, k), plan[k];
    Resumes(desired, s, prune, k);
    AfterBounds(desired, s, prune, k);
    assert plan[k..][0] == c;
    FirstChange(desired, s', prune);
    FirstApplied(desired, s', prune);
    PlannedChange(desired, s, prune, c);
    if c.Create? {
      var i :| 0 <= i < |desired| && desired[i] == c.db;
    }
  }

  lemma {:induction false} AcceptableSucceeds(desired: seq<DatabaseSpec>, s: Server, prune: bool, takes: Options, k: nat)
    requires Acceptable(desired, s, prune, takes) && k <= |PlanFor(desired, s, prune)|
    ensures AllSucceed(s, PlanFor(desired, s, prune), k, takes)
  {
    if k > 0 {
      AcceptableSucceeds(desired, s, prune, takes, k - 1);
      PlannedSucceeds(desired, s, prune, takes, k - 1);
    }
  }

  lemma {:induction false} SucceedsAt(s: Server, cs: seq<DatabaseChange>, n: nat, i: nat, takes: Options)
    requires i < n <= |cs| && AllSucceed(s, cs, n, takes)
    ensures Succeeds(After(s, cs, i), cs[i], takes)
  {
    if i < n - 1 { SucceedsAt(s, cs, n - 1, i, takes); }
  }

  lemma {:induction false} CreatedStays(s: Server, cs: seq<DatabaseChange>, i: nat, n: nat)
    requires i < n <= |cs| && cs[i].Create?
    requires forall k :: i <= k < n ==> cs[k].Create?
    ensures Cut(cs[i].db.name) in After(s, cs, n)
  {
    if i < n - 1 { CreatedStays(s, cs, i, n - 1); }
  }

  /** Positions of two missing entries of the spec among the creates. */
  lemma {:induction false} CreatePosition(desired: seq<DatabaseSpec>, p: set<string>, i: nat) returns (k: nat)
    requires i < |desired| && desired[i].name !in p
    ensures k < |Creates(desired, p)| && Creates(desired, p)[k] == Create(desired[i])
    ensures k == |Creates(desired[..i], p)| && Creates(desired, p)[..k] == Creates(desired[..i], p)
  {
    assert desired == desired[..i] + desired[i..];
    CreatesConcat(desired[..i], desired[i..], p);
    k := |Creates(desired[..i], p)|;
  }

  /** One reconcile on a server that answers goes through exactly when names and
      owners are valid identifiers, every name fits, no system database is asked
      for, no missing database is listed twice, the server takes the options of
      every missing database and, with prune, every extra has a valid name. */
  lemma ReconcilesIffAcceptable(desired: seq<DatabaseSpec>, s: Server, prune: bool, takes: Options)
    ensures Reconciles(desired, s, prune, takes) <==> Acceptable(desired, s, prune, takes)
  {
    var plan := PlanFor(desired, s, prune);
    var s' := After(s, plan, |plan|);
    if Acceptable(desired, s, prune, takes) {
      AcceptableSucceeds(desired, s, prune, takes, |plan|);
      FullApplyConverges(desired, s, prune);
    }
    if Reconciles(desired, s, prune, takes) {
      EmptyPlanIsSatisfied(desired, s', prune);
      if !NamesFit(desired) { LongNameIsNeverThere(desired, s'); }
      NoDuplicates(desired, s, prune, takes);
      OptionsTaken(desired, s, prune, takes);
      NoInvalidExtras(desired, s, prune, takes);
    }
  }

  lemma CreatesLead(desired: seq<DatabaseSpec>, s: Server, prune: bool)
    ensures var cs, plan := Creates(desired, s - SYSTEM), PlanFor(desired, s, prune);
      |cs| <= |plan| && plan[..|cs|] == cs && forall k :: 0 <= k < |cs| ==> plan[k] == cs[k] && cs[k].Create?
  {
    assert ToSet(Snapshot(s)) == s - SYSTEM;
    var cs := Creates(desired, s - SYSTEM);
    CreatesMembers(desired, s - SYSTEM);
    assert forall k :: 0 <= k < |cs| ==> cs[k] in cs;
  }

  lemma OptionsTaken(desired: seq<DatabaseSpec>, s: Server, prune: bool, takes: Options)
    requires Reconciles(desired, s, prune, takes)
    ensures forall i :: 0 <= i < |desired| && desired[i].name !in s ==>
      takes(CutOwner(desired[i].owner), desired[i].encoding)
  {
    var plan := PlanFor(desired, s, prune);
    forall i | 0 <= i < |desired| && desired[i].name !in s
      ensures takes(CutOwner(desired[i].owner), desired[i].encoding)
    {
      var k := CreatePosition(desired, s - SYSTEM, i);
      CreatesLead(desired, s, prune);
      SucceedsAt(s, plan, |plan|, k, takes);
    }
  }

  lemma NoDuplicates(desired: seq<DatabaseSpec>, s: Server, prune: bool, takes: Options)
    requires Reconciles(desired, s, prune, takes) && Names(desired) !! SYSTEM && NamesFit(desired)
    ensures WellPosed(desired, s)
  {
    var plan := PlanFor(desired, s, prune);
    forall i, j | 0 <= i < j < |desired| && desired[i].name == desired[j].name ensures desired[i].name in s {
      if desired[i].name !in s {
        var a := CreatePosition(desired, s - SYSTEM, i);
        var b := CreatePosition(desired, s - SYSTEM, j);
        assert desired[..j] == desired[..i] + desired[i..j] && desired[i..j][0] == desired[i];
        CreatesConcat(desired[..i], desired[i..j], s - SYSTEM);
        assert a < b;
        CreatesLead(desired, s, prune);
        CreatedStays(s, plan, a, b);
        SucceedsAt(s, plan, |plan|, b, takes);
      }
    }
  }

  lemma NoInvalidExtras(desired: seq<DatabaseSpec>, s: Server, prune: bool, takes: Options)
    requires Reconciles(desired, s, prune, takes)
    ensures ExtrasQuotable(desired, s, prune)
  {
    if prune {
      var plan := PlanFor(desired, s, prune);
      forall n | n in s - SYSTEM - Names(desired) ensures ValidIdentifier(n) {
        PlannedChange(desired, s, prune, Drop(n));
        var k :| 0 <= k < |plan| && plan[k] == Drop(n);
        SucceedsAt(s, plan, |plan|, k, takes);
      }
    }
  }
  // ---- minimality -----------------------------------------------------------------

  /** Missing plus, with prune, extra databases. */
  ghost function Distance(wanted: set<string>, s: set<string>, prune: bool): nat {
    |wanted - s| + if prune then |s - SYSTEM - wanted| else 0
  }

  /** No single step, planned or not, closes the gap by more than one. */
  lemma StepClosesAtMostOne(wanted: set<string>, s: Server, prune: bool, c: DatabaseChange)
    ensures Distance(wanted, s, prune) <= Distance(wanted, Applied(s, c), prune) + 1
  {
    var s' := Applied(s, c);
    var n := Cut(if c.Create? then c.db.name else c.name);
    var m, e := s - SYSTEM - wanted, s' - SYSTEM - wanted;
    assert wanted - s <= (wanted - s') + (if c.Create? && n in wanted then {n} else {});
    assert m <= e + (if c.Drop? && n !in wanted then {n} else {});
    SubsetSize(wanted - s, (wanted - s') + (if c.Create? && n in wanted then {n} else {}));
    SubsetSize(m, e + (if c.Drop? && n !in wanted then {n} else {}));
  }

  /** The plan is as long as the gap. */
  lemma {:induction false} PlanLength(desired: seq<DatabaseSpec>, s: set<string>, prune: bool)
    requires WellPosed(desired, s)
    ensures |PlanFor(desired, s, prune)| == Distance(Names(desired), s, prune)
    decreases |PlanFor(desired, s, prune)|
  {
    var plan, w := PlanFor(desired, s, prune), Names(desired);
    if plan == [] {
      EmptyPlanIsSatisfied(desired, s, prune);
      assert w - s == {} && (prune ==> s - SYSTEM - w == {});
    } else {
      FirstChange(desired, s, prune);
      PlanLength(desired, Intended(s, plan[0]), prune);
      PlannedStepClosesOne(w, s, prune, plan[0]);
    }
  }

  lemma OneLess(a: set<string>, b: set<string>, x: string)
    requires x in a && b == a - {x}
    ensures |a| == |b| + 1
  {
  }

  /** A planned change that does what it says closes the gap by exactly one. */
  lemma PlannedStepClosesOne(wanted: set<string>, s: set<string>, prune: bool, c: DatabaseChange)
    requires c.Create? ==> c.db.name in wanted - s
    requires c.Drop? ==> prune && c.name in s - SYSTEM - wanted
    ensures Distance(wanted, s, prune) == Distance(wanted, Intended(s, c), prune) + 1
  {
    var s' := Intended(s, c);
    match c
    case Create(db) =>
      assert wanted - s' == wanted - s - {db.name};
      OneLess(wanted - s, wanted - s', db.name);
      assert s' - SYSTEM - wanted == s - SYSTEM - wanted;
    case Drop(n) =>
      assert wanted - s' == wanted - s;
      assert s' - SYSTEM - wanted == s - SYSTEM - wanted - {n};
      OneLess(s - SYSTEM - wanted, s' - SYSTEM - wanted, n);
  }

  /** No sequence of create and drop steps that satisfies the spec is shorter
      than the plan. */
  lemma {:induction false} PlanIsMinimal(desired: seq<DatabaseSpec>, s: Server, prune: bool, steps: seq<DatabaseChange>)
    requires WellPosed(desired, s) && Satisfied(Names(desired), After(s, steps, |steps|), prune)
    ensures |PlanFor(desired, s, prune)| <= |steps|
  {
    var w := Names(desired);
    PlanLength(desired, s, prune);
    DistanceAfter(w, s, prune, steps, |steps|);
    var t := After(s, steps, |steps|);
    assert w - t == {} && (prune ==> t - SYSTEM - w == {});
  }

  lemma {:induction false} DistanceAfter(w: set<string>, s: Server, prune: bool, steps: seq<DatabaseChange>, k: nat)
    requires k <= |steps|
    ensures Distance(w, s, prune) <= Distance(w, After(s, steps, k), prune) + k
  {
    if k > 0 {
      DistanceAfter(w, s, prune, steps, k - 1);
      StepClosesAtMostOne(w, After(s, steps, k - 1), prune, steps[k - 1]);
    }
  }

  // ---- the loop: observe, plan, apply, again and again -----------------------------

  /** One turn of the loop: a spec that `plan` rejects changes nothing; `apply`
      stops at its first failure. */
  ghost function Round(desired: seq<DatabaseSpec>, s: Server, prune: bool, takes: Options): Server {
    if Plannable(desired) then
      var plan := PlanFor(desired, s, prune);
      After(s, plan, Reach(s, plan, |plan|, takes))
    else s
  }

  ghost function Rounds(desired: seq<DatabaseSpec>, s: Server, prune: bool, takes: Options, n: nat): Server {
    Iterate((x: Server) => Round(desired, x, prune, takes), s, n)
  }

  ghost predicate QuietAfter(desired: seq<DatabaseSpec>, s: Server, prune: bool, takes: Options, n: nat) {
    Quiet(desired, Rounds(desired, s, prune, takes, n), prune)
  }

  /** No entry before `i` has its name. */
  predicate First(desired: seq<DatabaseSpec>, i: nat)
    requires i < |desired|
  {
    forall j :: 0 <= j < i ==> desired[j].name != desired[i].name
  }

  /** What the caller can check before the first turn. A missing database may be
      listed twice: only its first entry has to be one the server takes. */
  ghost predicate Convergent(desired: seq<DatabaseSpec>, s: Server, prune: bool, takes: Options) {
    && Plannable(desired) && Names(desired) !! SYSTEM && NamesFit(desired)
    && (forall i :: 0 <= i < |desired| && First(desired, i) && desired[i].name !in s ==>
          takes(CutOwner(desired[i].owner), desired[i].encoding))
    && ExtrasQuotable(desired, s, prune)
  }

  /** The loop falls quiet exactly on such specs, and then after as many turns
      as there are missing and, with prune, extra databases. */
  lemma LoopConvergesIff(desired: seq<DatabaseSpec>, s: Server, prune: bool, takes: Options)
    ensures (exists n: nat :: QuietAfter(desired, s, prune, takes, n))
       <==> Convergent(desired, s, prune, takes)
    ensures Convergent(desired, s, prune, takes) ==>
      QuietAfter(desired, s, prune, takes, Distance(Names(desired), s, prune))
  {
    var d := Distance(Names(desired), s, prune);
    if Convergent(desired, s, prune, takes) {
      LoopConverges(desired, s, prune, takes, d);
      assert QuietAfter(desired, s, prune, takes, d);
    } else {
      forall n: nat ensures !QuietAfter(desired, s, prune, takes, n) {
        if QuietAfter(desired, s, prune, takes, n) {
          QuietLoopWasConvergent(desired, s, prune, takes, n);
        }
      }
    }
  }

  /** A missing database listed twice makes one apply fail and nothing more: the
      next turn has nothing left to do. */
  lemma DuplicateTakesAnotherTurn(d: DatabaseSpec, s: Server, takes: Options)
    requires ValidSpec(d) && |d.name| <= MAX_IDENTIFIER && d.name !in s && d.name !in SYSTEM
    requires takes(CutOwner(d.owner), d.encoding)
    ensures !Reconciles([d, d], s, false, takes) && QuietAfter([d, d], s, false, takes, 1)
  {
    var ds := [d, d];
    assert ds[0].name == ds[1].name && ds[0].name !in s;
    ReconcilesIffAcceptable(ds, s, false, takes);
    assert Names(ds) == {d.name} by { assert ds[0].name in Names(ds); }
    assert {d.name} - s == {d.name};
    LoopConverges(ds, s, false, takes, 1);
  }

  /** `t` has every wanted database that `s` has and no extra that `s` has not. */
  ghost predicate Closer(wanted: set<string>, s: set<string>, t: set<string>) {
    wanted * s <= t && t - SYSTEM - wanted <= s
  }

  lemma CloserDistance(wanted: set<string>, s: set<string>, t: set<string>, prune: bool)
    requires Closer(wanted, s, t)
    ensures Distance(wanted, t, prune) <= Distance(wanted, s, prune)
  {
    SubsetSize(wanted - t, wanted - s);
    SubsetSize(t - SYSTEM - wanted, s - SYSTEM - wanted);
  }

  /** Planned changes only move closer, whether or not names repeat. */
  lemma {:induction false} StepsCloser(desired: seq<DatabaseSpec>, s: Server, prune: bool, m: nat, k: nat)
    requires NamesFit(desired) && m <= k <= |PlanFor(desired, s, prune)|
    ensures var plan := PlanFor(desired, s, prune);
      Closer(Names(desired), After(s, plan, m), After(s, plan, k))
  {
    if m < k {
      StepsCloser(desired, s, prune, m, k - 1);
      var c := PlanFor(desired, s, prune)[k - 1];
      PlannedChange(desired, s, prune, c);
      if c.Create? {
        var i :| 0 <= i < |desired| && desired[i] == c.db;
        assert Cut(c.db.name) == c.db.name && c.db.name in Names(desired);
      }
    }
  }

  lemma {:induction false} FirstMissing(desired: seq<DatabaseSpec>, p: set<string>) returns (i: nat)
    requires Creates(desired, p) != []
    ensures i < |desired| && First(desired, i) && desired[i].name !in p
    ensures Creates(desired, p)[0] == Create(desired[i])
    ensures forall j :: 0 <= j < i ==> desired[j].name in p
  {
    if desired[0].name in p {
      i := FirstMissing(desired[1..], p);
      i := i + 1;
    } else {
      i := 0;
    }
  }

  /** The first change of a turn goes through. */
  lemma FirstSucceeds(desired: seq<DatabaseSpec>, s: Server, prune: bool, takes: Options)
    requires Convergent(desired, s, prune, takes) && PlanFor(desired, s, prune) != []
    ensures var c := PlanFor(desired, s, prune)[0];
      && Succeeds(s, c, takes) && Applied(s, c) == Intended(s, c)
      && (c.Create? ==> c.db.name in Names(desired) - s)
      && (c.Drop? ==> prune && c.name in s - SYSTEM - Names(desired))
  {
    PlanShape(desired, s, prune);
    var c := PlanFor(desired, s, prune)[0];
    if Creates(desired, s) != [] {
      var i := FirstMissing(desired, s);
      assert c == Create(desired[i]) && desired[i].name in Names(desired);
    } else {
      PlannedChange(desired, s, prune, c);
    }
  }

  lemma RoundCloses(desired: seq<DatabaseSpec>, s: Server, prune: bool, takes: Options)
    requires Convergent(desired, s, prune, takes) && PlanFor(desired, s, prune) != []
    ensures var s' := Round(desired, s, prune, takes);
      && Convergent(desired, s', prune, takes)
      && Distance(Names(desired), s', prune) < Distance(Names(desired), s, prune)
  {
    var plan, s' := PlanFor(desired, s, prune), Round(desired, s, prune, takes);
    var r := Reach(s, plan, |plan|, takes);
    ReachStops(s, plan, |plan|, takes);
    FirstSucceeds(desired, s, prune, takes);
    PlannedStepClosesOne(Names(desired), s, prune, plan[0]);
    assert After(s, plan, 0) == s;
    assert After(s, plan, 1) == Applied(s, plan[0]);
    StepsCloser(desired, s, prune, 1, r);
    StepsCloser(desired, s, prune, 0, r);
    CloserDistance(Names(desired), After(s, plan, 1), s', prune);
    forall i | 0 <= i < |desired| && desired[i].name in s ensures desired[i].name in s' {
      assert desired[i].name in Names(desired);
    }
  }

  lemma QuietIsClosed(desired: seq<DatabaseSpec>, s: set<string>, prune: bool)
    requires Names(desired) !! SYSTEM
    ensures PlanFor(desired, s, prune) == [] <==> Distance(Names(desired), s, prune) == 0
  {
    EmptyPlanIsSatisfied(desired, s, prune);
    var w := Names(desired);
    assert |w - s| == 0 <==> w <= s by { assert |w - s| == 0 <==> w - s == {}; }
    assert |s - SYSTEM - w| == 0 <==> s - SYSTEM <= w by { assert |s - SYSTEM - w| == 0 <==> s - SYSTEM - w == {}; }
  }

  /** A turn keeps the spec convergent and closes the gap further. */
  lemma TurnCounts(desired: seq<DatabaseSpec>, s: Server, prune: bool, takes: Options)
    requires Convergent(desired, s, prune, takes)
    ensures var s', w := Round(desired, s, prune, takes), Names(desired);
      && Convergent(desired, s', prune, takes)
      && (if Distance(w, s, prune) == 0 then Distance(w, s', prune) == 0
          else Distance(w, s', prune) < Distance(w, s, prune))
  {
    QuietIsClosed(desired, s, prune);
    if PlanFor(desired, s, prune) == [] {
      assert Round(desired, s, prune, takes) == s;
    } else {
      RoundCloses(desired, s, prune, takes);
    }
  }

  lemma LoopConverges(desired: seq<DatabaseSpec>, s: Server, prune: bool, takes: Options, n: nat)
    requires Convergent(desired, s, prune, takes) && Distance(Names(desired), s, prune) <= n
    ensures QuietAfter(desired, s, prune, takes, n)
  {
    var step := (x: Server) => Round(desired, x, prune, takes);
    var good := (x: Server) => Convergent(desired, x, prune, takes);
    var left := (x: Server) => Distance(Names(desired), x, prune);
    forall x: Server | good(x)
      ensures good(step(x)) && (if left(x) == 0 then left(step(x)) == 0 else left(step(x)) < left(x))
    {
      TurnCounts(desired, x, prune, takes);
    }
    IterateDown(step, good, left, s, n);
    QuietIsClosed(desired, Rounds(desired, s, prune, takes, n), prune);
  }

  /** However often the loop turns, it never removes a system database. */
  lemma LoopKeepsSystemDatabases(desired: seq<DatabaseSpec>, s: Server, prune: bool, takes: Options, n: nat, x: string)
    requires x in s && (x == "template0" || x == "template1" || x == "postgres")
    ensures x in Rounds(desired, s, prune, takes, n)
  {
    var step := (t: Server) => Round(desired, t, prune, takes);
    var good := (t: Server) => x in t;
    forall t: Server | good(t) ensures good(step(t)) {
      var plan := PlanFor(desired, t, prune);
      SystemDatabasesStay(t, plan, Reach(t, plan, |plan|, takes), x);
    }
    IterateKeeps(step, good, s, n);
  }

  // ---- and why no other spec ever falls quiet ----

  lemma QuietLoopWasConvergent(desired: seq<DatabaseSpec>, s: Server, prune: bool, takes: Options, n: nat)
    requires QuietAfter(desired, s, prune, takes, n)
    ensures Convergent(desired, s, prune, takes)
  {
    var step := (x: Server) => Round(desired, x, prune, takes);
    var good := (x: Server) => Convergent(desired, x, prune, takes);
    QuietIsConvergent(desired, Rounds(desired, s, prune, takes, n), prune, takes);
    forall x: Server | good(step(x)) ensures good(x) { TurnKeepsFailing(desired, x, prune, takes); }
    IterateBack(step, good, s, n);
  }

  lemma TurnKeepsFailing(desired: seq<DatabaseSpec>, s: Server, prune: bool, takes: Options)
    requires Convergent(desired, Round(desired, s, prune, takes), prune, takes)
    ensures Convergent(desired, s, prune, takes)
  {
    OptionsWereTaken(desired, s, prune, takes);
    ExtrasWereQuotable(desired, s, prune, takes);
  }

  lemma QuietIsConvergent(desired: seq<DatabaseSpec>, s: Server, prune: bool, takes: Options)
    requires Quiet(desired, s, prune)
    ensures Convergent(desired, s, prune, takes)
  {
    EmptyPlanIsSatisfied(desired, s, prune);
    if !NamesFit(desired) { LongNameIsNeverThere(desired, s); }
    forall i | 0 <= i < |desired| ensures desired[i].name in s {
      assert desired[i].name in Names(desired);
    }
  }

  /** The changes before a missing entry do not make its database. */
  lemma {:induction false} NotMadeBefore(desired: seq<DatabaseSpec>, s: Server, prune: bool, i: nat, p: nat, k: nat)
    requires NamesFit(desired) && i < |desired| && First(desired, i) && desired[i].name !in s
    requires p == |Creates(desired[..i], s - SYSTEM)| && k <= p <= |PlanFor(desired, s, prune)|
    requires PlanFor(desired, s, prune)[..p] == Creates(desired[..i], s - SYSTEM)
    ensures desired[i].name !in After(s, PlanFor(desired, s, prune), k)
  {
    if k > 0 {
      NotMadeBefore(desired, s, prune, i, p, k - 1);
      var c := PlanFor(desired, s, prune)[k - 1];
      assert c == PlanFor(desired, s, prune)[..p][k - 1];
      assert c in Creates(desired[..i], s - SYSTEM);
      CreatesMembers(desired[..i], s - SYSTEM);
      var j :| 0 <= j < i && desired[..i][j] == c.db;
      assert desired[j] == c.db && Cut(c.db.name) == c.db.name;
    }
  }

  /** A missing entry that is the first of its name, and whose database is there
      after part of the plan, was taken by the server. */
  lemma OptionWasTaken(desired: seq<DatabaseSpec>, s: Server, prune: bool, takes: Options, i: nat, r: nat)
    requires NamesFit(desired) && i < |desired| && First(desired, i) && desired[i].name !in s
    requires r <= |PlanFor(desired, s, prune)| && AllSucceed(s, PlanFor(desired, s, prune), r, takes)
    requires desired[i].name in After(s, PlanFor(desired, s, prune), r)
    ensures takes(CutOwner(desired[i].owner), desired[i].encoding)
  {
    var plan := PlanFor(desired, s, prune);
    var p := CreatePosition(desired, s - SYSTEM, i);
    CreatesLead(desired, s, prune);
    assert plan[..p] == plan[..|Creates(desired, s - SYSTEM)|][..p];
    if p < r {
      SucceedsAt(s, plan, r, p, takes);
    } else {
      NotMadeBefore(desired, s, prune, i, p, r);
    }
  }

  /** Options that the server refuses are refused in every turn. */
  lemma OptionsWereTaken(desired: seq<DatabaseSpec>, s: Server, prune: bool, takes: Options)
    requires Convergent(desired, Round(desired, s, prune, takes), prune, takes)
    ensures forall i :: 0 <= i < |desired| && First(desired, i) && desired[i].name !in s ==>
      takes(CutOwner(desired[i].owner), desired[i].encoding)
  {
    var plan, s' := PlanFor(desired, s, prune), Round(desired, s, prune, takes);
    var r := Reach(s, plan, |plan|, takes);
    ReachStops(s, plan, |plan|, takes);
    forall i | 0 <= i < |desired| && First(desired, i) && desired[i].name !in s
      ensures takes(CutOwner(desired[i].owner), desired[i].encoding)
    {
      if desired[i].name in s' { OptionWasTaken(desired, s, prune, takes, i, r); }
    }
  }

  /** Only a database with a valid name is ever dropped. */
  lemma {:induction false} DroppedIsValid(desired: seq<DatabaseSpec>, s: Server, prune: bool, takes: Options, k: nat, n: string)
    requires k <= |PlanFor(desired, s, prune)| && AllSucceed(s, PlanFor(desired, s, prune), k, takes)
    requires n in s && n !in After(s, PlanFor(desired, s, prune), k)
    ensures ValidIdentifier(n)
  {
    if k > 0 {
      var c := PlanFor(desired, s, prune)[k - 1];
      if n !in After(s, PlanFor(desired, s, prune), k - 1) {
        DroppedIsValid(desired, s, prune, takes, k - 1, n);
      } else {
        PlannedChange(desired, s, prune, c);
        assert c == Drop(n);
      }
    }
  }

  lemma ExtrasWereQuotable(desired: seq<DatabaseSpec>, s: Server, prune: bool, takes: Options)
    requires Convergent(desired, Round(desired, s, prune, takes), prune, takes)
    ensures ExtrasQuotable(desired, s, prune)
  {
    var plan, s' := PlanFor(desired, s, prune), Round(desired, s, prune, takes);
    if prune {
      ReachStops(s, plan, |plan|, takes);
      forall n | n in s - SYSTEM - Names(desired) ensures ValidIdentifier(n) {
        if n !in s' { DroppedIsValid(desired, s, prune, takes, Reach(s, plan, |plan|, takes), n); }
      }
    }
  }

  // ---- a failed observation ----------------------------------------------------

  /** The sentinel status of a failed observation lists no databases: planning
      from it drops nothing, and applying any part of that plan loses nothing. */
  lemma {:induction false} FailedObservationDropsNothing(desired: seq<DatabaseSpec>, s: Server, prune: bool, k: nat)
    requires k <= |Plan(desired, [], prune)|
    ensures forall c :: c in Plan(desired, [], prune) ==> c.Create?
    ensures s <= After(s, Plan(desired, [], prune), k)
  {
    CreatesMembers(desired, ToSet([]));
    var plan := Plan(desired, [], prune);
    if k > 0 {
      FailedObservationDropsNothing(desired, s, prune, k - 1);
      assert plan[k - 1] in plan;
    }
  }
}
