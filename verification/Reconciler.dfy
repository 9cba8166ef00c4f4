// The PostgreSQL reconciler: diff, apply and re-observe against a server.
module Reconciler {
  import opened Common
  import opened StringOrder
  import opened Sql

  /** The databases of a server; none has a name beyond the server's limit. */
  type Server = s: set<string> | forall n :: n in s ==> |n| <= MAX_IDENTIFIER

  /** Whether the server takes an owner role and an encoding for a new database. */
  type Options = (Option<string>, Option<string>) -> bool

  const SYSTEM := {"template0", "template1", "postgres"}

  function Names(desired: seq<DatabaseSpec>): set<string> {
    set i | 0 <= i < |desired| :: desired[i].name
  }

  // ---- the plan ------------------------------------------------------------

  /** Desired databases that are absent, in the order of the spec. */
  function Creates(desired: seq<DatabaseSpec>, present: set<string>): seq<DatabaseChange> {
    if desired == [] then []
    else (if desired[0].name in present then [] else [Create(desired[0])]) + Creates(desired[1..], present)
  }

  /** Observed databases that nobody asked for, in the order observed. */
  function Drops(wanted: set<string>, actual: seq<string>): seq<DatabaseChange> {
    if actual == [] then []
    else (if actual[0] in wanted || actual[0] in SYSTEM then [] else [Drop(actual[0])])
         + Drops(wanted, actual[1..])
  }

  function Plan(desired: seq<DatabaseSpec>, actual: seq<string>, prune: bool): seq<DatabaseChange> {
    Creates(desired, ToSet(actual)) + if prune then Drops(Names(desired), actual) else []
  }

  /** Two loops over the spec and the observation. Whatever is passed in, only
      missing databases are created; only observed, unwanted, non-system ones
      are dropped, and only with prune. */
  method ComputePlan(desired: seq<DatabaseSpec>, actual: seq<string>, prune: bool)
    returns (changes: seq<DatabaseChange>)
    ensures changes == Plan(desired, actual, prune)
    ensures forall db :: Create(db) in changes <==> db in desired && db.name !in actual
    ensures forall n :: Drop(n) in changes <==>
      && prune && n in actual && (forall i :: 0 <= i < |desired| ==> desired[i].name != n)
      && n != "template0" && n != "template1" && n != "postgres"
  {
    changes := [];
    for i := 0 to |desired|
      invariant changes == Creates(desired[..i], ToSet(actual))
    {
      assert desired[..i + 1] == desired[..i] + [desired[i]];
      CreatesConcat(desired[..i], [desired[i]], ToSet(actual));
      if desired[i].name !in actual {
        changes := changes + [Create(desired[i])];
      }
    }
    assert desired[..|desired|] == desired;
    var creates := changes;
    if prune {
      var wanted := Names(desired);
      for i := 0 to |actual|
        invariant changes == creates + Drops(wanted, actual[..i])
      {
        assert actual[..i + 1] == actual[..i] + [actual[i]];
        DropsConcat(wanted, actual[..i], [actual[i]]);
        if actual[i] in SYSTEM {
          continue;
        }
        if actual[i] !in wanted {
          changes := changes + [Drop(actual[i])];
        }
      }
      assert actual[..|actual|] == actual;
    }
    CreatesMembers(desired, ToSet(actual));
    DropsMembers(Names(desired), actual);
  }

  /** How many of the first `i` entries of the spec are absent. */
  function Missing(desired: seq<DatabaseSpec>, actual: seq<string>, i: nat): nat
    requires i <= |desired|
  {
    if i == 0 then 0 else Missing(desired, actual, i - 1) + if desired[i - 1].name in actual then 0 else 1
  }

  /** How many of the first `i` observed databases nobody asked for. */
  function Extras(desired: seq<DatabaseSpec>, actual: seq<string>, i: nat): nat
    requires i <= |actual|
  {
    if i == 0 then 0 else Extras(desired, actual, i - 1) + if Unwanted(desired, actual[i - 1]) then 1 else 0
  }

  predicate Unwanted(desired: seq<DatabaseSpec>, n: string) {
    && (forall i :: 0 <= i < |desired| ==> desired[i].name != n)
    && n != "template0" && n != "template1" && n != "postgres"
  }

  /** The plan in full: the absent entries of the spec in its order, then with
      prune the unwanted databases in the order observed, and nothing else. */
  lemma PlanInOrder(desired: seq<DatabaseSpec>, actual: seq<string>, prune: bool)
    ensures var plan, m := Plan(desired, actual, prune), Missing(desired, actual, |desired|);
      && |plan| == m + (if prune then Extras(desired, actual, |actual|) else 0)
      && (forall i :: 0 <= i < |desired| && desired[i].name !in actual ==>
            Missing(desired, actual, i) < m && plan[Missing(desired, actual, i)] == Create(desired[i]))
      && (prune ==> forall i :: 0 <= i < |actual| && Unwanted(desired, actual[i]) ==>
            m + Extras(desired, actual, i) < |plan| && plan[m + Extras(desired, actual, i)] == Drop(actual[i]))
  {
    CreatesLength(desired, actual, |desired|);
    DropsLength(desired, actual, |actual|);
    assert desired[..|desired|] == desired && actual[..|actual|] == actual;
    forall i | 0 <= i < |desired| && desired[i].name !in actual
      ensures Missing(desired, actual, i) < Missing(desired, actual, |desired|)
      ensures Creates(desired, ToSet(actual))[Missing(desired, actual, i)] == Create(desired[i])
    {
      CreateAt(desired, actual, i);
    }
    forall i | 0 <= i < |actual| && Unwanted(desired, actual[i])
      ensures Extras(desired, actual, i) < Extras(desired, actual, |actual|)
      ensures Drops(Names(desired), actual)[Extras(desired, actual, i)] == Drop(actual[i])
    {
      DropAt(desired, actual, i);
    }
  }

  lemma CreateAt(desired: seq<DatabaseSpec>, actual: seq<string>, i: nat)
    requires i < |desired| && desired[i].name !in actual
    ensures var cs := Creates(desired, ToSet(actual));
      Missing(desired, actual, i) < |cs| && cs[Missing(desired, actual, i)] == Create(desired[i])
  {
    CreatesLength(desired, actual, i);
    assert desired == desired[..i] + desired[i..];
    CreatesConcat(desired[..i], desired[i..], ToSet(actual));
  }

  lemma DropAt(desired: seq<DatabaseSpec>, actual: seq<string>, i: nat)
    requires i < |actual| && Unwanted(desired, actual[i])
    ensures var ds := Drops(Names(desired), actual);
      Extras(desired, actual, i) < |ds| && ds[Extras(desired, actual, i)] == Drop(actual[i])
  {
    DropsLength(desired, actual, i);
    assert actual == actual[..i] + actual[i..];
    DropsConcat(Names(desired), actual[..i], actual[i..]);
  }

  lemma {:induction false} CreatesLength(desired: seq<DatabaseSpec>, actual: seq<string>, i: nat)
    requires i <= |desired|
    ensures |Creates(desired[..i], ToSet(actual))| == Missing(desired, actual, i)
  {
    if i > 0 {
      CreatesLength(desired, actual, i - 1);
      assert desired[..i] == desired[..i - 1] + [desired[i - 1]];
      CreatesConcat(desired[..i - 1], [desired[i - 1]], ToSet(actual));
      assert [desired[i - 1]][1..] == [];
    }
  }

  lemma {:induction false} DropsLength(desired: seq<DatabaseSpec>, actual: seq<string>, i: nat)
    requires i <= |actual|
    ensures |Drops(Names(desired), actual[..i])| == Extras(desired, actual, i)
  {
    if i > 0 {
      DropsLength(desired, actual, i - 1);
      assert actual[..i] == actual[..i - 1] + [actual[i - 1]];
      DropsConcat(Names(desired), actual[..i - 1], [actual[i - 1]]);
      assert [actual[i - 1]][1..] == [];
    }
  }

  /** `plan`: every name and owner is validated before anything is compared. */
  method PlanSpec(desired: seq<DatabaseSpec>, actual: seq<string>, prune: bool)
    returns (r: Result<seq<DatabaseChange>, ApplyError>)
    ensures r.Ok? <==> forall i :: 0 <= i < |desired| ==> ValidSpec(desired[i])
    ensures r.Ok? ==> r.value == Plan(desired, actual, prune)
    ensures r.Err? ==> r.error == InvalidDatabaseName
  {
    for i := 0 to |desired|
      invariant forall j :: 0 <= j < i ==> ValidSpec(desired[j])
    {
      if !ValidIdentifier(desired[i].name) {
        return Err(InvalidDatabaseName);
      }
      if desired[i].owner.Some? {
        if !ValidIdentifier(desired[i].owner.value) {
          return Err(InvalidDatabaseName);
        }
      }
    }
    var changes := ComputePlan(desired, actual, prune);
    r := Ok(changes);
  }

  lemma {:induction false} CreatesConcat(a: seq<DatabaseSpec>, b: seq<DatabaseSpec>, present: set<string>)
    ensures Creates(a + b, present) == Creates(a, present) + Creates(b, present)
  {
    if a == [] {
      assert a + b == b;
    } else {
      assert (a + b)[1..] == a[1..] + b;
      CreatesConcat(a[1..], b, present);
    }
  }

  lemma {:induction false} DropsConcat(wanted: set<string>, a: seq<string>, b: seq<string>)
    ensures Drops(wanted, a + b) == Drops(wanted, a) + Drops(wanted, b)
  {
    if a == [] {
      assert a + b == b;
    } else {
      assert (a + b)[1..] == a[1..] + b;
      DropsConcat(wanted, a[1..], b);
    }
  }

  lemma {:induction false} CreatesMembers(desired: seq<DatabaseSpec>, present: set<string>)
    ensures forall c :: c in Creates(desired, present) <==>
      c.Create? && c.db in desired && c.db.name !in present
  {
    if desired != [] {
      CreatesMembers(desired[1..], present);
      assert desired == [desired[0]] + desired[1..];
    }
  }

  lemma {:induction false} DropsMembers(wanted: set<string>, actual: seq<string>)
    ensures forall c :: c in Drops(wanted, actual) <==>
      c.Drop? && c.name in actual && c.name !in wanted && c.name !in SYSTEM
  {
    if actual != [] {
      DropsMembers(wanted, actual[1..]);
      assert actual == [actual[0]] + actual[1..];
    }
  }

  // ---- the server ------------------------------------------------------------

  /** The snapshot query: everything but the system databases, sorted. */
  ghost function Snapshot(s: set<string>): seq<string> {
    SortedList(s - SYSTEM)
  }

  lemma SnapshotRows(s: set<string>)
    ensures forall x :: x in Snapshot(s) <==> x in s && x != "template0" && x != "template1" && x != "postgres"
    ensures forall i, j :: 0 <= i < j < |Snapshot(s)| ==> Less(Snapshot(s)[i], Snapshot(s)[j])
  {
  }

  /** CREATE fails on an existing database or on options the server does not
      take, DROP on a missing database. Both act on the name as the server cuts it. */
  predicate Runs(s: Server, c: DatabaseChange, takes: Options) {
    match c
    case Create(db) => Cut(db.name) !in s && takes(CutOwner(db.owner), db.encoding)
    case Drop(n) => Cut(n) in s
  }

  function Changed(s: Server, c: DatabaseChange): Server {
    match c
    case Create(db) => s + {Cut(db.name)}
    case Drop(n) => s - {Cut(n)}
  }

  predicate Quotable(c: DatabaseChange) {
    match c
    case Create(db) => ValidSpec(db)
    case Drop(n) => ValidIdentifier(n)
  }

  /** Defence in depth: a drop of a system database is passed over. */
  predicate Skipped(c: DatabaseChange) {
    c.Drop? && c.name in SYSTEM
  }

  function Applied(s: Server, c: DatabaseChange): Server {
    if Skipped(c) then s else Changed(s, c)
  }

  /** The server after the first `n` changes. */
  function After(s: Server, cs: seq<DatabaseChange>, n: nat): Server
    requires n <= |cs|
  {
    if n == 0 then s else Applied(After(s, cs, n - 1), cs[n - 1])
  }

  /** The change goes through on a server that answers. */
  predicate Succeeds(s: Server, c: DatabaseChange, takes: Options) {
    Quotable(c) && (Skipped(c) || Runs(s, c, takes))
  }

  /** The first `n` changes go through one after another. */
  predicate AllSucceed(s: Server, cs: seq<DatabaseChange>, n: nat, takes: Options)
    requires n <= |cs|
  {
    n == 0 || (AllSucceed(s, cs, n - 1, takes) && Succeeds(After(s, cs, n - 1), cs[n - 1], takes))
  }

  /** How many of the first `n` changes go through before one fails. */
  function Reach(s: Server, cs: seq<DatabaseChange>, n: nat, takes: Options): (k: nat)
    requires n <= |cs|
    ensures k <= n
  {
    if n == 0 then 0
    else
      var k := Reach(s, cs, n - 1, takes);
      if k == n - 1 && Succeeds(After(s, cs, k), cs[k], takes) then n else k
  }

  lemma {:induction false} ReachStops(s: Server, cs: seq<DatabaseChange>, n: nat, takes: Options)
    requires n <= |cs|
    ensures var k := Reach(s, cs, n, takes);
      AllSucceed(s, cs, k, takes) && (k < n ==> !Succeeds(After(s, cs, k), cs[k], takes))
  {
    if n > 0 { ReachStops(s, cs, n - 1, takes); }
  }

  lemma {:induction false} ReachIsUnique(s: Server, cs: seq<DatabaseChange>, n: nat, k: nat, takes: Options)
    requires k <= n <= |cs| && AllSucceed(s, cs, k, takes)
    requires k < n ==> !Succeeds(After(s, cs, k), cs[k], takes)
    ensures Reach(s, cs, n, takes) == k
  {
    if n > 0 {
      ReachIsUnique(s, cs, n - 1, if k < n then k else n - 1, takes);
    }
  }

  /** No list of changes, planned or not, removes a system database. */
  lemma {:induction false} SystemDatabasesStay(s: Server, cs: seq<DatabaseChange>, n: nat, x: string)
    requires n <= |cs| && x in s && (x == "template0" || x == "template1" || x == "postgres")
    ensures x in After(s, cs, n)
  {
    if n > 0 {
      SystemDatabasesStay(s, cs, n - 1, x);
      var c := cs[n - 1];
      if c.Drop? && Cut(c.name) == x { assert |x| < MAX_IDENTIFIER && Cut(c.name) == c.name; }
    }
  }

  function Effective(cs: seq<DatabaseChange>): nat {
    if cs == [] then 0 else Effective(cs[..|cs| - 1]) + if Skipped(cs[|cs| - 1]) then 0 else 1
  }

  /** Every change counts but a drop of a system database. */
  lemma EffectiveCounts(cs: seq<DatabaseChange>, c: DatabaseChange)
    ensures Effective([]) == 0
    ensures Effective(cs + [c]) == Effective(cs) +
      if c.Drop? && (c.name == "template0" || c.name == "template1" || c.name == "postgres") then 0 else 1
  {
    assert (cs + [c])[..|cs|] == cs;
  }

  datatype ApplyError = InvalidDatabaseName | Sqlx

  /** A server that reads SQL and may stop answering after `budget` statements. */
  class PostgresServer {
    const takes: Options
    var databases: Server
    var budget: nat

    constructor (takes: Options, databases: Server, budget: nat)
      ensures this.takes == takes && this.databases == databases && this.budget == budget
    {
      this.takes, this.databases, this.budget := takes, databases, budget;
    }

    method Execute(sql: string) returns (ok: bool)
      modifies this
      ensures ok <==>
        old(budget) > 0 && Sql.Parse(sql).Some? && Runs(old(databases), Sql.Parse(sql).value, takes)
      ensures databases == if ok then Changed(old(databases), Sql.Parse(sql).value) else old(databases)
      ensures budget == if old(budget) > 0 then old(budget) - 1 else 0
    {
      if budget == 0 {
        return false;
      }
      budget := budget - 1;
      var stmt := Sql.Parse(sql);
      ok := stmt.Some? && Runs(databases, stmt.value, takes);
      if ok {
        databases := Changed(databases, stmt.value);
      }
    }
  }

  /** What the server does with a statement is what it does with the change as read. */
  lemma CutTwice(c: DatabaseChange)
    ensures forall s: Server, takes: Options :: Runs(s, AsRead(c), takes) == Runs(s, c, takes)
    ensures forall s: Server :: Changed(s, AsRead(c)) == Changed(s, c)
  {
  }

  /** One turn of the loop in `apply`: validate, render, execute. None is success. */
  method ApplyOne(server: PostgresServer, c: DatabaseChange) returns (err: Option<ApplyError>)
    modifies server
    ensures err == Some(InvalidDatabaseName) <==> !Quotable(c)
    ensures err.None? ==> Succeeds(old(server.databases), c, server.takes)
    ensures err.None? ==> server.databases == Applied(old(server.databases), c)
    ensures err.Some? ==> server.databases == old(server.databases)
    ensures err.Some? ==> old(server.budget) == 0 || !Succeeds(old(server.databases), c, server.takes)
    ensures server.budget <= old(server.budget) <= server.budget + 1
  {
    var sql;
    match c {
      case Create(db) =>
        if !ValidIdentifier(db.name) {
          return Some(InvalidDatabaseName);
        }
        sql := CREATE + (db.name + ("\"" + (OwnerClause(db.owner) + EncodingClause(db.encoding))));
        if db.owner.Some? {
          if !ValidIdentifier(db.owner.value) {
            return Some(InvalidDatabaseName);
          }
        }
      case Drop(name) =>
        if !ValidIdentifier(name) {
          return Some(InvalidDatabaseName);
        }
        if name in SYSTEM {
          return None;
        }
        sql := DROP + (name + "\"");
    }
    ServerReadsThePlan(c);
    CutTwice(c);
    var ok := server.Execute(sql);
    err := if ok then None else Some(Sqlx);
  }

  /** `apply`: change by change, stopping at the first failure. The server has
      exactly the first `done` changes; all of them, and the count of those
      executed, on success; otherwise change `done` failed for the given reason. */
  method Apply(server: PostgresServer, plan: seq<DatabaseChange>) returns (r: Result<nat, ApplyError>, ghost done: nat)
    modifies server
    ensures done <= |plan| && server.databases == After(old(server.databases), plan, done)
    ensures AllSucceed(old(server.databases), plan, done, server.takes)
    ensures r.Ok? ==> done == |plan| && r.value == Effective(plan)
    ensures forall x :: x in old(server.databases) && (x == "template0" || x == "template1" || x == "postgres") ==>
      x in server.databases
    ensures r.Err? ==> done < |plan| && (r.error == InvalidDatabaseName <==> !Quotable(plan[done]))
    ensures r.Ok? || old(server.budget) >= |plan| ==>
      done == Reach(old(server.databases), plan, |plan|, server.takes)
  {
    var applied := 0;
    done := 0;
    forall n, x | 0 <= n <= |plan| && x in server.databases && (x == "template0" || x == "template1" || x == "postgres")
      ensures x in After(server.databases, plan, n)
    {
      SystemDatabasesStay(server.databases, plan, n, x);
    }
    for i := 0 to |plan|
      invariant done == i && applied == Effective(plan[..i])
      invariant server.databases == After(old(server.databases), plan, i)
      invariant server.budget + i >= old(server.budget)
      invariant AllSucceed(old(server.databases), plan, i, server.takes)
    {
      assert plan[..i + 1][..i] == plan[..i];
      ghost var before, left := server.databases, server.budget;
      var err := ApplyOne(server, plan[i]);
      if err.Some? {
        if old(server.budget) >= |plan| {
          assert left > 0 && !Succeeds(before, plan[i], server.takes);
          ReachIsUnique(old(server.databases), plan, |plan|, i, server.takes);
        }
        return Err(err.value), done;
      }
      applied := applied + if Skipped(plan[i]) then 0 else 1;
      done := done + 1;
    }
    assert plan[..|plan|] == plan;
    ReachIsUnique(old(server.databases), plan, |plan|, |plan|, server.takes);
    r := Ok(applied);
  }
}
