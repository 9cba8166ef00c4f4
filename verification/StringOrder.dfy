// The byte-wise order that SQLite, PostgreSQL (collation "C") and Rust's
// Ord on str and Path share: compare code units from the left.
module StringOrder {
  import opened Common

  predicate Less(a: string, b: string) {
    b != [] && (a == [] || a[0] < b[0] || (a[0] == b[0] && Less(a[1..], b[1..])))
  }

  lemma {:induction false} Irreflexive(a: string)
    ensures !Less(a, a)
  {
    if a != [] { Irreflexive(a[1..]); }
  }

  lemma {:induction false} Transitive(a: string, b: string, c: string)
    requires Less(a, b) && Less(b, c)
    ensures Less(a, c)
  {
    if a != [] && a[0] == b[0] && b[0] == c[0] {
      Transitive(a[1..], b[1..], c[1..]);
    }
  }

  lemma {:induction false} Total(a: string, b: string)
    ensures Less(a, b) || a == b || Less(b, a)
  {
    if a != [] && b != [] && a[0] == b[0] {
      Total(a[1..], b[1..]);
      if a[1..] == b[1..] {
        assert a == [a[0]] + a[1..] == [b[0]] + b[1..] == b;
      }
    }
  }

  lemma Asymmetric(a: string, b: string)
    requires Less(a, b)
    ensures !Less(b, a) && a != b
  {
    Irreflexive(a);
    if Less(b, a) { Transitive(a, b, a); }
  }

  /** A shared prefix does not matter; prefixes of equal length decide first. */
  lemma {:induction false} Prefixed(p: string, x: string, q: string, y: string)
    requires |p| == |q|
    ensures Less(p + x, q + y) <==> Less(p, q) || (p == q && Less(x, y))
  {
    if p == [] {
      assert p + x == x && q + y == y;
    } else {
      assert (p + x)[1..] == p[1..] + x && (q + y)[1..] == q[1..] + y;
      Prefixed(p[1..], x, q[1..], y);
      assert p == [p[0]] + p[1..] && q == [q[0]] + q[1..];
    }
  }

  // ---- sorting a set of names ------------------------------------------

  ghost predicate Sorted(s: seq<string>) {
    forall i, j :: 0 <= i < j < |s| ==> Less(s[i], s[j])
  }

  /** `s` lists exactly the members of `names` in increasing order. */
  ghost predicate Lists(s: seq<string>, names: set<string>) {
    Sorted(s) && (forall x :: x in s <==> x in names)
  }

  lemma {:induction false} ListsUnique(a: seq<string>, b: seq<string>, names: set<string>)
    requires Lists(a, names) && Lists(b, names)
    ensures a == b
    decreases |names|
  {
    ListsLength(a, names);
    ListsLength(b, names);
    if a != [] {
      assert a[0] in b;
      var i :| 0 <= i < |b| && b[i] == a[0];
      assert b[0] in a;
      var j :| 0 <= j < |a| && a[j] == b[0];
      if i > 0 && j > 0 { Asymmetric(a[0], a[j]); assert false; }
      assert a[0] == b[0];
      TailLists(a, names);
      TailLists(b, names);
      ListsUnique(a[1..], b[1..], names - {a[0]});
      assert a == [a[0]] + a[1..] && b == [b[0]] + b[1..];
    }
  }

  lemma TailLists(s: seq<string>, names: set<string>)
    requires Lists(s, names) && s != []
    ensures Lists(s[1..], names - {s[0]}) && s[0] in names
  {
    assert s == [s[0]] + s[1..];
    forall x ensures x in s[1..] <==> x in names - {s[0]} {
      if x in s[1..] {
        var i :| 0 <= i < |s[1..]| && s[1..][i] == x;
        assert s[i + 1] == x;
        Asymmetric(s[0], s[i + 1]);
      }
    }
  }

  /** `x` put in its place among the members of a sorted sequence. */
  function Insert(s: seq<string>, x: string): (r: seq<string>)
  {
    if s == [] then [x]
    else if Less(x, s[0]) then [x] + s
    else [s[0]] + Insert(s[1..], x)
  }

  lemma {:induction false} InsertLists(s: seq<string>, x: string, names: set<string>)
    requires Lists(s, names) && x !in names
    ensures Lists(Insert(s, x), names + {x})
    decreases |s|
  {
    if s == [] {
    } else if Less(x, s[0]) {
      var r := [x] + s;
      forall i, j | 0 <= i < j < |r| ensures Less(r[i], r[j]) {
        if i == 0 && j > 1 { Transitive(x, s[0], s[j - 1]); }
      }
      forall y ensures y in r <==> y in names + {x} { assert y in r <==> y == x || y in s; }
    } else {
      assert s[0] in names;
      Total(x, s[0]);
      TailLists(s, names);
      InsertLists(s[1..], x, names - {s[0]});
      var t := Insert(s[1..], x);
      var r := [s[0]] + t;
      forall i, j | 0 <= i < j < |r| ensures Less(r[i], r[j]) {
        if i == 0 {
          assert t[j - 1] in t;
          if t[j - 1] != x {
            assert t[j - 1] in s[1..];
            var m :| 0 <= m < |s[1..]| && s[1..][m] == t[j - 1];
            assert s[m + 1] == t[j - 1];
          }
        } else {
          assert r[i] == t[i - 1] && r[j] == t[j - 1];
        }
      }
      forall y ensures y in r <==> y in names + {x} { assert y in r <==> y == s[0] || y in t; }
    }
  }

  /** The library sort over a collected set of names: vectors of directory
      entries, hash-map keys and ORDER BY columns all pass through it. */
  method SortNames(names: set<string>) returns (r: seq<string>)
    ensures Lists(r, names)
  {
    r := [];
    var rest := names;
    while rest != {}
      invariant rest <= names
      invariant Lists(r, names - rest)
      decreases rest
    {
      var x :| x in rest;
      InsertLists(r, x, names - rest);
      assert (names - rest) + {x} == names - (rest - {x});
      r := Insert(r, x);
      rest := rest - {x};
    }
    assert names - {} == names;
  }

  lemma SortedListExists(names: set<string>) returns (r: seq<string>)
    ensures Lists(r, names)
    decreases |names|
  {
    if names == {} {
      r := [];
    } else {
      var x :| x in names;
      var t := SortedListExists(names - {x});
      InsertLists(t, x, names - {x});
      assert names - {x} + {x} == names;
      r := Insert(t, x);
    }
  }

  /** The one sorted listing of a set. */
  ghost function SortedList(names: set<string>): (r: seq<string>)
    ensures Lists(r, names)
  {
    assert exists s :: Lists(s, names) by { var s := SortedListExists(names); }
    var s :| Lists(s, names);
    s
  }

  lemma ListsIsSortedList(s: seq<string>, names: set<string>)
    requires Lists(s, names)
    ensures s == SortedList(names)
  {
    ListsUnique(s, SortedList(names), names);
  }

  lemma {:induction false} ListsLength(s: seq<string>, names: set<string>)
    requires Lists(s, names)
    ensures |s| == |names|
    decreases |s|
  {
    if s != [] {
      TailLists(s, names);
      ListsLength(s[1..], names - {s[0]});
    } else {
      assert names == {};
    }
  }

  lemma SliceLists(s: seq<string>, k: nat)
    requires Sorted(s) && k <= |s|
    ensures Lists(s[k..], ToSet(s[k..])) && |ToSet(s[k..])| == |s| - k
  {
    var t := ToSet(s[k..]);
    assert Lists(s[k..], t);
    ListsLength(s[k..], t);
  }

  /** A listing with one more name at its end. */
  lemma SnocLists(s: seq<string>, x: string, names: set<string>)
    requires Lists(s, names) && forall i :: 0 <= i < |s| ==> Less(s[i], x)
    ensures Lists(s + [x], names + {x})
  {
    assert forall y :: y in s + [x] <==> y in s || y == x;
  }
}
