// Shared vocabulary: optional values, results, and small facts about collections.
module Common {

  datatype Option<+T> = None | Some(value: T)

  datatype Result<+T, +E> = Ok(value: T) | Err(error: E)

  newtype byte = x: int | 0 <= x < 256

  const NEWLINE: byte := 10

  /** The first `n` elements, or all of them when there are fewer. */
  function Take<T>(s: seq<T>, n: nat): (r: seq<T>)
    ensures |r| == if n < |s| then n else |s|
    ensures forall i :: 0 <= i < |r| ==> r[i] == s[i]
  {
    if n < |s| then s[..n] else s
  }

  predicate StartsWith(s: string, p: string) {
    |p| <= |s| && s[..|p|] == p
  }

  function Reverse<T>(s: seq<T>): (r: seq<T>)
    ensures |r| == |s|
    ensures forall i :: 0 <= i < |s| ==> r[i] == s[|s| - 1 - i]
  {
    if s == [] then [] else Reverse(s[1..]) + [s[0]]
  }

  function ToSet<T>(s: seq<T>): set<T> {
    set x | x in s
  }

  lemma ToSetSnoc<T>(s: seq<T>, x: T)
    ensures ToSet(s + [x]) == ToSet(s) + {x}
  {
    assert forall y :: y in s + [x] <==> y in s || y == x;
  }

  lemma MinusTwice<K, V>(m: map<K, V>, a: set<K>, x: K)
    ensures m - a - {x} == m - (a + {x})
  {
  }

  lemma {:induction false} SubsetSize<T>(a: set<T>, b: set<T>)
    requires a <= b
    ensures |a| <= |b|
    decreases |a|
  {
    if a != {} {
      var x :| x in a;
      SubsetSize(a - {x}, b - {x});
    }
  }

  // ---- repeating a step ------------------------------------------------------

  function Iterate<S>(step: S -> S, s: S, n: nat): S
    decreases n
  {
    if n == 0 then s else Iterate(step, step(s), n - 1)
  }

  /** A step that keeps `good` and brings `left` down until it is 0. */
  lemma {:induction false} IterateDown<S(!new)>(step: S -> S, good: S -> bool, left: S -> nat, s: S, n: nat)
    requires forall x :: good(x) ==> good(step(x)) && (if left(x) == 0 then left(step(x)) == 0 else left(step(x)) < left(x))
    requires good(s) && left(s) <= n
    ensures good(Iterate(step, s, n)) && left(Iterate(step, s, n)) == 0
    decreases n
  {
    if n > 0 { IterateDown(step, good, left, step(s), n - 1); }
  }

  /** What a step keeps, any number of steps keep. */
  lemma {:induction false} IterateKeeps<S(!new)>(step: S -> S, good: S -> bool, s: S, n: nat)
    requires (forall x :: good(x) ==> good(step(x))) && good(s)
    ensures good(Iterate(step, s, n))
    decreases n
  {
    if n > 0 { IterateKeeps(step, good, step(s), n - 1); }
  }

  /** What a step never makes true, no number of steps does. */
  lemma {:induction false} IterateBack<S(!new)>(step: S -> S, good: S -> bool, s: S, n: nat)
    requires forall x :: good(step(x)) ==> good(x)
    requires good(Iterate(step, s, n))
    ensures good(s)
    decreases n
  {
    if n > 0 { IterateBack(step, good, step(s), n - 1); }
  }

  /** Steps along a given path. */
  lemma {:induction false} IterateAlong<S(!new)>(step: S -> S, path: nat -> S, k: nat, n: nat)
    requires k <= n && forall i: nat :: k <= i < n ==> step(path(i)) == path(i + 1)
    ensures Iterate(step, path(k), n - k) == path(n)
    decreases n - k
  {
    if k < n { IterateAlong(step, path, k + 1, n); }
  }

  /** The first index at which a property fails. */
  lemma {:induction false} Least(ok: nat -> bool, i: nat) returns (k: nat)
    requires !ok(i)
    ensures k <= i && !ok(k) && forall j: nat :: j < k ==> ok(j)
  {
    if j: nat :| j < i && !ok(j) { k := Least(ok, j); } else { k := i; }
  }
}
