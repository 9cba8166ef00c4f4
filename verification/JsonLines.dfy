// JSON-Lines files: how bytes split into records, and the one law about the
// record codec that the writers and readers of the platform rely on.
module JsonLines {
  import opened Common

  /** `bytes.split(|b| *b == b'\n')`: always at least one piece. */
  function Split(b: seq<byte>): (r: seq<seq<byte>>)
    ensures |r| >= 1
  {
    if b == [] then [[]] else Push(b[0], Split(b[1..]))
  }

  /** One more byte in front: a newline opens a new piece. */
  function Push(h: byte, pieces: seq<seq<byte>>): (r: seq<seq<byte>>)
    requires |pieces| >= 1
    ensures |r| >= 1
  {
    if h == NEWLINE then [[]] + pieces else [[h] + pieces[0]] + pieces[1..]
  }

  lemma PushConcat(h: byte, t: seq<seq<byte>>, u: seq<seq<byte>>)
    requires |t| >= 1
    ensures Push(h, t + u) == Push(h, t) + u
  {
    assert (t + u)[0] == t[0] && (t + u)[1..] == t[1..] + u;
  }

  function NonEmpty(ls: seq<seq<byte>>): (r: seq<seq<byte>>)
    ensures forall l :: l in r ==> l != []
  {
    if ls == [] then []
    else if ls[0] == [] then NonEmpty(ls[1..])
    else [ls[0]] + NonEmpty(ls[1..])
  }

  /** The records of a file: the pieces between newlines, empty ones skipped. */
  function Lines(b: seq<byte>): seq<seq<byte>> {
    NonEmpty(Split(b))
  }

  /** Empty, or ending in a newline: the next append starts a new line. */
  predicate Terminated(b: seq<byte>) {
    b == [] || b[|b| - 1] == NEWLINE
  }

  lemma {:induction false} SplitAt(a: seq<byte>, b: seq<byte>)
    ensures Split(a + [NEWLINE] + b) == Split(a) + Split(b)
  {
    var whole := a + [NEWLINE] + b;
    if a == [] {
      assert whole == [NEWLINE] + b && whole[1..] == b;
    } else {
      assert whole[0] == a[0] && whole[1..] == a[1..] + [NEWLINE] + b;
      SplitAt(a[1..], b);
      PushConcat(a[0], Split(a[1..]), Split(b));
    }
  }

  lemma {:induction false} NonEmptyConcat(a: seq<seq<byte>>, b: seq<seq<byte>>)
    ensures NonEmpty(a + b) == NonEmpty(a) + NonEmpty(b)
  {
    if a == [] {
      assert a + b == b;
    } else {
      assert (a + b)[1..] == a[1..] + b;
      NonEmptyConcat(a[1..], b);
    }
  }

  lemma {:induction false} SplitPlain(x: seq<byte>)
    requires NEWLINE !in x
    ensures Split(x) == [x]
  {
    if x != [] {
      SplitPlain(x[1..]);
      assert x == [x[0]] + x[1..];
    }
  }

  /** Whatever follows a terminated file is read as further records. */
  lemma LinesAfter(a: seq<byte>, b: seq<byte>)
    requires Terminated(a)
    ensures Lines(a + b) == Lines(a) + Lines(b)
  {
    if a == [] {
      assert a + b == b;
    } else {
      var p := a[..|a| - 1];
      assert a == p + [NEWLINE] && a == p + [NEWLINE] + [];
      assert a + b == p + [NEWLINE] + b;
      SplitAt(p, b);
      SplitAt(p, []);
      NonEmptyConcat(Split(p), Split(b));
      NonEmptyConcat(Split(p), Split([]));
    }
  }

  lemma OneLine(x: seq<byte>)
    requires x != [] && NEWLINE !in x
    ensures Lines(x + [NEWLINE]) == [x]
  {
    assert x + [NEWLINE] == x + [NEWLINE] + [];
    SplitAt(x, []);
    SplitPlain(x);
    NonEmptyConcat([x], [[]]);
  }

  lemma PlainLine(x: seq<byte>)
    requires x != [] && NEWLINE !in x
    ensures Lines(x) == [x]
  {
    SplitPlain(x);
    NonEmptyConcat([x], []);
    assert NonEmpty([]) == [] && [x] + [] == [x];
  }

  // ---- records -----------------------------------------------------------

  datatype Codec<!T> = Codec(encode: T -> seq<byte>, decode: seq<byte> -> Option<T>)

  /** What serde_json gives for the platform's record types: decoding undoes
      encoding, and a compact encoding is a non-empty line without newlines. */
  ghost predicate Lawful<T(!new)>(c: Codec<T>) {
    forall x: T {:trigger c.encode(x)} ::
      c.decode(c.encode(x)) == Some(x) && c.encode(x) != [] && NEWLINE !in c.encode(x)
  }

  /** Decode every line, or fail when one is malformed. */
  function DecodeAll<T>(c: Codec<T>, ls: seq<seq<byte>>): Option<seq<T>> {
    if ls == [] then Some([])
    else
      match c.decode(ls[0])
      case None => None
      case Some(x) =>
        match DecodeAll(c, ls[1..])
        case None => None
        case Some(xs) => Some([x] + xs)
  }

  function Parse<T>(c: Codec<T>, b: seq<byte>): Option<seq<T>> {
    DecodeAll(c, Lines(b))
  }

  /** One line of the file. */
  function Line<T>(c: Codec<T>, x: T): seq<byte> {
    c.encode(x) + [NEWLINE]
  }

  function Render<T>(c: Codec<T>, xs: seq<T>): seq<byte> {
    if xs == [] then [] else Line(c, xs[0]) + Render(c, xs[1..])
  }

  lemma {:induction false} DecodeAllConcat<T>(c: Codec<T>, a: seq<seq<byte>>, b: seq<seq<byte>>)
    ensures DecodeAll(c, a + b) ==
      if DecodeAll(c, a).Some? && DecodeAll(c, b).Some?
      then Some(DecodeAll(c, a).value + DecodeAll(c, b).value) else None
  {
    if a == [] {
      assert a + b == b;
      if DecodeAll(c, b).Some? { assert [] + DecodeAll(c, b).value == DecodeAll(c, b).value; }
    } else {
      assert (a + b)[1..] == a[1..] + b;
      DecodeAllConcat(c, a[1..], b);
      if c.decode(a[0]).Some? && DecodeAll(c, a[1..]).Some? && DecodeAll(c, b).Some? {
        var x, u, v := c.decode(a[0]).value, DecodeAll(c, a[1..]).value, DecodeAll(c, b).value;
        assert [x] + (u + v) == ([x] + u) + v;
      }
    }
  }

  lemma DecodeOne<T>(c: Codec<T>, l: seq<byte>)
    ensures DecodeAll(c, [l]) == if c.decode(l).Some? then Some([c.decode(l).value]) else None
  {
    assert [l][1..] == [];
    assert DecodeAll(c, []) == Some([]);
    if c.decode(l).Some? { assert [c.decode(l).value] + [] == [c.decode(l).value]; }
  }

  lemma {:induction false} DecodeAllAt<T>(c: Codec<T>, ls: seq<seq<byte>>)
    ensures DecodeAll(c, ls).Some? <==> forall k :: 0 <= k < |ls| ==> c.decode(ls[k]).Some?
    ensures DecodeAll(c, ls).Some? ==> |DecodeAll(c, ls).value| == |ls|
    ensures DecodeAll(c, ls).Some? ==>
      forall k :: 0 <= k < |ls| ==> c.decode(ls[k]) == Some(DecodeAll(c, ls).value[k])
  {
    if ls != [] {
      DecodeAllAt(c, ls[1..]);
      forall k | 0 < k < |ls| ensures ls[k] == ls[1..][k - 1] {}
      if DecodeAll(c, ls[1..]).Some? {
        assert forall k :: 0 <= k < |ls[1..]| ==> c.decode(ls[1..][k]).Some?;
      } else {
        var k :| 0 <= k < |ls[1..]| && !c.decode(ls[1..][k]).Some?;
        assert !c.decode(ls[k + 1]).Some?;
      }
    }
  }

  /** Appending one encoded record to a terminated file adds exactly that record. */
  lemma ParseAppend<T(!new)>(c: Codec<T>, b: seq<byte>, x: T)
    requires Lawful(c) && Terminated(b)
    ensures Terminated(b + Line(c, x)) && Lines(b + Line(c, x)) == Lines(b) + [c.encode(x)]
    ensures Parse(c, b + Line(c, x)) == if Parse(c, b).Some? then Some(Parse(c, b).value + [x]) else None
  {
    var l := c.encode(x);
    LinesAfter(b, Line(c, x));
    OneLine(l);
    DecodeAllConcat(c, Lines(b), [l]);
    DecodeOne(c, l);
  }

  /** What the disk did to one append: every write and the sync went through, or
      one failed after `landed` bytes of the line had reached the file. */
  datatype Fate = Durable | Failed(landed: nat)

  // ---- torn and glued lines ------------------------------------------------

  function Flat(ps: seq<seq<byte>>): seq<byte> {
    if ps == [] then [] else Flat(ps[..|ps| - 1]) + ps[|ps| - 1]
  }

  /** A non-empty beginning of an encoding. */
  ghost predicate Fragment<T(!new)>(c: Codec<T>, p: seq<byte>) {
    p != [] && exists x: T :: p <= c.encode(x)
  }

  ghost predicate Fragments<T(!new)>(c: Codec<T>, ps: seq<seq<byte>>) {
    forall i :: 0 <= i < |ps| ==> Fragment(c, ps[i])
  }

  /** What holds of JSON objects besides the round trip: an encoding that was cut
      short does not decode, and neither do two or more of them, whole or cut,
      glued into one line. */
  ghost predicate Tearproof<T(!new)>(c: Codec<T>) {
    && (forall x: T, k: nat :: 0 < k < |c.encode(x)| ==> c.decode(c.encode(x)[..k]).None?)
    && (forall ps: seq<seq<byte>> :: |ps| >= 2 && Fragments(c, ps) ==> c.decode(Flat(ps)).None?)
  }

  /** Whole lines, then fragments `ps` that do not decode as one line; `rest`
      is empty or starts the next line. */
  ghost predicate BrokenAt<T(!new)>(c: Codec<T>, b: seq<byte>, a: seq<byte>, ps: seq<seq<byte>>, rest: seq<byte>) {
    && b == a + (Flat(ps) + rest) && Terminated(a) && (rest == [] || rest[0] == NEWLINE)
    && |ps| >= 1 && Fragments(c, ps) && c.decode(Flat(ps)).None?
  }

  /** The file holds a line that no reader decodes and no append repairs. */
  ghost predicate Broken<T(!new)>(c: Codec<T>, b: seq<byte>) {
    exists a, ps, rest :: BrokenAt(c, b, a, ps, rest)
  }

  ghost predicate EndsWith<T(!new)>(c: Codec<T>, b: seq<byte>, a: seq<byte>, x: T) {
    b == a + c.encode(x) && Terminated(a)
  }

  /** The last line is whole but lacks its newline. */
  ghost predicate Unended<T(!new)>(c: Codec<T>, b: seq<byte>) {
    exists a, x :: EndsWith(c, b, a, x)
  }

  lemma {:induction false} FragmentsAreFlat<T(!new)>(c: Codec<T>, ps: seq<seq<byte>>)
    requires Lawful(c) && Fragments(c, ps)
    ensures NEWLINE !in Flat(ps) && (ps != [] ==> Flat(ps) != [])
  {
    if ps != [] {
      FragmentsAreFlat(c, ps[..|ps| - 1]);
      var p := ps[|ps| - 1];
      assert Fragment(c, p);
      var x :| p <= c.encode(x);
      assert forall i :: 0 <= i < |p| ==> p[i] == c.encode(x)[i] && c.encode(x)[i] in c.encode(x);
    }
  }

  lemma BrokenDoesNotParse<T(!new)>(c: Codec<T>, b: seq<byte>)
    requires Lawful(c) && Broken(c, b)
    ensures Parse(c, b).None?
  {
    var a, ps, rest :| BrokenAt(c, b, a, ps, rest);
    var y := Flat(ps);
    FragmentsAreFlat(c, ps);
    LinesAfter(a, y + rest);
    if rest == [] {
      PlainLine(y);
      assert y + rest == y;
      DecodeAllConcat(c, Lines(a), [y]);
    } else {
      var r := rest[1..];
      assert rest == [NEWLINE] + r && y + rest == (y + [NEWLINE]) + r;
      OneLine(y);
      LinesAfter(y + [NEWLINE], r);
      DecodeAllConcat(c, [y], Lines(r));
      DecodeAllConcat(c, Lines(a), Lines(y + rest));
    }
    DecodeOne(c, y);
  }

  /** The part of a line that an append left: a fragment, then perhaps the newline. */
  lemma LinePart<T(!new)>(c: Codec<T>, x: T, n: nat) returns (p: seq<byte>, rest: seq<byte>)
    requires Lawful(c) && n > 0
    ensures Fragment(c, p) && Take(Line(c, x), n) == p + rest && (rest == [] || rest == [NEWLINE])
    ensures p == Take(c.encode(x), n) && (rest == [] <==> n <= |c.encode(x)|)
  {
    var e := c.encode(x);
    p := Take(e, n);
    rest := if n <= |e| then [] else [NEWLINE];
    assert p <= e;
    assert Take(Line(c, x), n) == p + rest;
  }

  lemma FlatSnoc(ps: seq<seq<byte>>, p: seq<byte>)
    ensures Flat(ps + [p]) == Flat(ps) + p
  {
    assert (ps + [p])[..|ps|] == ps;
  }

  lemma FlatOne(p: seq<byte>)
    ensures Flat([p]) == p
  {
    FlatSnoc([], p);
    assert [] + [p] == [p] && [] + p == p;
  }

  lemma Regroup(a: seq<byte>, y: seq<byte>, rest: seq<byte>, t: seq<byte>)
    ensures (a + (y + rest)) + t == a + (y + (rest + t))
    ensures (a + y) + t == a + (y + t)
  {
  }

  lemma FragmentsSnoc<T(!new)>(c: Codec<T>, ps: seq<seq<byte>>, p: seq<byte>)
    requires Fragments(c, ps) && Fragment(c, p)
    ensures Fragments(c, ps + [p])
  {
  }

  /** No append repairs a broken file. */
  lemma BrokenStays<T(!new)>(c: Codec<T>, b: seq<byte>, x: T, n: nat)
    requires Lawful(c) && Tearproof(c) && Broken(c, b)
    ensures Broken(c, b + Take(Line(c, x), n))
  {
    var t := Take(Line(c, x), n);
    var a, ps, rest :| BrokenAt(c, b, a, ps, rest);
    Regroup(a, Flat(ps), rest, t);
    if n == 0 {
      assert b + t == b;
    } else if rest != [] {
      assert (rest + t)[0] == rest[0];
      assert BrokenAt(c, b + t, a, ps, rest + t);
    } else {
      var p, r := LinePart(c, x, n);
      assert rest + t == t;
      MoreFragments(c, a, ps, p, r);
      Regroup(a, Flat(ps), p, r);
    }
  }

  lemma MoreFragments<T(!new)>(c: Codec<T>, a: seq<byte>, ps: seq<seq<byte>>, p: seq<byte>, r: seq<byte>)
    requires Tearproof(c) && Terminated(a) && ps != [] && Fragments(c, ps) && Fragment(c, p)
    requires r == [] || r[0] == NEWLINE
    ensures Broken(c, a + (Flat(ps) + (p + r)))
  {
    FlatSnoc(ps, p);
    FragmentsSnoc(c, ps, p);
    Regroup(Flat(ps), p, [], r);
    assert Flat(ps) + (p + r) == Flat(ps + [p]) + r;
    assert BrokenAt(c, a + (Flat(ps + [p]) + r), a, ps + [p], r);
  }

  lemma WholeIsFragment<T(!new)>(c: Codec<T>, x: T)
    requires Lawful(c)
    ensures Fragment(c, c.encode(x)) && Fragments(c, [c.encode(x)]) && Flat([c.encode(x)]) == c.encode(x)
  {
    var e := c.encode(x);
    assert e <= c.encode(x);
    FlatOne(e);
  }

  /** A line that lacks its newline is spoilt by the next append. */
  lemma GluedIsBroken<T(!new)>(c: Codec<T>, b: seq<byte>, x: T, n: nat)
    requires Lawful(c) && Tearproof(c) && Unended(c, b) && n > 0
    ensures Broken(c, b + Take(Line(c, x), n))
  {
    var a, y :| EndsWith(c, b, a, y);
    var p, r := LinePart(c, x, n);
    WholeIsFragment(c, y);
    MoreFragments(c, a, [c.encode(y)], p, r);
    Regroup(a, c.encode(y), [], p + r);
  }

  /** A line that was cut inside. */
  lemma TornIsBroken<T(!new)>(c: Codec<T>, b: seq<byte>, x: T, n: nat)
    requires Lawful(c) && Tearproof(c) && Terminated(b) && 0 < n < |c.encode(x)|
    ensures Broken(c, b + Take(Line(c, x), n))
  {
    var p, r := LinePart(c, x, n);
    assert p == c.encode(x)[..n];
    FlatOne(p);
    assert BrokenAt(c, b + (p + r), b, [p], r);
  }

  /** A line that landed without its newline is a record all the same. */
  lemma UnendedParses<T(!new)>(c: Codec<T>, b: seq<byte>, x: T)
    requires Lawful(c) && Terminated(b)
    ensures var b' := b + Take(Line(c, x), |c.encode(x)|);
      Unended(c, b') && Parse(c, b') == Parse(c, b + Line(c, x))
  {
    var e := c.encode(x);
    assert Take(Line(c, x), |e|) == e;
    assert EndsWith(c, b + e, b, x);
    LinesAfter(b, e);
    PlainLine(e);
    ParseAppend(c, b, x);
  }

  /** What `n` bytes of a line do to a file that ends in a newline: one more
      record, one more record that lacks its newline, or a broken file. */
  lemma AppendPart<T(!new)>(c: Codec<T>, b: seq<byte>, x: T, n: nat)
    requires Lawful(c) && Tearproof(c) && Terminated(b)
    ensures var b', w := b + Take(Line(c, x), n), |c.encode(x)|;
      && (n == 0 ==> b' == b)
      && (0 < n < w ==> Broken(c, b'))
      && (n == w ==> Unended(c, b') && Parse(c, b') == Parse(c, b + Line(c, x)))
      && (n > w ==> b' == b + Line(c, x))
  {
    if 0 < n < |c.encode(x)| {
      TornIsBroken(c, b, x, n);
    } else if n == |c.encode(x)| {
      UnendedParses(c, b, x);
    }
  }

  /** Round trip of a whole rewritten file. */
  lemma {:induction false} ParseRender<T(!new)>(c: Codec<T>, xs: seq<T>)
    requires Lawful(c)
    ensures Terminated(Render(c, xs)) && Parse(c, Render(c, xs)) == Some(xs)
  {
    if xs != [] {
      var h, t := Line(c, xs[0]), Render(c, xs[1..]);
      ParseRender(c, xs[1..]);
      OneLine(c.encode(xs[0]));
      LinesAfter(h, t);
      DecodeAllConcat(c, Lines(h), Lines(t));
      DecodeOne(c, c.encode(xs[0]));
      assert xs == [xs[0]] + xs[1..];
    }
  }

  lemma {:induction false} RenderConcat<T>(c: Codec<T>, xs: seq<T>, ys: seq<T>)
    ensures Render(c, xs + ys) == Render(c, xs) + Render(c, ys)
  {
    if xs == [] {
      assert xs + ys == ys;
    } else {
      assert (xs + ys)[1..] == xs[1..] + ys;
      RenderConcat(c, xs[1..], ys);
    }
  }

  /** The file-writing loop: one encoded line per record. */
  method WriteLines<T>(c: Codec<T>, xs: seq<T>) returns (b: seq<byte>)
    ensures b == Render(c, xs)
  {
    b := [];
    for i := 0 to |xs|
      invariant b == Render(c, xs[..i])
    {
      b := b + c.encode(xs[i]) + [NEWLINE];
      assert xs[..i + 1] == xs[..i] + [xs[i]];
      RenderConcat(c, xs[..i], [xs[i]]);
    }
    assert xs[..|xs|] == xs;
  }

  /** The file-reading loop: decode line by line, stopping at a malformed one. */
  method ReadLines<T>(c: Codec<T>, b: seq<byte>) returns (r: Option<seq<T>>)
    ensures r == Parse(c, b)
  {
    var ls := Lines(b);
    var out := [];
    for i := 0 to |ls|
      invariant DecodeAll(c, ls[..i]) == Some(out)
    {
      assert ls == ls[..i] + [ls[i]] + ls[i + 1..];
      assert ls[..i + 1] == ls[..i] + [ls[i]];
      DecodeAllConcat(c, ls[..i], [ls[i]]);
      DecodeOne(c, ls[i]);
      DecodeAllConcat(c, ls[..i + 1], ls[i + 1..]);
      match c.decode(ls[i]) {
        case None => return None;
        case Some(x) => out := out + [x];
      }
    }
    assert ls[..|ls|] == ls;
    r := Some(out);
  }
}
