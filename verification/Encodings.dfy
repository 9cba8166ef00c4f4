// Text encodings of binary values: lower-case hex digests and padded standard
// base64 (section 4 of RFC 4648), decoded strictly as base64ct does.
module Encodings {
  import opened Common

  function HexDigit(n: int): byte
    requires 0 <= n < 16
  {
    if n < 10 then (48 + n) as byte else (87 + n) as byte
  }

  function Hex(b: seq<byte>): (r: seq<byte>)
    ensures |r| == 2 * |b|
  {
    if b == [] then []
    else [HexDigit(b[0] as int / 16), HexDigit(b[0] as int % 16)] + Hex(b[1..])
  }

  lemma {:induction false} HexInjective(a: seq<byte>, b: seq<byte>)
    requires Hex(a) == Hex(b)
    ensures a == b
  {
    if a != [] && b != [] {
      var x, y := Hex(a), Hex(b);
      assert x[0] == y[0] && x[1] == y[1];
      assert x[2..] == Hex(a[1..]) && y[2..] == Hex(b[1..]);
      HexInjective(a[1..], b[1..]);
      assert a[0] as int == 16 * (a[0] as int / 16) + a[0] as int % 16;
      assert b[0] as int == 16 * (b[0] as int / 16) + b[0] as int % 16;
    }
  }

  /** Two digits of the alphabet 0123456789abcdef per byte, the high one first. */
  lemma {:induction false} HexDigits(b: seq<byte>, i: nat)
    requires i < |b|
    ensures var digits := "0123456789abcdef";
      && Hex(b)[2 * i] as char == digits[b[i] as int / 16]
      && Hex(b)[2 * i + 1] as char == digits[b[i] as int % 16]
  {
    if i > 0 {
      HexDigits(b[1..], i - 1);
      assert Hex(b)[2..] == Hex(b[1..]);
      assert Hex(b)[2 * i] == Hex(b)[2..][2 * (i - 1)] && Hex(b)[2 * i + 1] == Hex(b)[2..][2 * (i - 1) + 1];
    }
  }

  // ---- base64 ------------------------------------------------------------

  const PAD: byte := 61

  function Symbol(n: int): byte
    requires 0 <= n < 64
  {
    if n < 26 then (65 + n) as byte
    else if n < 52 then (71 + n) as byte
    else if n < 62 then (n - 4) as byte
    else if n == 62 then 43 else 47
  }

  /** The 6-bit value of an alphabet symbol, or -1. */
  function Value(c: byte): (n: int)
    ensures -1 <= n < 64
  {
    if 65 <= c <= 90 then c as int - 65
    else if 97 <= c <= 122 then c as int - 71
    else if 48 <= c <= 57 then c as int + 4
    else if c == 43 then 62
    else if c == 47 then 63
    else -1
  }

  function Encode64(b: seq<byte>): (r: seq<byte>)
    decreases |b|
  {
    if b == [] then []
    else if |b| == 1 then
      [Symbol(b[0] as int / 4), Symbol(b[0] as int % 4 * 16), PAD, PAD]
    else if |b| == 2 then
      [Symbol(b[0] as int / 4), Symbol(b[0] as int % 4 * 16 + b[1] as int / 16),
       Symbol(b[1] as int % 16 * 4), PAD]
    else
      [Symbol(b[0] as int / 4), Symbol(b[0] as int % 4 * 16 + b[1] as int / 16),
       Symbol(b[1] as int % 16 * 4 + b[2] as int / 64), Symbol(b[2] as int % 64)] + Encode64(b[3..])
  }

  /** One group of four symbols; padding only where `last`, unused bits zero. */
  function Group(a: byte, b: byte, c: byte, d: byte, last: bool): Option<seq<byte>> {
    var w, x, y, z := Value(a), Value(b), Value(c), Value(d);
    if w < 0 || x < 0 then None
    else if last && c == PAD && d == PAD then
      if x % 16 == 0 then Some([(w * 4 + x / 16) as byte]) else None
    else if y < 0 then None
    else if last && d == PAD then
      if y % 4 == 0 then Some([(w * 4 + x / 16) as byte, (x % 16 * 16 + y / 4) as byte]) else None
    else if z < 0 then None
    else Some([(w * 4 + x / 16) as byte, (x % 16 * 16 + y / 4) as byte, (y % 4 * 64 + z) as byte])
  }

  function Decode64(s: seq<byte>): Option<seq<byte>>
    decreases |s|
  {
    if s == [] then Some([])
    else if |s| < 4 then None
    else
      match Group(s[0], s[1], s[2], s[3], |s| == 4)
      case None => None
      case Some(g) =>
        match Decode64(s[4..])
        case None => None
        case Some(t) => Some(g + t)
  }

  lemma DecodeGroup(w: byte, x: byte, y: byte, z: byte, rest: seq<byte>, g: seq<byte>, t: seq<byte>)
    requires Group(w, x, y, z, rest == []) == Some(g) && Decode64(rest) == Some(t)
    ensures Decode64([w, x, y, z] + rest) == Some(g + t)
  {
    var s := [w, x, y, z] + rest;
    assert s[4..] == rest;
  }

  lemma {:induction false} RoundTrip64(b: seq<byte>)
    ensures Decode64(Encode64(b)) == Some(b)
    decreases |b|
  {
    if |b| == 1 {
      OneRoundTrip(b[0]);
      assert b == [b[0]];
    } else if |b| == 2 {
      TwoRoundTrip(b[0], b[1]);
      assert b == [b[0], b[1]];
    } else if b != [] {
      RoundTrip64(b[3..]);
      LongRoundTrip(b, Encode64(b[3..]));
    }
  }

  lemma OneRoundTrip(a: byte)
    ensures Decode64(Encode64([a])) == Some([a])
  {
    var w, x := Symbol(a as int / 4), Symbol(a as int % 4 * 16);
    SymbolValue(a as int / 4);
    SymbolValue(a as int % 4 * 16);
    DecodeGroup(w, x, PAD, PAD, [], [a], []);
    assert [w, x, PAD, PAD] + [] == Encode64([a]) && [a] + [] == [a];
  }

  lemma TwoRoundTrip(a: byte, b: byte)
    ensures Decode64(Encode64([a, b])) == Some([a, b])
  {
    var w, x := Symbol(a as int / 4), Symbol(a as int % 4 * 16 + b as int / 16);
    var y := Symbol(b as int % 16 * 4);
    SymbolValue(a as int / 4);
    SymbolValue(a as int % 4 * 16 + b as int / 16);
    SymbolValue(b as int % 16 * 4);
    DecodeGroup(w, x, y, PAD, [], [a, b], []);
    assert [w, x, y, PAD] + [] == Encode64([a, b]) && [a, b] + [] == [a, b];
  }

  lemma LongRoundTrip(b: seq<byte>, t: seq<byte>)
    requires |b| >= 3 && t == Encode64(b[3..]) && Decode64(t) == Some(b[3..])
    ensures Decode64(Encode64(b)) == Some(b)
  {
    var e := Encode64(b);
    GroupRoundTrip(b[0], b[1], b[2], t == []);
    DecodeGroup(e[0], e[1], e[2], e[3], t, [b[0], b[1], b[2]], b[3..]);
    assert e == [e[0], e[1], e[2], e[3]] + t;
    assert b == [b[0], b[1], b[2]] + b[3..];
  }

  lemma SymbolValue(n: int)
    requires 0 <= n < 64
    ensures Value(Symbol(n)) == n && Symbol(n) != PAD
  {
  }

  /** Four symbols with the values `p`, `q`, `r`, `t`. */
  lemma GroupOf(p: int, q: int, r: int, t: int, last: bool)
    requires 0 <= p < 64 && 0 <= q < 64 && 0 <= r < 64 && 0 <= t < 64
    ensures Group(Symbol(p), Symbol(q), Symbol(r), Symbol(t), last)
         == Some([(p * 4 + q / 16) as byte, (q % 16 * 16 + r / 4) as byte, (r % 4 * 64 + t) as byte])
  {
    SymbolValue(p);
    SymbolValue(q);
    SymbolValue(r);
    SymbolValue(t);
  }

  lemma SixBits(a: int, b: int, c: int)
    requires 0 <= a < 256 && 0 <= b < 256 && 0 <= c < 256
    ensures var p, q, r, t := a / 4, a % 4 * 16 + b / 16, b % 16 * 4 + c / 64, c % 64;
      && 0 <= p < 64 && 0 <= q < 64 && 0 <= r < 64 && 0 <= t < 64
      && p * 4 + q / 16 == a && q % 16 * 16 + r / 4 == b && r % 4 * 64 + t == c
  {
  }

  lemma GroupRoundTrip(a: byte, b: byte, c: byte, last: bool)
    ensures Group(Symbol(a as int / 4), Symbol(a as int % 4 * 16 + b as int / 16),
                  Symbol(b as int % 16 * 4 + c as int / 64), Symbol(c as int % 64), last) == Some([a, b, c])
  {
    SixBits(a as int, b as int, c as int);
    GroupOf(a as int / 4, a as int % 4 * 16 + b as int / 16, b as int % 16 * 4 + c as int / 64, c as int % 64, last);
  }

  lemma GroupLength(a: byte, b: byte, c: byte, d: byte, last: bool)
    requires Group(a, b, c, d, last).Some?
    ensures 1 <= |Group(a, b, c, d, last).value| <= 3
    ensures !last ==> |Group(a, b, c, d, last).value| == 3
  {
  }

  /** Three bytes per group of four symbols, up to two bytes fewer in the last group. */
  lemma {:induction false} Decode64Length(s: seq<byte>) returns (groups: nat)
    requires Decode64(s).Some?
    ensures |s| == 4 * groups
    ensures groups > 0 ==> 3 * groups - 2 <= |Decode64(s).value| <= 3 * groups
    decreases |s|
  {
    groups := 0;
    if s != [] {
      GroupLength(s[0], s[1], s[2], s[3], |s| == 4);
      groups := Decode64Length(s[4..]);
      groups := groups + 1;
    }
  }

  /** The signature width: only 88-symbol strings decode to 64 bytes. */
  lemma SixtyFourBytesAre88Symbols(s: seq<byte>)
    requires Decode64(s).Some? && |Decode64(s).value| == 64
    ensures |s| == 88
  {
    var groups := Decode64Length(s);
  }

  /** ASCII bytes as text. */
  function Ascii(b: seq<byte>): (t: string)
    ensures |t| == |b| && forall i :: 0 <= i < |t| ==> t[i] == b[i] as char
  {
    if b == [] then "" else [b[0] as char] + Ascii(b[1..])
  }

  /** Test vectors of section 10 of RFC 4648. */
  lemma TestVectors64()
    ensures Ascii(Encode64([102])) == "Zg==" && Ascii(Encode64([102, 111])) == "Zm8="
    ensures Ascii(Encode64([102, 111, 111])) == "Zm9v"
  {
    assert Encode64([102]) == [90, 103, 61, 61];
    assert Encode64([102, 111]) == [90, 109, 56, 61];
    assert [102 as byte, 111, 111][3..] == [];
    assert Encode64([102, 111, 111]) == [90, 109, 57, 118];
  }

  /** The alphabet of section 4 of RFC 4648. */
  lemma Alphabet64(n: int)
    requires 0 <= n < 64
    ensures n < 26 ==> Symbol(n) as char == 'A' + n as char
    ensures 26 <= n < 52 ==> Symbol(n) as char == 'a' + (n - 26) as char
    ensures 52 <= n < 62 ==> Symbol(n) as char == '0' + (n - 52) as char
    ensures n == 62 ==> Symbol(n) as char == '+'
    ensures n == 63 ==> Symbol(n) as char == '/'
  {
  }
}
