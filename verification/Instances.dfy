// Concrete codecs and suites that meet the laws the other modules take as
// hypotheses: the hypotheses can be satisfied. The encodings are simple, not
// the JSON of the platform.
module Instances {
  import opened Common
  import opened JsonLines
  import Audit
  import Secrets
  import ModelCards

  // ---- numbers as newline-free bytes --------------------------------------------

  const MARK: byte := 49
  const COMMA: byte := 44
  const OPEN: byte := 64
  const CLOSE: byte := 36

  function Unary(n: nat): (b: seq<byte>)
    ensures |b| == n + 1 && NEWLINE !in b
  {
    if n == 0 then [COMMA] else [MARK] + Unary(n - 1)
  }

  function PutAll(ns: seq<nat>): (b: seq<byte>)
    ensures NEWLINE !in b
  {
    if ns == [] then [] else Unary(ns[0]) + PutAll(ns[1..])
  }

  /** Leading number and the rest. */
  function TakeUnary(b: seq<byte>): Option<(nat, seq<byte>)> {
    if b == [] then None
    else if b[0] == COMMA then Some((0, b[1..]))
    else if b[0] != MARK then None
    else
      match TakeUnary(b[1..])
      case None => None
      case Some((n, rest)) => Some((n + 1, rest))
  }

  lemma {:induction false} TakeUnaryShrinks(b: seq<byte>)
    requires TakeUnary(b).Some?
    ensures |TakeUnary(b).value.1| < |b|
  {
    if b[0] != COMMA { TakeUnaryShrinks(b[1..]); }
  }

  function TakeAll(b: seq<byte>): Option<seq<nat>>
    decreases |b|
  {
    if b == [] then Some([])
    else
      match TakeUnary(b)
      case None => None
      case Some((n, rest)) =>
        TakeUnaryShrinks(b);
        match TakeAll(rest)
        case None => None
        case Some(ns) => Some([n] + ns)
  }

  lemma {:induction false} UnaryRoundTrip(n: nat, rest: seq<byte>)
    ensures TakeUnary(Unary(n) + rest) == Some((n, rest))
  {
    var b := Unary(n) + rest;
    if n == 0 {
      assert b[1..] == rest;
    } else {
      assert b[1..] == Unary(n - 1) + rest;
      UnaryRoundTrip(n - 1, rest);
    }
  }

  lemma {:induction false} AllRoundTrip(ns: seq<nat>)
    ensures TakeAll(PutAll(ns)) == Some(ns)
  {
    if ns != [] {
      UnaryRoundTrip(ns[0], PutAll(ns[1..]));
      AllRoundTrip(ns[1..]);
      assert ns == [ns[0]] + ns[1..];
    }
  }

  // ---- records as numbers -----------------------------------------------------

  function Chars(s: string): (r: seq<nat>)
    ensures |r| == |s|
  {
    if s == "" then [] else [s[0] as nat] + Chars(s[1..])
  }

  function Scalar(n: nat): Option<char> {
    if n < 0xD800 || 0xE000 <= n < 0x110000 then Some(n as char) else None
  }

  function Bytes(s: seq<byte>): (r: seq<nat>)
    ensures |r| == |s|
  {
    if s == [] then [] else [s[0] as nat] + Bytes(s[1..])
  }

  function PutString(s: string): seq<nat> {
    [|s|] + Chars(s)
  }

  function PutBytes(s: seq<byte>): seq<nat> {
    [|s|] + Bytes(s)
  }

  function TakeChars(n: nat, ns: seq<nat>): Option<(string, seq<nat>)>
    decreases n
  {
    if n == 0 then Some(("", ns))
    else if ns == [] || Scalar(ns[0]).None? then None
    else
      match TakeChars(n - 1, ns[1..])
      case None => None
      case Some((s, rest)) => Some(([Scalar(ns[0]).value] + s, rest))
  }

  function TakeString(ns: seq<nat>): Option<(string, seq<nat>)> {
    if ns == [] then None else TakeChars(ns[0], ns[1..])
  }

  function TakeOctets(n: nat, ns: seq<nat>): Option<(seq<byte>, seq<nat>)>
    decreases n
  {
    if n == 0 then Some(([], ns))
    else if ns == [] || ns[0] >= 256 then None
    else
      match TakeOctets(n - 1, ns[1..])
      case None => None
      case Some((s, rest)) => Some(([ns[0] as byte] + s, rest))
  }

  function TakeBytes(ns: seq<nat>): Option<(seq<byte>, seq<nat>)> {
    if ns == [] then None else TakeOctets(ns[0], ns[1..])
  }

  lemma {:induction false} CharsRoundTrip(s: string, rest: seq<nat>)
    ensures TakeChars(|s|, Chars(s) + rest) == Some((s, rest))
  {
    if s == "" {
      assert Chars(s) + rest == rest;
    } else {
      assert (Chars(s) + rest)[1..] == Chars(s[1..]) + rest;
      CharsRoundTrip(s[1..], rest);
      assert s == [s[0]] + s[1..];
    }
  }

  lemma StringRoundTrip(s: string, rest: seq<nat>)
    ensures TakeString(PutString(s) + rest) == Some((s, rest))
  {
    assert (PutString(s) + rest)[1..] == Chars(s) + rest;
    CharsRoundTrip(s, rest);
  }

  lemma {:induction false} OctetsRoundTrip(s: seq<byte>, rest: seq<nat>)
    ensures TakeOctets(|s|, Bytes(s) + rest) == Some((s, rest))
  {
    if s == [] {
      assert Bytes(s) + rest == rest;
    } else {
      assert (Bytes(s) + rest)[1..] == Bytes(s[1..]) + rest;
      OctetsRoundTrip(s[1..], rest);
      assert s == [s[0]] + s[1..];
    }
  }

  lemma BytesRoundTrip(s: seq<byte>, rest: seq<nat>)
    ensures TakeBytes(PutBytes(s) + rest) == Some((s, rest))
  {
    assert (PutBytes(s) + rest)[1..] == Bytes(s) + rest;
    OctetsRoundTrip(s, rest);
  }

  /** A record between two marks: a cut line lacks the closing one, and a glued
      line has an opening one inside. */
  function LineCodec<T>(put: T -> seq<nat>, take: seq<nat> -> Option<T>): Codec<T> {
    Codec((x: T) => [OPEN] + PutAll(put(x)) + [CLOSE],
          (b: seq<byte>) =>
            if |b| < 2 || b[0] != OPEN || b[|b| - 1] != CLOSE then None
            else match TakeAll(b[1..|b| - 1]) case None => None case Some(ns) => take(ns))
  }

  lemma LineCodecLawful<T(!new)>(put: T -> seq<nat>, take: seq<nat> -> Option<T>)
    requires forall x :: take(put(x)) == Some(x)
    ensures Lawful(LineCodec(put, take))
  {
    var c := LineCodec(put, take);
    forall x: T ensures c.decode(c.encode(x)) == Some(x) && c.encode(x) != [] && NEWLINE !in c.encode(x) {
      var b := c.encode(x);
      assert b[1..|b| - 1] == PutAll(put(x));
      AllRoundTrip(put(x));
    }
  }

  /** Bytes that encode numbers: no marks. */
  predicate Numeral(b: seq<byte>) {
    forall i :: 0 <= i < |b| ==> b[i] == MARK || b[i] == COMMA
  }

  lemma {:induction false} UnaryNumeral(n: nat)
    ensures Numeral(Unary(n))
  {
    if n > 0 { UnaryNumeral(n - 1); }
  }

  lemma {:induction false} PutAllNumeral(ns: seq<nat>)
    ensures Numeral(PutAll(ns))
  {
    if ns != [] {
      UnaryNumeral(ns[0]);
      PutAllNumeral(ns[1..]);
    }
  }

  lemma {:induction false} TakeUnaryNumeral(b: seq<byte>)
    requires TakeUnary(b).Some?
    ensures var rest := TakeUnary(b).value.1;
      |rest| < |b| && b == b[..|b| - |rest|] + rest && Numeral(b[..|b| - |rest|])
  {
    if b[0] == COMMA {
      assert b[..1] == [COMMA];
    } else {
      TakeUnaryNumeral(b[1..]);
      var n := |b| - |TakeUnary(b).value.1|;
      assert b[..n] == [MARK] + b[1..][..n - 1];
    }
  }

  /** Only numerals decode. */
  lemma {:induction false} TakeAllNumeral(b: seq<byte>)
    requires TakeAll(b).Some?
    ensures Numeral(b)
    decreases |b|
  {
    if b != [] {
      TakeUnaryNumeral(b);
      var rest := TakeUnary(b).value.1;
      TakeAllNumeral(rest);
      assert forall i :: 0 <= i < |rest| ==> rest[i] == b[|b| - |rest| + i];
    }
  }

  /** A beginning of a line starts with the opening mark and has no other mark
      unless it is the whole line. */
  lemma BeginningOfLine<T(!new)>(put: T -> seq<nat>, take: seq<nat> -> Option<T>, x: T, p: seq<byte>)
    requires p != [] && p <= LineCodec(put, take).encode(x)
    ensures p[0] == OPEN
    ensures p == LineCodec(put, take).encode(x) || p[|p| - 1] != CLOSE
  {
    var e := LineCodec(put, take).encode(x);
    PutAllNumeral(put(x));
    var n := |p| - 1;
    assert p[n] == e[n] && e == [OPEN] + PutAll(put(x)) + [CLOSE];
    if 0 < n < |e| - 1 { assert e[n] == PutAll(put(x))[n - 1]; }
  }

  lemma {:induction false} FlatOfFragments<T(!new)>(put: T -> seq<nat>, take: seq<nat> -> Option<T>, ps: seq<seq<byte>>)
    requires |ps| >= 2 && Fragments(LineCodec(put, take), ps)
    ensures exists i :: 0 < i < |Flat(ps)| && Flat(ps)[i] == OPEN
  {
    var c := LineCodec(put, take);
    var init, last := ps[..|ps| - 1], ps[|ps| - 1];
    assert Fragment(c, last);
    var x :| last <= c.encode(x);
    BeginningOfLine(put, take, x, last);
    if |init| >= 2 {
      FlatOfFragments(put, take, init);
      var i :| 0 < i < |Flat(init)| && Flat(init)[i] == OPEN;
      assert Flat(ps)[i] == OPEN;
    } else {
      FlatOne(init[0]);
      assert init == [init[0]] && Fragment(c, init[0]);
      assert Flat(ps)[|init[0]|] == last[0];
    }
  }

  lemma DecodedHasNoMarkInside<T(!new)>(put: T -> seq<nat>, take: seq<nat> -> Option<T>, b: seq<byte>)
    requires LineCodec(put, take).decode(b).Some?
    ensures forall i :: 0 < i < |b| ==> b[i] != OPEN
  {
    TakeAllNumeral(b[1..|b| - 1]);
    forall i | 0 < i < |b| - 1 ensures b[i] != OPEN {
      assert b[i] == b[1..|b| - 1][i - 1];
    }
  }

  lemma LineCodecTearproof<T(!new)>(put: T -> seq<nat>, take: seq<nat> -> Option<T>)
    ensures Tearproof(LineCodec(put, take))
  {
    var c := LineCodec(put, take);
    forall x: T, k: nat | 0 < k < |c.encode(x)| ensures c.decode(c.encode(x)[..k]).None? {
      BeginningOfLine(put, take, x, c.encode(x)[..k]);
    }
    forall ps: seq<seq<byte>> | |ps| >= 2 && Fragments(c, ps) ensures c.decode(Flat(ps)).None? {
      FlatOfFragments(put, take, ps);
      if c.decode(Flat(ps)).Some? { DecodedHasNoMarkInside(put, take, Flat(ps)); }
    }
  }

  // ---- audit events ---------------------------------------------------------------

  const ACTIONS: seq<Audit.Action> := [
    Audit.ResourceCreated, Audit.ResourceUpdated, Audit.ResourceDeleted, Audit.Reconciled,
    Audit.Authn, Audit.UserAction, Audit.Ai, Audit.Other]

  function ActionCode(a: Audit.Action): (n: nat)
    ensures n < |ACTIONS| && ACTIONS[n] == a
  {
    match a
    case ResourceCreated => 0 case ResourceUpdated => 1 case ResourceDeleted => 2
    case Reconciled => 3 case Authn => 4 case UserAction => 5 case Ai => 6 case Other => 7
  }

  function PutOptional(o: Option<string>): seq<nat> {
    if o.None? then [0] else [1] + PutString(o.value)
  }

  function TakeOptional(ns: seq<nat>): Option<(Option<string>, seq<nat>)> {
    if ns == [] then None
    else if ns[0] == 0 then Some((None, ns[1..]))
    else
      match TakeString(ns[1..])
      case None => None
      case Some((s, rest)) => Some((Some(s), rest))
  }

  lemma OptionalRoundTrip(o: Option<string>, rest: seq<nat>)
    ensures TakeOptional(PutOptional(o) + rest) == Some((o, rest))
  {
    var ns := PutOptional(o) + rest;
    if o.None? {
      assert ns[1..] == rest;
    } else {
      assert ns[1..] == PutString(o.value) + rest;
      StringRoundTrip(o.value, rest);
    }
  }

  function PutEntry(e: Audit.Entry): seq<nat> {
    PutString(e.id) + (PutString(e.timestamp) + (PutString(e.actor)
    + ([ActionCode(e.action)] + (PutOptional(e.resource) + PutString(e.detail)))))
  }

  function TakeEntry(ns: seq<nat>): Option<Audit.Entry> {
    match TakeString(ns)
    case None => None
    case Some((id, n1)) =>
      match TakeString(n1)
      case None => None
      case Some((timestamp, n2)) =>
        match TakeString(n2)
        case None => None
        case Some((actor, n3)) =>
          if n3 == [] || n3[0] >= |ACTIONS| then None
          else
            match TakeOptional(n3[1..])
            case None => None
            case Some((resource, n4)) =>
              match TakeString(n4)
              case None => None
              case Some((detail, _)) =>
                Some(Audit.Entry(id, timestamp, actor, ACTIONS[n3[0]], resource, detail))
  }

  lemma EntryRoundTrip(e: Audit.Entry)
    ensures TakeEntry(PutEntry(e)) == Some(e)
  {
    var n4 := PutString(e.detail);
    var t := PutOptional(e.resource) + n4;
    var n3 := [ActionCode(e.action)] + t;
    var n2 := PutString(e.actor) + n3;
    var n1 := PutString(e.timestamp) + n2;
    StringRoundTrip(e.id, n1);
    StringRoundTrip(e.timestamp, n2);
    StringRoundTrip(e.actor, n3);
    assert n3[1..] == t && n3[0] == ActionCode(e.action);
    OptionalRoundTrip(e.resource, n4);
    StringRoundTrip(e.detail, []);
    assert PutString(e.detail) + [] == n4;
  }

  function PutBody(b: Audit.Body): seq<nat> {
    [b.seqNo] + (PutBytes(b.prevDigest) + PutEntry(b.entry))
  }

  function TakeBody(ns: seq<nat>): Option<Audit.Body> {
    if ns == [] then None
    else
      match TakeBytes(ns[1..])
      case None => None
      case Some((prev, rest)) =>
        match TakeEntry(rest)
        case None => None
        case Some(e) => Some(Audit.Body(ns[0], prev, e))
  }

  lemma BodyRoundTrip(b: Audit.Body)
    ensures TakeBody(PutBody(b)) == Some(b)
  {
    var ns := PutBody(b);
    assert ns[1..] == PutBytes(b.prevDigest) + PutEntry(b.entry);
    BytesRoundTrip(b.prevDigest, PutEntry(b.entry));
    EntryRoundTrip(b.entry);
  }

  function PutEvent(e: Audit.Event): seq<nat> {
    PutBytes(e.signature) + PutBody(e.body)
  }

  function TakeEvent(ns: seq<nat>): Option<Audit.Event> {
    match TakeBytes(ns)
    case None => None
    case Some((signature, rest)) =>
      match TakeBody(rest)
      case None => None
      case Some(b) => Some(Audit.Event(b, signature))
  }

  const NULL_SIGNATURE: seq<byte> := seq(64, _ => 0 as byte)

  const AUDIT_SUITE: Audit.Suite := Audit.Suite(
    LineCodec(PutEvent, TakeEvent), LineCodec(PutBody, TakeBody),
    (m: seq<byte>) => m, (m: seq<byte>) => NULL_SIGNATURE,
    (m: seq<byte>, sig: seq<byte>) => sig == NULL_SIGNATURE)

  lemma AuditSuiteLawful()
    ensures Audit.LawfulSuite(AUDIT_SUITE) && Tearproof(AUDIT_SUITE.event)
  {
    forall e ensures TakeEvent(PutEvent(e)) == Some(e) {
      BytesRoundTrip(e.signature, PutBody(e.body));
      BodyRoundTrip(e.body);
    }
    LineCodecLawful(PutEvent, TakeEvent);
    LineCodecTearproof(PutEvent, TakeEvent);
    forall b ensures TakeBody(PutBody(b)) == Some(b) { BodyRoundTrip(b); }
    LineCodecLawful(PutBody, TakeBody);
  }

  // ---- secrets and model cards ---------------------------------------------------------

  function PutSecret(e: Secrets.EncryptedEntry): seq<nat> {
    PutString(e.name) + (PutBytes(e.nonce) + PutBytes(e.ciphertext))
  }

  function TakeSecret(ns: seq<nat>): Option<Secrets.EncryptedEntry> {
    match TakeString(ns)
    case None => None
    case Some((name, n1)) =>
      match TakeBytes(n1)
      case None => None
      case Some((nonce, n2)) =>
        match TakeBytes(n2)
        case None => None
        case Some((ct, _)) => Some(Secrets.EncryptedEntry(name, nonce, ct))
  }

  const SECRETS_SUITE: Secrets.Suite := Secrets.Suite(
    LineCodec(PutSecret, TakeSecret),
    (key: seq<byte>, nonce: seq<byte>, v: seq<byte>) => v,
    (key: seq<byte>, nonce: seq<byte>, ct: seq<byte>) => Some(ct),
    (pass: string, salt: seq<byte>) => salt)

  lemma SecretsSuiteLawful()
    ensures Secrets.LawfulSuite(SECRETS_SUITE)
  {
    forall e ensures TakeSecret(PutSecret(e)) == Some(e) {
      StringRoundTrip(e.name, PutBytes(e.nonce) + PutBytes(e.ciphertext));
      BytesRoundTrip(e.nonce, PutBytes(e.ciphertext));
      BytesRoundTrip(e.ciphertext, []);
      assert PutBytes(e.ciphertext) + [] == PutBytes(e.ciphertext);
    }
    LineCodecLawful(PutSecret, TakeSecret);
  }

  function PutCard(c: ModelCards.ModelCard): seq<nat> {
    [match c.risk case Prohibited => 0 case HighRisk => 1 case LimitedRisk => 2 case MinimalRisk => 3]
    + (PutString(c.id) + PutString(c.details))
  }

  function TakeCard(ns: seq<nat>): Option<ModelCards.ModelCard> {
    if ns == [] then None
    else
      var risk := if ns[0] == 0 then ModelCards.Prohibited else if ns[0] == 1 then ModelCards.HighRisk
                  else if ns[0] == 2 then ModelCards.LimitedRisk else ModelCards.MinimalRisk;
      match TakeString(ns[1..])
      case None => None
      case Some((id, rest)) =>
        match TakeString(rest)
        case None => None
        case Some((details, _)) => Some(ModelCards.ModelCard(id, risk, details))
  }

  lemma CardCodecLawful()
    ensures Lawful(LineCodec(PutCard, TakeCard)) && Tearproof(LineCodec(PutCard, TakeCard))
  {
    forall c ensures TakeCard(PutCard(c)) == Some(c) {
      assert PutCard(c)[1..] == PutString(c.id) + PutString(c.details);
      StringRoundTrip(c.id, PutString(c.details));
      StringRoundTrip(c.details, []);
      assert PutString(c.details) + [] == PutString(c.details);
    }
    LineCodecLawful(PutCard, TakeCard);
    LineCodecTearproof(PutCard, TakeCard);
  }
}
