// The signed, hash-chained audit log: the verifier, the writer with its
// recovery on reopen, and what a log accepted by the verifier is worth.
module Audit {
  import opened Common
  import opened JsonLines
  import opened Encodings

  /** A Rust string kept as its UTF-8 bytes. */
  type Text = seq<byte>

  datatype Action =
    | ResourceCreated | ResourceUpdated | ResourceDeleted | Reconciled
    | Authn | UserAction | Ai | Other

  /** What the caller of `append` and the clock supply. */
  datatype Entry = Entry(
    id: string, timestamp: string, actor: string, action: Action,
    resource: Option<string>, detail: string)

  datatype Body = Body(seqNo: nat, prevDigest: Text, entry: Entry)

  datatype Event = Event(body: Body, signature: Text)

  /** The codecs, the hash and one signing key. */
  datatype Suite = Suite(
    event: Codec<Event>,
    body: Codec<Body>,
    hash: seq<byte> -> seq<byte>,
    sign: seq<byte> -> seq<byte>,
    check: (seq<byte>, seq<byte>) -> bool)

  /** The only laws used: codecs round-trip, signatures have 64 bytes and check. */
  ghost predicate LawfulSuite(s: Suite) {
    && Lawful(s.event)
    && Lawful(s.body)
    && forall m :: |s.sign(m)| == 64 && s.check(m, s.sign(m))
  }

  /** The bytes that are hashed into the chain: `body || signature`. */
  function Preimage(s: Suite, e: Event): seq<byte> {
    s.body.encode(e.body) + e.signature
  }

  function Digest(s: Suite, e: Event): seq<byte> {
    s.hash(Preimage(s, e))
  }

  predicate SignatureValid(s: Suite, e: Event) {
    var raw := Decode64(e.signature);
    raw.Some? && |raw.value| == 64 && s.check(s.body.encode(e.body), raw.value)
  }

  // ---- what a good log is ------------------------------------------------

  /** Hex digest of the event before position `i`; empty at the start. */
  function HeadAt(s: Suite, evs: seq<Event>, i: nat): Text
    requires i <= |evs|
  {
    if i == 0 then [] else Hex(Digest(s, evs[i - 1]))
  }

  predicate Linked(s: Suite, evs: seq<Event>, i: nat)
    requires i < |evs|
  {
    && evs[i].body.seqNo == i
    && evs[i].body.prevDigest == HeadAt(s, evs, i)
    && SignatureValid(s, evs[i])
  }

  ghost predicate Chained(s: Suite, evs: seq<Event>) {
    forall i :: 0 <= i < |evs| ==> Linked(s, evs, i)
  }

  /** The log is a list of well-formed events that form a signed chain. */
  ghost predicate Accepted(s: Suite, b: seq<byte>) {
    var evs := Parse(s.event, b);
    evs.Some? && Chained(s, evs.value)
  }

  function ZeroHead(): seq<byte> {
    seq(32, _ => 0 as byte)
  }

  function FinalHead(s: Suite, evs: seq<Event>): seq<byte> {
    if evs == [] then ZeroHead() else Digest(s, evs[|evs| - 1])
  }

  // ---- the verifier ------------------------------------------------------

  datatype VerifyError =
    | MalformedJson(line: nat)
    | OutOfOrder(line: nat, expected: nat, actual: nat)
    | ChainBroken(seqNo: nat, expectedDigest: Text, actualDigest: Text)
    | BadSignature(seqNo: nat)

  datatype VerifyOutcome = VerifyOutcome(eventsVerified: nat, finalChainHead: seq<byte>)

  /** What is wrong with line `k`, given that the lines before it are `evs`. */
  function Fault(s: Suite, evs: seq<Event>, l: seq<byte>): Option<VerifyError> {
    var k := |evs|;
    match s.event.decode(l)
    case None => Some(MalformedJson(k + 1))
    case Some(e) =>
      if e.body.seqNo != k then Some(OutOfOrder(k + 1, k, e.body.seqNo))
      else if e.body.prevDigest != HeadAt(s, evs, k) then
        Some(ChainBroken(k, HeadAt(s, evs, k), e.body.prevDigest))
      else if !SignatureValid(s, e) then Some(BadSignature(k))
      else None
  }

  /** The lines up to `k` are good and line `k` is the first offender, for the reason `err`. */
  ghost predicate FirstOffence(s: Suite, ls: seq<seq<byte>>, k: nat, err: VerifyError)
    requires k < |ls|
  {
    var good := DecodeAll(s.event, ls[..k]);
    good.Some? && Chained(s, good.value) && Fault(s, good.value, ls[k]) == Some(err)
  }

  /** Accepts exactly the chained logs, with their length and final head;
      otherwise names the first offending event and why. */
  method VerifyLog(s: Suite, b: seq<byte>) returns (r: Result<VerifyOutcome, VerifyError>)
    ensures r.Ok? <==> Accepted(s, b)
    ensures r.Ok? ==> var evs := Parse(s.event, b).value;
      r.value == VerifyOutcome(|evs|, FinalHead(s, evs))
    ensures r.Ok? ==> var evs := Parse(s.event, b).value;
      var head, n := r.value.finalChainHead, |evs|;
      && r.value.eventsVerified == n
      && (n == 0 ==> |head| == 32 && forall i :: 0 <= i < 32 ==> head[i] == 0)
      && (n > 0 ==> head == s.hash(s.body.encode(evs[n - 1].body) + evs[n - 1].signature))
    ensures r.Ok? ==> var evs := Parse(s.event, b).value; forall i :: 0 <= i < |evs| ==>
      var raw := Decode64(evs[i].signature);
      raw.Some? && |raw.value| == 64 && s.check(s.body.encode(evs[i].body), raw.value)
    ensures r.Err? ==> exists k :: 0 <= k < |Lines(b)| && FirstOffence(s, Lines(b), k, r.error)
    ensures forall k, err :: 0 <= k < |Lines(b)| && FirstOffence(s, Lines(b), k, err) ==> r == Err(err)
  {
    var ls := Lines(b);
    var prevHead: Text := [];
    var finalHead := ZeroHead();
    var eventsVerified := 0;
    ghost var evs: seq<Event> := [];
    for i := 0 to |ls|
      invariant DecodeAll(s.event, ls[..i]) == Some(evs) && |evs| == i == eventsVerified
      invariant Chained(s, evs)
      invariant prevHead == HeadAt(s, evs, i) && finalHead == FinalHead(s, evs)
    {
      ghost var was := evs;
      PrefixStep(s.event, ls, i);
      var decoded := s.event.decode(ls[i]);
      if decoded.None? {
        OffenceRejects(s, ls, i, evs);
        OffenceIsUnique(s, ls, i);
        return Err(MalformedJson(i + 1));
      }
      var e := decoded.value;
      ghost var next := evs + [e];
      assert next[..i] == evs && next[i] == e;
      if e.body.seqNo != i {
        OffenceRejects(s, ls, i, evs);
        OffenceIsUnique(s, ls, i);
        return Err(OutOfOrder(i + 1, i, e.body.seqNo));
      }
      if e.body.prevDigest != prevHead {
        OffenceRejects(s, ls, i, evs);
        OffenceIsUnique(s, ls, i);
        return Err(ChainBroken(e.body.seqNo, prevHead, e.body.prevDigest));
      }
      if !SignatureValid(s, e) {
        OffenceRejects(s, ls, i, evs);
        OffenceIsUnique(s, ls, i);
        return Err(BadSignature(e.body.seqNo));
      }
      var h := s.hash(s.body.encode(e.body) + e.signature);
      prevHead := Hex(h);
      finalHead := h;
      eventsVerified := i + 1;
      evs := next;
      ChainedExtends(s, was, e);
    }
    assert ls[..|ls|] == ls;
    NoOffence(s, ls, evs);
    AllSigned(s, evs);
    r := Ok(VerifyOutcome(eventsVerified, finalHead));
  }

  lemma PrefixStep<T>(c: Codec<T>, ls: seq<seq<byte>>, i: nat)
    requires i < |ls| && DecodeAll(c, ls[..i]).Some?
    ensures c.decode(ls[i]).None? ==> DecodeAll(c, ls).None?
    ensures c.decode(ls[i]).Some? ==>
      DecodeAll(c, ls[..i + 1]) == Some(DecodeAll(c, ls[..i]).value + [c.decode(ls[i]).value])
  {
    assert ls[..i + 1] == ls[..i] + [ls[i]];
    assert ls == ls[..i + 1] + ls[i + 1..];
    DecodeOne(c, ls[i]);
    DecodeAllConcat(c, ls[..i], [ls[i]]);
    DecodeAllConcat(c, ls[..i + 1], ls[i + 1..]);
  }

  lemma ChainedExtends(s: Suite, evs: seq<Event>, e: Event)
    ensures Chained(s, evs + [e]) <==> Chained(s, evs) && Linked(s, evs + [e], |evs|)
  {
    var all := evs + [e];
    forall i | 0 <= i < |evs| ensures Linked(s, all, i) <==> Linked(s, evs, i) {
      assert all[i] == evs[i] && (i > 0 ==> all[i - 1] == evs[i - 1]);
    }
    assert Chained(s, evs) ==> forall i :: 0 <= i < |evs| ==> Linked(s, all, i);
    if Chained(s, all) {
      assert forall i :: 0 <= i < |evs| ==> Linked(s, all, i);
    }
  }

  /** Nothing after an offending line can repair the log. */
  lemma OffenceRejects(s: Suite, ls: seq<seq<byte>>, k: nat, good: seq<Event>)
    requires k < |ls| && DecodeAll(s.event, ls[..k]) == Some(good) && Fault(s, good, ls[k]).Some?
    ensures Chained(s, good) ==> FirstOffence(s, ls, k, Fault(s, good, ls[k]).value)
    ensures DecodeAll(s.event, ls).Some? ==> !Chained(s, DecodeAll(s.event, ls).value)
  {
    PrefixStep(s.event, ls, k);
    assert ls == ls[..k] + ls[k..];
    DecodeAllConcat(s.event, ls[..k], ls[k..]);
    DecodeAllAt(s.event, ls[..k]);
    DecodeAllAt(s.event, ls);
    if DecodeAll(s.event, ls).Some? {
      var all := DecodeAll(s.event, ls).value;
      assert all[..k] == good && Some(all[k]) == s.event.decode(ls[k]);
      assert HeadAt(s, all, k) == HeadAt(s, good, k);
      assert !Linked(s, all, k);
    }
  }

  /** There is one first offence. */
  lemma OffenceIsUnique(s: Suite, ls: seq<seq<byte>>, k: nat)
    requires k < |ls| && exists err :: FirstOffence(s, ls, k, err)
    ensures forall j, other :: 0 <= j < |ls| && FirstOffence(s, ls, j, other) ==> j == k && FirstOffence(s, ls, k, other)
  {
    forall j, other | 0 <= j < |ls| && FirstOffence(s, ls, j, other) ensures j == k && FirstOffence(s, ls, k, other) {
      if j < k { EarlierOffence(s, ls, j, k); }
      if k < j { EarlierOffence(s, ls, k, j); }
    }
  }

  /** An offence rules out every longer good beginning. */
  lemma EarlierOffence(s: Suite, ls: seq<seq<byte>>, j: nat, k: nat)
    requires j < k <= |ls| && exists err :: FirstOffence(s, ls, j, err)
    ensures DecodeAll(s.event, ls[..k]).Some? ==> !Chained(s, DecodeAll(s.event, ls[..k]).value)
  {
    var p := ls[..k];
    assert p[..j] == ls[..j] && p[j] == ls[j];
    OffenceRejects(s, p, j, DecodeAll(s.event, ls[..j]).value);
  }

  lemma NoOffence(s: Suite, ls: seq<seq<byte>>, evs: seq<Event>)
    requires DecodeAll(s.event, ls) == Some(evs) && Chained(s, evs)
    ensures forall k, err :: 0 <= k < |ls| ==> !FirstOffence(s, ls, k, err)
  {
    assert ls[..|ls|] == ls;
    forall k, err | 0 <= k < |ls| ensures !FirstOffence(s, ls, k, err) {
      if FirstOffence(s, ls, k, err) { EarlierOffence(s, ls, k, |ls|); }
    }
  }

  // ---- what acceptance and each error mean, in terms of the key and the hash ----

  lemma HeadMeans(s: Suite, evs: seq<Event>, i: nat)
    requires i <= |evs|
    ensures HeadAt(s, evs, i) ==
      if i == 0 then [] else Hex(s.hash(s.body.encode(evs[i - 1].body) + evs[i - 1].signature))
  {
  }

  lemma SignatureMeans(s: Suite, e: Event)
    ensures SignatureValid(s, e) <==>
      var raw := Decode64(e.signature);
      raw.Some? && |raw.value| == 64 && s.check(s.body.encode(e.body), raw.value)
  {
  }

  /** A link: event `i` has number `i`, the hex digest of the bytes of event
      `i - 1`, and a signature that decodes to 64 bytes which the key accepts. */
  lemma LinkMeans(s: Suite, evs: seq<Event>, i: nat)
    requires i < |evs|
    ensures Linked(s, evs, i) <==>
      && evs[i].body.seqNo == i
      && evs[i].body.prevDigest ==
           (if i == 0 then [] else Hex(s.hash(s.body.encode(evs[i - 1].body) + evs[i - 1].signature)))
      && var raw := Decode64(evs[i].signature);
         raw.Some? && |raw.value| == 64 && s.check(s.body.encode(evs[i].body), raw.value)
  {
    HeadMeans(s, evs, i);
    SignatureMeans(s, evs[i]);
  }

  lemma AllSigned(s: Suite, evs: seq<Event>)
    requires Chained(s, evs)
    ensures forall i :: 0 <= i < |evs| ==>
      var raw := Decode64(evs[i].signature);
      raw.Some? && |raw.value| == 64 && s.check(s.body.encode(evs[i].body), raw.value)
  {
    forall i | 0 <= i < |evs|
      ensures var raw := Decode64(evs[i].signature);
        raw.Some? && |raw.value| == 64 && s.check(s.body.encode(evs[i].body), raw.value)
    {
      assert Linked(s, evs, i);
      SignatureMeans(s, evs[i]);
    }
  }

  /** After a good beginning, a line that does not decode, a wrong number, a wrong
      digest and a signature that is no 64 bytes or that the key refuses are
      each reported as such, in this order, with the offending values. */
  lemma WhatIsReported(s: Suite, ls: seq<seq<byte>>, k: nat, good: seq<Event>)
    requires k < |ls| && DecodeAll(s.event, ls[..k]) == Some(good) && Chained(s, good)
    ensures var n := |good|;
      var head := if n == 0 then [] else Hex(s.hash(s.body.encode(good[n - 1].body) + good[n - 1].signature));
      match s.event.decode(ls[k])
      case None => FirstOffence(s, ls, k, MalformedJson(k + 1))
      case Some(e) =>
        var raw := Decode64(e.signature);
        var refused := raw.None? || |raw.value| != 64 || !s.check(s.body.encode(e.body), raw.value);
        && (e.body.seqNo != k ==> FirstOffence(s, ls, k, OutOfOrder(k + 1, k, e.body.seqNo)))
        && (e.body.seqNo == k && e.body.prevDigest != head ==>
              FirstOffence(s, ls, k, ChainBroken(k, head, e.body.prevDigest)))
        && (e.body.seqNo == k && e.body.prevDigest == head && refused ==> FirstOffence(s, ls, k, BadSignature(k)))
  {
    DecodeAllAt(s.event, ls[..k]);
  }

  // ---- accepted logs are prefix-closed ------------------------------------

  lemma ChainPrefix(s: Suite, evs: seq<Event>, k: nat)
    requires Chained(s, evs) && k <= |evs|
    ensures Chained(s, evs[..k])
  {
    forall i | 0 <= i < k ensures Linked(s, evs[..k], i) {
      assert Linked(s, evs, i);
    }
  }

  /** Cutting whole lines off the tail is not detected by verification alone. */
  lemma TruncatedTailIsAccepted(s: Suite, b: seq<byte>, c: seq<byte>)
    requires Terminated(b) && Accepted(s, b + c)
    ensures Accepted(s, b)
  {
    LinesAfter(b, c);
    DecodeAllConcat(s.event, Lines(b), Lines(c));
    var p, all := Parse(s.event, b).value, Parse(s.event, b + c).value;
    ChainPrefix(s, all, |p|);
    assert all[..|p|] == p;
  }

  // ---- tamper evidence -----------------------------------------------------

  /** Walk both logs from the end to the first pair of hash inputs that differ. */
  function Collision(s: Suite, a: seq<Event>, b: seq<Event>): Option<(seq<byte>, seq<byte>)>
    decreases |a|
  {
    if a == [] || b == [] then None
    else
      var x, y := Preimage(s, a[|a| - 1]), Preimage(s, b[|b| - 1]);
      if x != y then Some((x, y)) else Collision(s, a[..|a| - 1], b[..|b| - 1])
  }

  /** Equal hash inputs of signed events are equal events: the signature has
      88 symbols, so the concatenation splits in one way only. */
  lemma PreimageInjective(s: Suite, a: Event, b: Event)
    requires Lawful(s.body) && SignatureValid(s, a) && SignatureValid(s, b)
    requires Preimage(s, a) == Preimage(s, b)
    ensures a == b
  {
    SixtyFourBytesAre88Symbols(a.signature);
    SixtyFourBytesAre88Symbols(b.signature);
    var p := Preimage(s, a);
    assert p[..|p| - 88] == s.body.encode(a.body) && p[|p| - 88..] == a.signature;
    assert p[..|p| - 88] == s.body.encode(b.body) && p[|p| - 88..] == b.signature;
    assert s.body.decode(s.body.encode(a.body)) == Some(a.body);
    assert s.body.decode(s.body.encode(b.body)) == Some(b.body);
  }

  /** Two non-empty chains with the same final head are the same chain, or
      `Collision` exhibits two different inputs with one hash. */
  lemma {:induction false} TamperEvident(s: Suite, a: seq<Event>, b: seq<Event>)
    requires Lawful(s.body) && Chained(s, a) && Chained(s, b) && a != [] && b != []
    requires FinalHead(s, a) == FinalHead(s, b)
    ensures match Collision(s, a, b)
      case None => a == b
      case Some((x, y)) => x != y && s.hash(x) == s.hash(y)
    decreases |a|
  {
    var m, n := |a| - 1, |b| - 1;
    if Preimage(s, a[m]) == Preimage(s, b[n]) {
      LastEventsAgree(s, a, b);
      if m > 0 {
        HeadsBefore(s, a, b);
        TamperEvident(s, a[..m], b[..n]);
      } else {
        assert a[..m] == [] == b[..n];
      }
      assert a == a[..m] + [a[m]] && b == b[..n] + [b[n]];
    }
  }

  /** Equal last inputs are equal last events, at the same position. */
  lemma LastEventsAgree(s: Suite, a: seq<Event>, b: seq<Event>)
    requires Lawful(s.body) && Chained(s, a) && Chained(s, b) && a != [] && b != []
    requires Preimage(s, a[|a| - 1]) == Preimage(s, b[|b| - 1])
    ensures |a| == |b| && a[|a| - 1] == b[|b| - 1]
  {
    assert Linked(s, a, |a| - 1) && Linked(s, b, |b| - 1);
    PreimageInjective(s, a[|a| - 1], b[|b| - 1]);
  }

  /** And what comes before them has one final head again. */
  lemma HeadsBefore(s: Suite, a: seq<Event>, b: seq<Event>)
    requires Chained(s, a) && Chained(s, b) && |a| == |b| > 1 && a[|a| - 1] == b[|b| - 1]
    ensures var m := |a| - 1;
      Chained(s, a[..m]) && Chained(s, b[..m]) && FinalHead(s, a[..m]) == FinalHead(s, b[..m])
  {
    var m := |a| - 1;
    assert Linked(s, a, m) && Linked(s, b, m);
    ChainPrefix(s, a, m);
    ChainPrefix(s, b, m);
    assert HeadAt(s, a, m) == HeadAt(s, b, m);
    HexInjective(Digest(s, a[m - 1]), Digest(s, b[m - 1]));
  }

  /** The same for two files the verifier accepts. */
  lemma AcceptedLogsTamperEvident(s: Suite, a: seq<byte>, b: seq<byte>)
    requires Lawful(s.body) && Accepted(s, a) && Accepted(s, b)
    requires var x, y := Parse(s.event, a).value, Parse(s.event, b).value;
      x != [] && y != [] && FinalHead(s, x) == FinalHead(s, y)
    ensures var x, y := Parse(s.event, a).value, Parse(s.event, b).value;
      match Collision(s, x, y)
      case None => x == y
      case Some((m, n)) => m != n && s.hash(m) == s.hash(n)
  {
    TamperEvident(s, Parse(s.event, a).value, Parse(s.event, b).value);
  }

  /** A remembered head detects what verification alone does not: a shortened
      log with the remembered head yields a collision. Cut to nothing, its head
      is the 32 zero bytes, and the last event was a hash input for them. */
  lemma RememberedHeadDetectsTruncation(s: Suite, evs: seq<Event>, k: nat)
    requires Lawful(s.body) && Chained(s, evs) && k < |evs|
    requires FinalHead(s, evs[..k]) == FinalHead(s, evs)
    ensures k == 0 ==> s.hash(Preimage(s, evs[|evs| - 1])) == ZeroHead()
    ensures k > 0 ==> Collision(s, evs[..k], evs).Some?
    ensures k > 0 ==> var (x, y) := Collision(s, evs[..k], evs).value; x != y && s.hash(x) == s.hash(y)
  {
    if k > 0 {
      ChainPrefix(s, evs, k);
      TamperEvident(s, evs[..k], evs);
    }
  }
}
