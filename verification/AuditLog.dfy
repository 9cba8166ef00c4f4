// The audit-log writer: recovery on open, append, list_recent, and what every
// run of opens, appends and failed appends leaves on disk.
module AuditWriter {
  import opened Common
  import opened JsonLines
  import opened Encodings
  import opened Audit

  /** The file and the writer's memory of it. */
  datatype LogState = LogState(bytes: seq<byte>, nextSeq: nat, chainHead: Text)

  const EMPTY := LogState([], 0, [])

  /** Counter and head that follow the events of a file. */
  function RecoveredSeq(evs: seq<Event>): nat {
    if evs == [] then 0 else evs[|evs| - 1].body.seqNo + 1
  }

  /** The event that the next append writes. */
  function Sealed(s: Suite, st: LogState, entry: Entry): Event {
    var body := Body(st.nextSeq, st.chainHead, entry);
    Event(body, Encode64(s.sign(s.body.encode(body))))
  }

  function Appended(s: Suite, st: LogState, entry: Entry): LogState {
    var e := Sealed(s, st, entry);
    LogState(st.bytes + Line(s.event, e), st.nextSeq + 1, Hex(Digest(s, e)))
  }

  datatype AppendOutcome = AppendOutcome(seqNo: nat, chainHead: Text, event: Event)

  class LogFile {
    var contents: Option<seq<byte>>

    function Bytes(): seq<byte>
      reads this
    {
      if contents.Some? then contents.value else []
    }
  }

  /** The fold over the lines on open. None is a malformed line. */
  method RecoverState(s: Suite, file: LogFile) returns (r: Option<(nat, Text)>)
    ensures r.Some? <==> Parse(s.event, file.Bytes()).Some?
    ensures r.Some? ==> var evs := Parse(s.event, file.Bytes()).value;
      r.value == (RecoveredSeq(evs), HeadAt(s, evs, |evs|))
  {
    if file.contents.None? || file.contents.value == [] {
      return Some((0, []));
    }
    var ls := Lines(file.contents.value);
    var nextSeq, chainHead: Text := 0, [];
    ghost var evs: seq<Event> := [];
    for i := 0 to |ls|
      invariant DecodeAll(s.event, ls[..i]) == Some(evs)
      invariant nextSeq == RecoveredSeq(evs) && chainHead == HeadAt(s, evs, |evs|)
    {
      PrefixStep(s.event, ls, i);
      var ev := s.event.decode(ls[i]);
      if ev.None? {
        return None;
      }
      chainHead := Hex(s.hash(s.body.encode(ev.value.body) + ev.value.signature));
      nextSeq := ev.value.body.seqNo + 1;
      evs := evs + [ev.value];
    }
    assert ls[..|ls|] == ls;
    r := Some((nextSeq, chainHead));
  }

  /** What recovery gives, in terms of the last event and the hash. */
  lemma RecoveredMeans(s: Suite, evs: seq<Event>)
    ensures (RecoveredSeq(evs), HeadAt(s, evs, |evs|)) ==
      if evs == [] then (0, []) else
      var last := evs[|evs| - 1];
      (last.body.seqNo + 1, Hex(s.hash(s.body.encode(last.body) + last.signature)))
  {
  }

  class AuditLog {
    const s: Suite
    const file: LogFile
    var nextSeq: nat
    var chainHead: Text

    function State(): LogState
      reads this, file
    {
      LogState(file.Bytes(), nextSeq, chainHead)
    }

    constructor (s: Suite, file: LogFile, nextSeq: nat, chainHead: Text)
      ensures this.s == s && this.file == file && this.nextSeq == nextSeq && this.chainHead == chainHead
    {
      this.s := s;
      this.file := file;
      this.nextSeq := nextSeq;
      this.chainHead := chainHead;
    }

    /** Open, creating the file if absent; fails only on a malformed line. */
    static method Open(s: Suite, file: LogFile) returns (log: AuditLog?)
      modifies file
      ensures log != null <==> Parse(s.event, old(file.Bytes())).Some?
      ensures log != null ==> fresh(log) && log.s == s && log.file == file && file.contents.Some?
      ensures log != null ==> log.State() == Reopened(s, LogState(old(file.Bytes()), 0, []))
      ensures log == null ==> file.contents == old(file.contents)
    {
      var state := RecoverState(s, file);
      if state.None? {
        return null;
      }
      file.contents := Some(file.Bytes());
      log := new AuditLog(s, file, state.value.0, state.value.1);
    }

    /** The counter and head move only after the bytes are durable; on failure
        the file keeps whatever landed and memory stays as it was. */
    method Append(entry: Entry, fate: Fate) returns (r: Option<AppendOutcome>)
      modifies this, file
      ensures State() == Step(s, old(State()), Op.Append(entry, fate))
      ensures r.Some? <==> fate.Durable?
      ensures fate.Durable? ==> State() == Appended(s, old(State()), entry)
      ensures fate.Durable? ==>
        r.value == AppendOutcome(old(nextSeq), chainHead, Sealed(s, old(State()), entry))
      ensures fate.Durable? ==> r.value.event.body == Body(old(nextSeq), old(chainHead), entry)
      ensures fate.Durable? ==> file.Bytes() == old(file.Bytes()) + Line(s.event, r.value.event)
      ensures fate.Failed? ==> nextSeq == old(nextSeq) && chainHead == old(chainHead)
      ensures fate.Failed? ==>
        file.Bytes() == old(file.Bytes()) + Take(Line(s.event, Sealed(s, old(State()), entry)), fate.landed)
    {
      var body := Body(nextSeq, chainHead, entry);
      var bodyBytes := s.body.encode(body);
      var signature := Encode64(s.sign(bodyBytes));
      var event := Event(body, signature);
      var line := s.event.encode(event) + [NEWLINE];
      match fate {
        case Failed(n) =>
          file.contents := Some(file.Bytes() + Take(line, n));
          return None;
        case Durable =>
          file.contents := Some(file.Bytes() + line);
      }
      var newHead := Hex(s.hash(bodyBytes + signature));
      chainHead := newHead;
      var seqNo := nextSeq;
      nextSeq := nextSeq + 1;
      r := Some(AppendOutcome(seqNo, newHead, event));
    }

    /** The last `limit` events of the file, newest first; None on a malformed line. */
    method ListRecent(limit: nat) returns (r: Option<seq<Event>>)
      ensures r.Some? <==> Parse(s.event, file.Bytes()).Some?
      ensures r.Some? ==> r.value == Take(Reverse(Parse(s.event, file.Bytes()).value), limit)
    {
      if file.contents.None? {
        return Some([]);
      }
      var parsed := ReadLines(s.event, file.contents.value);
      if parsed.None? {
        return None;
      }
      r := Some(Take(Reverse(parsed.value), limit));
    }
  }

  // ---- runs ------------------------------------------------------------

  /** A reopen forgets the memory and recovers it from the file. */
  function Reopened(s: Suite, st: LogState): LogState {
    match Parse(s.event, st.bytes)
    case None => st
    case Some(evs) => LogState(st.bytes, RecoveredSeq(evs), HeadAt(s, evs, |evs|))
  }

  /** One call: an append with what the disk did to it, or a close and reopen. */
  datatype Op = Append(entry: Entry, fate: Fate) | Reopen

  function Step(s: Suite, st: LogState, op: Op): LogState {
    match op
    case Append(entry, Durable) => Appended(s, st, entry)
    case Append(entry, Failed(n)) => st.(bytes := st.bytes + Take(Line(s.event, Sealed(s, st, entry)), n))
    case Reopen => Reopened(s, st)
  }

  function Run(s: Suite, ops: seq<Op>): LogState {
    if ops == [] then EMPTY else Step(s, Run(s, ops[..|ops| - 1]), ops[|ops| - 1])
  }

  // What one append leaves of its line; `Width` is the length without the newline.

  function Width(s: Suite, st: LogState, entry: Entry): nat {
    |s.event.encode(Sealed(s, st, entry))|
  }

  /** Any byte reaches the file. */
  predicate Writes(op: Op) {
    op.Append? && (op.fate.Durable? || op.fate.landed > 0)
  }

  /** The whole event reaches the file, with or without its newline. */
  predicate Lands(s: Suite, st: LogState, op: Op) {
    op.Append? && (op.fate.Durable? || op.fate.landed >= Width(s, st, op.entry))
  }

  /** Only the newline is missing. */
  predicate DropsNewline(s: Suite, st: LogState, op: Op) {
    op.Append? && op.fate.Failed? && op.fate.landed == Width(s, st, op.entry)
  }

  /** The events whose bytes reached the file, in order. */
  function Landed(s: Suite, ops: seq<Op>): seq<Event> {
    if ops == [] then []
    else
      var st, op := Run(s, ops[..|ops| - 1]), ops[|ops| - 1];
      Landed(s, ops[..|ops| - 1]) + More(s, st, op)
  }

  /** Memory lags behind the file: an append that failed after its event had
      landed, not yet followed by a reopen. */
  predicate Stale(s: Suite, ops: seq<Op>) {
    ops != [] &&
    var st, op := Run(s, ops[..|ops| - 1]), ops[|ops| - 1];
    !op.Reopen? && (Stale(s, ops[..|ops| - 1]) || (op.fate.Failed? && Lands(s, st, op)))
  }

  /** The file's last line lacks its newline. */
  predicate Unfinished(s: Suite, ops: seq<Op>) {
    ops != [] &&
    (Unfinished(s, ops[..|ops| - 1]) || DropsNewline(s, Run(s, ops[..|ops| - 1]), ops[|ops| - 1]))
  }

  /** No append was cut inside its event, and none wrote behind a line that
      lacks its newline. */
  predicate Readable(s: Suite, ops: seq<Op>) {
    ops == [] ||
    var init, op := ops[..|ops| - 1], ops[|ops| - 1];
    Readable(s, init) && (Writes(op) ==> !Unfinished(s, init) && Lands(s, Run(s, init), op))
  }

  /** No append reaches the file while memory is stale. */
  predicate Disciplined(s: Suite, ops: seq<Op>) {
    ops == [] ||
    var init, op := ops[..|ops| - 1], ops[|ops| - 1];
    Disciplined(s, init) && (Lands(s, Run(s, init), op) ==> !Stale(s, init))
  }

  /** The log with the next sealed event is a chain exactly when it was one and
      counter and head are those of the file. */
  lemma SealedLinks(s: Suite, evs: seq<Event>, st: LogState, entry: Entry)
    requires LawfulSuite(s)
    ensures SignatureValid(s, Sealed(s, st, entry))
    ensures Chained(s, evs + [Sealed(s, st, entry)]) <==>
      Chained(s, evs) && st.nextSeq == |evs| && st.chainHead == HeadAt(s, evs, |evs|)
  {
    var e := Sealed(s, st, entry);
    var m := s.body.encode(e.body);
    RoundTrip64(s.sign(m));
    assert |s.sign(m)| == 64 && s.check(m, s.sign(m));
    var all := evs + [e];
    ChainedExtends(s, evs, e);
    assert all[|evs|] == e && HeadAt(s, all, |evs|) == HeadAt(s, evs, |evs|);
  }

  /** A file is broken, or it holds `evs`, the last perhaps without its newline. */
  ghost predicate FileSound(s: Suite, b: seq<byte>, evs: seq<Event>, readable: bool, open: bool) {
    if readable then
      Parse(s.event, b) == Some(evs) && (if open then Unended(s.event, b) else Terminated(b))
    else Broken(s.event, b)
  }

  /** Memory against the events of the file. */
  ghost predicate MemorySound(s: Suite, st: LogState, evs: seq<Event>, disciplined: bool, stale: bool) {
    && (Chained(s, evs) <==> disciplined)
    && (disciplined && !stale ==> st.nextSeq == |evs| && st.chainHead == HeadAt(s, evs, |evs|))
    && (disciplined && stale ==> st.nextSeq + 1 == |evs|)
  }

  /** What holds after every run, whatever failed. */
  ghost predicate RunInvariant(s: Suite, ops: seq<Op>) {
    && FileSound(s, Run(s, ops).bytes, Landed(s, ops), Readable(s, ops), Unfinished(s, ops))
    && (Readable(s, ops) ==> MemorySound(s, Run(s, ops), Landed(s, ops), Disciplined(s, ops), Stale(s, ops)))
  }

  /** What one more call adds to the events on file. */
  function More(s: Suite, st: LogState, op: Op): seq<Event> {
    if Lands(s, st, op) then [Sealed(s, st, op.entry)] else []
  }

  lemma AppendedBytes(s: Suite, st: LogState, op: Op) returns (n: nat)
    requires op.Append?
    ensures Step(s, st, op).bytes == st.bytes + Take(Line(s.event, Sealed(s, st, op.entry)), n)
    ensures Writes(op) <==> n > 0
    ensures Lands(s, st, op) <==> n >= Width(s, st, op.entry)
    ensures DropsNewline(s, st, op) <==> n == Width(s, st, op.entry)
  {
    var line := Line(s.event, Sealed(s, st, op.entry));
    n := if op.fate.Durable? then |line| else op.fate.landed;
    assert Take(line, |line|) == line;
  }

  lemma FileStep(s: Suite, st: LogState, op: Op, evs: seq<Event>, readable: bool, open: bool)
    requires LawfulSuite(s) && Tearproof(s.event) && FileSound(s, st.bytes, evs, readable, open)
    ensures FileSound(s, Step(s, st, op).bytes, evs + More(s, st, op),
      readable && (Writes(op) ==> !open && Lands(s, st, op)), open || DropsNewline(s, st, op))
  {
    if op.Append? {
      var e := Sealed(s, st, op.entry);
      var n := AppendedBytes(s, st, op);
      assert s.event.encode(e) != [];
      if !readable {
        BrokenStays(s.event, st.bytes, e, n);
      } else if open {
        if n > 0 { GluedIsBroken(s.event, st.bytes, e, n); } else { NothingLanded(st.bytes, Line(s.event, e)); }
      } else {
        AppendPart(s.event, st.bytes, e, n);
        ParseAppend(s.event, st.bytes, e);
      }
    }
    assert evs + [] == evs;
  }

  lemma NothingLanded(b: seq<byte>, line: seq<byte>)
    ensures b + Take(line, 0) == b
  {
  }

  lemma MemoryStep(s: Suite, st: LogState, op: Op, evs: seq<Event>, disciplined: bool, stale: bool)
    requires LawfulSuite(s) && MemorySound(s, st, evs, disciplined, stale)
    requires op.Reopen? ==> Parse(s.event, st.bytes) == Some(evs)
    ensures MemorySound(s, Step(s, st, op), evs + More(s, st, op),
      disciplined && (Lands(s, st, op) ==> !stale),
      !op.Reopen? && (stale || (op.fate.Failed? && Lands(s, st, op))))
  {
    if op.Reopen? {
      if Chained(s, evs) && evs != [] { assert Linked(s, evs, |evs| - 1); }
    } else if Lands(s, st, op) {
      SealedLinks(s, evs, st, op.entry);
      var e := Sealed(s, st, op.entry);
      assert (evs + [e])[|evs|] == e;
    }
    assert evs + [] == evs;
  }

  lemma {:induction false} EveryRun(s: Suite, ops: seq<Op>)
    requires LawfulSuite(s) && Tearproof(s.event)
    ensures RunInvariant(s, ops)
  {
    if ops != [] {
      var init, op := ops[..|ops| - 1], ops[|ops| - 1];
      EveryRun(s, init);
      var st, evs := Run(s, init), Landed(s, init);
      FileStep(s, st, op, evs, Readable(s, init), Unfinished(s, init));
      if Readable(s, ops) { MemoryStep(s, st, op, evs, Disciplined(s, init), Stale(s, init)); }
    }
  }

  /** `open` and the viewer read the file of a run exactly when no append was cut
      inside its event and none wrote behind a missing newline. */
  lemma RunsReadIffWhole(s: Suite, ops: seq<Op>)
    requires LawfulSuite(s) && Tearproof(s.event)
    ensures Parse(s.event, Run(s, ops).bytes) == if Readable(s, ops) then Some(Landed(s, ops)) else None
  {
    EveryRun(s, ops);
    if !Readable(s, ops) { BrokenDoesNotParse(s.event, Run(s, ops).bytes); }
  }

  /** The verifier accepts what a run left on disk exactly when, besides, every
      append that failed after its event had landed was followed by a reopen
      before the next event landed. */
  lemma RunsVerifyIffDisciplined(s: Suite, ops: seq<Op>)
    requires LawfulSuite(s) && Tearproof(s.event)
    ensures Accepted(s, Run(s, ops).bytes) <==> Readable(s, ops) && Disciplined(s, ops)
  {
    EveryRun(s, ops);
    RunsReadIffWhole(s, ops);
  }

  /** Nothing that happens later repairs a rejected log, and a log that cannot
      be opened stays so. */
  lemma RejectedForEver(s: Suite, ops: seq<Op>, more: seq<Op>)
    requires LawfulSuite(s) && Tearproof(s.event)
    ensures Accepted(s, Run(s, ops + more).bytes) ==> Accepted(s, Run(s, ops).bytes)
    ensures Parse(s.event, Run(s, ops + more).bytes).Some? ==> Parse(s.event, Run(s, ops).bytes).Some?
  {
    PrefixKept(s, ops, more);
    RunsVerifyIffDisciplined(s, ops);
    RunsVerifyIffDisciplined(s, ops + more);
    RunsReadIffWhole(s, ops);
    RunsReadIffWhole(s, ops + more);
  }

  lemma {:induction false} PrefixKept(s: Suite, ops: seq<Op>, more: seq<Op>)
    ensures Readable(s, ops + more) ==> Readable(s, ops)
    ensures Disciplined(s, ops + more) ==> Disciplined(s, ops)
  {
    if more == [] {
      assert ops + more == ops;
    } else {
      assert (ops + more)[..|ops + more| - 1] == ops + more[..|more| - 1];
      PrefixKept(s, ops, more[..|more| - 1]);
    }
  }

  /** An append that returned Err wrote nothing. */
  predicate Clean(ops: seq<Op>) {
    forall i :: 0 <= i < |ops| && ops[i].Append? && ops[i].fate.Failed? ==> ops[i].fate.landed == 0
  }

  function Successes(ops: seq<Op>): nat {
    if ops == [] then 0
    else
      var op := ops[|ops| - 1];
      Successes(ops[..|ops| - 1]) + if op.Append? && op.fate.Durable? then 1 else 0
  }

  lemma {:induction false} CleanIsDisciplined(s: Suite, ops: seq<Op>)
    requires LawfulSuite(s) && Clean(ops)
    ensures Readable(s, ops) && Disciplined(s, ops) && !Stale(s, ops) && !Unfinished(s, ops)
    ensures |Landed(s, ops)| == Successes(ops)
  {
    if ops != [] {
      var init, op := ops[..|ops| - 1], ops[|ops| - 1];
      CleanIsDisciplined(s, init);
      if op.Append? { assert s.event.encode(Sealed(s, Run(s, init), op.entry)) != []; }
    }
  }

  /** The invariant of clean runs, which needs no law about torn lines. */
  lemma {:induction false} CleanRun(s: Suite, ops: seq<Op>)
    requires LawfulSuite(s) && Clean(ops)
    ensures RunInvariant(s, ops)
  {
    CleanIsDisciplined(s, ops);
    if ops != [] {
      var init, op := ops[..|ops| - 1], ops[|ops| - 1];
      CleanRun(s, init);
      CleanIsDisciplined(s, init);
      var st, evs := Run(s, init), Landed(s, init);
      CleanFileStep(s, st, op, evs);
      MemoryStep(s, st, op, evs, true, false);
    }
  }

  lemma CleanFileStep(s: Suite, st: LogState, op: Op, evs: seq<Event>)
    requires LawfulSuite(s) && FileSound(s, st.bytes, evs, true, false)
    requires op.Append? && op.fate.Failed? ==> op.fate.landed == 0
    ensures FileSound(s, Step(s, st, op).bytes, evs + More(s, st, op), true, false)
  {
    if op.Append? {
      var e := Sealed(s, st, op.entry);
      assert s.event.encode(e) != [];
      if op.fate.Durable? { ParseAppend(s.event, st.bytes, e); } else { NothingLanded(st.bytes, Line(s.event, e)); }
    }
    assert evs + [] == evs;
  }

  /** Writer, recovery and verifier agree: after any clean run the log is
      accepted, holds one event per successful append, and the verifier's
      final head is the writer's chain head. */
  lemma CleanRunsVerify(s: Suite, ops: seq<Op>)
    requires LawfulSuite(s) && Clean(ops)
    ensures var st := Run(s, ops); var evs := Parse(s.event, st.bytes);
      && Accepted(s, st.bytes)
      && |evs.value| == Successes(ops) == st.nextSeq
      && (evs.value != [] ==> st.chainHead == Hex(FinalHead(s, evs.value)))
      && (evs.value == [] ==> st.chainHead == [])
      && Reopened(s, st) == st
  {
    CleanRun(s, ops);
    CleanIsDisciplined(s, ops);
    var evs := Landed(s, ops);
    if evs != [] { assert Linked(s, evs, |evs| - 1); }
  }

  /** The entries of the appends that returned Ok, in order. */
  function Recorded(ops: seq<Op>): seq<Entry> {
    if ops == [] then []
    else
      var op := ops[|ops| - 1];
      Recorded(ops[..|ops| - 1]) + if op.Append? && op.fate.Durable? then [op.entry] else []
  }

  function EntriesOf(evs: seq<Event>): (r: seq<Entry>)
    ensures |r| == |evs| && forall i :: 0 <= i < |r| ==> r[i] == evs[i].body.entry
  {
    if evs == [] then [] else EntriesOf(evs[..|evs| - 1]) + [evs[|evs| - 1].body.entry]
  }

  /** Nothing is lost, added, changed or reordered: after a clean run the file
      holds the entries given to the successful appends. */
  lemma CleanRunsRecord(s: Suite, ops: seq<Op>)
    requires LawfulSuite(s) && Clean(ops)
    ensures var evs := Parse(s.event, Run(s, ops).bytes); evs.Some? && EntriesOf(evs.value) == Recorded(ops)
  {
    CleanRun(s, ops);
    CleanIsDisciplined(s, ops);
    LandedEntries(s, ops);
  }

  lemma {:induction false} LandedEntries(s: Suite, ops: seq<Op>)
    requires LawfulSuite(s) && Clean(ops)
    ensures EntriesOf(Landed(s, ops)) == Recorded(ops)
  {
    if ops != [] {
      var init, op := ops[..|ops| - 1], ops[|ops| - 1];
      LandedEntries(s, init);
      var st, evs := Run(s, init), Landed(s, init);
      if op.Append? { assert s.event.encode(Sealed(s, st, op.entry)) != []; }
      MoreEntries(s, st, op, evs);
    }
  }

  lemma MoreEntries(s: Suite, st: LogState, op: Op, evs: seq<Event>)
    ensures EntriesOf(evs + More(s, st, op)) == EntriesOf(evs) + if Lands(s, st, op) then [op.entry] else []
  {
    if Lands(s, st, op) { assert (evs + More(s, st, op))[..|evs|] == evs; } else { assert evs + [] == evs; }
  }

  /** The last `k` of a list, or all of it. */
  function Last<T>(xs: seq<T>, k: nat): (r: seq<T>)
    ensures |r| == if k < |xs| then k else |xs|
    ensures forall i :: 0 <= i < |r| ==> r[i] == xs[|xs| - |r| + i]
  {
    if k < |xs| then xs[|xs| - k..] else xs
  }

  /** After a clean run the viewer shows the last `k` entries appended, newest first. */
  lemma RecentEventsAreTheLastAppended(s: Suite, ops: seq<Op>, k: nat)
    requires LawfulSuite(s) && Clean(ops)
    ensures var evs := Parse(s.event, Run(s, ops).bytes);
      evs.Some? && EntriesOf(Take(Reverse(evs.value), k)) == Reverse(Last(Recorded(ops), k))
  {
    CleanRunsRecord(s, ops);
    var evs := Parse(s.event, Run(s, ops).bytes).value;
    LastEntries(evs, Recorded(ops), k);
  }

  lemma EntriesReversed(evs: seq<Event>)
    ensures EntriesOf(Reverse(evs)) == Reverse(EntriesOf(evs))
  {
    var r := EntriesOf(Reverse(evs));
    assert |r| == |evs|;
    forall i | 0 <= i < |evs| ensures r[i] == Reverse(EntriesOf(evs))[i] {
      assert r[i] == Reverse(evs)[i].body.entry == evs[|evs| - 1 - i].body.entry;
    }
  }

  lemma EntriesTaken(evs: seq<Event>, k: nat)
    ensures EntriesOf(Take(evs, k)) == Take(EntriesOf(evs), k)
  {
  }

  lemma NewestFirst<T>(xs: seq<T>, k: nat)
    ensures Take(Reverse(xs), k) == Reverse(Last(xs, k))
  {
    var m, t := Last(xs, k), Take(Reverse(xs), k);
    assert |t| == |m| == |Reverse(m)|;
    forall i | 0 <= i < |m| ensures t[i] == Reverse(m)[i] {
      assert t[i] == Reverse(xs)[i] == xs[|xs| - 1 - i];
      assert Reverse(m)[i] == m[|m| - 1 - i];
    }
  }

  lemma LastEntries(evs: seq<Event>, entries: seq<Entry>, k: nat)
    requires EntriesOf(evs) == entries
    ensures EntriesOf(Take(Reverse(evs), k)) == Reverse(Last(entries, k))
  {
    EntriesTaken(Reverse(evs), k);
    EntriesReversed(evs);
    NewestFirst(entries, k);
  }

  /** An append that fails after any byte has landed, followed by a retry on
      the same handle: the retry glues onto a torn line or repeats a sequence
      number, and the log can never verify again. */
  lemma RetryAfterFailedAppendBreaksTheLog(s: Suite, entry: Entry, landed: nat, again: Entry, more: seq<Op>)
    requires LawfulSuite(s) && Tearproof(s.event) && landed > 0
    ensures !Accepted(s, Run(s, [Append(entry, Failed(landed)), Append(again, Durable)] + more).bytes)
  {
    var first := [Append(entry, Failed(landed))];
    var ops := first + [Append(again, Durable)];
    assert ops == [Append(entry, Failed(landed)), Append(again, Durable)];
    assert first[..0] == [] && ops[..1] == first;
    assert Stale(s, first) <==> Lands(s, EMPTY, first[0]);
    RunsVerifyIffDisciplined(s, ops);
    RejectedForEver(s, ops, more);
  }

  /** On an accepted log, recovery returns what verification counted: the next
      sequence number is `eventsVerified`, the chain head the hex of the final head. */
  lemma RecoveryAgreesWithVerifier(s: Suite, b: seq<byte>)
    requires Accepted(s, b)
    ensures var evs := Parse(s.event, b).value;
      && RecoveredSeq(evs) == |evs|
      && HeadAt(s, evs, |evs|) == if evs == [] then [] else Hex(FinalHead(s, evs))
  {
    var evs := Parse(s.event, b).value;
    if evs != [] { assert Linked(s, evs, |evs| - 1); }
  }
}
