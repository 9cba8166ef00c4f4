// The model-card registry: a cached list whose file is appended to by create
// and rewritten by update and delete.
module ModelCards {
  import opened Common
  import opened JsonLines

  datatype Risk = Prohibited | HighRisk | LimitedRisk | MinimalRisk

  datatype ModelCard = ModelCard(id: string, risk: Risk, details: string)

  datatype CardError = ProhibitedClassification | AlreadyExists | NotFound | Io

  type Cards = seq<ModelCard>

  predicate HasId(cards: Cards, id: string) {
    exists i :: 0 <= i < |cards| && cards[i].id == id
  }

  /** Ids pairwise distinct, nothing Prohibited. */
  ghost predicate Admissible(cards: Cards) {
    && (forall i, j :: 0 <= i < j < |cards| ==> cards[i].id != cards[j].id)
    && forall i :: 0 <= i < |cards| ==> !cards[i].risk.Prohibited?
  }

  /** Parsing the file gives exactly the cached list, and appending is safe. */
  ghost predicate Coherent(c: Codec<ModelCard>, file: seq<byte>, cards: Cards) {
    Terminated(file) && Parse(c, file) == Some(cards)
  }

  /** What the file reads as, if it reads, is admissible. */
  ghost predicate Holds(c: Codec<ModelCard>, file: seq<byte>) {
    Parse(c, file).Some? ==> Admissible(Parse(c, file).value)
  }

  predicate FileHasId(c: Codec<ModelCard>, file: seq<byte>, id: string) {
    Parse(c, file).Some? && HasId(Parse(c, file).value, id)
  }

  function Retained(cards: Cards, id: string): Cards {
    if cards == [] then []
    else Retained(cards[..|cards| - 1], id) +
         if cards[|cards| - 1].id == id then [] else [cards[|cards| - 1]]
  }

  /** How opening finds the file: the probe answers and the file can be read, an
      error is returned, or the probe alone errs. */
  datatype Look = Seen | Unreadable | Blind

  class CardFile {
    var contents: Option<seq<byte>>

    function Bytes(): seq<byte>
      reads this
    {
      if contents.Some? then contents.value else []
    }
  }

  class ModelCardRegistry {
    const c: Codec<ModelCard>
    const file: CardFile
    var cache: Cards

    constructor (c: Codec<ModelCard>, file: CardFile, cache: Cards)
      ensures this.c == c && this.file == file && this.cache == cache
    {
      this.c, this.file, this.cache := c, file, cache;
    }

    function Both(): State
      reads this, file
    {
      State(file.Bytes(), cache)
    }

    ghost predicate InStep()
      reads this, file
    {
      Coherent(c, file.Bytes(), cache)
    }

    /** Fails on an error of the file system or a malformed line. An error of the
        existence probe alone counts as absence: the registry opens empty over
        whatever the file holds. */
    static method Open(c: Codec<ModelCard>, file: CardFile, look: Look) returns (r: ModelCardRegistry?)
      ensures r == null <==> look.Unreadable? || (look.Seen? && Parse(c, file.Bytes()).None?)
      ensures r != null ==> fresh(r) && r.c == c && r.file == file
      ensures r != null ==> Some(r.cache) == if look.Blind? then Some([]) else Parse(c, file.Bytes())
      ensures r != null ==> forall cards :: r.Both() == Step(c, State(file.Bytes(), cards), Reopen(look))
    {
      if look.Unreadable? {
        return null;
      }
      if look.Blind? || file.contents.None? {
        r := new ModelCardRegistry(c, file, []);
        return;
      }
      var cards := ReadLines(c, file.contents.value);
      if cards.None? {
        return null;
      }
      r := new ModelCardRegistry(c, file, cards.value);
    }

    /** Append one line, then the cache. An append that fails leaves the cache as
        it was and in the file whatever landed, the whole line when only the sync
        failed. On a file that ends in a newline, a successful create neither
        makes nor repairs a difference between file and cache, and keeps the ids
        of the file distinct exactly when the file did not have the new one. */
    method Create(card: ModelCard, fate: Fate) returns (r: Result<(), CardError>)
      requires Lawful(c)
      modifies this, file
      ensures Both() == Step(c, old(Both()), DoCreate(card, fate))
      ensures r.Ok? <==> !card.risk.Prohibited? && !HasId(old(cache), card.id) && fate.Durable?
      ensures r.Ok? ==> cache == old(cache) + [card] && file.Bytes() == old(file.Bytes()) + Line(c, card)
      ensures r.Err? ==> cache == old(cache)
      ensures r == Err(ProhibitedClassification) <==> card.risk.Prohibited?
      ensures r == Err(AlreadyExists) <==> !card.risk.Prohibited? && HasId(old(cache), card.id)
      ensures r == Err(Io) ==>
        fate.Failed? && file.Bytes() == old(file.Bytes()) + Take(Line(c, card), fate.landed)
      ensures r.Err? && r.error != Io ==> file.contents == old(file.contents)
      ensures Admissible(old(cache)) ==> Admissible(cache)
      ensures r.Ok? && Terminated(old(file.Bytes())) ==> (InStep() <==> old(InStep()))
      ensures r.Ok? && Terminated(old(file.Bytes())) ==>
        (Holds(c, file.Bytes()) <==> old(Holds(c, file.Bytes())) && !FileHasId(c, old(file.Bytes()), card.id))
    {
      if card.risk.Prohibited? {
        return Err(ProhibitedClassification);
      }
      if HasId(cache, card.id) {
        return Err(AlreadyExists);
      }
      var line := c.encode(card) + [NEWLINE];
      ghost var b := file.Bytes();
      match fate {
        case Failed(n) =>
          file.contents := Some(file.Bytes() + Take(line, n));
          return Err(Io);
        case Durable =>
          file.contents := Some(file.Bytes() + line);
      }
      if Terminated(b) { LandedCard(c, b, cache, card); }
      cache := cache + [card];
      r := Ok(());
    }

    /** Replace in the cache, then rewrite. The cache changes even when the
        rewrite fails; a successful update always brings the file in step. */
    method Update(card: ModelCard, io: bool) returns (r: Result<(), CardError>)
      requires Lawful(c)
      modifies this, file
      ensures Both() == Step(c, old(Both()), DoUpdate(card, io))
      ensures Admissible(old(cache)) ==> Admissible(cache)
      ensures r.Ok? <==> !card.risk.Prohibited? && HasId(old(cache), card.id) && io
      ensures r.Ok? ==> InStep()
      ensures if !card.risk.Prohibited? && HasId(old(cache), card.id)
        then Replaced(old(cache), cache, card) else cache == old(cache)
      ensures r.Err? ==> file.contents == old(file.contents)
    {
      if card.risk.Prohibited? {
        return Err(ProhibitedClassification);
      }
      var idx := 0;
      while idx < |cache| && cache[idx].id != card.id
        invariant 0 <= idx <= |cache|
        invariant forall j :: 0 <= j < idx ==> cache[j].id != card.id
      {
        idx := idx + 1;
      }
      PositionIs(cache, card.id, idx);
      if idx == |cache| {
        return Err(NotFound);
      }
      cache := cache[idx := card];
      var ok := RewriteAtomic(io);
      r := if ok then Ok(()) else Err(Io);
    }

    /** Idempotent; the file is only rewritten when something was removed. */
    method Delete(id: string, io: bool) returns (r: Result<(), CardError>)
      requires Lawful(c)
      modifies this, file
      ensures Both() == Step(c, old(Both()), DoDelete(id, io))
      ensures Admissible(old(cache)) ==> Admissible(cache)
      ensures cache == Retained(old(cache), id)
      ensures |cache| == Others(old(cache), id, |old(cache)|)
      ensures forall i :: 0 <= i < |old(cache)| && old(cache)[i].id != id ==>
        Others(old(cache), id, i) < |cache| && cache[Others(old(cache), id, i)] == old(cache)[i]
      ensures forall i :: 0 <= i < |cache| ==> cache[i].id != id
      ensures r.Ok? <==> !HasId(old(cache), id) || io
      ensures r.Ok? && HasId(old(cache), id) ==> InStep()
      ensures !HasId(old(cache), id) ==> cache == old(cache) && file.contents == old(file.contents)
      ensures r.Err? ==> file.contents == old(file.contents)
    {
      var before := |cache|;
      RetainedIsSublist(cache, id);
      RetainedInOrder(cache, id);
      RetainedDropsId(cache, id);
      cache := Retained(cache, id);
      if |cache| == before {
        return Ok(());
      }
      var ok := RewriteAtomic(io);
      r := if ok then Ok(()) else Err(Io);
    }

    method RewriteAtomic(io: bool) returns (ok: bool)
      requires Lawful(c)
      modifies file
      ensures ok == io
      ensures ok ==> InStep() && file.Bytes() == Render(c, cache)
      ensures !ok ==> file.contents == old(file.contents)
    {
      var tmp := WriteLines(c, cache);
      if !io {
        return false;
      }
      ParseRender(c, cache);
      file.contents := Some(tmp);
      ok := true;
    }
  }

  /** One entry of the list is now `card`, under the same id; the rest is as before. */
  ghost predicate Replaced(a: Cards, b: Cards, card: ModelCard) {
    |a| == |b| && exists i :: 0 <= i < |a| && a[i].id == card.id && b == a[i := card]
  }

  /** A list with one more card that is not Prohibited. */
  lemma AdmissibleSnoc(cards: Cards, card: ModelCard)
    requires !card.risk.Prohibited?
    ensures Admissible(cards + [card]) <==> Admissible(cards) && !HasId(cards, card.id)
  {
    var all := cards + [card];
    if Admissible(all) {
      forall i, j | 0 <= i < j < |cards| ensures cards[i].id != cards[j].id { assert all[i].id != all[j].id; }
      forall i | 0 <= i < |cards| ensures !cards[i].risk.Prohibited? && cards[i].id != card.id {
        assert all[i].id != all[|cards|].id && !all[i].risk.Prohibited?;
      }
    }
  }

  /** A whole line appended to a file that ends in a newline. */
  lemma LandedCard(c: Codec<ModelCard>, file: seq<byte>, cards: Cards, card: ModelCard)
    requires Lawful(c) && Terminated(file) && !card.risk.Prohibited?
    ensures var file' := file + Line(c, card);
      && (Coherent(c, file', cards + [card]) <==> Coherent(c, file, cards))
      && (Holds(c, file') <==> Holds(c, file) && !FileHasId(c, file, card.id))
  {
    ParseAppend(c, file, card);
    var before := Parse(c, file);
    if before.Some? {
      SnocInjective(before.value, cards, card);
      AdmissibleSnoc(before.value, card);
    }
  }

  lemma SnocInjective(a: Cards, b: Cards, card: ModelCard)
    ensures a + [card] == b + [card] <==> a == b
  {
    if a + [card] == b + [card] {
      assert (a + [card])[..|a|] == a && (b + [card])[..|b|] == b;
    }
  }

  /** How many of the first `i` cards have another id. */
  function Others(cards: Cards, id: string, i: nat): nat
    requires i <= |cards|
  {
    if i == 0 then 0 else Others(cards, id, i - 1) + if cards[i - 1].id == id then 0 else 1
  }

  lemma {:induction false} RetainedConcat(a: Cards, b: Cards, id: string)
    ensures Retained(a + b, id) == Retained(a, id) + Retained(b, id)
  {
    if b == [] {
      assert a + b == a && Retained(a, id) + [] == Retained(a, id);
    } else {
      var n := |b| - 1;
      assert (a + b)[..|a + b| - 1] == a + b[..n] && (a + b)[|a + b| - 1] == b[n];
      RetainedConcat(a, b[..n], id);
    }
  }

  lemma {:induction false} RetainedCount(cards: Cards, id: string, i: nat)
    requires i <= |cards|
    ensures |Retained(cards[..i], id)| == Others(cards, id, i)
  {
    if i > 0 {
      RetainedCount(cards, id, i - 1);
      assert cards[..i][..i - 1] == cards[..i - 1];
    }
  }

  lemma RetainedAt(cards: Cards, id: string, i: nat)
    requires i < |cards| && cards[i].id != id
    ensures Others(cards, id, i) < |Retained(cards, id)| && Retained(cards, id)[Others(cards, id, i)] == cards[i]
  {
    assert cards == cards[..i] + ([cards[i]] + cards[i + 1..]);
    RetainedConcat(cards[..i], [cards[i]] + cards[i + 1..], id);
    RetainedConcat([cards[i]], cards[i + 1..], id);
    RetainedCount(cards, id, i);
    assert [cards[i]][..0] == [] && Retained([cards[i]], id) == [cards[i]];
  }

  /** `retain` keeps the cards with other ids, all of them, unchanged, in order. */
  lemma RetainedInOrder(cards: Cards, id: string)
    ensures |Retained(cards, id)| == Others(cards, id, |cards|)
    ensures forall i :: 0 <= i < |cards| && cards[i].id != id ==>
      Others(cards, id, i) < |Retained(cards, id)| && Retained(cards, id)[Others(cards, id, i)] == cards[i]
  {
    RetainedCount(cards, id, |cards|);
    assert cards[..|cards|] == cards;
    forall i | 0 <= i < |cards| && cards[i].id != id
      ensures Others(cards, id, i) < |Retained(cards, id)| && Retained(cards, id)[Others(cards, id, i)] == cards[i]
    {
      RetainedAt(cards, id, i);
    }
  }

  lemma RetainedIsSublist(cards: Cards, id: string)
    ensures |Retained(cards, id)| <= |cards|
    ensures |Retained(cards, id)| == |cards| <==> !HasId(cards, id)
    ensures !HasId(cards, id) ==> Retained(cards, id) == cards
    ensures Admissible(cards) ==> Admissible(Retained(cards, id))
  {
    RetainedLength(cards, id);
    if Admissible(cards) { RetainedAdmissible(cards, id); }
  }

  lemma {:induction false} RetainedLength(cards: Cards, id: string)
    ensures |Retained(cards, id)| <= |cards|
    ensures |Retained(cards, id)| == |cards| <==> !HasId(cards, id)
    ensures !HasId(cards, id) ==> Retained(cards, id) == cards
  {
    if cards != [] {
      var n := |cards| - 1;
      RetainedLength(cards[..n], id);
      assert cards == cards[..n] + [cards[n]];
      HasIdSnoc(cards[..n], cards[n], id);
    }
  }

  lemma {:induction false} RetainedDropsId(cards: Cards, id: string)
    ensures forall i :: 0 <= i < |Retained(cards, id)| ==> Retained(cards, id)[i].id != id
  {
    if cards != [] { RetainedDropsId(cards[..|cards| - 1], id); }
  }

  lemma {:induction false} RetainedAdmissible(cards: Cards, id: string)
    requires Admissible(cards)
    ensures forall x :: x in Retained(cards, id) ==> x in cards && x.id != id
    ensures Admissible(Retained(cards, id))
  {
    if cards != [] {
      var n := |cards| - 1;
      RetainedAdmissible(cards[..n], id);
      var t := Retained(cards[..n], id);
      forall i | 0 <= i < |t| ensures t[i].id != cards[n].id {
        assert t[i] in t;
      }
    }
  }

  lemma HasIdSnoc(init: Cards, last: ModelCard, id: string)
    ensures HasId(init + [last], id) <==> HasId(init, id) || last.id == id
  {
    var all := init + [last];
    if HasId(init, id) {
      var i :| 0 <= i < |init| && init[i].id == id;
      assert all[i].id == id;
    }
    if last.id == id { assert all[|init|].id == id; }
  }

  // ---- runs ------------------------------------------------------------------

  datatype State = State(file: seq<byte>, cards: Cards)

  datatype Op =
    | DoCreate(card: ModelCard, fate: Fate)
    | DoUpdate(card: ModelCard, io: bool)
    | DoDelete(id: string, io: bool)
    | Reopen(look: Look)

  function Position(cards: Cards, id: string): (i: nat)
    ensures i <= |cards|
    ensures i < |cards| ==> cards[i].id == id
    ensures forall j :: 0 <= j < i ==> cards[j].id != id
  {
    if cards == [] || cards[0].id == id then 0 else 1 + Position(cards[1..], id)
  }

  lemma PositionIs(cards: Cards, id: string, i: nat)
    requires i <= |cards| && (i < |cards| ==> cards[i].id == id)
    requires forall j :: 0 <= j < i ==> cards[j].id != id
    ensures i == Position(cards, id)
  {
  }

  /** The call gets past its checks and touches file or cache. */
  predicate Admitted(cards: Cards, op: Op) {
    match op
    case DoCreate(card, _) => !card.risk.Prohibited? && !HasId(cards, card.id)
    case DoUpdate(card, _) => !card.risk.Prohibited? && Position(cards, card.id) < |cards|
    case DoDelete(id, _) => HasId(cards, id)
    case Reopen(_) => false
  }

  function Step(c: Codec<ModelCard>, st: State, op: Op): State {
    if op.Reopen? then
      match op.look
      case Unreadable => st
      case Blind => st.(cards := [])
      case Seen => if Parse(c, st.file).Some? then st.(cards := Parse(c, st.file).value) else st
    else if !Admitted(st.cards, op) then st
    else
      match op
      case DoCreate(card, Durable) => State(st.file + Line(c, card), st.cards + [card])
      case DoCreate(card, Failed(n)) => st.(file := st.file + Take(Line(c, card), n))
      case DoUpdate(card, io) =>
        var cards := st.cards[Position(st.cards, card.id) := card];
        State(if io then Render(c, cards) else st.file, cards)
      case DoDelete(id, io) =>
        var cards := Retained(st.cards, id);
        State(if io then Render(c, cards) else st.file, cards)
  }

  function Run(c: Codec<ModelCard>, st: State, ops: seq<Op>): State {
    if ops == [] then st else Step(c, Run(c, st, ops[..|ops| - 1]), ops[|ops| - 1])
  }

  // ---- file and cache --------------------------------------------------------

  /** Touched one side only: a create that failed after bytes had landed, an
      update or delete whose rewrite failed, a reopen that did not see the cards
      of the file. */
  predicate TouchesOneSide(c: Codec<ModelCard>, st: State, op: Op) {
    match op
    case DoCreate(_, fate) => Admitted(st.cards, op) && fate.Failed? && fate.landed > 0
    case DoUpdate(_, io) => Admitted(st.cards, op) && !io
    case DoDelete(_, io) => Admitted(st.cards, op) && !io
    case Reopen(look) => look.Blind? && Parse(c, st.file) != Some([])
  }

  /** A successful rewrite, or a reopen that takes in whole lines. */
  predicate BringsInStep(c: Codec<ModelCard>, st: State, op: Op) {
    match op
    case DoCreate(_, _) => false
    case DoUpdate(_, io) => Admitted(st.cards, op) && io
    case DoDelete(_, io) => Admitted(st.cards, op) && io
    case Reopen(look) =>
      Terminated(st.file) && Parse(c, st.file).Some? && (look.Seen? || (look.Blind? && Parse(c, st.file).value == []))
  }

  /** Some call since the last one that brought file and cache in step touched
      one side only. */
  predicate Apart(c: Codec<ModelCard>, st: State, ops: seq<Op>) {
    ops != [] &&
    var before, op := Run(c, st, ops[..|ops| - 1]), ops[|ops| - 1];
    !BringsInStep(c, before, op) && (Apart(c, st, ops[..|ops| - 1]) || TouchesOneSide(c, before, op))
  }

  /** The part of a line that landed leaves a file that reads otherwise or does
      not end in a newline. */
  lemma PartIsNotInStep(c: Codec<ModelCard>, st: State, card: ModelCard, n: nat)
    requires Lawful(c) && Coherent(c, st.file, st.cards) && n > 0
    ensures !Coherent(c, st.file + Take(Line(c, card), n), st.cards)
  {
    var p, rest := LinePart(c, card, n);
    if rest == [] {
      var b := st.file + Take(Line(c, card), n);
      assert b[|b| - 1] == p[|p| - 1] == c.encode(card)[|p| - 1];
      assert c.encode(card)[|p| - 1] in c.encode(card);
    } else {
      assert Take(Line(c, card), n) == Line(c, card);
      ParseAppend(c, st.file, card);
      assert |st.cards + [card]| != |st.cards|;
    }
  }

  /** One call on a coherent pair leaves it coherent exactly when it did not touch
      one side only, or replaced a card by itself. In particular a reopen does
      so exactly when the probe answered or there are no cards. */
  lemma StaysInStepIff(c: Codec<ModelCard>, st: State, op: Op)
    requires Lawful(c) && Coherent(c, st.file, st.cards)
    ensures var st' := Step(c, st, op);
      Coherent(c, st'.file, st'.cards) <==>
        !TouchesOneSide(c, st, op) || (op.DoUpdate? && op.card in st.cards && st'.cards == st.cards)
  {
    if Admitted(st.cards, op) {
      match op
      case DoCreate(card, Durable) => LandedCard(c, st.file, st.cards, card);
      case DoCreate(card, Failed(n)) =>
        if n > 0 { PartIsNotInStep(c, st, card, n); } else { assert st.file + Take(Line(c, card), 0) == st.file; }
      case DoUpdate(card, io) =>
        var i := Position(st.cards, card.id);
        ParseRender(c, st.cards[i := card]);
        assert st.cards[i := card][i] == card;
      case DoDelete(id, io) =>
        RetainedLength(st.cards, id);
        ParseRender(c, Retained(st.cards, id));
    }
  }

  /** Whatever the run, parsing the file gives exactly the cached list, in
      order, unless some call since the last successful rewrite or seeing
      reopen touched one side only. */
  lemma {:induction false} InStepUnlessApart(c: Codec<ModelCard>, st: State, ops: seq<Op>)
    requires Lawful(c) && Coherent(c, st.file, st.cards) && !Apart(c, st, ops)
    ensures var v := Run(c, st, ops); Coherent(c, v.file, v.cards)
  {
    if ops != [] {
      var init, op := ops[..|ops| - 1], ops[|ops| - 1];
      var v := Run(c, st, init);
      if BringsInStep(c, v, op) {
        Rewritten(c, v, op);
      } else {
        InStepUnlessApart(c, st, init);
        StaysInStepIff(c, v, op);
      }
    }
  }

  lemma Rewritten(c: Codec<ModelCard>, st: State, op: Op)
    requires Lawful(c) && BringsInStep(c, st, op)
    ensures var v := Step(c, st, op); Coherent(c, v.file, v.cards)
  {
    match op
    case DoUpdate(card, _) => ParseRender(c, st.cards[Position(st.cards, card.id) := card]);
    case DoDelete(id, _) => ParseRender(c, Retained(st.cards, id));
    case Reopen(_) =>
  }

  // ---- distinct ids ------------------------------------------------------------

  /** The whole card reaches the file, with or without its newline. */
  predicate Lands(c: Codec<ModelCard>, st: State, op: Op) {
    op.DoCreate? && Admitted(st.cards, op) && (op.fate.Durable? || op.fate.landed >= |c.encode(op.card)|)
  }

  /** The check that `create` makes against the cache, made against the file: a
      card that lands behind a newline has an id that the file does not have. */
  predicate Guarded(c: Codec<ModelCard>, st: State, op: Op) {
    Lands(c, st, op) && Terminated(st.file) ==> !FileHasId(c, st.file, op.card.id)
  }

  /** Whole lines, a last line without its newline, or a line nothing repairs. */
  ghost predicate Shaped(c: Codec<ModelCard>, file: seq<byte>) {
    Terminated(file) || Unended(c, file) || Broken(c, file)
  }

  ghost predicate Sound(c: Codec<ModelCard>, st: State) {
    Shaped(c, st.file) && Holds(c, st.file) && Admissible(st.cards)
  }

  lemma CreatedFile(c: Codec<ModelCard>, file: seq<byte>, card: ModelCard, n: nat)
    requires Lawful(c) && Tearproof(c) && Shaped(c, file) && !card.risk.Prohibited?
    ensures var file' := file + Take(Line(c, card), n);
      && Shaped(c, file')
      && (n >= |c.encode(card)| && Terminated(file) ==> (Holds(c, file') <==> Holds(c, file) && !FileHasId(c, file, card.id)))
      && (n < |c.encode(card)| || !Terminated(file) ==> Holds(c, file) ==> Holds(c, file'))
  {
    var file' := file + Take(Line(c, card), n);
    if n == 0 {
      assert file' == file;
    } else if Terminated(file) {
      AppendPart(c, file, card, n);
      ParseAppend(c, file, card);
      LandedCard(c, file, [], card);
      if Broken(c, file') { BrokenDoesNotParse(c, file'); }
    } else {
      if Broken(c, file) { BrokenStays(c, file, card, n); } else { GluedIsBroken(c, file, card, n); }
      BrokenDoesNotParse(c, file');
    }
  }

  lemma CreateIds(c: Codec<ModelCard>, st: State, card: ModelCard, fate: Fate)
    requires Lawful(c) && Tearproof(c) && Sound(c, st) && Admitted(st.cards, DoCreate(card, fate))
    ensures var op := DoCreate(card, fate); var v := Step(c, st, op);
      && Shaped(c, v.file) && Admissible(v.cards)
      && (Holds(c, v.file) <==> Guarded(c, st, op))
  {
    var line := Line(c, card);
    var n := if fate.Durable? then |line| else fate.landed;
    assert Take(line, |line|) == line;
    CreatedFile(c, st.file, card, n);
    AdmissibleSnoc(st.cards, card);
  }

  lemma RewriteIds(c: Codec<ModelCard>, st: State, op: Op)
    requires Lawful(c) && Sound(c, st) && Admitted(st.cards, op) && !op.DoCreate?
    ensures Sound(c, Step(c, st, op))
  {
    match op
    case DoUpdate(card, _) => ParseRender(c, st.cards[Position(st.cards, card.id) := card]);
    case DoDelete(id, _) =>
      RetainedIsSublist(st.cards, id);
      ParseRender(c, Retained(st.cards, id));
  }

  lemma StepIds(c: Codec<ModelCard>, st: State, op: Op)
    requires Lawful(c) && Tearproof(c) && Sound(c, st)
    ensures Holds(c, Step(c, st, op).file) <==> Guarded(c, st, op)
    ensures Guarded(c, st, op) ==> Sound(c, Step(c, st, op))
  {
    if op.Reopen? {
    } else if Admitted(st.cards, op) {
      if op.DoCreate? {
        CreateIds(c, st, op.card, op.fate);
      } else {
        RewriteIds(c, st, op);
      }
    }
  }

  /** The state after the first `k` calls. */
  function At(c: Codec<ModelCard>, st: State, ops: seq<Op>, k: nat): State
    requires k <= |ops|
  {
    Run(c, st, ops[..k])
  }

  lemma AtNext(c: Codec<ModelCard>, st: State, ops: seq<Op>, k: nat)
    requires k < |ops|
    ensures At(c, st, ops, k + 1) == Step(c, At(c, st, ops, k), ops[k])
  {
    assert ops[..k + 1][..k] == ops[..k];
  }

  ghost predicate AlwaysHolds(c: Codec<ModelCard>, st: State, ops: seq<Op>) {
    forall k :: 0 <= k <= |ops| ==> Holds(c, At(c, st, ops, k).file)
  }

  ghost predicate AlwaysGuarded(c: Codec<ModelCard>, st: State, ops: seq<Op>) {
    forall k :: 0 <= k < |ops| ==> Guarded(c, At(c, st, ops, k), ops[k])
  }

  lemma {:induction false} GuardedRun(c: Codec<ModelCard>, st: State, ops: seq<Op>, k: nat)
    requires Lawful(c) && Tearproof(c) && Sound(c, st) && k <= |ops|
    requires forall j :: 0 <= j < k ==> Guarded(c, At(c, st, ops, j), ops[j])
    ensures Sound(c, At(c, st, ops, k))
  {
    if k > 0 {
      GuardedRun(c, st, ops, k - 1);
      AtNext(c, st, ops, k - 1);
      StepIds(c, At(c, st, ops, k - 1), ops[k - 1]);
    } else {
      assert ops[..0] == [];
    }
  }

  lemma HoldsWhileGuarded(c: Codec<ModelCard>, st: State, ops: seq<Op>)
    requires Lawful(c) && Tearproof(c) && Sound(c, st) && AlwaysGuarded(c, st, ops)
    ensures AlwaysHolds(c, st, ops) && Admissible(Run(c, st, ops).cards)
  {
    forall k | 0 <= k <= |ops| ensures Holds(c, At(c, st, ops, k).file) { GuardedRun(c, st, ops, k); }
    GuardedRun(c, st, ops, |ops|);
    assert ops[..|ops|] == ops;
  }

  /** From a well-formed file, over any run with any failures: the ids in the
      file stay distinct, and nothing Prohibited gets in, at every moment exactly
      when every card that landed had an id that the file did not have then.
      The cache stays distinct along. */
  lemma DistinctIffGuarded(c: Codec<ModelCard>, st: State, ops: seq<Op>)
    requires Lawful(c) && Tearproof(c) && Sound(c, st)
    ensures AlwaysHolds(c, st, ops) <==> AlwaysGuarded(c, st, ops)
    ensures AlwaysGuarded(c, st, ops) ==> Admissible(Run(c, st, ops).cards)
    ensures AlwaysGuarded(c, st, ops) ==> var v := Run(c, st, ops); var read := Parse(c, v.file);
      && (forall i :: 0 <= i < |v.cards| ==> v.cards[i].risk != Prohibited)
      && (forall i, j :: 0 <= i < j < |v.cards| ==> v.cards[i].id != v.cards[j].id)
      && (read.Some? ==> forall i :: 0 <= i < |read.value| ==> read.value[i].risk != Prohibited)
      && (read.Some? ==> forall i, j :: 0 <= i < j < |read.value| ==> read.value[i].id != read.value[j].id)
  {
    if AlwaysGuarded(c, st, ops) {
      HoldsWhileGuarded(c, st, ops);
      assert ops[..|ops|] == ops && Holds(c, At(c, st, ops, |ops|).file);
    } else {
      var k := FirstUnguarded(c, st, ops);
      GuardedRun(c, st, ops, k);
      StepIds(c, At(c, st, ops, k), ops[k]);
      AtNext(c, st, ops, k);
    }
  }

  lemma FirstUnguarded(c: Codec<ModelCard>, st: State, ops: seq<Op>) returns (k: nat)
    requires !AlwaysGuarded(c, st, ops)
    ensures k < |ops| && !Guarded(c, At(c, st, ops, k), ops[k])
    ensures forall j :: 0 <= j < k ==> Guarded(c, At(c, st, ops, j), ops[j])
  {
    var ok := (j: nat) => j < |ops| ==> Guarded(c, At(c, st, ops, j), ops[j]);
    var i :| 0 <= i < |ops| && !Guarded(c, At(c, st, ops, i), ops[i]);
    assert !ok(i);
    k := Least(ok, i);
    forall j | 0 <= j < k ensures Guarded(c, At(c, st, ops, j), ops[j]) { assert ok(j); }
  }

  /** Without I/O errors nothing of this happens: file and cache hold one
      admissible list after every call. */
  lemma {:induction false} FaultlessRuns(c: Codec<ModelCard>, st: State, ops: seq<Op>)
    requires Lawful(c) && Coherent(c, st.file, st.cards) && Admissible(st.cards)
    requires forall i :: 0 <= i < |ops| ==>
      match ops[i]
      case DoCreate(_, fate) => fate.Durable?
      case DoUpdate(_, io) => io
      case DoDelete(_, io) => io
      case Reopen(look) => !look.Blind?
    ensures var v := Run(c, st, ops); Coherent(c, v.file, v.cards) && Admissible(v.cards)
  {
    if ops != [] {
      var init, op := ops[..|ops| - 1], ops[|ops| - 1];
      FaultlessRuns(c, st, init);
      var v := Run(c, st, init);
      StaysInStepIff(c, v, op);
      match op
      case DoCreate(card, _) => if Admitted(v.cards, op) { AdmissibleSnoc(v.cards, card); }
      case DoDelete(id, _) => RetainedIsSublist(v.cards, id);
      case _ =>
    }
  }

  // ---- how ids repeat ------------------------------------------------------------

  /** After a delete whose rewrite failed, re-creating the id puts it into the
      file twice. */
  lemma CreateAfterFailedDeleteDuplicates(c: Codec<ModelCard>, a: ModelCard, b: ModelCard)
    requires Lawful(c) && a.id == b.id && !a.risk.Prohibited? && !b.risk.Prohibited?
    ensures var st := Step(c, Step(c, State(Render(c, [a]), [a]), DoDelete(a.id, false)), DoCreate(b, Durable));
      st.cards == [b] && Parse(c, st.file) == Some([a, b])
  {
    ParseRender(c, [a]);
    ParseAppend(c, Render(c, [a]), b);
    assert [a][..0] == [] && HasId([a], a.id) by { assert [a][0].id == a.id; }
    var none: Cards := [];
    RetainedLength(none, b.id);
    assert Retained([a], a.id) == none;
    assert Step(c, State(Render(c, [a]), [a]), DoDelete(a.id, false)) == State(Render(c, [a]), none);
    assert [a] + [b] == [a, b] && none + [b] == [b];
  }

  /** So does the retry of a create whose sync failed after its line had landed. */
  lemma RetryAfterFailedSyncDuplicates(c: Codec<ModelCard>, a: ModelCard, landed: nat)
    requires Lawful(c) && !a.risk.Prohibited? && landed > |c.encode(a)|
    ensures var st := Step(c, Step(c, State([], []), DoCreate(a, Failed(landed))), DoCreate(a, Durable));
      st.cards == [a] && Parse(c, st.file) == Some([a, a])
  {
    var none: Cards := [];
    assert !HasId(none, a.id);
    assert Take(Line(c, a), landed) == Line(c, a) && [] + Line(c, a) == Line(c, a);
    ParseAppend(c, [], a);
    ParseAppend(c, Line(c, a), a);
    assert none + [a] == [a] && [a] + [a] == [a, a];
  }

  /** A reopen whose probe erred leads to both: creating a card of the file again
      repeats it there, and the first rewrite loses every card that was not
      created anew, although every call returned Ok. */
  lemma BlindReopenDuplicatesOrLoses(c: Codec<ModelCard>, a: ModelCard, b: ModelCard)
    requires Lawful(c) && !a.risk.Prohibited? && !b.risk.Prohibited?
    ensures var st := Step(c, State(Render(c, [a]), [a]), Reopen(Blind));
      && st.cards == []
      && Parse(c, Step(c, st, DoCreate(a, Durable)).file) == Some([a, a])
      && Parse(c, Step(c, Step(c, st, DoCreate(b, Durable)), DoUpdate(b, true)).file) == Some([b])
  {
    var none: Cards := [];
    var st := State(Render(c, [a]), none);
    ParseRender(c, [a]);
    ParseAppend(c, st.file, a);
    assert [a] + [a] == [a, a];
    var st' := State(st.file + Line(c, b), none + [b]);
    assert !HasId(none, b.id) && Step(c, st, DoCreate(b, Durable)) == st';
    assert none + [b] == [b] && [b][0 := b] == [b] && Position([b], b.id) == 0;
    ParseRender(c, [b]);
  }
}
