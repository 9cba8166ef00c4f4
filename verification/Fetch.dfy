// Fetching a pinned bundle: download, checksum, extract, sentinel, with
// failures and crashes between and inside any two steps.
module Fetch {
  import opened Common
  import opened Encodings

  /** What the bundle says: the pinned digest in hex, whether the download is
      itself the artefact, and what unpacking given bytes writes. */
  datatype Bundle = Bundle(
    pin: Option<seq<byte>>, raw: bool, unpack: seq<byte> -> map<string, seq<byte>>)

  /** `<cache>/<version>`: the downloaded archive, the extracted files, the sentinel. */
  datatype Dir = Dir(archive: Option<seq<byte>>, files: map<string, seq<byte>>, sentinel: bool)

  type Digest = seq<byte> -> seq<byte>

  function Lower(c: byte): byte {
    if 65 <= c <= 90 then c + 32 else c
  }

  /** `eq_ignore_ascii_case`. */
  predicate SameHex(a: seq<byte>, b: seq<byte>) {
    |a| == |b| && forall i :: 0 <= i < |a| ==> Lower(a[i]) == Lower(b[i])
  }

  /** The bytes may be extracted. Without a pin everything may. */
  predicate Trusted(b: Bundle, h: Digest, data: seq<byte>) {
    b.pin.Some? ==> SameHex(Hex(h(data)), b.pin.value)
  }

  /** `text` is the hex form of digest `d`, in small or capital letters. */
  ghost predicate HexOf(text: seq<byte>, d: seq<byte>) {
    |text| == |Hex(d)| && forall i :: 0 <= i < |text| ==>
      text[i] == Hex(d)[i] || (97 <= Hex(d)[i] <= 102 && text[i] == Hex(d)[i] - 32)
  }

  /** The ASCII form of a hex digit is 0 to 9 or a to f. */
  lemma {:induction false} HexIsLower(d: seq<byte>, i: nat)
    requires i < |Hex(d)|
    ensures 48 <= Hex(d)[i] <= 57 || 97 <= Hex(d)[i] <= 102
  {
    if i >= 2 {
      HexIsLower(d[1..], i - 2);
      assert Hex(d)[2..] == Hex(d[1..]) && Hex(d)[i] == Hex(d)[2..][i - 2];
    }
  }

  /** Comparing without case compares digests: with a pin that is the hex form of
      `d`, exactly the bytes with digest `d` may be extracted. */
  lemma TrustedMeansPinned(b: Bundle, h: Digest, data: seq<byte>, d: seq<byte>)
    requires b.pin.Some? && HexOf(b.pin.value, d)
    ensures Trusted(b, h, data) <==> h(data) == d
  {
    var pin, x := b.pin.value, Hex(h(data));
    forall i | 0 <= i < |pin| ensures Lower(pin[i]) == Hex(d)[i] { HexIsLower(d, i); }
    forall i | 0 <= i < |x| ensures Lower(x[i]) == x[i] { HexIsLower(h(data), i); }
    if SameHex(x, pin) {
      forall i | 0 <= i < |x| ensures x[i] == Hex(d)[i] { assert Lower(x[i]) == Lower(pin[i]); }
      assert x == Hex(d);
      HexInjective(h(data), d);
    }
  }

  /** The extraction of `data` is there, file by file. */
  ghost predicate Complete(b: Bundle, data: seq<byte>, files: map<string, seq<byte>>) {
    forall p :: p in b.unpack(data) ==> p in files && files[p] == b.unpack(data)[p]
  }

  /** Hash a file chunk by chunk, at most 64 KiB at a time, whatever the sizes
      the reads return: the digest of the whole content in hex. */
  method Sha256File(content: seq<byte>, h: Digest, sizes: seq<nat>) returns (hex: seq<byte>)
    ensures hex == Hex(h(content))
  {
    var hashed: seq<byte> := [];
    var at, turn := 0, 0;
    while at < |content|
      invariant 0 <= at <= |content| && hashed == content[..at]
      decreases |content| - at
    {
      var wanted := if turn < |sizes| && 0 < sizes[turn] <= 65536 then sizes[turn] else 65536;
      var n := if wanted < |content| - at then wanted else |content| - at;
      hashed := hashed + content[at..at + n];
      assert content[..at + n] == content[..at] + content[at..at + n];
      at := at + n;
      turn := turn + 1;
    }
    assert content[..|content|] == content;
    hex := Hex(h(hashed));
  }

  datatype FetchError = Download | ChecksumMismatch | Extract | Io

  /** What the network delivered before it ended or broke off. */
  datatype Transfer = Whole(data: seq<byte>) | Broken(part: seq<byte>)

  /** The file operation of one attempt that fails, if any: the directory, the
      hashing, the extraction after some files, the best-effort removal of the
      archive, the creation of the sentinel, or writing into it. */
  datatype Fault =
    | NoFault | NoDirectory | NoHash | NoExtraction(part: map<string, seq<byte>>) | NoTidying | NoMark | MarkTorn

  /** The fault makes the call return Err; without a pin nothing is hashed. */
  predicate Interferes(f: Fault, b: Bundle) {
    f.NoDirectory? || (f.NoHash? && b.pin.Some?) || f.NoExtraction? || f.NoMark? || f.MarkTorn?
  }

  class BundleCache {
    const b: Bundle
    const h: Digest
    var dir: Dir

    constructor (b: Bundle, h: Digest, dir: Dir)
      ensures this.b == b && this.h == h && this.dir == dir
    {
      this.b, this.h, this.dir := b, h, dir;
    }

    /** One attempt. When writing the sentinel fails after its file was created,
        the call returns Err over a complete extraction with its sentinel. */
    method FetchAndExtract(net: Transfer, fault: Fault) returns (r: Result<(), FetchError>)
      modifies this
      ensures old(dir).sentinel ==> r.Ok? && dir == old(dir)
      ensures !old(dir).sentinel ==>
        (r.Ok? <==> net.Whole? && Trusted(b, h, net.data) && !Interferes(fault, b))
      ensures !old(dir).sentinel && r.Ok? ==> dir.sentinel && dir.files == old(dir).files + b.unpack(net.data)
      ensures !old(dir).sentinel && dir.sentinel ==>
        net.Whole? && Complete(b, net.data, dir.files) && Trusted(b, h, net.data)
      ensures r.Err? ==> (dir.sentinel <==> fault.MarkTorn? && net.Whole? && Trusted(b, h, net.data))
      ensures r == Err(ChecksumMismatch) <==>
        !old(dir).sentinel && net.Whole? && !Trusted(b, h, net.data) && !fault.NoDirectory? && !fault.NoHash?
      ensures r.Err? && (r.error == ChecksumMismatch || r.error == Download) ==> dir.files == old(dir).files
      ensures forall d :: b.pin.Some? && HexOf(b.pin.value, d) && !old(dir).sentinel ==>
        && (dir.sentinel ==> net.Whole? && h(net.data) == d && dir.files == old(dir).files + b.unpack(net.data))
        && (net.Whole? && h(net.data) == d && fault.NoFault? ==> r.Ok? && dir.sentinel)
        && (net.Whole? && h(net.data) != d && !fault.NoDirectory? && !fault.NoHash? ==>
              r == Err(ChecksumMismatch) && dir.files == old(dir).files)
    {
      if net.Whole? && b.pin.Some? {
        forall d | HexOf(b.pin.value, d) ensures Trusted(b, h, net.data) <==> h(net.data) == d {
          TrustedMeansPinned(b, h, net.data, d);
        }
      }
      if dir.sentinel {
        return Ok(());
      }
      if fault.NoDirectory? {
        return Err(Io);
      }
      match net {
        case Broken(part) =>
          dir := dir.(archive := Some(part));
          return Err(Download);
        case Whole(data) =>
          dir := dir.(archive := Some(data));
          if b.pin.Some? {
            if fault.NoHash? {
              return Err(Io);
            }
            var actual := Sha256File(data, h, []);
            if !SameHex(actual, b.pin.value) {
              dir := dir.(archive := if fault.NoTidying? then dir.archive else None);
              return Err(ChecksumMismatch);
            }
          }
          if fault.NoExtraction? {
            dir := dir.(files := dir.files + fault.part);
            return Err(Extract);
          }
          dir := dir.(files := dir.files + b.unpack(data), archive := if b.raw then None else dir.archive);
          if !b.raw && !fault.NoTidying? {
            dir := dir.(archive := None);
          }
          if fault.NoMark? {
            return Err(Io);
          }
          dir := dir.(sentinel := true);
          r := if fault.MarkTorn? then Err(Io) else Ok(());
      }
    }
  }

  // ---- attempts as interruptible steps ------------------------------------------

  datatype Progress = Idle | Downloading | Downloaded | Checked | Extracted | Tidied

  /** `extracted`: every content that extraction has read so far. */
  datatype World = World(dir: Dir, at: Progress, extracted: set<seq<byte>>)

  datatype Step =
    | Start
    | Chunk(data: seq<byte>)
    | EndOfStream
    | Verify(removed: bool)
    | ExtractPart(path: string, part: seq<byte>)
    | ExtractAll
    | RemoveArchive(ok: bool)
    | WriteSentinel
    | Fail
    | Crash

  /** One step; a step that is not enabled changes nothing. */
  function Next(w: World, x: Step, b: Bundle, h: Digest): World {
    var d := w.dir;
    match (w.at, x)
    case (_, Fail) => w.(at := Idle)
    case (_, Crash) => w.(at := Idle)
    case (Idle, Start) =>
      if d.sentinel then w else w.(dir := d.(archive := Some([])), at := Downloading)
    case (Downloading, Chunk(data)) =>
      if d.archive.Some? then w.(dir := d.(archive := Some(d.archive.value + data))) else w
    case (Downloading, EndOfStream) => w.(at := Downloaded)
    case (Downloaded, Verify(removed)) =>
      if d.archive.None? then w.(at := Idle)
      else if Trusted(b, h, d.archive.value) then w.(at := Checked)
      else w.(dir := if removed then d.(archive := None) else d, at := Idle)
    case (Checked, ExtractPart(path, part)) =>
      if d.archive.Some? && path in b.unpack(d.archive.value) then
        World(d.(files := d.files[path := part]), Checked, w.extracted + {d.archive.value})
      else w
    case (Checked, ExtractAll) =>
      if d.archive.Some? then
        World(d.(files := d.files + b.unpack(d.archive.value), archive := if b.raw then None else d.archive),
              Extracted, w.extracted + {d.archive.value})
      else w
    case (Extracted, RemoveArchive(ok)) =>
      w.(dir := if ok && !b.raw then d.(archive := None) else d, at := Tidied)
    case (Tidied, WriteSentinel) => w.(dir := d.(sentinel := true), at := Idle)
    case _ => w
  }

  function Run(w: World, xs: seq<Step>, b: Bundle, h: Digest): World {
    if xs == [] then w else Next(Run(w, xs[..|xs| - 1], b, h), xs[|xs| - 1], b, h)
  }

  /** Some trusted content is completely extracted. */
  ghost predicate Installed(d: Dir, b: Bundle, h: Digest, extracted: set<seq<byte>>) {
    exists data :: data in extracted && Trusted(b, h, data) && Complete(b, data, d.files)
  }

  ghost predicate Sound(w: World, b: Bundle, h: Digest) {
    && (forall data :: data in w.extracted ==> Trusted(b, h, data))
    && (w.dir.sentinel ==> w.at.Idle? && Installed(w.dir, b, h, w.extracted))
    && (w.at.Checked? ==> w.dir.archive.Some? && Trusted(b, h, w.dir.archive.value))
    && (w.at.Extracted? || w.at.Tidied? ==> Installed(w.dir, b, h, w.extracted))
  }

  lemma NextSound(w: World, x: Step, b: Bundle, h: Digest)
    requires Sound(w, b, h)
    ensures Sound(Next(w, x, b, h), b, h)
  {
    var w' := Next(w, x, b, h);
    if w.at.Checked? && x.ExtractAll? {
      var data := w.dir.archive.value;
      assert data in w'.extracted && Complete(b, data, w'.dir.files);
    } else if w.dir.sentinel || w.at.Extracted? || w.at.Tidied? {
      var data :| data in w.extracted && Trusted(b, h, data) && Complete(b, data, w.dir.files);
      assert data in w'.extracted && w'.dir.files == w.dir.files;
    }
  }

  /** Over any sequence of attempts, failures and crashes, nothing is extracted
      from bytes that do not match the pin, and the sentinel is there only
      when a matching extraction is complete. */
  lemma OnlyPinnedBytesAreInstalled(w: World, xs: seq<Step>, b: Bundle, h: Digest)
    requires !w.dir.sentinel && w.at == Idle && w.extracted == {}
    ensures var v := Run(w, xs, b, h);
      && Sound(v, b, h)
      && (forall data :: data in v.extracted ==> Trusted(b, h, data))
      && (v.dir.sentinel ==> Installed(v.dir, b, h, v.extracted))
    ensures var v := Run(w, xs, b, h);
      forall d :: b.pin.Some? && HexOf(b.pin.value, d) ==>
        && (forall data :: data in v.extracted ==> h(data) == d)
        && (v.dir.sentinel ==> exists data ::
              && data in v.extracted && h(data) == d
              && forall p :: p in b.unpack(data) ==> p in v.dir.files && v.dir.files[p] == b.unpack(data)[p])
  {
    RunSound(w, xs, b, h);
    PinnedByDigest(Run(w, xs, b, h), b, h);
  }

  lemma PinnedByDigest(v: World, b: Bundle, h: Digest)
    requires Sound(v, b, h)
    ensures forall d :: b.pin.Some? && HexOf(b.pin.value, d) ==>
      && (forall data :: data in v.extracted ==> h(data) == d)
      && (v.dir.sentinel ==> exists data ::
            && data in v.extracted && h(data) == d
            && forall p :: p in b.unpack(data) ==> p in v.dir.files && v.dir.files[p] == b.unpack(data)[p])
  {
    forall d | b.pin.Some? && HexOf(b.pin.value, d)
      ensures forall data :: data in v.extracted ==> h(data) == d
      ensures v.dir.sentinel ==> exists data ::
        && data in v.extracted && h(data) == d
        && forall p :: p in b.unpack(data) ==> p in v.dir.files && v.dir.files[p] == b.unpack(data)[p]
    {
      forall data | data in v.extracted ensures h(data) == d { TrustedMeansPinned(b, h, data, d); }
      if v.dir.sentinel {
        var data :| data in v.extracted && Trusted(b, h, data) && Complete(b, data, v.dir.files);
        assert h(data) == d;
      }
    }
  }

  lemma {:induction false} RunSound(w: World, xs: seq<Step>, b: Bundle, h: Digest)
    requires !w.dir.sentinel && w.at == Idle && w.extracted == {}
    ensures Sound(Run(w, xs, b, h), b, h)
  {
    if xs != [] {
      RunSound(w, xs[..|xs| - 1], b, h);
      NextSound(Run(w, xs[..|xs| - 1], b, h), xs[|xs| - 1], b, h);
    }
  }

  /** Once the sentinel is there, later calls change nothing. */
  lemma {:induction false} SentinelFreezes(w: World, xs: seq<Step>, b: Bundle, h: Digest)
    requires Sound(w, b, h) && w.dir.sentinel
    ensures Run(w, xs, b, h) == w
  {
    if xs != [] {
      SentinelFreezes(w, xs[..|xs| - 1], b, h);
    }
  }

  /** The steps of an attempt that nothing disturbs. */
  function Undisturbed(d: Dir, data: seq<byte>, tidied: bool, b: Bundle, h: Digest): World {
    var checked := Next(Next(Next(Next(World(d, Idle, {}), Start, b, h), Chunk(data), b, h), EndOfStream, b, h), Verify(true), b, h);
    Next(Next(Next(checked, ExtractAll, b, h), RemoveArchive(tidied), b, h), WriteSentinel, b, h)
  }

  /** And progress: an undisturbed attempt at matching bytes ends with the complete
      extraction and its sentinel. */
  lemma UndisturbedFetchInstalls(d: Dir, data: seq<byte>, tidied: bool, b: Bundle, h: Digest)
    requires !d.sentinel && (b.pin.Some? ==> HexOf(b.pin.value, h(data)))
    ensures var v := Undisturbed(d, data, tidied, b, h);
      && v.at == Idle && v.dir.sentinel && Complete(b, data, v.dir.files) && v.extracted == {data}
      && v.dir.files == d.files + b.unpack(data)
  {
    if b.pin.Some? { TrustedMeansPinned(b, h, data, h(data)); }
    assert [] + data == data;
  }
}
