// Secrets across boots: the passphrase file, the salt file and the ciphertext
// file under any sequence of boots, puts, deletes, failed writes and crashes.
module SecretsBoot {
  import opened Common
  import opened JsonLines
  import opened Encodings
  import opened Secrets

  /** The three files that must stay together. */
  datatype Disk = Disk(pass: Option<string>, salt: Option<seq<byte>>, store: Option<seq<byte>>)

  /** A put or delete between its cache update and its return. */
  datatype Job = NoJob | Writing(put: Option<(string, Text)>) | Renamed(put: Option<(string, Text)>)

  datatype Process =
    | Down
    | Naming(pass: string)                         // generated, not yet renamed into place
    | HasPass(pass: string)
    | Salting(pass: string, drawn: seq<byte>)      // the salt file is being written in place
    | HasBoth(pass: string, salt: seq<byte>)
    | Up(key: seq<byte>, cache: Cache, job: Job)

  /** `acked`: secrets whose last put returned Ok and was not followed by a delete. */
  datatype World = World(disk: Disk, proc: Process, acked: map<string, Text>)

  // ---- the two bootstrap files --------------------------------------------------

  /** The digits of `{:02x}` for every byte. */
  function HexText(b: seq<byte>): (t: string)
    ensures |t| == 2 * |b|
  {
    Ascii(Hex(b))
  }

  lemma {:induction false} HexSnoc(b: seq<byte>, x: byte)
    ensures Hex(b + [x]) == Hex(b) + [HexDigit(x as int / 16), HexDigit(x as int % 16)]
  {
    if b == [] {
      assert b + [x] == [x] && [x][1..] == [];
    } else {
      assert (b + [x])[1..] == b[1..] + [x];
      HexSnoc(b[1..], x);
    }
  }

  lemma {:induction false} AsciiConcat(a: seq<byte>, b: seq<byte>)
    ensures Ascii(a + b) == Ascii(a) + Ascii(b)
  {
    if a == [] {
      assert a + b == b;
    } else {
      assert (a + b)[1..] == a[1..] + b;
      AsciiConcat(a[1..], b);
    }
  }

  lemma {:induction false} HexHasNoBlanks(b: seq<byte>)
    ensures forall i :: 0 <= i < |HexText(b)| ==> !Blank(HexText(b)[i])
  {
    if b != [] {
      HexHasNoBlanks(b[1..]);
      var h := Hex(b);
      assert h[2..] == Hex(b[1..]);
      forall i | 0 <= i < |h| ensures !Blank(h[i] as char) {
        if i >= 2 { assert h[i] == Hex(b[1..])[i - 2] && HexText(b[1..])[i - 2] == h[i] as char; }
      }
    }
  }

  predicate Blank(c: char) {
    c == ' ' || c == '\t' || c == '\n' || c == '\r'
  }

  /** `trim`: blanks off both ends. */
  function Trim(t: string): string
    decreases |t|
  {
    if t == "" then ""
    else if Blank(t[0]) then Trim(t[1..])
    else if Blank(t[|t| - 1]) then Trim(t[..|t| - 1])
    else t
  }

  lemma Prepend(c: char, before: string, t: string, after: string)
    ensures [c] + (before + t + after) == ([c] + before) + t + after
  {
  }

  lemma Append(before: string, t: string, after: string, c: char)
    ensures (before + t + after) + [c] == before + t + (after + [c])
  {
  }

  /** Trimming takes blanks off both ends and nothing else. */
  lemma {:induction false} TrimTakesBlanks(t: string) returns (before: string, after: string)
    ensures t == before + Trim(t) + after
    ensures forall i :: 0 <= i < |before| ==> Blank(before[i])
    ensures forall i :: 0 <= i < |after| ==> Blank(after[i])
    ensures Trim(t) != "" ==> !Blank(Trim(t)[0]) && !Blank(Trim(t)[|Trim(t)| - 1])
    decreases |t|
  {
    before, after := "", "";
    if t != "" {
      if Blank(t[0]) {
        before, after := TrimTakesBlanks(t[1..]);
        Prepend(t[0], before, Trim(t), after);
        assert t == [t[0]] + t[1..];
        before := [t[0]] + before;
      } else if Blank(t[|t| - 1]) {
        before, after := TrimTakesBlanks(t[..|t| - 1]);
        Append(before, Trim(t), after, t[|t| - 1]);
        assert t == t[..|t| - 1] + [t[|t| - 1]];
        after := after + [t[|t| - 1]];
      }
    }
  }

  lemma BlankChars(c: char)
    ensures Blank(c) <==> c in " \t\n\r"
  {
  }

  /** Env var set and non-empty wins. */
  predicate FromEnv(env: Option<string>) {
    env.Some? && env.value != ""
  }

  /** The tiers of the passphrase resolver. `probe` is what `try_exists`
      answered for a file that is there; an error counts as absent. */
  datatype Resolved = Use(pass: string) | Refuse | Generate

  function Resolve(env: Option<string>, file: Option<string>, probe: bool): Resolved {
    if FromEnv(env) then Use(env.value)
    else if probe && file.Some? then
      (if Trim(file.value) == "" then Refuse else Use(Trim(file.value)))
    else Generate
  }

  /** A salt file of at least 16 bytes is used as it is. */
  predicate KeepsSalt(file: Option<seq<byte>>, probe: bool) {
    probe && file.Some? && |file.value| >= 16
  }

  class BootFiles {
    var pass: Option<string>
    var salt: Option<seq<byte>>

    /** None is the error for an empty passphrase file. */
    method ResolveOrGenerate(env: Option<string>, probe: bool, random: seq<byte>) returns (r: Option<string>)
      requires |random| == 32
      modifies this`pass
      ensures match Resolve(env, old(pass), probe)
        case Use(p) => r == Some(p) && pass == old(pass)
        case Refuse => r == None && pass == old(pass)
        case Generate => r == Some(HexText(random)) && pass == r && Trim(r.value) == r.value
      ensures env.Some? && env.value != "" ==> r == env && pass == old(pass)
      ensures !(env.Some? && env.value != "") && probe && old(pass).Some? ==>
        pass == old(pass) && r == if Trim(old(pass).value) == "" then None else Some(Trim(old(pass).value))
      ensures !(env.Some? && env.value != "") && !(probe && old(pass).Some?) ==>
        && r.Some? && pass == r && |r.value| == 64
        && forall i :: 0 <= i < 32 ==>
             && r.value[2 * i] == "0123456789abcdef"[random[i] as int / 16]
             && r.value[2 * i + 1] == "0123456789abcdef"[random[i] as int % 16]
    {
      if env.Some? && env.value != "" {
        return env;
      }
      if probe && pass.Some? {
        var value := Trim(pass.value);
        return if value == "" then None else Some(value);
      }
      var passphrase := "";
      for i := 0 to |random|
        invariant passphrase == HexText(random[..i])
      {
        var digits := [HexDigit(random[i] as int / 16), HexDigit(random[i] as int % 16)];
        assert random[..i + 1] == random[..i] + [random[i]];
        HexSnoc(random[..i], random[i]);
        AsciiConcat(Hex(random[..i]), digits);
        passphrase := passphrase + Ascii(digits);
      }
      assert random[..|random|] == random;
      HexHasNoBlanks(random);
      NoBlanksNoTrim(passphrase);
      forall i | 0 <= i < 32 { HexDigits(random, i); }
      pass := Some(passphrase);
      r := pass;
    }

    method EnsureSalt(probe: bool, random: seq<byte>) returns (r: seq<byte>)
      requires |random| == 16
      modifies this`salt
      ensures salt == Some(r) && |r| >= 16
      ensures KeepsSalt(old(salt), probe) ==> salt == old(salt)
      ensures !KeepsSalt(old(salt), probe) ==> r == random
      ensures probe && old(salt).Some? && |old(salt).value| >= 16 ==> salt == old(salt)
      ensures !(probe && old(salt).Some? && |old(salt).value| >= 16) ==> salt == Some(random)
    {
      if probe && salt.Some? {
        if |salt.value| >= 16 {
          return salt.value;
        }
      }
      salt := Some(random);
      r := random;
    }
  }

  // ---- steps ---------------------------------------------------------------

  datatype Step =
    | DoResolve(probe: bool, random: seq<byte>)
    | DoRenamePass
    | DoSalt(probe: bool, random: seq<byte>)
    | DoSaltPart(n: nat)
    | DoSaltAll
    | DoOpen
    | DoPut(name: string, value: Text, nonce: seq<byte>)
    | DoDelete(name: string)
    | DoRename          // write_file's last operation
    | DoReturn          // the call returns Ok
    | DoFail            // write_file fails before the rename: the call returns Err
    | DoCrash

  /** One step under a fixed environment; a step that is not enabled changes nothing. */
  ghost function Next(w: World, x: Step, s: Suite, env: Option<string>): World {
    var d := w.disk;
    match (w.proc, x)
    case (_, DoCrash) => w.(proc := Down)
    case (Down, DoResolve(probe, random)) =>
      (match Resolve(env, d.pass, probe)
       case Use(p) => w.(proc := HasPass(p))
       case Refuse => w
       case Generate => w.(proc := Naming(HexText(random))))
    case (Naming(p), DoRenamePass) => w.(disk := d.(pass := Some(p)), proc := HasPass(p))
    case (HasPass(p), DoSalt(probe, random)) =>
      if KeepsSalt(d.salt, probe) then w.(proc := HasBoth(p, d.salt.value))
      else w.(disk := d.(salt := Some([])), proc := Salting(p, random))
    case (Salting(p, drawn), DoSaltPart(n)) => w.(disk := d.(salt := Some(Take(drawn, n))))
    case (Salting(p, drawn), DoSaltAll) => w.(disk := d.(salt := Some(drawn)), proc := HasBoth(p, drawn))
    case (HasBoth(p, salt), DoOpen) =>
      var cache := if d.store.Some? then ReadFile(s, d.store.value) else Some(map[]);
      if cache.None? then w.(proc := Down) else w.(proc := Up(s.derive(p, salt), cache.value, NoJob))
    case (Up(key, cache, NoJob), DoPut(name, value, nonce)) =>
      World(d, Up(key, cache[name := Seal(s, key, name, nonce, value)], Writing(Some((name, value)))),
            w.acked - {name})
    case (Up(key, cache, NoJob), DoDelete(name)) =>
      if name !in cache then w
      else World(d, Up(key, cache - {name}, Writing(None)), w.acked - {name})
    case (Up(key, cache, Writing(put)), DoRename) =>
      w.(disk := d.(store := Some(FileOf(s, cache))), proc := Up(key, cache, Renamed(put)))
    case (Up(key, cache, Writing(put)), DoFail) => w.(proc := Up(key, cache, NoJob))
    case (Up(key, cache, Renamed(put)), DoReturn) =>
      World(d, Up(key, cache, NoJob), if put.Some? then w.acked[put.value.0 := put.value.1] else w.acked)
    case _ => w
  }

  /** Every existence probe answers, and random draws have their width. */
  predicate Ordinary(x: Step) {
    match x
    case DoResolve(probe, random) => probe && |random| == 32
    case DoSalt(probe, random) => probe && |random| == 16
    case DoPut(_, _, nonce) => |nonce| == 12
    case _ => true
  }

  ghost function Run(w: World, xs: seq<Step>, s: Suite, env: Option<string>): World {
    if xs == [] then w else Next(Run(w, xs[..|xs| - 1], s, env), xs[|xs| - 1], s, env)
  }

  // ---- the invariant -------------------------------------------------------

  /** Passphrase and salt are settled: a later boot will find the same ones. */
  predicate Settled(d: Disk, env: Option<string>) {
    && Resolve(env, d.pass, true).Use?
    && d.salt.Some? && |d.salt.value| >= 16
  }

  function KeyOf(d: Disk, s: Suite, env: Option<string>): seq<byte>
    requires Settled(d, env)
  {
    s.derive(Resolve(env, d.pass, true).pass, d.salt.value)
  }

  /** Every acknowledged secret is in the map and opens to its value. */
  ghost predicate Opens(m: Cache, key: seq<byte>, acked: map<string, Text>, s: Suite) {
    forall n :: n in acked ==> n in m && Unseal(s, key, m[n]) == Some(acked[n])
  }

  /** The ciphertext file is a whole map that holds every acknowledged secret. */
  ghost predicate FileSound(d: Disk, acked: map<string, Text>, s: Suite, env: Option<string>) {
    && (d.store.None? ==> acked == map[])
    && (d.store.Some? ==>
          && Settled(d, env) && ReadFile(s, d.store.value).Some?
          && Opens(ReadFile(s, d.store.value).value, KeyOf(d, s, env), acked, s))
  }

  /** What a job in flight owes: its name is not acknowledged, and after the
      rename the file is the cache. */
  ghost predicate JobSound(d: Disk, key: seq<byte>, cache: Cache, job: Job, acked: map<string, Text>, s: Suite) {
    match job
    case NoJob => true
    case Writing(put) => PutSound(key, cache, put, acked, s)
    case Renamed(put) => PutSound(key, cache, put, acked, s) && d.store == Some(FileOf(s, cache))
  }

  ghost predicate PutSound(key: seq<byte>, cache: Cache, put: Option<(string, Text)>, acked: map<string, Text>, s: Suite) {
    put.Some? ==> put.value.0 in cache && Unseal(s, key, cache[put.value.0]) == Some(put.value.1)
  }

  ghost predicate ProcessSound(w: World, s: Suite, env: Option<string>) {
    var d := w.disk;
    match w.proc
    case Down => true
    case Naming(p) => Trim(p) == p && p != "" && !FromEnv(env) && d.store.None?
    case HasPass(p) => Resolve(env, d.pass, true) == Use(p)
    case Salting(p, drawn) => Resolve(env, d.pass, true) == Use(p) && |drawn| == 16 && d.store.None?
    case HasBoth(p, salt) => Resolve(env, d.pass, true) == Use(p) && d.salt == Some(salt) && |salt| >= 16
    case Up(key, cache, job) =>
      && Settled(d, env) && key == KeyOf(d, s, env) && Keyed(cache)
      && Opens(cache, key, w.acked, s) && JobSound(d, key, cache, job, w.acked, s)
  }

  ghost predicate Sound(w: World, s: Suite, env: Option<string>) {
    FileSound(w.disk, w.acked, s, env) && ProcessSound(w, s, env)
  }

  lemma NoBlanksNoTrim(t: string)
    requires forall i :: 0 <= i < |t| ==> !Blank(t[i])
    ensures Trim(t) == t
  {
  }

  // ---- one step ------------------------------------------------------------

  lemma BootStepSound(w: World, x: Step, s: Suite, env: Option<string>)
    requires Sound(w, s, env) && Ordinary(x) && !w.proc.Up?
    ensures Sound(Next(w, x, s, env), s, env)
  {
    if w.proc.Down? && x.DoResolve? {
      HexHasNoBlanks(x.random);
      NoBlanksNoTrim(HexText(x.random));
    }
    if w.proc.HasBoth? && x.DoOpen? && w.disk.store.Some? {
      var es := Parse(s.entry, w.disk.store.value);
      if es.Some? { CollectKeyed(es.value); }
    }
  }

  lemma PutStepSound(w: World, x: Step, s: Suite, env: Option<string>)
    requires LawfulSuite(s) && Sound(w, s, env) && Ordinary(x) && w.proc.Up? && x.DoPut?
    ensures Sound(Next(w, x, s, env), s, env)
  {
    SealedOpens(s, w.proc.key, x.name, x.nonce, x.value);
  }

  lemma RenameStepSound(w: World, s: Suite, env: Option<string>)
    requires LawfulSuite(s) && Sound(w, s, env) && w.proc.Up?
    ensures Sound(Next(w, DoRename, s, env), s, env)
  {
    if w.proc.job.Writing? {
      RewrittenSound(w, w.disk.(store := Some(FileOf(s, w.proc.cache))), s, env);
    } else {
      assert Next(w, DoRename, s, env) == w;
    }
  }

  /** The rewritten file holds the cache, which opens every acknowledged secret. */
  lemma RewrittenSound(w: World, d: Disk, s: Suite, env: Option<string>)
    requires LawfulSuite(s) && Sound(w, s, env) && w.proc.Up? && w.proc.job.Writing?
    requires d == w.disk.(store := Some(FileOf(s, w.proc.cache)))
    ensures FileSound(d, w.acked, s, env)
    ensures ProcessSound(World(d, w.proc.(job := Renamed(w.proc.job.put)), w.acked), s, env)
  {
    ReadsBack(s, w.proc.cache);
  }

  lemma ReturnStepSound(w: World, s: Suite, env: Option<string>)
    requires LawfulSuite(s) && Sound(w, s, env) && w.proc.Up?
    ensures Sound(Next(w, DoReturn, s, env), s, env)
  {
    if w.proc.job.Renamed? {
      ReadsBack(s, w.proc.cache);
    } else {
      assert Next(w, DoReturn, s, env) == w;
    }
  }

  /** The steps of a process that is up which leave the disk alone. */
  lemma QuietStepSound(w: World, x: Step, s: Suite, env: Option<string>)
    requires Sound(w, s, env) && w.proc.Up? && !x.DoPut? && !x.DoRename? && !x.DoReturn?
    ensures Sound(Next(w, x, s, env), s, env)
  {
    if x.DoDelete? {
      DeleteStepSound(w, x.name, s, env);
    } else if !x.DoFail? && !x.DoCrash? {
      assert Next(w, x, s, env) == w;
    }
  }

  lemma DeleteStepSound(w: World, name: string, s: Suite, env: Option<string>)
    requires Sound(w, s, env) && w.proc.Up?
    ensures Sound(Next(w, DoDelete(name), s, env), s, env)
  {
    if !w.proc.job.NoJob? || name !in w.proc.cache { assert Next(w, DoDelete(name), s, env) == w; }
  }

  lemma UpStepSound(w: World, x: Step, s: Suite, env: Option<string>)
    requires LawfulSuite(s) && Sound(w, s, env) && Ordinary(x) && w.proc.Up?
    ensures Sound(Next(w, x, s, env), s, env)
  {
    if x.DoPut? {
      PutStepSound(w, x, s, env);
    } else if x.DoRename? {
      RenameStepSound(w, s, env);
    } else if x.DoReturn? {
      ReturnStepSound(w, s, env);
    } else {
      QuietStepSound(w, x, s, env);
    }
  }

  lemma NextSound(w: World, x: Step, s: Suite, env: Option<string>)
    requires LawfulSuite(s) && Sound(w, s, env) && Ordinary(x)
    ensures Sound(Next(w, x, s, env), s, env)
  {
    if w.proc.Up? {
      UpStepSound(w, x, s, env);
    } else {
      BootStepSound(w, x, s, env);
    }
  }

  // ---- the theorems ----------------------------------------------------------

  /** A host before any secret was stored: whatever the passphrase and salt
      files hold, there is no ciphertext yet. */
  ghost predicate Unused(w: World) {
    w.proc.Down? && w.disk.store.None? && w.acked == map[]
  }

  lemma {:induction false} RunSound(w: World, xs: seq<Step>, s: Suite, env: Option<string>)
    requires LawfulSuite(s) && Sound(w, s, env) && forall i :: 0 <= i < |xs| ==> Ordinary(xs[i])
    ensures Sound(Run(w, xs, s, env), s, env)
  {
    if xs != [] {
      RunSound(w, xs[..|xs| - 1], s, env);
      NextSound(Run(w, xs[..|xs| - 1], s, env), xs[|xs| - 1], s, env);
    }
  }

  /** Over any sequence of boots, puts, deletes, failed writes and crashes,
      whenever the store is up every acknowledged secret reads back. */
  lemma AcknowledgedSecretsReadBack(w: World, xs: seq<Step>, s: Suite, env: Option<string>, name: string)
    requires LawfulSuite(s) && Unused(w) && forall i :: 0 <= i < |xs| ==> Ordinary(xs[i])
    ensures var v := Run(w, xs, s, env);
      v.proc.Up? && name in v.acked ==>
        name in v.proc.cache && Unseal(s, v.proc.key, v.proc.cache[name]) == Some(v.acked[name])
  {
    RunSound(w, xs, s, env);
  }

  /** And the next undisturbed boot comes up with all of them. */
  lemma RestartReadsBack(w: World, s: Suite, env: Option<string>, r1: seq<byte>, r2: seq<byte>)
    requires LawfulSuite(s) && Sound(w, s, env) && w.proc.Down? && w.disk.store.Some?
    requires |r1| == 32 && |r2| == 16
    ensures var v := Next(Next(Next(w, DoResolve(true, r1), s, env), DoSalt(true, r2), s, env), DoOpen, s, env);
      && v.proc.Up? && v.disk == w.disk && v.acked == w.acked
      && forall n :: n in w.acked ==> n in v.proc.cache && Unseal(s, v.proc.key, v.proc.cache[n]) == Some(w.acked[n])
  {
    var w1 := Next(w, DoResolve(true, r1), s, env);
    var w2 := Next(w1, DoSalt(true, r2), s, env);
    assert w2.proc == HasBoth(Resolve(env, w.disk.pass, true).pass, w.disk.salt.value);
  }

  /** One step over existing ciphertext. */
  lemma KeyMaterialStep(w: World, x: Step, s: Suite, env: Option<string>)
    requires LawfulSuite(s) && Sound(w, s, env) && Ordinary(x) && w.disk.store.Some?
    ensures var d, d' := w.disk, Next(w, x, s, env).disk;
      && d'.pass == d.pass && d'.salt == d.salt && d'.store.Some?
      && (d'.store == d.store ||
          (w.proc.Up? && d'.store == Some(FileOf(s, w.proc.cache))
           && ReadFile(s, d'.store.value) == Some(w.proc.cache)))
  {
    if w.proc.Up? {
      if x.DoRename? { RenameWritesCache(w, s, env); } else { UpKeepsDisk(w, x, s, env); }
    } else {
      BootKeepsDisk(w, x, s, env);
    }
  }

  lemma RenameWritesCache(w: World, s: Suite, env: Option<string>)
    requires LawfulSuite(s) && w.proc.Up? && Keyed(w.proc.cache)
    ensures var d' := Next(w, DoRename, s, env).disk;
      && d'.pass == w.disk.pass && d'.salt == w.disk.salt
      && (d' == w.disk || (d'.store == Some(FileOf(s, w.proc.cache))
                           && ReadFile(s, d'.store.value) == Some(w.proc.cache)))
  {
    ReadsBack(s, w.proc.cache);
  }

  lemma BootKeepsDisk(w: World, x: Step, s: Suite, env: Option<string>)
    requires !w.proc.Up? && !w.proc.Naming? && !w.proc.Salting? && Ordinary(x) && Settled(w.disk, env)
    ensures Next(w, x, s, env).disk == w.disk
  {
  }

  lemma UpKeepsDisk(w: World, x: Step, s: Suite, env: Option<string>)
    requires w.proc.Up? && !x.DoRename?
    ensures Next(w, x, s, env).disk == w.disk
  {
  }

  /** Once ciphertext exists, over any further run of boots, puts, deletes,
      failures and crashes: passphrase file, salt file and with them the key
      never change, the ciphertext file never goes away, and it is the old one
      or the whole map of some state on the way. */
  lemma {:induction false} KeyMaterialIsStable(w: World, xs: seq<Step>, s: Suite, env: Option<string>)
    requires LawfulSuite(s) && Sound(w, s, env) && w.disk.store.Some?
    requires forall i :: 0 <= i < |xs| ==> Ordinary(xs[i])
    ensures var d, d' := w.disk, Run(w, xs, s, env).disk;
      && d'.pass == d.pass && d'.salt == d.salt
      && Settled(d', env) && KeyOf(d', s, env) == KeyOf(d, s, env)
      && d'.store.Some? && (d'.store == d.store || WholeMapOf(w, xs, s, env, d'.store.value))
  {
    if xs != [] {
      var n := |xs| - 1;
      var init := xs[..n];
      KeyMaterialIsStable(w, init, s, env);
      RunSound(w, init, s, env);
      var v := Run(w, init, s, env);
      KeyMaterialStep(v, xs[n], s, env);
      var d' := Next(v, xs[n], s, env).disk;
      if d'.store == v.disk.store {
        if d'.store != w.disk.store {
          var i :| 0 <= i < n && IsMapAt(w, init, i, s, env, d'.store.value);
          assert init[..i] == xs[..i];
          assert IsMapAt(w, xs, i, s, env, d'.store.value);
        }
      } else {
        assert IsMapAt(w, xs, n, s, env, d'.store.value);
      }
    }
  }

  /** The file holds exactly the cache that the process had after `i` steps. */
  ghost predicate IsMapAt(w: World, xs: seq<Step>, i: nat, s: Suite, env: Option<string>, file: seq<byte>)
    requires i <= |xs|
  {
    var v := Run(w, xs[..i], s, env);
    v.proc.Up? && ReadFile(s, file) == Some(v.proc.cache)
  }

  ghost predicate WholeMapOf(w: World, xs: seq<Step>, s: Suite, env: Option<string>, file: seq<byte>) {
    exists i :: 0 <= i < |xs| && IsMapAt(w, xs, i, s, env, file)
  }

  /** The existence probe is load-bearing: with ciphertext on disk and no
      environment passphrase, the passphrase file survives the resolve exactly
      when the probe answered (or the draw repeats the old text). */
  lemma PassphraseSurvivesIffProbed(w: World, s: Suite, env: Option<string>, probe: bool, random: seq<byte>)
    requires Sound(w, s, env) && w.proc.Down? && w.disk.store.Some? && !FromEnv(env)
    ensures var v := Next(Next(w, DoResolve(probe, random), s, env), DoRenamePass, s, env);
      v.disk.pass == w.disk.pass <==> probe || Some(HexText(random)) == w.disk.pass
  {
  }

  /** The same for the salt: it survives the next boot step exactly when its
      probe answered (or the draw repeats it). A lost salt is a lost key. */
  lemma SaltSurvivesIffProbed(w: World, s: Suite, env: Option<string>, probe: bool, random: seq<byte>)
    requires Sound(w, s, env) && w.proc.HasPass? && w.disk.store.Some?
    ensures var v := Next(Next(w, DoSalt(probe, random), s, env), DoSaltAll, s, env);
      && v.proc == HasBoth(w.proc.pass, if probe then w.disk.salt.value else random)
      && (v.disk.salt == w.disk.salt <==> probe || Some(random) == w.disk.salt)
  {
    assert KeepsSalt(w.disk.salt, probe) <==> probe;
  }

  /** And progress: a put, its rename and its return acknowledge the secret, the
      file is the whole new map, and everything else stays acknowledged. */
  lemma UndisturbedPutIsAcknowledged(w: World, s: Suite, env: Option<string>, name: string, value: Text, nonce: seq<byte>)
    requires LawfulSuite(s) && w.proc.Up? && Keyed(w.proc.cache) && w.proc.job.NoJob?
    ensures var v := Next(Next(Next(w, DoPut(name, value, nonce), s, env), DoRename, s, env), DoReturn, s, env);
      && v.acked == w.acked[name := value]
      && v.proc.Up? && v.proc.job.NoJob? && v.proc.key == w.proc.key
      && v.proc.cache == w.proc.cache[name := Seal(s, w.proc.key, name, nonce, value)]
      && v.disk.store.Some? && ReadFile(s, v.disk.store.value) == Some(v.proc.cache)
  {
    var key, m := w.proc.key, w.proc.cache[name := Seal(s, w.proc.key, name, nonce, value)];
    var job := Some((name, value));
    PutSteps(w.disk, key, w.proc.cache, w.acked, s, env, name, value, nonce);
    RenameAndReturn(w.disk, key, m, w.acked - {name}, s, env, job);
    assert (w.acked - {name})[name := value] == w.acked[name := value];
    ReadsBack(s, m);
  }

  lemma PutSteps(d: Disk, key: seq<byte>, cache: Cache, acked: map<string, Text>, s: Suite, env: Option<string>,
                 name: string, value: Text, nonce: seq<byte>)
    ensures Next(World(d, Up(key, cache, NoJob), acked), DoPut(name, value, nonce), s, env)
         == World(d, Up(key, cache[name := Seal(s, key, name, nonce, value)], Writing(Some((name, value)))), acked - {name})
  {
  }

  lemma RenameAndReturn(d: Disk, key: seq<byte>, m: Cache, acked: map<string, Text>, s: Suite, env: Option<string>,
                        put: Option<(string, Text)>)
    ensures Next(Next(World(d, Up(key, m, Writing(put)), acked), DoRename, s, env), DoReturn, s, env)
         == World(d.(store := Some(FileOf(s, m))), Up(key, m, NoJob),
                  if put.Some? then acked[put.value.0 := put.value.1] else acked)
  {
  }

  /** A first boot without files and environment comes up under the key derived
      from what it drew, with nothing stored. */
  lemma FirstBootComesUp(w: World, s: Suite, env: Option<string>, r1: seq<byte>, r2: seq<byte>)
    requires w.proc.Down? && !FromEnv(env) && w.disk == Disk(None, None, None)
    ensures var named := Next(Next(w, DoResolve(true, r1), s, env), DoRenamePass, s, env);
      var v := Next(Next(Next(named, DoSalt(true, r2), s, env), DoSaltAll, s, env), DoOpen, s, env);
      && v.disk == Disk(Some(HexText(r1)), Some(r2), None)
      && v.proc == Up(s.derive(HexText(r1), r2), map[], NoJob)
  {
  }

  // ---- when the key files stay, over whole runs --------------------------------

  /** The step does not replace a key file: a generated passphrase that is renamed
      into place repeats the stored one, and a salt step keeps the stored salt. */
  predicate KeepsKeyFiles(w: World, x: Step) {
    match (w.proc, x)
    case (Naming(p), DoRenamePass) => w.disk.pass == Some(p)
    case (HasPass(_), DoSalt(probe, _)) => KeepsSalt(w.disk.salt, probe)
    case _ => true
  }

  /** The world after the first `k` steps. */
  ghost function At(w: World, xs: seq<Step>, s: Suite, env: Option<string>, k: nat): World
    requires k <= |xs|
  {
    Run(w, xs[..k], s, env)
  }

  /** Passphrase and salt file are as they were in `d`, with a salt of full length. */
  predicate SameKeyFiles(d: Disk, w: World) {
    w.disk.pass == d.pass && w.disk.salt == d.salt && d.salt.Some? && |d.salt.value| >= 16
  }

  lemma KeyFilesStep(d: Disk, w: World, x: Step, s: Suite, env: Option<string>)
    requires SameKeyFiles(d, w) && !w.proc.Salting?
    ensures SameKeyFiles(d, Next(w, x, s, env)) <==> KeepsKeyFiles(w, x)
    ensures KeepsKeyFiles(w, x) ==> !Next(w, x, s, env).proc.Salting?
  {
  }

  lemma AtNext(w: World, xs: seq<Step>, s: Suite, env: Option<string>, k: nat)
    requires k < |xs|
    ensures At(w, xs, s, env, k + 1) == Next(At(w, xs, s, env, k), xs[k], s, env)
  {
    assert xs[..k + 1][..k] == xs[..k];
  }

  lemma {:induction false} KeptSoFar(w: World, xs: seq<Step>, s: Suite, env: Option<string>, k: nat)
    requires SameKeyFiles(w.disk, w) && !w.proc.Salting? && k <= |xs|
    requires forall j :: 0 <= j < k ==> KeepsKeyFiles(At(w, xs, s, env, j), xs[j])
    ensures SameKeyFiles(w.disk, At(w, xs, s, env, k)) && !At(w, xs, s, env, k).proc.Salting?
  {
    if k > 0 {
      KeptSoFar(w, xs, s, env, k - 1);
      AtNext(w, xs, s, env, k - 1);
      KeyFilesStep(w.disk, At(w, xs, s, env, k - 1), xs[k - 1], s, env);
    } else {
      assert xs[..0] == [];
    }
  }

  ghost predicate AlwaysSameKeyFiles(w: World, xs: seq<Step>, s: Suite, env: Option<string>) {
    forall k :: 0 <= k <= |xs| ==> SameKeyFiles(w.disk, At(w, xs, s, env, k))
  }

  ghost predicate AlwaysKeepsKeyFiles(w: World, xs: seq<Step>, s: Suite, env: Option<string>) {
    forall k :: 0 <= k < |xs| ==> KeepsKeyFiles(At(w, xs, s, env, k), xs[k])
  }

  /** Once ciphertext exists, over any run with any probes, draws, failures and
      crashes: passphrase and salt file stay the same at every moment exactly
      when no step replaces one. */
  lemma KeyFilesStayIff(w: World, xs: seq<Step>, s: Suite, env: Option<string>)
    requires Sound(w, s, env) && w.disk.store.Some?
    ensures AlwaysSameKeyFiles(w, xs, s, env) <==> AlwaysKeepsKeyFiles(w, xs, s, env)
  {
    if AlwaysKeepsKeyFiles(w, xs, s, env) {
      forall k | 0 <= k <= |xs| ensures SameKeyFiles(w.disk, At(w, xs, s, env, k)) { KeptSoFar(w, xs, s, env, k); }
    } else {
      var keeps := (j: nat) => j < |xs| ==> KeepsKeyFiles(At(w, xs, s, env, j), xs[j]);
      var i :| 0 <= i < |xs| && !KeepsKeyFiles(At(w, xs, s, env, i), xs[i]);
      assert !keeps(i);
      var k := Least(keeps, i);
      forall j | 0 <= j < k ensures KeepsKeyFiles(At(w, xs, s, env, j), xs[j]) { assert keeps(j); }
      KeptSoFar(w, xs, s, env, k);
      KeyFilesStep(w.disk, At(w, xs, s, env, k), xs[k], s, env);
      AtNext(w, xs, s, env, k);
    }
  }

  /** Which resolve and salt steps those are: over settled files a passphrase is
      generated exactly when neither the environment nor an answered probe
      supplies one, and a salt is kept exactly when its probe answered. */
  lemma ReplacesOnlyUnprobed(w: World, s: Suite, env: Option<string>, probe: bool, random: seq<byte>)
    requires Settled(w.disk, env)
    ensures w.proc.Down? ==>
      (Next(w, DoResolve(probe, random), s, env).proc == Naming(HexText(random)) <==> !FromEnv(env) && !probe)
    ensures w.proc.HasPass? ==> (KeepsKeyFiles(w, DoSalt(probe, random)) <==> probe)
  {
  }
}
