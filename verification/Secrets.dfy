// The encrypted secrets file: entries sealed under one key, a cache, and a
// whole-file rewrite through a temporary and a rename.
module Secrets {
  import opened Common
  import opened JsonLines
  import opened Encodings
  import opened StringOrder

  type Text = seq<byte>

  datatype EncryptedEntry = EncryptedEntry(name: string, nonce: Text, ciphertext: Text)

  /** The entry codec, the AEAD cipher and the key derivation. */
  datatype Suite = Suite(
    entry: Codec<EncryptedEntry>,
    encrypt: (seq<byte>, seq<byte>, Text) -> seq<byte>,
    decrypt: (seq<byte>, seq<byte>, seq<byte>) -> Option<Text>,
    derive: (string, seq<byte>) -> seq<byte>)

  /** The only laws used: the codec round-trips, and decryption under the same
      key and nonce undoes encryption. */
  ghost predicate LawfulSuite(s: Suite) {
    Lawful(s.entry) &&
    forall key, nonce, v :: s.decrypt(key, nonce, s.encrypt(key, nonce, v)) == Some(v)
  }

  type Cache = map<string, EncryptedEntry>

  ghost predicate Keyed(m: Cache) {
    forall n :: n in m ==> m[n].name == n
  }

  function Seal(s: Suite, key: seq<byte>, name: string, nonce: seq<byte>, value: Text): EncryptedEntry {
    EncryptedEntry(name, Encode64(nonce), Encode64(s.encrypt(key, nonce, value)))
  }

  /** None stands for every decryption error. */
  function Unseal(s: Suite, key: seq<byte>, e: EncryptedEntry): Option<Text> {
    var nonce, ct := Decode64(e.nonce), Decode64(e.ciphertext);
    if nonce.None? || ct.None? || |nonce.value| != 12 then None
    else s.decrypt(key, nonce.value, ct.value)
  }

  lemma SealedOpens(s: Suite, key: seq<byte>, name: string, nonce: seq<byte>, value: Text)
    requires LawfulSuite(s) && |nonce| == 12
    ensures Unseal(s, key, Seal(s, key, name, nonce, value)) == Some(value)
  {
    RoundTrip64(nonce);
    RoundTrip64(s.encrypt(key, nonce, value));
  }

  // ---- the file --------------------------------------------------------------

  /** Entries by name, later ones winning, as `open` collects them. */
  function Collect(es: seq<EncryptedEntry>): Cache {
    if es == [] then map[] else Collect(es[..|es| - 1])[es[|es| - 1].name := es[|es| - 1]]
  }

  function Pick(m: Cache, names: seq<string>): (es: seq<EncryptedEntry>)
    requires forall i :: 0 <= i < |names| ==> names[i] in m
    ensures |es| == |names| && forall i :: 0 <= i < |es| ==> es[i] == m[names[i]]
  {
    if names == [] then [] else Pick(m, names[..|names| - 1]) + [m[names[|names| - 1]]]
  }

  ghost function Entries(m: Cache): seq<EncryptedEntry> {
    Pick(m, InOrder(m.Keys))
  }

  ghost function InOrder(names: set<string>): (r: seq<string>)
    ensures forall i :: 0 <= i < |r| ==> r[i] in names
  {
    SortedList(names)
  }

  /** The file that holds exactly the map `m`. */
  ghost function FileOf(s: Suite, m: Cache): seq<byte> {
    Render(s.entry, Entries(m))
  }

  function ReadFile(s: Suite, b: seq<byte>): Option<Cache> {
    match Parse(s.entry, b)
    case None => None
    case Some(es) => Some(Collect(es))
  }

  lemma {:induction false} CollectPicked(m: Cache, names: seq<string>)
    requires Keyed(m) && forall i :: 0 <= i < |names| ==> names[i] in m
    ensures Collect(Pick(m, names)).Keys == ToSet(names)
    ensures forall n :: n in names ==> Collect(Pick(m, names))[n] == m[n]
  {
    if names != [] {
      var init, last := names[..|names| - 1], names[|names| - 1];
      CollectPicked(m, init);
      assert names == init + [last];
      CollectSnoc(Pick(m, init), m[last]);
      Picked(Collect(Pick(m, init)), m, init, last);
    }
  }

  lemma Picked(c: Cache, m: Cache, init: seq<string>, last: string)
    requires c.Keys == ToSet(init) && last in m && forall n :: n in init ==> n in m && c[n] == m[n]
    ensures c[last := m[last]].Keys == ToSet(init + [last])
    ensures forall n :: n in init + [last] ==> n in m && c[last := m[last]][n] == m[n]
  {
    ToSetSnoc(init, last);
  }

  lemma CollectSnoc(es: seq<EncryptedEntry>, e: EncryptedEntry)
    ensures Collect(es + [e]) == Collect(es)[e.name := e]
  {
    assert (es + [e])[..|es|] == es;
  }

  lemma EntriesSorted(m: Cache)
    requires Keyed(m)
    ensures forall i, j :: 0 <= i < j < |Entries(m)| ==> Less(Entries(m)[i].name, Entries(m)[j].name)
  {
    var names := SortedList(m.Keys);
    assert forall i :: 0 <= i < |names| ==> names[i] in m.Keys && Entries(m)[i].name == names[i];
  }

  lemma EntriesCollect(m: Cache)
    requires Keyed(m)
    ensures |Entries(m)| == |m| && Collect(Entries(m)) == m
  {
    ListsLength(InOrder(m.Keys), m.Keys);
    CollectPicked(m, InOrder(m.Keys));
    assert ToSet(InOrder(m.Keys)) == m.Keys;
  }

  /** Reading back a rewritten file gives the whole map; its lines are one per
      name, in name order. */
  lemma ReadsBack(s: Suite, m: Cache)
    requires LawfulSuite(s) && Keyed(m)
    ensures ReadFile(s, FileOf(s, m)) == Some(m)
    ensures var es := Parse(s.entry, FileOf(s, m));
      && es.Some? && |es.value| == |m|
      && forall i, j :: 0 <= i < j < |es.value| ==> Less(es.value[i].name, es.value[j].name)
  {
    ParseRender(s.entry, Entries(m));
    EntriesCollect(m);
    EntriesSorted(m);
  }

  lemma {:induction false} CollectKeyed(es: seq<EncryptedEntry>)
    ensures Keyed(Collect(es))
  {
    if es != [] { CollectKeyed(es[..|es| - 1]); }
  }

  class SecretsFile {
    var contents: Option<seq<byte>>
  }

  class SecretsStore {
    const s: Suite
    const key: seq<byte>
    const file: SecretsFile
    var cache: Cache

    constructor (s: Suite, key: seq<byte>, file: SecretsFile, cache: Cache)
      ensures this.s == s && this.key == key && this.file == file && this.cache == cache
    {
      this.s, this.key, this.file, this.cache := s, key, file, cache;
    }

    /** Fails only on an existing file with a malformed line. */
    static method Open(s: Suite, key: seq<byte>, file: SecretsFile) returns (store: SecretsStore?)
      ensures store == null <==> file.contents.Some? && ReadFile(s, file.contents.value).None?
      ensures store != null ==> fresh(store) && store.s == s && store.key == key && store.file == file
      ensures store != null ==>
        Some(store.cache) == (if file.contents.Some? then ReadFile(s, file.contents.value) else Some(map[]))
      ensures store != null ==> Keyed(store.cache)
    {
      var cache: Cache := map[];
      if file.contents.Some? {
        var parsed := ReadLines(s.entry, file.contents.value);
        if parsed.None? {
          return null;
        }
        var es := parsed.value;
        for i := 0 to |es|
          invariant cache == Collect(es[..i])
        {
          assert es[..i + 1][..i] == es[..i];
          cache := cache[es[i].name := es[i]];
        }
        assert es[..|es|] == es;
        CollectKeyed(es);
      }
      store := new SecretsStore(s, key, file, cache);
    }

    /** Rewrite through a temporary: until the rename the file is the old one. */
    method WriteFile(io: bool) returns (ok: bool)
      modifies file
      ensures ok == io
      ensures file.contents == if io then Some(FileOf(s, cache)) else old(file.contents)
    {
      var names := SortNames(cache.Keys);
      ListsIsSortedList(names, cache.Keys);
      var entries := [];
      for i := 0 to |names|
        invariant entries == Pick(cache, names[..i])
      {
        assert names[..i + 1][..i] == names[..i];
        entries := entries + [cache[names[i]]];
      }
      assert names[..|names|] == names;
      var tmp := WriteLines(s.entry, entries);
      if !io {
        return false;
      }
      file.contents := Some(tmp);
      ok := true;
    }

    /** Encrypt, put into the cache, rewrite. After a failed rewrite the cache
        is ahead of the file. */
    method Put(name: string, value: Text, nonce: seq<byte>, io: bool) returns (ok: bool)
      modifies this, file
      ensures ok == io
      ensures cache == old(cache)[name := Seal(s, key, name, nonce, value)]
      ensures cache[name] == EncryptedEntry(name, Encode64(nonce), Encode64(s.encrypt(key, nonce, value)))
      ensures file.contents == if io then Some(FileOf(s, cache)) else old(file.contents)
    {
      cache := cache[name := Seal(s, key, name, nonce, value)];
      ok := WriteFile(io);
    }

    /** Some(None) is a missing name; None is an error. */
    method Get(name: string) returns (r: Option<Option<Text>>)
      ensures r == if name !in cache then Some(None)
                   else if Unseal(s, key, cache[name]).Some? then Some(Unseal(s, key, cache[name])) else None
      ensures name in cache ==>
        var nonce, ct := Decode64(cache[name].nonce), Decode64(cache[name].ciphertext);
        if nonce.Some? && |nonce.value| == 12 && ct.Some? && s.decrypt(key, nonce.value, ct.value).Some?
        then r == Some(s.decrypt(key, nonce.value, ct.value)) else r == None
    {
      if name !in cache {
        return Some(None);
      }
      var entry := cache[name];
      var nonce := Decode64(entry.nonce);
      if nonce.None? {
        return None;
      }
      var ct := Decode64(entry.ciphertext);
      if ct.None? || |nonce.value| != 12 {
        return None;
      }
      var plain := s.decrypt(key, nonce.value, ct.value);
      r := if plain.None? then None else Some(plain);
    }

    method Delete(name: string, io: bool) returns (r: bool, found: bool)
      modifies this, file
      ensures found <==> name in old(cache)
      ensures r <==> found && io
      ensures cache == old(cache) - {name}
      ensures file.contents == if r then Some(FileOf(s, cache)) else old(file.contents)
    {
      found := name in cache;
      if !found {
        assert cache == cache - {name};
        return false, false;
      }
      cache := cache - {name};
      r := WriteFile(io);
    }

    method ListNames() returns (r: seq<string>)
      ensures Lists(r, cache.Keys)
    {
      r := SortNames(cache.Keys);
    }
  }

  /** What is put under a name is what a later get opens, whatever else is put or
      deleted under other names in between. */
  lemma GetAfterPut(s: Suite, key: seq<byte>, m: Cache, name: string, value: Text, nonce: seq<byte>,
                    other: string, value2: Text, nonce2: seq<byte>)
    requires LawfulSuite(s) && |nonce| == 12 && other != name
    ensures var put := m[name := Seal(s, key, name, nonce, value)];
      && Unseal(s, key, put[name]) == Some(value)
      && Unseal(s, key, put[other := Seal(s, key, other, nonce2, value2)][name]) == Some(value)
      && name in put - {other} && Unseal(s, key, (put - {other})[name]) == Some(value)
  {
    SealedOpens(s, key, name, nonce, value);
  }
}
