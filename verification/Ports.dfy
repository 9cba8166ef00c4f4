// The suggested port for a new PostgreSQL install.
module Ports {
  import opened Common

  newtype u16 = x: int | 0 <= x < 65536

  const FIRST: u16 := 5432
  const LAST: u16 := 65535

  function SaturatingNext(p: u16): u16 {
    if p == LAST then LAST else p + 1
  }

  ghost predicate Ascending(s: seq<u16>) {
    forall i, j :: 0 <= i < j < |s| ==> s[i] <= s[j]
  }

  function Insert(s: seq<u16>, x: u16): seq<u16> {
    if s == [] || x < s[0] then [x] + s else [s[0]] + Insert(s[1..], x)
  }

  lemma {:induction false} InsertKeeps(s: seq<u16>, x: u16)
    ensures multiset(Insert(s, x)) == multiset(s) + multiset{x}
  {
    if s != [] && x >= s[0] {
      InsertKeeps(s[1..], x);
      assert s == [s[0]] + s[1..];
    }
  }

  lemma {:induction false} InsertMembers(s: seq<u16>, x: u16)
    ensures forall y :: y in Insert(s, x) <==> y == x || y in s
  {
    if s != [] && x >= s[0] {
      InsertMembers(s[1..], x);
      assert s == [s[0]] + s[1..];
    }
  }

  lemma {:induction false} InsertAscending(s: seq<u16>, x: u16)
    requires Ascending(s)
    ensures Ascending(Insert(s, x))
  {
    if s != [] && x >= s[0] {
      var t := Insert(s[1..], x);
      InsertAscending(s[1..], x);
      InsertMembers(s[1..], x);
      forall i | 0 <= i < |t| ensures s[0] <= t[i] {
        assert t[i] in t;
      }
    }
  }

  /** `sort_unstable`: repeats are kept. */
  method Sorted(ports: seq<u16>) returns (r: seq<u16>)
    ensures Ascending(r) && multiset(r) == multiset(ports)
  {
    r := [];
    for i := 0 to |ports|
      invariant Ascending(r) && multiset(r) == multiset(ports[..i])
    {
      assert ports[..i + 1] == ports[..i] + [ports[i]];
      InsertAscending(r, ports[i]);
      InsertKeeps(r, ports[i]);
      r := Insert(r, ports[i]);
    }
    assert ports[..|ports|] == ports;
  }

  /** The least port from 5432 on that no detected install claims; 65535
      exactly when every lower candidate is taken, whether or not 65535 is. */
  method SmartPort(detected: seq<Option<u16>>) returns (port: u16)
    ensures port >= 5432
    ensures forall p: u16 :: 5432 <= p < port ==> Some(p) in detected
    ensures port != 65535 ==> Some(port) !in detected
    ensures port == 65535 <==> forall p: u16 :: 5432 <= p < 65535 ==> Some(p) in detected
  {
    var used: seq<u16> := [];
    for i := 0 to |detected|
      invariant forall p: u16 :: p in used <==> Some(p) in detected[..i]
    {
      assert detected[..i + 1] == detected[..i] + [detected[i]];
      if detected[i].Some? {
        used := used + [detected[i].value];
      }
    }
    assert detected[..|detected|] == detected;
    var sorted := Sorted(used);
    assert forall p: u16 :: p in sorted <==> p in multiset(sorted);
    assert forall p: u16 :: p in used <==> p in multiset(used);
    port := FIRST;
    for i := 0 to |sorted|
      invariant port >= FIRST
      invariant forall p: u16 :: FIRST <= p < port ==> p in sorted
      invariant port != LAST ==> forall j :: 0 <= j < i ==> sorted[j] != port
      invariant port == LAST ==> forall p: u16 :: FIRST <= p < LAST ==> p in sorted
    {
      if sorted[i] == port {
        port := SaturatingNext(port);
      }
    }
  }
}
