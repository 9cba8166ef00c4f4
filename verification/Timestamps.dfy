// UTC timestamps as the platform prints them: RFC 3339 strings with a variable
// number of fraction digits in the state store, and the compact
// YYYYMMDDTHHMMSS form that starts every release id.
module Timestamps {
  import opened StringOrder

  datatype Utc = Utc(year: nat, month: nat, day: nat, hour: nat, minute: nat, second: nat, nanos: nat) {

    /** A time of the Gregorian calendar with a four-digit year and no leap second. */
    predicate Valid() {
      && year <= 9999 && 1 <= month <= 12 && 1 <= day <= DaysInMonth(year, month)
      && hour < 24 && minute < 60 && second < 60 && nanos < 1_000_000_000
    }

    /** Whole seconds since the start of year 0. */
    function Seconds(): nat
      requires month >= 1 && day >= 1
    {
      (((DaysBeforeYear(year) + DaysBeforeMonth(year, month) + day - 1) * 24 + hour) * 60 + minute) * 60 + second
    }

    /** Nanoseconds since the start of year 0: the chronological order. */
    function Instant(): nat
      requires month >= 1 && day >= 1
    {
      Seconds() * 1_000_000_000 + nanos
    }
  }

  predicate Leap(y: nat) { y % 4 == 0 && (y % 100 != 0 || y % 400 == 0) }

  function DaysInMonth(y: nat, m: nat): nat {
    if m == 2 then (if Leap(y) then 29 else 28)
    else if m == 4 || m == 6 || m == 9 || m == 11 then 30 else 31
  }

  function DaysBeforeMonth(y: nat, m: nat): nat {
    if m <= 1 then 0 else DaysBeforeMonth(y, m - 1) + DaysInMonth(y, m - 1)
  }

  function DaysBeforeYear(y: nat): nat {
    if y == 0 then 0 else DaysBeforeYear(y - 1) + DaysBeforeMonth(y - 1, 13)
  }

  // ---- printing ---------------------------------------------------------

  function Pow10(w: nat): (r: nat)
    ensures r >= 1
  {
    if w == 0 then 1 else 10 * Pow10(w - 1)
  }

  function Digit(d: nat): char
    requires d < 10
  {
    '0' + d as char
  }

  /** Zero-padded decimal of exactly `w` digits. */
  function Digits(n: nat, w: nat): (s: string)
    ensures |s| == w
    ensures forall i :: 0 <= i < w ==> '0' <= s[i] <= '9'
  {
    if w == 0 then "" else Digits(n / 10, w - 1) + [Digit(n % 10)]
  }

  function Triple(a: nat, w: nat, b: nat, c: nat, sep: string): (s: string)
    ensures |s| == w + 4 + 2 * |sep|
  {
    Digits(a, w) + (sep + (Digits(b, 2) + (sep + Digits(c, 2))))
  }

  /** chrono's automatic precision: 0, 3, 6 or 9 fraction digits. */
  function Fraction(nanos: nat): string {
    if nanos == 0 then ""
    else if nanos % 1_000_000 == 0 then "." + Digits(nanos / 1_000_000, 3)
    else if nanos % 1_000 == 0 then "." + Digits(nanos / 1_000, 6)
    else "." + Digits(nanos, 9)
  }

  function Rfc3339(t: Utc): string {
    Triple(t.year, 4, t.month, t.day, "-")
    + ("T" + (Triple(t.hour, 2, t.minute, t.second, ":") + (Fraction(t.nanos) + "+00:00")))
  }

  function Compact(t: Utc): (s: string)
    ensures |s| == 15
  {
    Triple(t.year, 4, t.month, t.day, "") + ("T" + Triple(t.hour, 2, t.minute, t.second, ""))
  }

  /** `YYYYMMDDTHHMMSS-v<version>`, the name of a release directory. */
  function ReleaseId(t: Utc, version: string): string {
    Compact(t) + ("-v" + version)
  }

  // ---- digits compare like numbers ---------------------------------------

  lemma {:induction false} DigitsOrder(a: nat, b: nat, w: nat)
    requires a < Pow10(w) && b < Pow10(w)
    ensures Less(Digits(a, w), Digits(b, w)) <==> a < b
    ensures Digits(a, w) == Digits(b, w) <==> a == b
  {
    if w == 0 {
    } else {
      DigitsOrder(a / 10, b / 10, w - 1);
      var p, q := Digits(a / 10, w - 1), Digits(b / 10, w - 1);
      var x, y := [Digit(a % 10)], [Digit(b % 10)];
      Prefixed(p, x, q, y);
      assert Digits(a, w)[..w - 1] == p && Digits(b, w)[..w - 1] == q;
      assert Digits(a, w)[w - 1] == x[0] && Digits(b, w)[w - 1] == y[0];
    }
  }

  lemma FieldThen(a: nat, b: nat, w: nat, x: string, y: string)
    requires a < Pow10(w) && b < Pow10(w)
    ensures Less(Digits(a, w) + x, Digits(b, w) + y) <==> a < b || (a == b && Less(x, y))
  {
    DigitsOrder(a, b, w);
    Prefixed(Digits(a, w), x, Digits(b, w), y);
  }

  lemma SameHead(p: string, x: string, y: string)
    ensures Less(p + x, p + y) <==> Less(x, y)
  {
    Prefixed(p, x, p, y);
    Irreflexive(p);
  }

  lemma TripleOrder(a: nat, b: nat, c: nat, a': nat, b': nat, c': nat, w: nat, sep: string)
    requires a < Pow10(w) && a' < Pow10(w) && b < Pow10(2) && b' < Pow10(2) && c < Pow10(2) && c' < Pow10(2)
    ensures Less(Triple(a, w, b, c, sep), Triple(a', w, b', c', sep))
       <==> a < a' || (a == a' && (b < b' || (b == b' && c < c')))
  {
    var d, d' := Digits(c, 2), Digits(c', 2);
    DigitsOrder(c, c', 2);
    SameHead(sep, d, d');
    FieldThen(b, b', 2, sep + d, sep + d');
    var e, e' := Digits(b, 2) + (sep + d), Digits(b', 2) + (sep + d');
    SameHead(sep, e, e');
    FieldThen(a, a', w, sep + e, sep + e');
  }

  lemma TripleInjective(a: nat, b: nat, c: nat, a': nat, b': nat, c': nat, w: nat, sep: string)
    requires a < Pow10(w) && a' < Pow10(w) && b < Pow10(2) && b' < Pow10(2) && c < Pow10(2) && c' < Pow10(2)
    requires Triple(a, w, b, c, sep) == Triple(a', w, b', c', sep)
    ensures a == a' && b == b' && c == c'
  {
    TripleOrder(a, b, c, a', b', c', w, sep);
    TripleOrder(a', b', c', a, b, c, w, sep);
    Irreflexive(Triple(a, w, b, c, sep));
  }

  lemma {:induction false} DigitsSplit(n: nat, w: nat, v: nat, hi: nat, lo: nat)
    requires n == hi * Pow10(v) + lo && lo < Pow10(v)
    ensures Digits(n, w + v) == Digits(hi, w) + Digits(lo, v)
  {
    if v > 0 {
      DropDigit(n, Pow10(v - 1), hi, lo);
      DigitsSplit(n / 10, w, v - 1, hi, lo / 10);
      AppendDigit(n, lo, w, v, hi);
    }
  }

  lemma DropDigit(n: nat, p: nat, hi: nat, lo: nat)
    requires n == hi * (10 * p) + lo
    ensures n / 10 == hi * p + lo / 10 && n % 10 == lo % 10
  {
    var q := hi * p;
    assert hi * (10 * p) == 10 * q;
  }

  lemma AppendDigit(n: nat, lo: nat, w: nat, v: nat, hi: nat)
    requires v > 0 && n % 10 == lo % 10
    requires Digits(n / 10, w + v - 1) == Digits(hi, w) + Digits(lo / 10, v - 1)
    ensures Digits(n, w + v) == Digits(hi, w) + Digits(lo, v)
  {
    var last := [Digit(lo % 10)];
    assert Digits(n, w + v) == Digits(n / 10, w + v - 1) + last;
    assert Digits(lo, v) == Digits(lo / 10, v - 1) + last;
  }

  // ---- the fraction ------------------------------------------------------

  const ZULU := "+00:00"

  /** A coarser fraction against a finer one: the offset sign sorts below every digit. */
  lemma CoarseVsFine(a: nat, b: nat, w: nat, lo: nat, v: nat)
    requires a < Pow10(w) && b < Pow10(w) && v > 0
    ensures Less(Digits(a, w) + ZULU, Digits(b, w) + (Digits(lo, v) + ZULU)) <==> a <= b
    ensures Less(Digits(b, w) + (Digits(lo, v) + ZULU), Digits(a, w) + ZULU) <==> b < a
  {
    var fine := Digits(lo, v) + ZULU;
    assert fine[0] == Digits(lo, v)[0];
    FieldThen(a, b, w, ZULU, fine);
    FieldThen(b, a, w, fine, ZULU);
  }

  /** A fraction printed with the digits it needs: the scaled value and its width. */
  lemma FractionForm(n: nat)
    requires 0 < n < 1_000_000_000
    ensures Fraction(n) + ZULU == "." + (Digits(Scaled(n), Places(n)) + ZULU)
    ensures Scaled(n) < Pow10(Places(n))
  {
    Powers();
  }

  lemma FinerFraction(m: nat, n: nat, w: nat, v: nat)
    requires 0 < m < 1_000_000_000 && 0 < n < 1_000_000_000
    requires Places(m) == w && Places(n) == w + v && v > 0
    ensures Less(Fraction(m) + ZULU, Fraction(n) + ZULU) <==> m < n
    ensures Less(Fraction(n) + ZULU, Fraction(m) + ZULU) <==> n < m
  {
    FractionForm(m);
    FractionForm(n);
    var x, y := Scaled(m), Scaled(n);
    var hi, lo := FinerBounds(m, n, w, v);
    SplitBeforeZone(y, w, v, hi, lo);
    SameHead(".", Digits(x, w) + ZULU, Digits(y, w + v) + ZULU);
    SameHead(".", Digits(y, w + v) + ZULU, Digits(x, w) + ZULU);
    CoarseVsFine(x, hi, w, lo, v);
  }

  lemma SplitBeforeZone(n: nat, w: nat, v: nat, hi: nat, lo: nat)
    requires n == hi * Pow10(v) + lo && lo < Pow10(v)
    ensures Digits(n, w + v) + ZULU == Digits(hi, w) + (Digits(lo, v) + ZULU)
  {
    DigitsSplit(n, w, v, hi, lo);
  }

  lemma FinerBounds(m: nat, n: nat, w: nat, v: nat) returns (hi: nat, lo: nat)
    requires 0 < m < 1_000_000_000 && 0 < n < 1_000_000_000
    requires Places(m) == w && Places(n) == w + v && v > 0
    ensures Scaled(n) == hi * Pow10(v) + lo && lo < Pow10(v)
    ensures hi < Pow10(w) && Scaled(m) < Pow10(w)
    ensures Scaled(m) <= hi <==> m < n
    ensures hi < Scaled(m) <==> n < m
  {
    Powers();
    if w == 3 && v == 3 {
      hi, lo := Scaled(n) / 1000, Scaled(n) % 1000;
    } else if w == 3 && v == 6 {
      hi, lo := Scaled(n) / 1_000_000, Scaled(n) % 1_000_000;
    } else {
      assert w == 6 && v == 3;
      hi, lo := Scaled(n) / 1000, Scaled(n) % 1000;
    }
  }

  lemma FractionOrder(m: nat, n: nat)
    requires m < 1_000_000_000 && n < 1_000_000_000
    ensures Less(Fraction(m) + ZULU, Fraction(n) + ZULU) <==> m < n
  {
    if m == 0 || n == 0 {
      FractionOrderZero(m, n);
    } else if Places(m) < Places(n) {
      FinerFraction(m, n, Places(m), Places(n) - Places(m));
    } else if Places(n) < Places(m) {
      FinerFraction(n, m, Places(n), Places(m) - Places(n));
    } else {
      FractionForm(m);
      FractionForm(n);
      var x, y := Scaled(m), Scaled(n);
      SameHead(".", Digits(x, Places(m)) + ZULU, Digits(y, Places(n)) + ZULU);
      FieldThen(x, y, Places(m), ZULU, ZULU);
      Irreflexive(ZULU);
      SamePlaces(m, n);
    }
  }

  lemma SamePlaces(m: nat, n: nat)
    requires 0 < m < 1_000_000_000 && 0 < n < 1_000_000_000 && Places(m) == Places(n)
    ensures Scaled(m) < Scaled(n) <==> m < n
  {
  }

  lemma FractionOrderZero(m: nat, n: nat)
    requires m < 1_000_000_000 && n < 1_000_000_000 && (m == 0 || n == 0)
    ensures Less(Fraction(m) + ZULU, Fraction(n) + ZULU) <==> m < n
  {
    if m == 0 && n == 0 {
      Irreflexive(Fraction(m) + ZULU);
    } else if m == 0 {
      assert (Fraction(n) + ZULU)[0] == '.';
    } else {
      assert (Fraction(m) + ZULU)[0] == '.';
    }
  }

  function Places(n: nat): nat {
    if n % 1_000_000 == 0 then 3 else if n % 1_000 == 0 then 6 else 9
  }

  function Scaled(n: nat): nat {
    if n % 1_000_000 == 0 then n / 1_000_000 else if n % 1_000 == 0 then n / 1_000 else n
  }

  lemma Powers()
    ensures Pow10(2) == 100 && Pow10(3) == 1000 && Pow10(4) == 10_000
    ensures Pow10(6) == 1_000_000 && Pow10(9) == 1_000_000_000
  {
    assert Pow10(2) == 100;
    assert Pow10(3) == 1000;
    assert Pow10(4) == 10 * Pow10(3);
    assert Pow10(6) == 10 * (10 * (10 * Pow10(3)));
    assert Pow10(9) == 10 * (10 * (10 * Pow10(6)));
  }

  // ---- the calendar ------------------------------------------------------

  lemma {:induction false} MonthsOrder(y: nat, m: nat, n: nat)
    requires 1 <= m < n
    ensures DaysBeforeMonth(y, m) + DaysInMonth(y, m) <= DaysBeforeMonth(y, n)
    decreases n
  {
    if m < n - 1 { MonthsOrder(y, m, n - 1); }
  }

  lemma {:induction false} YearsOrder(y: nat, z: nat)
    requires y < z
    ensures DaysBeforeYear(y) + DaysBeforeMonth(y, 13) <= DaysBeforeYear(z)
    decreases z
  {
    if y < z - 1 { YearsOrder(y, z - 1); }
  }

  function DayNumber(t: Utc): nat
    requires t.month >= 1 && t.day >= 1
  {
    DaysBeforeYear(t.year) + DaysBeforeMonth(t.year, t.month) + t.day - 1
  }

  predicate EarlierDay(a: Utc, b: Utc) {
    a.year < b.year || (a.year == b.year && (a.month < b.month || (a.month == b.month && a.day < b.day)))
  }

  lemma EarlierDayIsSmaller(a: Utc, b: Utc)
    requires a.Valid() && b.Valid() && EarlierDay(a, b)
    ensures DayNumber(a) < DayNumber(b)
  {
    if a.year < b.year {
      MonthsOrder(a.year, a.month, 13);
      YearsOrder(a.year, b.year);
    } else if a.month < b.month {
      MonthsOrder(a.year, a.month, b.month);
    }
  }

  /** Calendar fields in order decide the chronological order of the seconds. */
  lemma SecondsOrder(a: Utc, b: Utc)
    requires a.Valid() && b.Valid()
    ensures a.Seconds() < b.Seconds() <==> EarlierDay(a, b) || (!EarlierDay(b, a) && EarlierClock(a, b))
  {
    if EarlierDay(a, b) {
      EarlierDayIsSmaller(a, b);
    } else if EarlierDay(b, a) {
      EarlierDayIsSmaller(b, a);
    }
  }

  // ---- the theorems ------------------------------------------------------

  ghost predicate EarlierClock(a: Utc, b: Utc) {
    a.hour < b.hour || (a.hour == b.hour &&
      (a.minute < b.minute || (a.minute == b.minute && a.second < b.second)))
  }

  lemma DatesOrder(a: Utc, b: Utc, sep: string, x: string, y: string)
    requires a.Valid() && b.Valid()
    ensures Less(Triple(a.year, 4, a.month, a.day, sep) + x, Triple(b.year, 4, b.month, b.day, sep) + y)
       <==> EarlierDay(a, b) || (!EarlierDay(b, a) && Less(x, y))
  {
    Powers();
    var d, e := Triple(a.year, 4, a.month, a.day, sep), Triple(b.year, 4, b.month, b.day, sep);
    TripleOrder(a.year, a.month, a.day, b.year, b.month, b.day, 4, sep);
    if d == e { TripleInjective(a.year, a.month, a.day, b.year, b.month, b.day, 4, sep); }
    Prefixed(d, x, e, y);
  }

  lemma ClocksOrder(a: Utc, b: Utc, colon: string, x: string, y: string)
    requires a.Valid() && b.Valid()
    ensures Less(Triple(a.hour, 2, a.minute, a.second, colon) + x, Triple(b.hour, 2, b.minute, b.second, colon) + y)
       <==> EarlierClock(a, b) || (!EarlierClock(b, a) && Less(x, y))
  {
    Powers();
    var f, g := Triple(a.hour, 2, a.minute, a.second, colon), Triple(b.hour, 2, b.minute, b.second, colon);
    TripleOrder(a.hour, a.minute, a.second, b.hour, b.minute, b.second, 2, colon);
    if f == g { TripleInjective(a.hour, a.minute, a.second, b.hour, b.minute, b.second, 2, colon); }
    Prefixed(f, x, g, y);
  }

  lemma ClockOrder(a: Utc, b: Utc, sep: string, colon: string, x: string, y: string)
    requires a.Valid() && b.Valid()
    ensures Less(Triple(a.year, 4, a.month, a.day, sep) + ("T" + (Triple(a.hour, 2, a.minute, a.second, colon) + x)),
                 Triple(b.year, 4, b.month, b.day, sep) + ("T" + (Triple(b.hour, 2, b.minute, b.second, colon) + y)))
       <==> a.Seconds() < b.Seconds() || (a.Seconds() == b.Seconds() && Less(x, y))
  {
    var f, g := Triple(a.hour, 2, a.minute, a.second, colon) + x, Triple(b.hour, 2, b.minute, b.second, colon) + y;
    ClocksOrder(a, b, colon, x, y);
    SameHead("T", f, g);
    DatesOrder(a, b, sep, "T" + f, "T" + g);
    SecondsOrder(a, b);
    SecondsOrder(b, a);
  }

  /** String order on stored timestamps is exactly chronological order, across
      every mix of fraction lengths. */
  lemma Rfc3339IsChronological(a: Utc, b: Utc)
    requires a.Valid() && b.Valid()
    ensures Less(Rfc3339(a), Rfc3339(b)) <==> a.Instant() < b.Instant()
    ensures Rfc3339(a) == Rfc3339(b) <==> a == b
  {
    Rfc3339Less(a, b);
    Rfc3339Less(b, a);
    Total(Rfc3339(a), Rfc3339(b));
    Irreflexive(Rfc3339(a));
    if Rfc3339(a) == Rfc3339(b) {
      assert a.Instant() == b.Instant();
      assert a.Seconds() == b.Seconds() && a.nanos == b.nanos;
      SecondsOrder(a, b);
      SecondsOrder(b, a);
      if EarlierDay(a, b) { EarlierDayIsSmaller(a, b); }
      if EarlierDay(b, a) { EarlierDayIsSmaller(b, a); }
    }
  }

  lemma Rfc3339Less(a: Utc, b: Utc)
    requires a.Valid() && b.Valid()
    ensures Less(Rfc3339(a), Rfc3339(b)) <==> a.Instant() < b.Instant()
  {
    var x, y := Fraction(a.nanos) + ZULU, Fraction(b.nanos) + ZULU;
    ClockOrder(a, b, "-", ":", x, y);
    FractionOrder(a.nanos, b.nanos);
  }

  /** Release ids sort by the second they were made in and, within one second,
      by the text of the version. */
  lemma ReleaseIdOrder(a: Utc, v: string, b: Utc, w: string)
    requires a.Valid() && b.Valid()
    ensures Less(ReleaseId(a, v), ReleaseId(b, w)) <==>
      a.Seconds() < b.Seconds() || (a.Seconds() == b.Seconds() && Less(v, w))
  {
    Regroup(a, v);
    Regroup(b, w);
    ClockOrder(a, b, "", "", "-v" + v, "-v" + w);
    SameHead("-v", v, w);
  }

  /** So the order of two ids is the order of their times exactly when the
      seconds differ or the version texts do not ascend. */
  lemma ReleaseIdsAreChronological(a: Utc, v: string, b: Utc, w: string)
    requires a.Valid() && b.Valid()
    ensures (Less(ReleaseId(a, v), ReleaseId(b, w)) <==> a.Seconds() < b.Seconds())
       <==> (a.Seconds() != b.Seconds() || !Less(v, w))
    ensures a.Seconds() != b.Seconds() ==> ReleaseId(a, v) != ReleaseId(b, w)
  {
    ReleaseIdOrder(a, v, b, w);
    ReleaseIdOrder(b, w, a, v);
    Irreflexive(ReleaseId(a, v));
  }

  lemma Regroup(a: Utc, v: string)
    ensures ReleaseId(a, v) == Triple(a.year, 4, a.month, a.day, "")
              + ("T" + (Triple(a.hour, 2, a.minute, a.second, "") + ("-v" + v)))
  {
  }

  /** Text order is not version order: within one second 1.10.0 sorts before
      the older 1.9.0. */
  lemma SameSecondSortsByVersionText(t: Utc)
    requires t.Valid()
    ensures Less(ReleaseId(t, "1.10.0"), ReleaseId(t, "1.9.0"))
  {
    ReleaseIdOrder(t, "1.10.0", t, "1.9.0");
    SameHead("1.", "10.0", "9.0");
    assert "1.10.0" == "1." + "10.0" && "1.9.0" == "1." + "9.0";
    assert Less("10.0", "9.0");
  }

  // ---- the formats and the calendar, by example and by rule ----------------------

  /** `w` decimal digits of `n`, the high ones first. */
  lemma TwoDigits(n: nat)
    requires n < 100
    ensures Digits(n, 2) == ["0123456789"[n / 10], "0123456789"[n % 10]]
  {
    assert Digits(n / 10, 1) == Digits(n / 100, 0) + [Digit(n / 10 % 10)];
    DigitChar(n / 10);
    DigitChar(n % 10);
  }

  lemma DigitChar(d: nat)
    requires d < 10
    ensures Digit(d) == "0123456789"[d]
  {
  }

  lemma FourDigits(n: nat)
    requires n < 10000
    ensures Digits(n, 4) == Digits(n / 100, 2) + Digits(n % 100, 2)
  {
    assert Pow10(2) == 100;
    DigitsSplit(n, 2, 2, n / 100, n % 100);
  }

  /** RFC 3339 with the offset of UTC and 0, 3, 6 or 9 digits of fraction. */
  lemma Rfc3339Format(t: Utc)
    ensures var date := Digits(t.year, 4) + ("-" + (Digits(t.month, 2) + ("-" + Digits(t.day, 2))));
      var clock := Digits(t.hour, 2) + (":" + (Digits(t.minute, 2) + (":" + Digits(t.second, 2))));
      var fraction :=
        if t.nanos == 0 then "" else if t.nanos % 1_000_000 == 0 then "." + Digits(t.nanos / 1_000_000, 3)
        else if t.nanos % 1_000 == 0 then "." + Digits(t.nanos / 1_000, 6) else "." + Digits(t.nanos, 9);
      Rfc3339(t) == date + ("T" + (clock + (fraction + "+00:00")))
  {
  }

  /** `YYYYMMDDTHHMMSS-v<version>`. */
  lemma ReleaseIdFormat(t: Utc, version: string)
    ensures var date := Digits(t.year, 4) + (Digits(t.month, 2) + Digits(t.day, 2));
      var clock := Digits(t.hour, 2) + (Digits(t.minute, 2) + Digits(t.second, 2));
      ReleaseId(t, version) == date + ("T" + clock) + ("-v" + version)
  {
    NoSeparator(t.year, 4, t.month, t.day);
    NoSeparator(t.hour, 2, t.minute, t.second);
  }

  lemma NoSeparator(a: nat, w: nat, b: nat, c: nat)
    ensures Triple(a, w, b, c, "") == Digits(a, w) + (Digits(b, 2) + Digits(c, 2))
  {
    assert "" + Digits(c, 2) == Digits(c, 2);
    assert "" + (Digits(b, 2) + Digits(c, 2)) == Digits(b, 2) + Digits(c, 2);
  }

  /** The Gregorian rule: years have 365 days, or 366 when divisible by four, but
      not by a hundred unless by four hundred. */
  lemma YearLength(y: nat)
    ensures DaysBeforeMonth(y, 13) == if y % 4 == 0 && (y % 100 != 0 || y % 400 == 0) then 366 else 365
    ensures DaysBeforeYear(y + 1) == DaysBeforeYear(y) + DaysBeforeMonth(y, 13)
  {
    var l := if Leap(y) then 1 else 0;
    assert DaysBeforeMonth(y, 2) == 31;
    assert DaysBeforeMonth(y, 3) == 59 + l;
    assert DaysBeforeMonth(y, 4) == 90 + l;
    assert DaysBeforeMonth(y, 5) == 120 + l;
    assert DaysBeforeMonth(y, 6) == 151 + l;
    assert DaysBeforeMonth(y, 7) == 181 + l;
    assert DaysBeforeMonth(y, 8) == 212 + l;
    assert DaysBeforeMonth(y, 9) == 243 + l;
    assert DaysBeforeMonth(y, 10) == 273 + l;
    assert DaysBeforeMonth(y, 11) == 304 + l;
    assert DaysBeforeMonth(y, 12) == 334 + l;
  }

  /** A day has 24 hours, an hour 60 minutes, a minute 60 seconds. */
  lemma ClockUnits(t: Utc)
    requires t.month >= 1 && t.day >= 1
    ensures t.(day := t.day + 1).Seconds() == t.Seconds() + 86400
    ensures t.(hour := t.hour + 1).Seconds() == t.Seconds() + 3600
    ensures t.(minute := t.minute + 1).Seconds() == t.Seconds() + 60
    ensures t.(second := t.second + 1).Seconds() == t.Seconds() + 1
    ensures t.Instant() == t.Seconds() * 1_000_000_000 + t.nanos
  {
  }
}
