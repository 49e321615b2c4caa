/** The schedule's `YYYYMMDDHHMMSS` timestamps, read the way `datetime.strptime(s,
    '%Y%m%d%H%M%S')` reads a canonical 14-digit string, and the calendar arithmetic of
    Python's `datetime` (proleptic Gregorian ordinals, `weekday()`, `timedelta.seconds`). */
module Stamps {
  import opened Strings

  predicate IsDigit(c: char) {
    '0' <= c <= '9'
  }

  predicate AllDigits(s: string) {
    forall i :: 0 <= i < |s| ==> IsDigit(s[i])
  }

  function DigitVal(c: char): nat
    requires IsDigit(c)
  {
    c as int - '0' as int
  }

  function Pow10(n: nat): (r: nat)
    ensures r >= 1
  {
    if n == 0 then 1 else 10 * Pow10(n - 1)
  }

  /** The decimal value of a digit string, most significant digit first. */
  function Num(s: string): nat
    requires AllDigits(s)
    decreases |s|
  {
    if |s| == 0 then 0 else DigitVal(s[0]) * Pow10(|s| - 1) + Num(s[1..])
  }

  lemma {:induction false} NumBound(s: string)
    requires AllDigits(s)
    ensures Num(s) < Pow10(|s|)
    decreases |s|
  {
    if |s| > 0 {
      NumBound(s[1..]);
      var p, d := Pow10(|s| - 1), DigitVal(s[0]);
      assert Num(s) == d * p + Num(s[1..]);
      MulLe(d, 9, p);
    }
  }

  lemma MulLe(a: nat, b: nat, p: nat)
    requires a <= b
    ensures a * p <= b * p
  {
  }

  lemma MulDistributes(a: int, b: int, p: int)
    ensures (a + b) * p == a * p + b * p
  {
  }

  lemma MulAssociates(a: int, b: int, c: int)
    ensures a * (b * c) == (a * b) * c
  {
  }

  lemma {:induction false} Pow10Add(m: nat, n: nat)
    ensures Pow10(m + n) == Pow10(m) * Pow10(n)
    decreases m
  {
    if m > 0 {
      Pow10Add(m - 1, n);
    }
  }

  lemma {:induction false} NumAppend(a: string, b: string)
    requires AllDigits(a) && AllDigits(b)
    ensures AllDigits(a + b) && Num(a + b) == Num(a) * Pow10(|b|) + Num(b)
    decreases |a|
  {
    var ab := a + b;
    assert AllDigits(ab) by {
      forall i | 0 <= i < |ab| ensures IsDigit(ab[i]) {
        if i < |a| { assert ab[i] == a[i]; } else { assert ab[i] == b[i - |a|]; }
      }
    }
    if |a| > 0 {
      assert ab[1..] == a[1..] + b;
      NumAppend(a[1..], b);
      Pow10Add(|a| - 1, |b|);
      var d, p, q := DigitVal(a[0]), Pow10(|a| - 1), Pow10(|b|);
      assert Num(ab) == d * Pow10(|ab| - 1) + Num(a[1..] + b);
      assert Pow10(|ab| - 1) == p * q;
      MulAssociates(d, p, q);
      MulDistributes(d * p, Num(a[1..]), q);
      assert Num(a) == d * p + Num(a[1..]);
    } else {
      assert ab == b;
    }
  }

  /** Between digit strings of one length, Python's string order is numeric order. */
  lemma {:induction false} LexIsNumeric(a: string, b: string)
    requires AllDigits(a) && AllDigits(b) && |a| == |b|
    ensures LexLt(a, b) <==> Num(a) < Num(b)
    decreases |a|
  {
    if |a| > 0 {
      var p := Pow10(|a| - 1);
      NumBound(a[1..]);
      NumBound(b[1..]);
      var da, db := DigitVal(a[0]), DigitVal(b[0]);
      if a[0] == b[0] {
        LexIsNumeric(a[1..], b[1..]);
      } else if da < db {
        MulLe(da + 1, db, p);
        MulDistributes(da, 1, p);
      } else {
        MulLe(db + 1, da, p);
        MulDistributes(db, 1, p);
      }
      assert Num(a) == da * p + Num(a[1..]);
      assert Num(b) == db * p + Num(b[1..]);
    }
  }

  function Field(s: string, i: nat, j: nat): nat
    requires i <= j <= |s| && AllDigits(s)
  {
    Num(s[i..j])
  }

  function Year(s: string): nat requires |s| == 14 && AllDigits(s) { Field(s, 0, 4) }
  function Month(s: string): nat requires |s| == 14 && AllDigits(s) { Field(s, 4, 6) }
  function Day(s: string): nat requires |s| == 14 && AllDigits(s) { Field(s, 6, 8) }
  function Hour(s: string): nat requires |s| == 14 && AllDigits(s) { Field(s, 8, 10) }
  function Minute(s: string): nat requires |s| == 14 && AllDigits(s) { Field(s, 10, 12) }
  function Second(s: string): nat requires |s| == 14 && AllDigits(s) { Field(s, 12, 14) }

  predicate IsLeap(y: int) {
    y % 4 == 0 && (y % 100 != 0 || y % 400 == 0)
  }

  function DaysInMonth(y: int, m: int): nat
    requires 1 <= m <= 12
  {
    if m == 2 then (if IsLeap(y) then 29 else 28)
    else if m == 4 || m == 6 || m == 9 || m == 11 then 30
    else 31
  }

  /** `datetime` accepts years 1..9999, months 1..12, the month's days, 0..23 h, 0..59 min and s. */
  predicate ValidStamp(s: string) {
    && |s| == 14 && AllDigits(s)
    && 1 <= Year(s)
    && 1 <= Month(s) <= 12
    && 1 <= Day(s) <= DaysInMonth(Year(s), Month(s))
    && Hour(s) < 24 && Minute(s) < 60 && Second(s) < 60
  }

  /** Days in the years before y (Python's `_days_before_year`). */
  function DaysBeforeYear(y: int): int {
    var z := y - 1;
    z * 365 + z / 4 - z / 100 + z / 400
  }

  /** Days in the months of year y before month m (Python's `_days_before_month`). */
  function DaysBeforeMonth(y: int, m: int): nat
    requires 1 <= m <= 12
  {
    var table := [0, 31, 59, 90, 120, 151, 181, 212, 243, 273, 304, 334];
    table[m - 1] + (if m > 2 && IsLeap(y) then 1 else 0)
  }

  /** `date.toordinal()`: 0001-01-01 is day 1. */
  function Ordinal(y: int, m: int, d: int): int
    requires 1 <= m <= 12
  {
    DaysBeforeYear(y) + DaysBeforeMonth(y, m) + d
  }

  function StampOrdinal(s: string): int
    requires ValidStamp(s)
  {
    Ordinal(Year(s), Month(s), Day(s))
  }

  function TimeOfDay(s: string): (r: nat)
    requires ValidStamp(s)
    ensures r < 86400
  {
    Hour(s) * 3600 + Minute(s) * 60 + Second(s)
  }

  /** Seconds since the start of the proleptic Gregorian calendar. */
  function Seconds(s: string): int
    requires ValidStamp(s)
  {
    StampOrdinal(s) * 86400 + TimeOfDay(s)
  }

  /** `datetime.weekday()`: Monday is 0, Sunday is 6. */
  function Weekday(s: string): (r: nat)
    requires ValidStamp(s)
    ensures r < 7
  {
    (StampOrdinal(s) + 6) % 7
  }

  lemma SevenStep(x: int)
    ensures (x + 1) % 7 == (x % 7 + 1) % 7
  {
    var q, r := x / 7, x % 7;
    if r < 6 {
      assert x + 1 == 7 * q + (r + 1);
    } else {
      assert x + 1 == 7 * (q + 1) + 0;
    }
  }

  /** The weekday moves on by one with each calendar day. */
  lemma WeekdayNextDay(a: string, b: string)
    requires ValidStamp(a) && ValidStamp(b) && StampOrdinal(b) == StampOrdinal(a) + 1
    ensures Weekday(b) == (Weekday(a) + 1) % 7
  {
    SevenStep(StampOrdinal(a) + 6);
  }

  const Anchor := "20240101000000"

  lemma AnchorFields()
    ensures |Anchor| == 14 && AllDigits(Anchor)
    ensures Year(Anchor) == 2024 && Month(Anchor) == 1 && Day(Anchor) == 1
    ensures Hour(Anchor) == 0 && Minute(Anchor) == 0 && Second(Anchor) == 0
  {
    var s := Anchor;
    assert Pow10(1) == 10 && Pow10(2) == 100 && Pow10(3) == 1000;
    assert s[..4] == "2024" && s[4..6] == "01" && s[6..8] == "01";
    assert s[8..10] == "00" && s[10..12] == "00" && s[12..14] == "00";
    assert Num("00") == 0 && Num("01") == 1;
    assert Num("4") == 4 && Num("24") == 24 && Num("024") == 24 && Num("2024") == 2024;
  }

  /** 1 January 2024 was a Monday. */
  lemma WeekdayAnchor()
    ensures ValidStamp(Anchor) && Weekday(Anchor) == 0
  {
    AnchorFields();
    assert DaysBeforeYear(2024) == 738885;
  }

  /** `(to_dt - ft_dt).seconds`: a timedelta keeps whole days apart, so only the
      remainder modulo one day is left, never negative. */
  function Dulation(ft: string, to: string): (r: int)
    requires ValidStamp(ft) && ValidStamp(to)
    ensures 0 <= r < 86400
  {
    (Seconds(to) - Seconds(ft)) % 86400
  }

  /** A broadcast shorter than a day gets its true length; an end before the start (or a
      whole day or more later) is folded into 0..86399 seconds. */
  lemma DulationWithinDay(ft: string, to: string)
    requires ValidStamp(ft) && ValidStamp(to)
    requires 0 <= Seconds(to) - Seconds(ft) < 86400
    ensures Dulation(ft, to) == Seconds(to) - Seconds(ft)
  {
    DayRemainder(Seconds(to) - Seconds(ft));
  }

  lemma DayRemainder(x: int)
    requires 0 <= x < 86400
    ensures x % 86400 == x
  {
  }

  // ---- The timestamp string order is the chronological order ----

  lemma DivStep(y: int)
    ensures y / 4 - (y - 1) / 4 == (if y % 4 == 0 then 1 else 0)
    ensures y / 100 - (y - 1) / 100 == (if y % 100 == 0 then 1 else 0)
    ensures y / 400 - (y - 1) / 400 == (if y % 400 == 0 then 1 else 0)
  {
  }

  lemma CenturiesAreQuadrennial(y: int)
    ensures y % 400 == 0 ==> y % 100 == 0
    ensures y % 100 == 0 ==> y % 4 == 0
  {
    var q400, q100 := y / 400, y / 100;
    assert y == 400 * q400 + y % 400;
    assert y == 100 * q100 + y % 100;
    if y % 400 == 0 {
      assert 100 * (4 * q400 - q100) == y % 100;
    }
    var q4 := y / 4;
    assert y == 4 * q4 + y % 4;
    if y % 100 == 0 {
      assert 4 * (25 * q100 - q4) == y % 4;
    }
  }

  lemma DaysBeforeYearStep(y: int)
    ensures DaysBeforeYear(y + 1) == DaysBeforeYear(y) + 365 + (if IsLeap(y) then 1 else 0)
  {
    DivStep(y);
    CenturiesAreQuadrennial(y);
  }

  lemma {:induction false} DaysBeforeYearMonotone(y: int, y': int)
    requires y < y'
    ensures DaysBeforeYear(y) + 365 <= DaysBeforeYear(y')
    decreases y' - y
  {
    DaysBeforeYearStep(y);
    if y + 1 < y' {
      DaysBeforeYearMonotone(y + 1, y');
    }
  }

  lemma MonthsFit(y: int, m: int)
    requires 1 <= m <= 12
    ensures m < 12 ==> DaysBeforeMonth(y, m + 1) == DaysBeforeMonth(y, m) + DaysInMonth(y, m)
    ensures m == 12 ==> DaysBeforeMonth(y, m) + DaysInMonth(y, m) == 365 + (if IsLeap(y) then 1 else 0)
  {
  }

  lemma {:induction false} MonthsMonotone(y: int, m: int, m': int)
    requires 1 <= m < m' <= 12
    ensures DaysBeforeMonth(y, m) + DaysInMonth(y, m) <= DaysBeforeMonth(y, m')
    decreases m' - m
  {
    MonthsFit(y, m);
    if m + 1 < m' {
      MonthsMonotone(y, m + 1, m');
      MonthsFit(y, m + 1);
    }
  }

  predicate DateLt(y: int, m: int, d: int, y': int, m': int, d': int) {
    y < y' || (y == y' && (m < m' || (m == m' && d < d')))
  }

  /** Ordinals grow strictly with the calendar date. */
  lemma OrdinalMonotone(y: int, m: int, d: int, y': int, m': int, d': int)
    requires 1 <= m <= 12 && 1 <= d <= DaysInMonth(y, m)
    requires 1 <= m' <= 12 && 1 <= d' <= DaysInMonth(y', m')
    requires DateLt(y, m, d, y', m', d')
    ensures Ordinal(y, m, d) < Ordinal(y', m', d')
  {
    if y < y' {
      DaysBeforeYearMonotone(y, y');
      DaysBeforeYearStep(y);
      if m < 12 {
        MonthsMonotone(y, m, 12);
      }
      MonthsFit(y, 12);
    } else if m < m' {
      MonthsMonotone(y, m, m');
    }
  }

  lemma NumSplit(s: string, k: nat)
    requires AllDigits(s) && k <= |s|
    ensures Num(s) == Num(s[..k]) * Pow10(|s| - k) + Num(s[k..])
  {
    assert s == s[..k] + s[k..];
    NumAppend(s[..k], s[k..]);
  }

  lemma NumTwoDigits(s: string)
    requires AllDigits(s) && |s| == 2
    ensures Num(s) < 100
  {
    NumBound(s);
    assert Pow10(2) == 100;
  }

  /** Appending two more digits multiplies by a hundred. */
  lemma NumPrefixStep(s: string, k: nat)
    requires AllDigits(s) && k + 2 <= |s|
    ensures Num(s[..k + 2]) == Num(s[..k]) * 100 + Num(s[k..k + 2])
    ensures Num(s[k..k + 2]) < 100
  {
    var t := s[..k + 2];
    NumSplit(t, k);
    assert t[..k] == s[..k] && t[k..] == s[k..k + 2];
    assert Pow10(2) == 100;
    NumTwoDigits(s[k..k + 2]);
  }

  lemma StampDigits(s: string)
    requires |s| == 14 && AllDigits(s)
    ensures Num(s[..6]) == Year(s) * 100 + Month(s)
    ensures Num(s[..8]) == Num(s[..6]) * 100 + Day(s)
    ensures Num(s[..10]) == Num(s[..8]) * 100 + Hour(s)
    ensures Num(s[..12]) == Num(s[..10]) * 100 + Minute(s)
    ensures Num(s) == Num(s[..12]) * 100 + Second(s)
    ensures Month(s) < 100 && Day(s) < 100 && Hour(s) < 100 && Minute(s) < 100 && Second(s) < 100
  {
    NumPrefixStep(s, 4);
    assert s[..4] == s[0..4];
    NumPrefixStep(s, 6);
    NumPrefixStep(s, 8);
    NumPrefixStep(s, 10);
    NumPrefixStep(s, 12);
    assert s[..14] == s;
  }

  /** Mixed-radix comparison: a high part and a low part below the base. */
  lemma Radix(x: int, r: int, x': int, r': int, base: int)
    requires base > 0 && 0 <= r < base && 0 <= r' < base
    ensures x * base + r < x' * base + r' <==> x < x' || (x == x' && r < r')
    ensures x * base + r == x' * base + r' <==> x == x' && r == r'
  {
    if x < x' {
      assert x * base + base <= x' * base by { MulDistributes(x, 1, base); MulLeInt(x + 1, x', base); }
    } else if x' < x {
      assert x' * base + base <= x * base by { MulDistributes(x', 1, base); MulLeInt(x' + 1, x, base); }
    }
  }

  lemma MulLeInt(a: int, b: int, p: nat)
    requires a <= b
    ensures a * p <= b * p
  {
  }

  /** The date digits compare as the dates, and so as their ordinals. */
  lemma DateNumOrder(a: string, b: string)
    requires ValidStamp(a) && ValidStamp(b)
    ensures Num(a[..8]) < Num(b[..8]) <==> StampOrdinal(a) < StampOrdinal(b)
    ensures Num(a[..8]) == Num(b[..8]) <==> StampOrdinal(a) == StampOrdinal(b)
  {
    StampDigits(a);
    StampDigits(b);
    Radix(Year(a), Month(a), Year(b), Month(b), 100);
    Radix(Num(a[..6]), Day(a), Num(b[..6]), Day(b), 100);
    var ya, ma, da := Year(a), Month(a), Day(a);
    var yb, mb, db := Year(b), Month(b), Day(b);
    if DateLt(ya, ma, da, yb, mb, db) {
      OrdinalMonotone(ya, ma, da, yb, mb, db);
    } else if DateLt(yb, mb, db, ya, ma, da) {
      OrdinalMonotone(yb, mb, db, ya, ma, da);
    }
  }

  /** The clock digits compare as the times of day. */
  lemma TimeNumOrder(a: string, b: string)
    requires ValidStamp(a) && ValidStamp(b)
    ensures Num(a) - Num(a[..8]) * 1000000 < Num(b) - Num(b[..8]) * 1000000
            <==> TimeOfDay(a) < TimeOfDay(b)
    ensures Num(a) - Num(a[..8]) * 1000000 == Num(b) - Num(b[..8]) * 1000000
            <==> TimeOfDay(a) == TimeOfDay(b)
  {
    StampDigits(a);
    StampDigits(b);
    Radix(Hour(a), Minute(a), Hour(b), Minute(b), 100);
    Radix(Hour(a) * 100 + Minute(a), Second(a), Hour(b) * 100 + Minute(b), Second(b), 100);
    Radix(Hour(a), Minute(a), Hour(b), Minute(b), 60);
    Radix(Hour(a) * 60 + Minute(a), Second(a), Hour(b) * 60 + Minute(b), Second(b), 60);
  }

  /** Comparing two valid timestamps as strings, as the source does everywhere, compares them
      in time. */
  lemma StringOrderIsTimeOrder(a: string, b: string)
    requires ValidStamp(a) && ValidStamp(b)
    ensures LexLt(a, b) <==> Seconds(a) < Seconds(b)
    ensures a == b <==> Seconds(a) == Seconds(b)
  {
    LexIsNumeric(a, b);
    LexIsNumeric(b, a);
    LexLtTrichotomy(a, b);
    LexLtIrreflexive(a);
    StampDigits(a);
    StampDigits(b);
    DateNumOrder(a, b);
    TimeNumOrder(a, b);
    var ta, tb := Num(a) - Num(a[..8]) * 1000000, Num(b) - Num(b[..8]) * 1000000;
    assert 0 <= ta < 1000000 && 0 <= tb < 1000000;
    Radix(Num(a[..8]), ta, Num(b[..8]), tb, 1000000);
    Radix(StampOrdinal(a), TimeOfDay(a), StampOrdinal(b), TimeOfDay(b), 86400);
  }
}
