// Calendar days and the ISO period keys the pipeline uses.  A Python `date` is modelled by
// its proleptic Gregorian ordinal (date.toordinal(): 0001-01-01 is day 1), a UTC timestamp
// by whole seconds since 1970-01-01T00:00:00Z, and `str(day)` by FormatDate.

module Calendar {
  import opened Wrappers
  import opened Text

  datatype Date = Date(year: int, month: int, day: int)

  const SecondsPerDay: int := 86400
  /** date(1970, 1, 1).toordinal() */
  const EpochOrdinal: int := 719163
  /** date(9999, 12, 31).toordinal(), the last day Python's date can hold */
  const MaxOrdinal: int := 3652059
  /** The timestamps a Python datetime can hold: 0001-01-01T00:00:00Z up to 9999-12-31T23:59:59Z. */
  const MinTimestamp: int := -62135596800
  const MaxTimestamp: int := 253402300799

  predicate IsLeap(y: int)
  {
    y % 4 == 0 && (y % 100 != 0 || y % 400 == 0)
  }

  function DaysInYear(y: int): int
  {
    if IsLeap(y) then 366 else 365
  }

  function DaysInMonth(y: int, m: int): int
  {
    if m == 2 then (if IsLeap(y) then 29 else 28)
    else if m == 4 || m == 6 || m == 9 || m == 11 then 30
    else 31
  }

  /** A month and day that exist in that year, ignoring the bound on the year. */
  predicate ValidMonthDay(d: Date)
  {
    1 <= d.month <= 12 && 1 <= d.day <= DaysInMonth(d.year, d.month)
  }

  /** A date Python's `date` type can represent. */
  predicate ValidDate(d: Date)
  {
    1 <= d.year <= 9999 && ValidMonthDay(d)
  }

  /** Chronological order of dates, as Python compares `date` objects. */
  predicate DateLess(a: Date, b: Date)
  {
    a.year < b.year || (a.year == b.year && (a.month < b.month || (a.month == b.month && a.day < b.day)))
  }

  /** Days before 1 January of year y, counted from 0001-01-01. */
  function DaysBeforeYear(y: int): int
  {
    var p := y - 1;
    365 * p + p / 4 - p / 100 + p / 400
  }

  /** Days in year y before the first of month m (m == 13 gives the whole year). */
  function DaysBeforeMonth(y: int, m: int): int
    requires 1 <= m <= 13
  {
    var common :=
      if m == 1 then 0 else if m == 2 then 31 else if m == 3 then 59 else if m == 4 then 90
      else if m == 5 then 120 else if m == 6 then 151 else if m == 7 then 181
      else if m == 8 then 212 else if m == 9 then 243 else if m == 10 then 273
      else if m == 11 then 304 else if m == 12 then 334 else 365;
    common + (if IsLeap(y) && m > 2 then 1 else 0)
  }

  /** date.toordinal() */
  function Ordinal(d: Date): int
    requires 1 <= d.month <= 12
  {
    DaysBeforeYear(d.year) + DaysBeforeMonth(d.year, d.month) + d.day
  }

  lemma YearStep(y: int)
    requires y >= 1
    ensures DaysBeforeYear(y + 1) == DaysBeforeYear(y) + DaysInYear(y)
  {
    DivStep(y, 4);
    DivStep(y, 100);
    DivStep(y, 400);
    MultipleOf(y, 4, 25);
    MultipleOf(y, 100, 4);
  }

  /** Crossing from y - 1 to y passes a multiple of k exactly when y is one. */
  lemma DivStep(y: int, k: int)
    requires k > 0
    ensures y / k - (y - 1) / k == if y % k == 0 then 1 else 0
  {
    var q, r := (y - 1) / k, (y - 1) % k;
    assert y - 1 == k * q + r && 0 <= r < k;
    if r == k - 1 {
      DivUnique(y, k, q + 1, 0);
    } else {
      DivUnique(y, k, q, r + 1);
    }
  }

  lemma DivUnique(y: int, k: int, q: int, r: int)
    requires k > 0 && y == k * q + r && 0 <= r < k
    ensures y / k == q && y % k == r
  {
    var q', r' := y / k, y % k;
    assert y == k * q' + r' && 0 <= r' < k;
    if q' > q {
      MulMono(k, q + 1, q');
    } else if q' < q {
      MulMono(k, q' + 1, q);
    }
  }

  lemma MulMono(k: int, a: int, b: int)
    requires k > 0 && a <= b
    ensures k * a <= k * b
  {
  }

  /** A multiple of k * m is a multiple of k. */
  lemma MultipleOf(y: int, k: int, m: int)
    requires k > 0 && m > 0
    ensures y % (k * m) == 0 ==> y % k == 0
  {
    if y % (k * m) == 0 {
      var q := y / (k * m);
      assert y == (k * m) * q;
      assert y == k * (m * q);
      DivUnique(y, k, m * q, 0);
    }
  }

  lemma MonthStep(y: int, m: int)
    requires 1 <= m <= 12
    ensures DaysBeforeMonth(y, m + 1) == DaysBeforeMonth(y, m) + DaysInMonth(y, m)
  {
  }

  lemma {:induction false} DaysBeforeYearGrows(y1: int, y2: int)
    requires 1 <= y1 < y2
    ensures DaysBeforeYear(y1) + DaysInYear(y1) <= DaysBeforeYear(y2)
    decreases y2 - y1
  {
    YearStep(y1);
    if y1 + 1 < y2 {
      DaysBeforeYearGrows(y1 + 1, y2);
    }
  }

  function FromMonth(n: int, y: int, m: int): (r: Date)
    requires 1 <= m <= 12 && 1 <= n <= DaysBeforeMonth(y, 13) - DaysBeforeMonth(y, m)
    ensures r.year == y && m <= r.month && ValidMonthDay(r)
    ensures DaysBeforeMonth(y, r.month) - DaysBeforeMonth(y, m) + r.day == n
    decreases 12 - m
  {
    MonthStep(y, m);
    if n <= DaysInMonth(y, m) then Date(y, m, n)
    else FromMonth(n - DaysInMonth(y, m), y, m + 1)
  }

  function FromYear(n: int, y: int): (r: Date)
    requires y >= 1 && n >= 1
    ensures r.year >= y && ValidMonthDay(r)
    ensures Ordinal(r) == DaysBeforeYear(y) + n
    decreases n
  {
    YearStep(y);
    if n <= DaysInYear(y) then FromMonth(n, y, 1)
    else FromYear(n - DaysInYear(y), y + 1)
  }

  /** date.fromordinal(n) */
  function DateOfOrdinal(n: int): (r: Date)
    requires 1 <= n
    ensures r.year >= 1 && ValidMonthDay(r) && Ordinal(r) == n
  {
    FromYear(n, 1)
  }

  /** Later dates have larger ordinals. */
  lemma OrdinalMonotone(a: Date, b: Date)
    requires a.year >= 1 && ValidMonthDay(a) && ValidMonthDay(b) && DateLess(a, b)
    ensures Ordinal(a) < Ordinal(b)
  {
    MonthStep(a.year, a.month);
    if a.year < b.year {
      DaysBeforeYearGrows(a.year, b.year);
    }
  }

  /** Ordinal and DateOfOrdinal are inverse on the dates Python can represent,
      and the representable ordinals are exactly 1..MaxOrdinal. */
  lemma OrdinalRoundTrip(d: Date)
    requires ValidDate(d)
    ensures 1 <= Ordinal(d) <= MaxOrdinal
    ensures DateOfOrdinal(Ordinal(d)) == d
  {
    OrdinalAtMost(d);
    OrdinalInjective(DateOfOrdinal(Ordinal(d)), d);
  }

  lemma OrdinalAtMost(d: Date)
    requires ValidDate(d)
    ensures 1 <= Ordinal(d) <= MaxOrdinal
  {
    var last := Date(9999, 12, 31);
    assert Ordinal(last) == MaxOrdinal;
    if d != last {
      OrdinalMonotone(d, last);
    }
  }

  lemma OrdinalInjective(a: Date, b: Date)
    requires a.year >= 1 && b.year >= 1 && ValidMonthDay(a) && ValidMonthDay(b)
    requires Ordinal(a) == Ordinal(b)
    ensures a == b
  {
    if DateLess(a, b) {
      OrdinalMonotone(a, b);
    } else if DateLess(b, a) {
      OrdinalMonotone(b, a);
    }
  }

  lemma DateOfOrdinalValid(n: int)
    requires 1 <= n <= MaxOrdinal
    ensures ValidDate(DateOfOrdinal(n))
  {
    var r := DateOfOrdinal(n);
    var last := Date(9999, 12, 31);
    assert Ordinal(last) == MaxOrdinal;
    if r.year > 9999 {
      OrdinalMonotone(last, r);
    }
  }

  /** The calendar day of a timestamp, as an ordinal: `ts.date()` for an aware UTC datetime. */
  function DayOf(ts: int): int
  {
    ts / SecondsPerDay + EpochOrdinal
  }

  predicate ValidTimestamp(ts: int)
  {
    MinTimestamp <= ts <= MaxTimestamp
  }

  lemma DayOfValid(ts: int)
    requires ValidTimestamp(ts)
    ensures 1 <= DayOf(ts) <= MaxOrdinal
  {
  }

  // ---- ISO keys: str(date) and datetime.strptime(key, "%Y-%m-%d") ----

  function DigitChar(k: int): char
    requires 0 <= k <= 9
  {
    ('0' as int + k) as char
  }

  predicate IsDigit(c: char)
  {
    '0' <= c <= '9'
  }

  function DigitValue(c: char): int
    requires IsDigit(c)
  {
    c as int - '0' as int
  }

  /** `%02d`, `%04d` */
  function Pad2(n: int): (s: string)
    requires 0 <= n < 100
    ensures |s| == 2
  {
    [DigitChar(n / 10), DigitChar(n % 10)]
  }

  function Pad4(n: int): (s: string)
    requires 0 <= n < 10000
    ensures |s| == 4
  {
    Pad2(n / 100) + Pad2(n % 100)
  }

  /** str(date): "YYYY-MM-DD". */
  function FormatDate(d: Date): (s: string)
    requires ValidDate(d)
    ensures |s| == 10 && s[4] == '-' && s[7] == '-'
  {
    Pad4(d.year) + "-" + Pad2(d.month) + "-" + Pad2(d.day)
  }

  /** The period key of a day ordinal: str(date.fromordinal(n)). */
  function DayKey(n: int): (s: string)
    requires 1 <= n <= MaxOrdinal
  {
    DateOfOrdinalValid(n);
    FormatDate(DateOfOrdinal(n))
  }

  predicate AllDigits(s: string)
  {
    forall i :: 0 <= i < |s| ==> IsDigit(s[i])
  }

  /** The decimal value of a string of digits. */
  function DigitsValue(s: string): int
    requires AllDigits(s)
    decreases |s|
  {
    if s == [] then 0 else DigitsValue(s[..|s| - 1]) * 10 + DigitValue(s[|s| - 1])
  }

  /** datetime.strptime(s, "%Y-%m-%d").date() on zero-padded keys: None where strptime raises. */
  function ParseDate(s: string): (r: Option<Date>)
    ensures r.Some? ==> ValidDate(r.value)
  {
    if |s| != 10 || s[4] != '-' || s[7] != '-' || !AllDigits(s[..4]) || !AllDigits(s[5..7])
       || !AllDigits(s[8..]) then None
    else
      var d := Date(DigitsValue(s[..4]), DigitsValue(s[5..7]), DigitsValue(s[8..]));
      if ValidDate(d) then Some(d) else None
  }

  lemma TwoDigits(t: string)
    requires |t| == 2 && AllDigits(t)
    ensures DigitsValue(t) == DigitValue(t[0]) * 10 + DigitValue(t[1])
    ensures 0 <= DigitsValue(t) < 100 && Pad2(DigitsValue(t)) == t
  {
    assert t[..1][..0] == [];
    assert DigitsValue(t[..1]) == DigitValue(t[0]);
    var v := DigitsValue(t);
    assert v / 10 == DigitValue(t[0]) && v % 10 == DigitValue(t[1]);
    assert DigitChar(DigitValue(t[0])) == t[0];
    assert DigitChar(DigitValue(t[1])) == t[1];
  }

  lemma Pad2Value(n: int)
    requires 0 <= n < 100
    ensures AllDigits(Pad2(n)) && DigitsValue(Pad2(n)) == n
  {
    TwoDigits(Pad2(n));
  }

  lemma DigitsAppend2(p: string, q: string)
    requires AllDigits(p) && AllDigits(q) && |q| == 2
    ensures AllDigits(p + q) && DigitsValue(p + q) == DigitsValue(p) * 100 + DigitsValue(q)
  {
    var s := p + q;
    assert s[..|s| - 1] == p + [q[0]];
    assert (p + [q[0]])[..|p|] == p;
    TwoDigits(q);
  }

  lemma Pad4Value(n: int)
    requires 0 <= n < 10000
    ensures AllDigits(Pad4(n)) && DigitsValue(Pad4(n)) == n
  {
    Pad2Value(n / 100);
    Pad2Value(n % 100);
    DigitsAppend2(Pad2(n / 100), Pad2(n % 100));
  }

  lemma FourDigits(t: string)
    requires |t| == 4 && AllDigits(t)
    ensures 0 <= DigitsValue(t) < 10000 && Pad4(DigitsValue(t)) == t
  {
    var hi, lo := t[..2], t[2..];
    assert t == hi + lo;
    DigitsAppend2(hi, lo);
    TwoDigits(hi);
    TwoDigits(lo);
    DivMod100(DigitsValue(hi), DigitsValue(lo));
    assert Pad4(DigitsValue(t)) == Pad2(DigitsValue(hi)) + Pad2(DigitsValue(lo));
  }

  lemma DivMod100(hi: int, lo: int)
    requires 0 <= hi < 100 && 0 <= lo < 100
    ensures (hi * 100 + lo) / 100 == hi && (hi * 100 + lo) % 100 == lo
  {
  }

  /** Parsing a key gives back the date it was made from. */
  lemma ParseFormat(d: Date)
    requires ValidDate(d)
    ensures ParseDate(FormatDate(d)) == Some(d)
  {
    var s := FormatDate(d);
    assert s[..4] == Pad4(d.year);
    assert s[5..7] == Pad2(d.month);
    assert s[8..] == Pad2(d.day);
    Pad4Value(d.year);
    Pad2Value(d.month);
    Pad2Value(d.day);
  }

  /** Every string that parses is the key of the date it parses to. */
  lemma FormatParse(s: string)
    requires ParseDate(s).Some?
    ensures FormatDate(ParseDate(s).value) == s
  {
    FourDigits(s[..4]);
    TwoDigits(s[5..7]);
    TwoDigits(s[8..]);
    assert s == s[..4] + "-" + s[5..7] + "-" + s[8..];
  }

  lemma DayKeyRoundTrip(n: int)
    requires 1 <= n <= MaxOrdinal
    ensures ParseDate(DayKey(n)).Some? && Ordinal(ParseDate(DayKey(n)).value) == n
  {
    DateOfOrdinalValid(n);
    ParseFormat(DateOfOrdinal(n));
  }

  /** Distinct days have distinct keys. */
  lemma DayKeyInjective(n1: int, n2: int)
    requires 1 <= n1 <= MaxOrdinal && 1 <= n2 <= MaxOrdinal
    ensures DayKey(n1) == DayKey(n2) <==> n1 == n2
  {
    DayKeyRoundTrip(n1);
    DayKeyRoundTrip(n2);
  }

  // ---- lexical order of keys ----

  /** Comparing two strings that start with equal-length prefixes: the prefixes decide unless equal. */
  lemma {:induction false} LexLessAppend(p1: string, s1: string, p2: string, s2: string)
    requires |p1| == |p2|
    ensures LexLess(p1 + s1, p2 + s2) <==> (LexLess(p1, p2) || (p1 == p2 && LexLess(s1, s2)))
    decreases |p1|
  {
    if p1 != [] {
      assert (p1 + s1)[1..] == p1[1..] + s1 && (p2 + s2)[1..] == p2[1..] + s2;
      LexLessAppend(p1[1..], s1, p2[1..], s2);
      if p1[0] == p2[0] && p1[1..] == p2[1..] {
        assert p1 == [p1[0]] + p1[1..] && p2 == [p2[0]] + p2[1..];
      }
    } else {
      assert p1 + s1 == s1 && p2 + s2 == s2;
    }
  }

  lemma LexLessDigit(a: int, b: int)
    requires 0 <= a <= 9 && 0 <= b <= 9
    ensures LexLess([DigitChar(a)], [DigitChar(b)]) <==> a < b
  {
  }

  lemma LexLessPad2(a: int, b: int)
    requires 0 <= a < 100 && 0 <= b < 100
    ensures LexLess(Pad2(a), Pad2(b)) <==> a < b
  {
    LexLessAppend([DigitChar(a / 10)], [DigitChar(a % 10)], [DigitChar(b / 10)], [DigitChar(b % 10)]);
    LexLessDigit(a / 10, b / 10);
    LexLessDigit(a % 10, b % 10);
  }

  lemma LexLessPad4(a: int, b: int)
    requires 0 <= a < 10000 && 0 <= b < 10000
    ensures LexLess(Pad4(a), Pad4(b)) <==> a < b
  {
    LexLessAppend(Pad2(a / 100), Pad2(a % 100), Pad2(b / 100), Pad2(b % 100));
    LexLessPad2(a / 100, b / 100);
    LexLessPad2(a % 100, b % 100);
    Pad2Value(a / 100);
    Pad2Value(b / 100);
  }

  /** Lexical order of keys is chronological order of dates. */
  lemma KeyOrderIsChronological(a: Date, b: Date)
    requires ValidDate(a) && ValidDate(b)
    ensures LexLess(FormatDate(a), FormatDate(b)) <==> DateLess(a, b)
  {
    var ym := Pad4(a.year) + "-" + Pad2(a.month) + "-";
    assert FormatDate(a) == Pad4(a.year) + ("-" + (Pad2(a.month) + ("-" + Pad2(a.day))));
    assert FormatDate(b) == Pad4(b.year) + ("-" + (Pad2(b.month) + ("-" + Pad2(b.day))));
    LexLessAppend(Pad4(a.year), "-" + (Pad2(a.month) + ("-" + Pad2(a.day))),
                  Pad4(b.year), "-" + (Pad2(b.month) + ("-" + Pad2(b.day))));
    LexLessPad4(a.year, b.year);
    Pad4Value(a.year);
    Pad4Value(b.year);
    LexLessAppend("-", Pad2(a.month) + ("-" + Pad2(a.day)), "-", Pad2(b.month) + ("-" + Pad2(b.day)));
    LexLessIrreflexive("-");
    LexLessAppend(Pad2(a.month), "-" + Pad2(a.day), Pad2(b.month), "-" + Pad2(b.day));
    LexLessPad2(a.month, b.month);
    Pad2Value(a.month);
    Pad2Value(b.month);
    LexLessAppend("-", Pad2(a.day), "-", Pad2(b.day));
    LexLessPad2(a.day, b.day);
  }

  /** Keys of day ordinals sort in the order of the days. */
  lemma DayKeyOrder(n1: int, n2: int)
    requires 1 <= n1 <= MaxOrdinal && 1 <= n2 <= MaxOrdinal
    ensures LexLess(DayKey(n1), DayKey(n2)) <==> n1 < n2
  {
    var a, b := DateOfOrdinal(n1), DateOfOrdinal(n2);
    DateOfOrdinalValid(n1);
    DateOfOrdinalValid(n2);
    KeyOrderIsChronological(a, b);
    if DateLess(a, b) {
      OrdinalMonotone(a, b);
    } else if DateLess(b, a) {
      OrdinalMonotone(b, a);
    }
  }
}
