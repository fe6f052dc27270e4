/** Strict `YYYY-MM-DD` dates (custom_components/nestquest/core/dao_rules.py): stored as text, compared as
    text, and meant as calendar days. */
module IsoDates {
  import opened Options

  datatype Date = Date(year: int, month: int, day: int)

  predicate IsLeap(y: int) {
    y % 4 == 0 && (y % 100 != 0 || y % 400 == 0)
  }

  function DaysInMonth(y: int, m: int): int {
    if m == 2 then (if IsLeap(y) then 29 else 28)
    else if m == 4 || m == 6 || m == 9 || m == 11 then 30
    else 31
  }

  predicate IsDate(d: Date) {
    1 <= d.year <= 9999 && 1 <= d.month <= 12 && 1 <= d.day <= DaysInMonth(d.year, d.month)
  }

  // ----- day numbers

  function DaysBeforeYear(y: int): int {
    365 * (y - 1) + (y - 1) / 4 - (y - 1) / 100 + (y - 1) / 400
  }

  function DaysBeforeMonth(y: int, m: int): int
    requires 1 <= m
    decreases m
  {
    if m == 1 then 0 else DaysBeforeMonth(y, m - 1) + DaysInMonth(y, m - 1)
  }

  const EPOCH := 719163

  /** Days since 1970-01-01 in the proleptic Gregorian calendar. */
  function DayNumber(d: Date): int
    requires IsDate(d)
  {
    DaysBeforeYear(d.year) + DaysBeforeMonth(d.year, d.month) + d.day - EPOCH
  }

  predicate DateBefore(a: Date, b: Date) {
    a.year < b.year || (a.year == b.year && (a.month < b.month || (a.month == b.month && a.day < b.day)))
  }

  lemma YearLength(y: int)
    requires 1 <= y
    ensures DaysBeforeYear(y + 1) == DaysBeforeYear(y) + if IsLeap(y) then 366 else 365
  {
    Every4(y);
    Every100(y);
    Every400(y);
    Nested(y);
    hide IsLeap;
    assert IsLeap(y) <==> Divides(y, 4) && (!Divides(y, 100) || Divides(y, 400)) by { Leaps(y); }
    hide Divides;
    assert y + 1 - 1 == y;
  }

  predicate Divides(y: int, n: int)
    requires n != 0
  {
    y % n == 0
  }

  lemma Leaps(y: int)
    ensures IsLeap(y) <==> Divides(y, 4) && (!Divides(y, 100) || Divides(y, 400))
  {}

  lemma Every4(y: int)
    ensures y / 4 == (y - 1) / 4 + if Divides(y, 4) then 1 else 0
  {}

  lemma Every100(y: int)
    ensures y / 100 == (y - 1) / 100 + if Divides(y, 100) then 1 else 0
  {}

  lemma Every400(y: int)
    ensures y / 400 == (y - 1) / 400 + if Divides(y, 400) then 1 else 0
  {}

  lemma Nested(y: int)
    ensures Divides(y, 400) ==> Divides(y, 100)
    ensures Divides(y, 100) ==> Divides(y, 4)
  {}

  lemma {:induction false} YearsAscend(a: int, b: int)
    requires 1 <= a < b
    ensures DaysBeforeYear(a) + 365 <= DaysBeforeYear(b)
    ensures DaysBeforeYear(a + 1) <= DaysBeforeYear(b)
    decreases b
  {
    hide DaysBeforeYear;
    YearLength(b - 1);
    if a < b - 1 { YearsAscend(a, b - 1); }
  }

  lemma {:induction false} MonthsAscend(y: int, a: int, b: int)
    requires 1 <= a < b <= 12
    ensures DaysBeforeMonth(y, a) + DaysInMonth(y, a) <= DaysBeforeMonth(y, b)
    decreases b
  {
    if a < b - 1 { MonthsAscend(y, a, b - 1); }
  }

  lemma YearDays(y: int)
    ensures DaysBeforeMonth(y, 12) == if IsLeap(y) then 335 else 334
  {
    assert DaysBeforeMonth(y, 2) == 31;
    assert DaysBeforeMonth(y, 4) == DaysBeforeMonth(y, 3) + 31;
    assert DaysBeforeMonth(y, 6) == DaysBeforeMonth(y, 5) + 31;
    assert DaysBeforeMonth(y, 8) == DaysBeforeMonth(y, 7) + 31;
    assert DaysBeforeMonth(y, 10) == DaysBeforeMonth(y, 9) + 30;
  }

  /** A date lies inside its year. */
  lemma InYear(d: Date)
    requires IsDate(d)
    ensures 0 < DaysBeforeMonth(d.year, d.month) + d.day <= if IsLeap(d.year) then 366 else 365
  {
    var y := d.year;
    YearDays(y);
    if d.month < 12 { MonthsAscend(y, d.month, 12); }
    NoNegativeMonth(y, d.month);
  }

  lemma {:induction false} NoNegativeMonth(y: int, m: int)
    requires 1 <= m
    ensures 0 <= DaysBeforeMonth(y, m)
    decreases m
  {
    if m > 1 { NoNegativeMonth(y, m - 1); }
  }

  /** Calendar order is day-number order. */
  lemma DayNumberAscends(a: Date, b: Date)
    requires IsDate(a) && IsDate(b)
    ensures DateBefore(a, b) <==> DayNumber(a) < DayNumber(b)
    ensures a == b <==> DayNumber(a) == DayNumber(b)
  {
    if DateBefore(a, b) { DayNumberGrows(a, b); }
    if DateBefore(b, a) { DayNumberGrows(b, a); }
  }

  lemma DayNumberGrows(a: Date, b: Date)
    requires IsDate(a) && IsDate(b) && DateBefore(a, b)
    ensures DayNumber(a) < DayNumber(b)
  {
    hide DaysBeforeYear, DaysBeforeMonth;
    if a.year < b.year {
      InYear(a);
      InYear(b);
      YearLength(a.year);
      YearsAscend(a.year, b.year);
    } else if a.month < b.month {
      MonthsAscend(a.year, a.month, b.month);
    }
  }

  function DayAfter(d: Date): Date
    requires IsDate(d)
  {
    if d.day < DaysInMonth(d.year, d.month) then Date(d.year, d.month, d.day + 1)
    else if d.month < 12 then Date(d.year, d.month + 1, 1)
    else Date(d.year + 1, 1, 1)
  }

  /** Days are counted one by one, and 1970-01-01 is day 0. */
  lemma DayNumberCounts(d: Date)
    requires IsDate(d) && d != Date(9999, 12, 31)
    ensures IsDate(DayAfter(d)) && DayNumber(DayAfter(d)) == DayNumber(d) + 1
    ensures DayNumber(Date(1970, 1, 1)) == 0
  {
    if d.day == DaysInMonth(d.year, d.month) && d.month == 12 {
      YearLength(d.year);
      YearDays(d.year);
    }
    hide DaysBeforeYear;
    EpochIsZero();
  }

  lemma EpochIsZero()
    ensures DayNumber(Date(1970, 1, 1)) == 0
  {}

  /** The months of a year, and its leap days. */
  lemma CalendarIs(y: int, m: int)
    requires 1 <= m <= 12
    ensures m in {1, 3, 5, 7, 8, 10, 12} ==> DaysInMonth(y, m) == 31
    ensures m in {4, 6, 9, 11} ==> DaysInMonth(y, m) == 30
    ensures m == 2 ==>
              DaysInMonth(y, m) == if Divides(y, 400) || (Divides(y, 4) && !Divides(y, 100)) then 29 else 28
  {
    Leaps(y);
    Nested(y);
    hide IsLeap, Divides;
  }

  /** The dates are those of the years 1 to 9999. */
  lemma IsDateIff(y: int, m: int, d: int)
    ensures IsDate(Date(y, m, d)) <==> 0 < y < 10000 && 0 < m < 13 && 0 < d <= DaysInMonth(y, m)
  {
    hide DaysInMonth;
  }

  // ----- the text

  function Digit(n: int): char
    requires 0 <= n < 10
  {
    '0' + n as char
  }

  /** `n` in `width` decimal digits. */
  function Padded(n: int, width: nat): (s: string)
    requires 0 <= n
    ensures |s| == width
    decreases width
  {
    if width == 0 then "" else Padded(n / 10, width - 1) + [Digit(n % 10)]
  }

  function Isoformat(d: Date): string
    requires IsDate(d)
  {
    Dashed(Dashed(Padded(d.year, 4), Padded(d.month, 2)), Padded(d.day, 2))
  }

  function Dashed(a: string, b: string): (s: string)
    ensures |s| == |a| + 1 + |b|
  {
    a + "-" + b
  }

  predicate IsDigit(c: char) { '0' <= c <= '9' }

  predicate AllDigits(s: string) {
    forall i :: 0 <= i < |s| ==> IsDigit(s[i])
  }

  function Number(s: string): int
    requires AllDigits(s)
  {
    if s == "" then 0 else 10 * Number(s[..|s| - 1]) + (s[|s| - 1] - '0') as int
  }

  function Power(n: nat): int {
    if n == 0 then 1 else 10 * Power(n - 1)
  }

  /** The date a strict text names; `None` where the source raises. */
  function ParseDate(s: string): Option<Date> {
    if |s| == 10 && s[4] == '-' && s[7] == '-' && AllDigits(s[..4]) && AllDigits(s[5..7]) && AllDigits(s[8..]) then
      var d := Date(Number(s[..4]), Number(s[5..7]), Number(s[8..]));
      if IsDate(d) then Some(d) else None
    else None
  }

  lemma {:induction false} NumberOfPadded(n: int, width: nat)
    requires 0 <= n < Power(width)
    ensures AllDigits(Padded(n, width)) && Number(Padded(n, width)) == n
  {
    if width > 0 {
      NumberOfPadded(n / 10, width - 1);
      var s := Padded(n, width);
      assert s[..|s| - 1] == Padded(n / 10, width - 1);
    }
  }

  lemma {:induction false} PaddedOfNumber(s: string)
    requires AllDigits(s)
    ensures 0 <= Number(s) < Power(|s|) && Padded(Number(s), |s|) == s
  {
    if s != "" {
      var front, last := s[..|s| - 1], (s[|s| - 1] - '0') as int;
      PaddedOfNumber(front);
      assert Number(s) / 10 == Number(front) && Number(s) % 10 == last;
      assert s == front + [Digit(last)];
    }
  }

  /** The accepted texts are exactly the ISO forms of calendar dates, each of its own date. */
  lemma ParseDateIff(s: string, d: Date)
    ensures ParseDate(s) == Some(d) <==> IsDate(d) && s == Isoformat(d)
  {
    if ParseDate(s) == Some(d) { PrintsBack(s); }
    if IsDate(d) && s == Isoformat(d) { ParsesBack(d); }
  }

  lemma PrintsBack(s: string)
    requires ParseDate(s).Some?
    ensures s == Isoformat(ParseDate(s).value)
  {
    hide Number, Padded, Power;
    PaddedOfNumber(s[..4]);
    PaddedOfNumber(s[5..7]);
    PaddedOfNumber(s[8..]);
    assert s == s[..4] + "-" + s[5..7] + "-" + s[8..];
  }

  lemma ParsesBack(d: Date)
    requires IsDate(d)
    ensures ParseDate(Isoformat(d)) == Some(d)
  {
    hide Number, Padded;
    Powers();
    hide Power;
    NumberOfPadded(d.year, 4);
    NumberOfPadded(d.month, 2);
    NumberOfPadded(d.day, 2);
    var s := Isoformat(d);
    assert s[..4] == Padded(d.year, 4);
    assert s[5..7] == Padded(d.month, 2);
    assert s[8..] == Padded(d.day, 2);
  }

  // ----- text order

  /** Python's and SQLite's `<` on text. */
  predicate TextBefore(s: string, t: string) {
    t != "" && (s == "" || s[0] < t[0] || (s[0] == t[0] && TextBefore(s[1..], t[1..])))
  }

  lemma {:induction false} TextBeforeConcat(a: string, b: string, x: string, y: string)
    requires |a| == |b|
    ensures TextBefore(a + x, b + y) <==> TextBefore(a, b) || (a == b && TextBefore(x, y))
  {
    if a == "" {
      assert a + x == x && b + y == y;
    } else {
      assert (a + x)[1..] == a[1..] + x && (b + y)[1..] == b[1..] + y;
      TextBeforeConcat(a[1..], b[1..], x, y);
      assert a == [a[0]] + a[1..] && b == [b[0]] + b[1..];
    }
  }

  lemma {:induction false} PaddedAscends(m: int, n: int, width: nat)
    requires 0 <= m < Power(width) && 0 <= n < Power(width)
    ensures TextBefore(Padded(m, width), Padded(n, width)) <==> m < n
    ensures Padded(m, width) == Padded(n, width) <==> m == n
  {
    if width > 0 {
      PaddedAscends(m / 10, n / 10, width - 1);
      NumberOfPadded(m, width);
      NumberOfPadded(n, width);
      TextBeforeConcat(Padded(m / 10, width - 1), Padded(n / 10, width - 1), [Digit(m % 10)], [Digit(n % 10)]);
    }
  }

  lemma NotBeforeItself(s: string)
    ensures !TextBefore(s, s)
  {}

  lemma ConcatEqual(a: string, b: string, x: string, y: string)
    requires |a| == |b|
    ensures a + x == b + y <==> a == b && x == y
  {
    if a + x == b + y {
      assert a == (a + x)[..|a|] && x == (a + x)[|a|..];
      assert b == (b + y)[..|b|] && y == (b + y)[|b|..];
    }
  }

  /** Comparing the texts of two dates compares the dates. */
  lemma TextOrderIsCalendarOrder(a: Date, b: Date)
    requires IsDate(a) && IsDate(b)
    ensures TextBefore(Isoformat(a), Isoformat(b)) <==> DayNumber(a) < DayNumber(b)
    ensures Isoformat(a) == Isoformat(b) <==> DayNumber(a) == DayNumber(b)
  {
    hide TextBefore, Padded, DayNumber, Dashed;
    Powers();
    var ya, ma, da := Padded(a.year, 4), Padded(a.month, 2), Padded(a.day, 2);
    var yb, mb, db := Padded(b.year, 4), Padded(b.month, 2), Padded(b.day, 2);
    hide Power;
    PaddedAscends(a.year, b.year, 4);
    PaddedAscends(a.month, b.month, 2);
    PaddedAscends(a.day, b.day, 2);
    DayNumberAscends(a, b);
    Dash(Dashed(ya, ma), Dashed(yb, mb), da, db);
    Dash(ya, yb, ma, mb);
  }

  lemma Powers()
    ensures Power(4) == 10000 && Power(2) == 100
  {
    assert Power(1) == 10;
    assert Power(3) == 1000;
  }

  lemma Dash(a: string, b: string, x: string, y: string)
    requires |a| == |b|
    ensures TextBefore(Dashed(a, x), Dashed(b, y)) <==> TextBefore(a, b) || (a == b && TextBefore(x, y))
    ensures Dashed(a, x) == Dashed(b, y) <==> a == b && x == y
  {
    hide TextBefore;
    TextBeforeConcat(a + "-", b + "-", x, y);
    TextBeforeConcat(a, b, "-", "-");
    NotBeforeItself("-");
    ConcatEqual(a + "-", b + "-", x, y);
    ConcatEqual(a, b, "-", "-");
  }
}
