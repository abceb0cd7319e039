/**
 The calendar arithmetic the validation rules rely on, at whole-day granularity.

 A JavaScript `Date` holds a time value; here a valid date is a `Date(year, month, day)`
 of the proleptic Gregorian calendar and its time value is its day number, computed as
 ECMAScript's MakeDay does (day 0 is 1 January of year 0 rather than 1 January 1970,
 which shifts every time value by the same constant and changes no comparison).
 An Invalid Date is `None`.
 */
module Calendar {
  import opened Wrappers

  datatype Date = Date(year: int, month: int, day: int)

  predicate IsLeapYear(y: int) {
    y % 4 == 0 && (y % 100 != 0 || y % 400 == 0)
  }

  function DaysInYear(y: int): int {
    if IsLeapYear(y) then 366 else 365
  }

  function DaysInMonth(y: int, m: int): int
    requires 1 <= m <= 12
  {
    if m == 2 then (if IsLeapYear(y) then 29 else 28)
    else if m == 4 || m == 6 || m == 9 || m == 11 then 30
    else 31
  }

  /** A real calendar day: the month is 1..12 and the day is within that month. */
  predicate ValidDate(d: Date) {
    1 <= d.month <= 12 && 1 <= d.day <= DaysInMonth(d.year, d.month)
  }

  /** Days from 1 January of year 0 to 1 January of year `y`: 365 per year plus one per
      leap year in between (negative for years before 0). */
  function DaysBeforeYear(y: int): int {
    365 * y + (y + 3) / 4 - (y + 99) / 100 + (y + 399) / 400
  }

  /** Days from 1 January to the first day of month `m` of year `y`. */
  function DaysBeforeMonth(y: int, m: int): int
    requires 1 <= m <= 12
  {
    [0, 31, 59, 90, 120, 151, 181, 212, 243, 273, 304, 334][m - 1]
    + (if m > 2 && IsLeapYear(y) then 1 else 0)
  }

  /** ECMAScript's MakeDay for a month in range and any day-of-month number `dom`:
      a `dom` past the end of the month counts on into the following months and years. */
  function MakeDay(y: int, m: int, dom: int): int
    requires 1 <= m <= 12
  {
    DaysBeforeYear(y) + DaysBeforeMonth(y, m) + dom - 1
  }

  /** The time value of a date, in days. */
  function DayNumber(d: Date): int
    requires 1 <= d.month <= 12
  {
    MakeDay(d.year, d.month, d.day)
  }

  /** Calendar order: earlier year, or same year and earlier month, or same month and earlier day. */
  predicate Precedes(a: Date, b: Date) {
    a.year < b.year
    || (a.year == b.year && (a.month < b.month || (a.month == b.month && a.day < b.day)))
  }

  // ---------------------------------------------------------------------------
  // Year and month lengths agree with the day numbers

  lemma YearLength(y: int)
    ensures DaysBeforeYear(y + 1) == DaysBeforeYear(y) + DaysInYear(y)
  {
    MultipleCount(y, 4);
    MultipleCount(y, 100);
    MultipleCount(y, 400);
    DivisibilityChain(y);
  }

  /** Going from `y` to `y + 1` adds one multiple of `k` to the count exactly when `y` is one. */
  lemma MultipleCount(y: int, k: int)
    requires k == 4 || k == 100 || k == 400
    ensures (y + 1 + (k - 1)) / k == (y + (k - 1)) / k + (if y % k == 0 then 1 else 0)
  {
    var q, r := y / k, y % k;
    assert y == k * q + r && 0 <= r < k;
    assert (y + k) / k == q + 1 by {
      assert y + k == k * (q + 1) + r;
    }
    if r == 0 {
      assert y + k - 1 == k * q + (k - 1);
    } else {
      assert y + k - 1 == k * (q + 1) + (r - 1);
    }
  }

  /** Every multiple of 400 is one of 100, and every multiple of 100 is one of 4. */
  lemma DivisibilityChain(y: int)
    ensures y % 400 == 0 ==> y % 100 == 0
    ensures y % 100 == 0 ==> y % 4 == 0
  {
    if y % 400 == 0 {
      var q := y / 400;
      assert y == 100 * (4 * q);
    }
    if y % 100 == 0 {
      var q := y / 100;
      assert y == 4 * (25 * q);
    }
  }

  /** Reference definition: the lengths of years 0 .. n-1 added up one by one. */
  function SumDaysInYears(n: nat): int {
    if n == 0 then 0 else SumDaysInYears(n - 1) + DaysInYear(n - 1)
  }

  /** The closed form counts exactly the days of the years before `n`. */
  lemma {:induction false} DaysBeforeYearCountsYears(n: nat)
    ensures DaysBeforeYear(n) == SumDaysInYears(n)
  {
    if n > 0 {
      DaysBeforeYearCountsYears(n - 1);
      YearLength(n - 1);
    }
  }

  /** The cumulative month table agrees with the month lengths. */
  lemma MonthLength(y: int, m: int)
    requires 1 <= m <= 12
    ensures m < 12 ==> DaysBeforeMonth(y, m + 1) == DaysBeforeMonth(y, m) + DaysInMonth(y, m)
    ensures m == 12 ==> DaysBeforeMonth(y, m) + DaysInMonth(y, m) == DaysInYear(y)
  {
  }

  lemma {:induction false} LaterYearsStartLater(a: int, b: int)
    requires a < b
    ensures DaysBeforeYear(a) + DaysInYear(a) <= DaysBeforeYear(b)
    decreases b - a
  {
    YearLength(a);
    if a + 1 < b {
      LaterYearsStartLater(a + 1, b);
    }
  }

  lemma {:induction false} LaterMonthsStartLater(y: int, m1: int, m2: int)
    requires 1 <= m1 < m2 <= 12
    ensures DaysBeforeMonth(y, m1) + DaysInMonth(y, m1) <= DaysBeforeMonth(y, m2)
    decreases m2 - m1
  {
    MonthLength(y, m1);
    if m1 + 1 < m2 {
      LaterMonthsStartLater(y, m1 + 1, m2);
    }
  }

  /** A valid date's day number lies within its year. */
  lemma DayWithinYear(d: Date)
    requires ValidDate(d)
    ensures DaysBeforeYear(d.year) <= DayNumber(d) < DaysBeforeYear(d.year) + DaysInYear(d.year)
  {
    if d.month < 12 {
      LaterMonthsStartLater(d.year, d.month, 12);
    }
    MonthLength(d.year, 12);
  }

  /** Comparing time values of valid dates is comparing them in the calendar, and
      equal time values mean the same date. */
  lemma DayNumberOrder(a: Date, b: Date)
    requires ValidDate(a) && ValidDate(b)
    ensures DayNumber(a) < DayNumber(b) <==> Precedes(a, b)
    ensures DayNumber(a) == DayNumber(b) <==> a == b
  {
    DayWithinYear(a);
    DayWithinYear(b);
    if a.year < b.year {
      LaterYearsStartLater(a.year, b.year);
    } else if b.year < a.year {
      LaterYearsStartLater(b.year, a.year);
    } else if a.month < b.month {
      LaterMonthsStartLater(a.year, a.month, b.month);
    } else if b.month < a.month {
      LaterMonthsStartLater(a.year, b.month, a.month);
    }
  }

  // ---------------------------------------------------------------------------
  // Date arithmetic: setDate(getDate() + n) and setFullYear(getFullYear() + n)

  function FirstOfNextMonth(d: Date): (r: Date)
    requires 1 <= d.month <= 12
    ensures ValidDate(r)
    ensures DayNumber(r) == MakeDay(d.year, d.month, DaysInMonth(d.year, d.month) + 1)
  {
    MonthLength(d.year, d.month);
    if d.month == 12 then YearLength(d.year); Date(d.year + 1, 1, 1)
    else Date(d.year, d.month + 1, 1)
  }

  /** `setDate(getDate() + n)`: the day-of-month number grows by `n` and overflows into
      the following months and years, so the result is the normalised date whose time
      value is MakeDay(year, month, day + n). */
  function AddDays(d: Date, n: nat): (r: Date)
    requires ValidDate(d)
    ensures ValidDate(r)
    ensures DayNumber(r) == MakeDay(d.year, d.month, d.day + n)
    decreases n
  {
    var dim := DaysInMonth(d.year, d.month);
    if d.day + n <= dim then Date(d.year, d.month, d.day + n)
    else AddDays(FirstOfNextMonth(d), n - (dim - d.day + 1))
  }

  /** `setFullYear(getFullYear() + n)`: keeps month and day-of-month and lets MakeDay
      normalise, so 29 February in a year that is not a leap year becomes 1 March. */
  function AddYears(d: Date, n: int): (r: Date)
    requires ValidDate(d)
    ensures ValidDate(r) && r.year == d.year + n
    ensures DayNumber(r) == MakeDay(d.year + n, d.month, d.day)
  {
    if d.month == 2 && d.day == 29 && !IsLeapYear(d.year + n) then Date(d.year + n, 3, 1)
    else Date(d.year + n, d.month, d.day)
  }

  /** Only 29 February moves, and only to 1 March of a year that is not a leap year. */
  lemma AddYearsKeepsMonthAndDay(d: Date, n: int)
    requires ValidDate(d)
    ensures AddYears(d, n).month == d.month && AddYears(d, n).day == d.day
            <==> !(d.month == 2 && d.day == 29 && !IsLeapYear(d.year + n))
  {
  }

  /** Adding a positive number of years moves strictly later, and more years move further. */
  lemma AddYearsMonotone(d: Date, n1: int, n2: int)
    requires ValidDate(d) && 0 <= n1 < n2
    ensures n1 > 0 ==> Precedes(d, AddYears(d, n1))
    ensures Precedes(AddYears(d, n1), AddYears(d, n2))
  {
  }

  // ---------------------------------------------------------------------------
  // Time values: an Invalid Date is None, and every comparison with it is false

  function TimeValue(d: Option<Date>): (t: Option<int>)
    requires d.Some? ==> ValidDate(d.value)
    ensures t.Some? <==> d.Some?
  {
    match d
    case None => None
    case Some(x) => Some(DayNumber(x))
  }

  /** JavaScript `a < b` on two Dates. */
  predicate Less(a: Option<int>, b: Option<int>) {
    a.Some? && b.Some? && a.value < b.value
  }

  /** JavaScript `a <= b` on two Dates. */
  predicate LessOrEqual(a: Option<int>, b: Option<int>) {
    a.Some? && b.Some? && a.value <= b.value
  }

  /** JavaScript `a > b` on two Dates. */
  predicate Greater(a: Option<int>, b: Option<int>) {
    a.Some? && b.Some? && a.value > b.value
  }

  /** JavaScript's `<`, `<=` and `>` on two Dates are calendar order when both are valid,
      and false as soon as one of them is an Invalid Date. */
  lemma TimeValueOrder(a: Option<Date>, b: Option<Date>)
    requires a.Some? ==> ValidDate(a.value)
    requires b.Some? ==> ValidDate(b.value)
    ensures Less(TimeValue(a), TimeValue(b)) <==>
      a.Some? && b.Some? && Precedes(a.value, b.value)
    ensures LessOrEqual(TimeValue(a), TimeValue(b)) <==>
      a.Some? && b.Some? && (Precedes(a.value, b.value) || a.value == b.value)
    ensures Greater(TimeValue(a), TimeValue(b)) <==>
      a.Some? && b.Some? && Precedes(b.value, a.value)
  {
    if a.Some? && b.Some? {
      DayNumberOrder(a.value, b.value);
      DayNumberOrder(b.value, a.value);
    }
  }

  /** `new Date(d)` followed by `setFullYear(getFullYear() + n)`: an Invalid Date has a
      NaN year, so the result is invalid too. */
  function YearsLater(d: Option<Date>, n: int): (r: Option<Date>)
    requires d.Some? ==> ValidDate(d.value)
    ensures r.Some? <==> d.Some?
    ensures r.Some? ==> ValidDate(r.value) && r.value == AddYears(d.value, n)
  {
    match d
    case None => None
    case Some(x) => Some(AddYears(x, n))
  }

  // ---------------------------------------------------------------------------
  // The ISO date-only form YYYY-MM-DD that a date input produces

  predicate IsDigit(c: char) {
    '0' <= c <= '9'
  }

  predicate AllDigits(s: string) {
    forall i | 0 <= i < |s| :: IsDigit(s[i])
  }

  function DigitValue(c: char): int
    requires IsDigit(c)
  {
    c as int - '0' as int
  }

  function DigitChar(n: int): (c: char)
    requires 0 <= n <= 9
    ensures IsDigit(c) && DigitValue(c) == n
  {
    ('0' as int + n) as char
  }

  function Pow10(n: nat): nat {
    if n == 0 then 1 else 10 * Pow10(n - 1)
  }

  /** The decimal value of a string of digits. */
  function Numeral(s: string): (v: int)
    requires AllDigits(s)
    ensures 0 <= v < Pow10(|s|)
  {
    if s == [] then 0
    else Numeral(s[..|s| - 1]) * 10 + DigitValue(s[|s| - 1])
  }

  /** The last `width` decimal digits of `n`, with leading zeros. */
  function ZeroPadded(n: int, width: nat): (s: string)
    requires 0 <= n
    ensures |s| == width && AllDigits(s)
  {
    if width == 0 then []
    else ZeroPadded(n / 10, width - 1) + [DigitChar(n % 10)]
  }

  lemma {:induction false} NumeralOfZeroPadded(n: int, width: nat)
    requires 0 <= n < Pow10(width)
    ensures Numeral(ZeroPadded(n, width)) == n
  {
    if width > 0 {
      var s := ZeroPadded(n, width);
      assert s[..|s| - 1] == ZeroPadded(n / 10, width - 1);
      NumeralOfZeroPadded(n / 10, width - 1);
    }
  }

  lemma {:induction false} ZeroPaddedOfNumeral(s: string)
    requires AllDigits(s)
    ensures ZeroPadded(Numeral(s), |s|) == s
  {
    if s != [] {
      var init := s[..|s| - 1];
      ZeroPaddedOfNumeral(init);
      assert Numeral(s) / 10 == Numeral(init);
      assert Numeral(s) % 10 == DigitValue(s[|s| - 1]);
      assert s == init + [s[|s| - 1]];
    }
  }

  /** `new Date(s)` for the ISO date-only form: four digits, `-`, two digits, `-`, two
      digits, naming a real calendar day; every other string is an Invalid Date. */
  function ParseIsoDate(s: string): (r: Option<Date>)
    ensures r.Some? ==> ValidDate(r.value) && 0 <= r.value.year <= 9999
  {
    if |s| == 10 && s[4] == '-' && s[7] == '-'
       && AllDigits(s[..4]) && AllDigits(s[5..7]) && AllDigits(s[8..])
    then
      var y, m, d := Numeral(s[..4]), Numeral(s[5..7]), Numeral(s[8..]);
      if 1 <= m <= 12 && 1 <= d <= DaysInMonth(y, m) then Some(Date(y, m, d)) else None
    else None
  }

  /** The YYYY-MM-DD text of a date with a four-digit year. */
  function FormatIsoDate(d: Date): (s: string)
    requires ValidDate(d) && 0 <= d.year <= 9999
    ensures |s| == 10
  {
    ZeroPadded(d.year, 4) + "-" + ZeroPadded(d.month, 2) + "-" + ZeroPadded(d.day, 2)
  }

  lemma ParseFormatted(d: Date)
    requires ValidDate(d) && 0 <= d.year <= 9999
    ensures ParseIsoDate(FormatIsoDate(d)) == Some(d)
  {
    var s := FormatIsoDate(d);
    assert s[..4] == ZeroPadded(d.year, 4);
    assert s[5..7] == ZeroPadded(d.month, 2);
    assert s[8..] == ZeroPadded(d.day, 2);
    NumeralOfZeroPadded(d.year, 4);
    NumeralOfZeroPadded(d.month, 2);
    NumeralOfZeroPadded(d.day, 2);
  }

  lemma FormatParsed(s: string)
    requires ParseIsoDate(s).Some?
    ensures FormatIsoDate(ParseIsoDate(s).value) == s
  {
    ZeroPaddedOfNumeral(s[..4]);
    ZeroPaddedOfNumeral(s[5..7]);
    ZeroPaddedOfNumeral(s[8..]);
    assert s == s[..4] + "-" + s[5..7] + "-" + s[8..];
  }

  // ---------------------------------------------------------------------------
  // Worked examples

  /** 29 February plus one or three years is 1 March; plus four years it is 29 February
      again; day addition runs over month and year ends. */
  lemma CalendarExamples()
    ensures AddYears(Date(2024, 2, 29), 1) == Date(2025, 3, 1)
    ensures AddYears(Date(2024, 2, 29), 3) == Date(2027, 3, 1)
    ensures AddYears(Date(2024, 2, 29), 4) == Date(2028, 2, 29)
    ensures AddDays(Date(2024, 1, 1), 15) == Date(2024, 1, 16)
    ensures AddDays(Date(2024, 2, 20), 15) == Date(2024, 3, 6)
    ensures AddDays(Date(2023, 2, 20), 15) == Date(2023, 3, 7)
    ensures AddDays(Date(2024, 12, 20), 15) == Date(2025, 1, 4)
  {
  }

  /** A date input's text parses to its date, and a string of another form does not. */
  lemma IsoDateExamples()
    ensures ParseIsoDate("2024-02-29") == Some(Date(2024, 2, 29))
    ensures ParseIsoDate("") == None && ParseIsoDate("2024-1-05") == None
  {
    assert FormatIsoDate(Date(2024, 2, 29)) == "2024-02-29";
    ParseFormatted(Date(2024, 2, 29));
  }

  /** A 29 February outside a leap year is an Invalid Date. */
  lemma NoLeapDayExample()
    ensures ParseIsoDate("2023-02-29") == None
  {
    var s := "2023-02-29";
    assert s[..4] == "2023" && s[5..7] == "02" && s[8..] == "29";
    assert "2023"[..3] == "202" && "202"[..2] == "20" && "20"[..1] == "2" && "2"[..0] == "";
    assert "02"[..1] == "0" && "0"[..0] == "" && "29"[..1] == "2";
    assert Numeral("2023") == 2023 && Numeral("02") == 2 && Numeral("29") == 29;
  }

  /** A thirteenth month is an Invalid Date. */
  lemma NoThirteenthMonthExample()
    ensures ParseIsoDate("2024-13-01") == None
  {
    var t := "2024-13-01";
    assert t[5..7] == "13";
    assert "13"[..1] == "1" && "1"[..0] == "";
    assert Numeral("13") == 13;
  }
}
