/** UTC clock readings, counted in nanoseconds from 1970-01-01T00:00:00Z, and the text
    that time.RFC3339 prints for them (section 5.6 of RFC 3339, `Z` form, whole seconds). */
module Clock {

  const SECOND: nat := 1_000_000_000
  const MINUTE: nat := 60 * SECOND
  const HOUR: nat := 60 * MINUTE
  const DAY: nat := 24 * HOUR

  const EPOCH_YEAR: nat := 1970

  // ---- Calendar -----------------------------------------------------------------

  predicate Leap(year: nat) {
    year % 4 == 0 && (year % 100 != 0 || year % 400 == 0)
  }

  function DaysInYear(year: nat): nat {
    if Leap(year) then 366 else 365
  }

  function DaysInMonth(year: nat, month: nat): (n: nat)
    ensures 28 <= n <= 31
  {
    if month == 2 then (if Leap(year) then 29 else 28)
    else if month == 4 || month == 6 || month == 9 || month == 11 then 30
    else 31
  }

  /** A calendar position: the unit (a year or a month) and the days left inside it. */
  datatype Place = Place(unit: nat, rest: nat)

  /** The year that lies `days` days after 1 January of `year`. */
  function YearPlace(year: nat, days: nat): (p: Place)
    ensures p.unit >= year && p.rest < 366
    decreases days
  {
    if days < DaysInYear(year) then Place(year, days) else YearPlace(year + 1, days - DaysInYear(year))
  }

  /** The month of `year` that lies `days` days after the first of `month`. */
  function MonthPlace(year: nat, month: nat, days: nat): (p: Place)
    requires month <= 12
    ensures month <= p.unit <= 12
    decreases 12 - month
  {
    if days < DaysInMonth(year, month) || month == 12 then Place(month, days)
    else MonthPlace(year, month + 1, days - DaysInMonth(year, month))
  }

  lemma {:induction false} YearPlaceInjective(year: nat, a: nat, b: nat)
    requires YearPlace(year, a) == YearPlace(year, b)
    ensures a == b
    decreases a
  {
    var n := DaysInYear(year);
    if a >= n && b >= n {
      YearPlaceInjective(year + 1, a - n, b - n);
    }
  }

  lemma {:induction false} MonthPlaceInjective(year: nat, month: nat, a: nat, b: nat)
    requires month <= 12 && MonthPlace(year, month, a) == MonthPlace(year, month, b)
    ensures a == b
    decreases 12 - month
  {
    var n := DaysInMonth(year, month);
    if a >= n && b >= n && month < 12 {
      MonthPlaceInjective(year, month + 1, a - n, b - n);
    }
  }

  lemma {:induction false} MonthRestBound(year: nat, month: nat, days: nat)
    requires 1 <= month <= 12
    requires days < 366
    requires days < DaysFrom(year, month)
    ensures MonthPlace(year, month, days).rest < 31
    decreases 12 - month
  {
    if days >= DaysInMonth(year, month) && month < 12 {
      MonthRestBound(year, month + 1, days - DaysInMonth(year, month));
    }
  }

  /** Days from the first of `month` to the end of the year. */
  function DaysFrom(year: nat, month: nat): nat
    requires month <= 12
    decreases 12 - month
  {
    DaysInMonth(year, month) + if month == 12 then 0 else DaysFrom(year, month + 1)
  }

  lemma {:induction false} MonthsFillTheYear(year: nat)
    ensures DaysFrom(year, 1) == DaysInYear(year)
  {
    assert DaysFrom(year, 10) == 92;
    assert DaysFrom(year, 7) == 184;
    assert DaysFrom(year, 4) == 275;
  }

  lemma {:induction false} YearRestFits(year: nat, days: nat)
    ensures var p := YearPlace(year, days); p.rest < DaysInYear(p.unit)
    decreases days
  {
    if days >= DaysInYear(year) {
      YearRestFits(year + 1, days - DaysInYear(year));
    }
  }

  /** Whole days since the epoch. */
  function DayNumber(t: nat): nat {
    t / SECOND / 86400
  }

  function YearOf(t: nat): nat {
    YearPlace(EPOCH_YEAR, DayNumber(t)).unit
  }

  function DayOfYear(t: nat): nat {
    YearPlace(EPOCH_YEAR, DayNumber(t)).rest
  }

  function DateInYear(t: nat): Place {
    MonthPlace(YearOf(t), 1, DayOfYear(t))
  }

  // ---- Printing -----------------------------------------------------------------

  function Pow10(n: nat): (r: nat)
    ensures r > 0
  {
    if n == 0 then 1 else 10 * Pow10(n - 1)
  }

  function DigitChar(d: nat): (c: char)
    requires d < 10
    ensures c as int == '0' as int + d
  {
    (d + '0' as int) as char
  }

  /** The last `width` decimal digits of n, zero-padded. */
  function Digits(n: nat, width: nat): (s: string)
    ensures |s| == width
  {
    if width == 0 then "" else Digits(n / 10, width - 1) + [DigitChar(n % 10)]
  }

  lemma {:induction false} DigitsInjective(n: nat, m: nat, width: nat)
    requires n < Pow10(width) && m < Pow10(width)
    requires Digits(n, width) == Digits(m, width)
    ensures n == m
  {
    if width != 0 {
      var a, b := Digits(n / 10, width - 1), Digits(m / 10, width - 1);
      assert a == Digits(n, width)[..width - 1] && b == Digits(m, width)[..width - 1];
      assert DigitChar(n % 10) == Digits(n, width)[width - 1] == Digits(m, width)[width - 1] == DigitChar(m % 10);
      DigitsInjective(n / 10, m / 10, width - 1);
    }
  }

  /** The six printed numbers. */
  datatype Fields = Fields(year: nat, month: nat, day: nat, hour: nat, minute: nat, second: nat)

  function FieldsOf(t: nat): Fields {
    var date, s := DateInYear(t), t / SECOND;
    Fields(YearOf(t), date.unit, date.rest + 1, s / 3600 % 24, s / 60 % 60, s % 60)
  }

  function Print(f: Fields): (s: string)
    ensures |s| == 20
  {
    Digits(f.year, 4) + "-" + Digits(f.month, 2) + "-" + Digits(f.day, 2) + "T" +
    Digits(f.hour, 2) + ":" + Digits(f.minute, 2) + ":" + Digits(f.second, 2) + "Z"
  }

  /** t.Format(time.RFC3339) for a UTC reading. */
  function Format(t: nat): (s: string)
    ensures |s| == 20
  {
    Print(FieldsOf(t))
  }

  /** The reading has a four-digit year. */
  predicate Printable(t: nat) {
    YearOf(t) < 10000
  }

  lemma PrintedPieces(f: Fields)
    ensures Print(f)[0..4] == Digits(f.year, 4) && Print(f)[5..7] == Digits(f.month, 2)
    ensures Print(f)[8..10] == Digits(f.day, 2) && Print(f)[11..13] == Digits(f.hour, 2)
    ensures Print(f)[14..16] == Digits(f.minute, 2) && Print(f)[17..19] == Digits(f.second, 2)
  {
  }

  predicate FieldsFit(f: Fields) {
    f.year < 10000 && f.month < 100 && f.day < 100 && f.hour < 100 && f.minute < 100 && f.second < 100
  }

  lemma PrintInjective(f: Fields, g: Fields)
    requires FieldsFit(f) && FieldsFit(g) && Print(f) == Print(g)
    ensures f == g
  {
    PrintedPieces(f);
    PrintedPieces(g);
    assert Pow10(2) == 100 && Pow10(4) == 10000 by {
      assert Pow10(1) == 10 && Pow10(3) == 1000;
    }
    DigitsInjective(f.year, g.year, 4);
    DigitsInjective(f.month, g.month, 2);
    DigitsInjective(f.day, g.day, 2);
    DigitsInjective(f.hour, g.hour, 2);
    DigitsInjective(f.minute, g.minute, 2);
    DigitsInjective(f.second, g.second, 2);
  }

  lemma PrintableFieldsFit(t: nat)
    requires Printable(t)
    ensures FieldsFit(FieldsOf(t))
  {
    YearRestFits(EPOCH_YEAR, DayNumber(t));
    MonthsFillTheYear(YearOf(t));
    MonthRestBound(YearOf(t), 1, DayOfYear(t));
  }

  /** The day and the time of day make up the second. */
  lemma HoursFromMinutes(s: nat)
    ensures s / 3600 == s / 60 / 60 && s / 86400 == s / 60 / 60 / 24
  {
  }

  lemma SecondFromParts(s: nat)
    ensures s == s / 86400 * 86400 + s / 3600 % 24 * 3600 + s / 60 % 60 * 60 + s % 60
  {
    HoursFromMinutes(s);
    var minutes, hours := s / 60, s / 60 / 60;
    assert s == minutes * 60 + s % 60;
    assert minutes == hours * 60 + minutes % 60;
    assert hours == hours / 24 * 24 + hours % 24;
  }

  /** Two readings print alike exactly when they lie in the same second. */
  lemma FormatDeterminesSecond(t: nat, u: nat)
    requires Printable(t) && Printable(u)
    ensures Format(t) == Format(u) <==> t / SECOND == u / SECOND
  {
    if Format(t) == Format(u) {
      PrintableFieldsFit(t);
      PrintableFieldsFit(u);
      PrintInjective(FieldsOf(t), FieldsOf(u));
      MonthPlaceInjective(YearOf(t), 1, DayOfYear(t), DayOfYear(u));
      YearPlaceInjective(EPOCH_YEAR, DayNumber(t), DayNumber(u));
      SecondFromParts(t / SECOND);
      SecondFromParts(u / SECOND);
    }
  }

  // ---- Reading a timestamp back -----------------------------------------------------

  /** Days from 1 January 1970 to 1 January of `year`. */
  function DaysBeforeYear(year: nat): nat {
    if year <= EPOCH_YEAR then 0 else DaysBeforeYear(year - 1) + DaysInYear(year - 1)
  }

  /** Days from 1 January to the first of `month`. */
  function DaysBeforeMonth(year: nat, month: nat): nat {
    if month <= 1 then 0 else DaysBeforeMonth(year, month - 1) + DaysInMonth(year, month - 1)
  }

  /** The second that a date and a time of day name. */
  function SecondOf(f: Fields): int {
    (DaysBeforeYear(f.year) + DaysBeforeMonth(f.year, f.month) + f.day - 1) * 86400 +
    f.hour * 3600 + f.minute * 60 + f.second
  }

  lemma {:induction false} YearPlaceCounts(year: nat, days: nat)
    requires year >= EPOCH_YEAR
    ensures var p := YearPlace(year, days); DaysBeforeYear(p.unit) + p.rest == DaysBeforeYear(year) + days
    decreases days
  {
    if days >= DaysInYear(year) {
      YearPlaceCounts(year + 1, days - DaysInYear(year));
    }
  }

  lemma {:induction false} MonthPlaceCounts(year: nat, month: nat, days: nat)
    requires 1 <= month <= 12
    ensures var p := MonthPlace(year, month, days);
            DaysBeforeMonth(year, p.unit) + p.rest == DaysBeforeMonth(year, month) + days
    decreases 12 - month
  {
    if days >= DaysInMonth(year, month) && month < 12 {
      MonthPlaceCounts(year, month + 1, days - DaysInMonth(year, month));
    }
  }

  lemma FieldsTellTime(t: nat)
    ensures SecondOf(FieldsOf(t)) == t / SECOND
    ensures FieldsOf(t).year >= EPOCH_YEAR && 1 <= FieldsOf(t).month <= 12 && FieldsOf(t).day >= 1
    ensures FieldsOf(t).hour < 24 && FieldsOf(t).minute < 60 && FieldsOf(t).second < 60
  {
    YearPlaceCounts(EPOCH_YEAR, DayNumber(t));
    MonthPlaceCounts(YearOf(t), 1, DayOfYear(t));
    SecondFromParts(t / SECOND);
  }

  /** The number that decimal digits spell. */
  function ValueOf(s: string): int {
    if s == "" then 0 else 10 * ValueOf(s[..|s| - 1]) + (s[|s| - 1] as int - '0' as int)
  }

  lemma {:induction false} DigitsReadBack(n: nat, width: nat)
    requires n < Pow10(width)
    ensures ValueOf(Digits(n, width)) == n
  {
    if width > 0 {
      DigitsReadBack(n / 10, width - 1);
      assert Digits(n, width)[..width - 1] == Digits(n / 10, width - 1);
    }
  }

  /** A printed timestamp names the second it was printed for, in year, month, day, hour,
      minute and second. */
  lemma TimestampReadsBack(t: nat)
    requires Printable(t)
    ensures var s, f := Format(t), FieldsOf(t);
            && ValueOf(s[0..4]) == f.year && ValueOf(s[5..7]) == f.month && ValueOf(s[8..10]) == f.day
            && ValueOf(s[11..13]) == f.hour && ValueOf(s[14..16]) == f.minute && ValueOf(s[17..19]) == f.second
            && SecondOf(f) == t / SECOND
  {
    var f := FieldsOf(t);
    PrintableFieldsFit(t);
    PrintedPieces(f);
    FieldsTellTime(t);
    assert Pow10(2) == 100 && Pow10(4) == 10000 by {
      assert Pow10(1) == 10 && Pow10(3) == 1000;
    }
    DigitsReadBack(f.year, 4);
    DigitsReadBack(f.month, 2);
    DigitsReadBack(f.day, 2);
    DigitsReadBack(f.hour, 2);
    DigitsReadBack(f.minute, 2);
    DigitsReadBack(f.second, 2);
  }

  lemma RemainderIs(a: int, d: int, q: int, r: int)
    requires 0 <= r < d && a == d * q + r
    ensures a % d == r
  {
    var q', r' := a / d, a % d;
    assert a == d * q' + r';
    assert d * (q - q') == d * q - d * q' == r' - r;
    assert q - q' >= 1 ==> d * (q - q') >= d;
    assert q - q' <= -1 ==> d * (q - q') <= -d;
  }

  /** The Gregorian rule: every fourth year but only every fourth century year. */
  lemma LeapYears(century: nat, k: nat)
    requires k < 100
    ensures Leap(100 * century + k) <==> if k == 0 then century % 4 == 0 else k % 4 == 0
  {
    RemainderIs(100 * century + k, 4, 25 * century + k / 4, k % 4);
    RemainderIs(100 * century + k, 100, century, k);
    if k == 0 {
      RemainderIs(100 * century, 400, century / 4, 100 * (century % 4));
    }
  }
}
