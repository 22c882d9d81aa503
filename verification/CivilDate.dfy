/** The proleptic Gregorian calendar of ECMAScript dates (section 21.4.1 of ECMA-262).
    A date is a day number, counted from 1970-01-01, or a civil date, or the text
    YYYY-MM-DD, and this module proves that the three agree. */
module CivilDate {
  import opened Basics
  import opened Text

  type Day = int

  datatype Civil = Civil(year: int, month: int, day: int)

  predicate IsLeap(y: int) {
    y % 4 == 0 && (y % 100 != 0 || y % 400 == 0)
  }

  function DaysInYear(y: int): int {
    if IsLeap(y) then 366 else 365
  }

  /** The day number of 1 January, counted year by year from 1970. */
  function DayFromYear(y: int): Day
    decreases if y < 1970 then 1970 - y else y - 1970
  {
    if y == 1970 then 0
    else if y > 1970 then DayFromYear(y - 1) + DaysInYear(y - 1)
    else DayFromYear(y + 1) - DaysInYear(y)
  }

  lemma YearLength(y: int)
    ensures DayFromYear(y + 1) == DayFromYear(y) + DaysInYear(y)
  {
  }

  /** The closed formula that ECMA-262 section 21.4.1.6 gives for DayFromYear. */
  function EcmaDayFromYear(y: int): Day {
    365 * (y - 1970) + (y - 1969) / 4 - (y - 1901) / 100 + (y - 1601) / 400
  }

  /** Counting the years one by one agrees with the closed formula for every year. */
  lemma {:induction false} DayFromYearIsEcma(y: int)
    ensures DayFromYear(y) == EcmaDayFromYear(y)
    decreases if y < 1970 then 1970 - y else y - 1970
  {
    if y > 1970 {
      DayFromYearIsEcma(y - 1);
      EcmaYearLength(y - 1);
    } else if y < 1970 {
      DayFromYearIsEcma(y + 1);
      EcmaYearLength(y);
    }
  }

  lemma EcmaYearLength(y: int)
    ensures EcmaDayFromYear(y + 1) == EcmaDayFromYear(y) + DaysInYear(y)
  {
    QuotientStep(y, 1968, 4);
    QuotientStep(y, 1900, 100);
    QuotientStep(y, 1600, 400);
    LeapDivisors(y);
  }

  /** A floored quotient steps by one exactly at the multiples of the divisor. */
  lemma QuotientStep(x: int, base: int, k: int)
    requires k > 0 && base % k == 0
    ensures (x - base) / k - (x - base - 1) / k == if x % k == 0 then 1 else 0
  {
    var q := (x - base) / k;
    var r := (x - base) % k;
    assert x == k * (q + base / k) + r;
    DivModUnique(x, k, q + base / k, r);
    if r == 0 {
      DivModUnique(x - base - 1, k, q - 1, k - 1);
    } else {
      DivModUnique(x - base - 1, k, q, r - 1);
    }
  }

  lemma DivModUnique(x: int, k: int, q: int, r: int)
    requires k > 0 && 0 <= r < k && x == k * q + r
    ensures x / k == q && x % k == r
  {
    var d := x / k - q;
    assert k * d == r - x % k;
    assert d >= 1 ==> k * d >= k;
    assert d <= -1 ==> k * d <= -k;
  }

  lemma LeapDivisors(y: int)
    ensures y % 400 == 0 ==> y % 100 == 0
    ensures y % 100 == 0 ==> y % 4 == 0
  {
    if y % 400 == 0 {
      DivModUnique(y, 100, 4 * (y / 400), 0);
    }
    if y % 100 == 0 {
      DivModUnique(y, 4, 25 * (y / 100), 0);
    }
  }

  function DaysInMonth(y: int, m: int): int
    requires 1 <= m <= 12
  {
    if m == 2 then (if IsLeap(y) then 29 else 28)
    else if m in {4, 6, 9, 11} then 30 else 31
  }

  /** Days of the year before the first of month `m`; month 13 stands for the year's end. */
  function MonthStart(y: int, m: int): int
    requires 1 <= m <= 13
  {
    if m == 1 then 0 else MonthStart(y, m - 1) + DaysInMonth(y, m - 1)
  }

  lemma MonthStarts(y: int)
    ensures
      var l := if IsLeap(y) then 1 else 0;
      && MonthStart(y, 2) == 31 && MonthStart(y, 3) == 59 + l && MonthStart(y, 4) == 90 + l
      && MonthStart(y, 5) == 120 + l && MonthStart(y, 6) == 151 + l && MonthStart(y, 7) == 181 + l
      && MonthStart(y, 8) == 212 + l && MonthStart(y, 9) == 243 + l && MonthStart(y, 10) == 273 + l
      && MonthStart(y, 11) == 304 + l && MonthStart(y, 12) == 334 + l && MonthStart(y, 13) == DaysInYear(y)
  {
    assert MonthStart(y, 2) == 31;
    assert MonthStart(y, 3) == 59 + (if IsLeap(y) then 1 else 0);
    assert MonthStart(y, 5) == MonthStart(y, 3) + 61;
    assert MonthStart(y, 7) == MonthStart(y, 5) + 61;
    assert MonthStart(y, 9) == MonthStart(y, 7) + 62;
    assert MonthStart(y, 11) == MonthStart(y, 9) + 61;
    assert MonthStart(y, 13) == MonthStart(y, 11) + 61;
  }

  predicate ValidCivil(c: Civil) {
    1 <= c.month <= 12 && 1 <= c.day <= DaysInMonth(c.year, c.month)
  }

  predicate CivilLess(a: Civil, b: Civil) {
    a.year < b.year || (a.year == b.year && (a.month < b.month || (a.month == b.month && a.day < b.day)))
  }

  function ToDay(c: Civil): Day
    requires ValidCivil(c)
  {
    DayFromYear(c.year) + MonthStart(c.year, c.month) + c.day - 1
  }

  /** Years have at least 365 days: this is how far a whole number of years can reach. */
  lemma {:induction false} DayFromYearLowerBound(k: int)
    ensures k >= 0 ==> 365 * k <= DayFromYear(1970 + k) <= 366 * k
    ensures k <= 0 ==> 366 * k <= DayFromYear(1970 + k) <= 365 * k
    decreases if k < 0 then -k else k
  {
    if k > 0 {
      DayFromYearLowerBound(k - 1);
      YearLength(1970 + k - 1);
    } else if k < 0 {
      DayFromYearLowerBound(k + 1);
      YearLength(1970 + k);
    }
  }

  /** YearFromTime of ECMA-262 section 21.4.1.8: the largest year that begins on or before `n`. */
  function YearOf(n: Day): (y: int)
    ensures DayFromYear(y) <= n < DayFromYear(y + 1)
  {
    var k := if n >= 0 then n / 366 else n / 365;
    DayFromYearLowerBound(k);
    YearFrom(n, 1970 + k)
  }

  function YearFrom(n: Day, y: int): (r: int)
    requires DayFromYear(y) <= n
    ensures DayFromYear(r) <= n < DayFromYear(r + 1)
    decreases n - DayFromYear(y)
  {
    YearLength(y);
    if n < DayFromYear(y + 1) then y else YearFrom(n, y + 1)
  }

  lemma {:induction false} DayFromYearMonotone(a: int, b: int)
    requires a <= b
    ensures DayFromYear(a) + 365 * (b - a) <= DayFromYear(b)
    decreases b - a
  {
    if a < b {
      DayFromYearMonotone(a, b - 1);
      YearLength(b - 1);
    }
  }

  lemma YearOfUnique(n: Day, y: int)
    requires DayFromYear(y) <= n < DayFromYear(y + 1)
    ensures YearOf(n) == y
  {
    var r := YearOf(n);
    if r < y {
      DayFromYearMonotone(r + 1, y);
    } else if y < r {
      DayFromYearMonotone(y + 1, r);
    }
  }

  function MonthFrom(y: int, dayOfYear: int, m: int): (r: int)
    requires 1 <= m <= 12
    requires MonthStart(y, m) <= dayOfYear < MonthStart(y, 13)
    ensures m <= r <= 12 && MonthStart(y, r) <= dayOfYear < MonthStart(y, r + 1)
    decreases 12 - m
  {
    if m == 12 || dayOfYear < MonthStart(y, m + 1) then m else MonthFrom(y, dayOfYear, m + 1)
  }

  lemma {:induction false} MonthStartMonotone(y: int, a: int, b: int)
    requires 1 <= a < b <= 13
    ensures MonthStart(y, a) + DaysInMonth(y, a) <= MonthStart(y, b)
    decreases b
  {
    if a < b - 1 {
      MonthStartMonotone(y, a, b - 1);
    }
  }

  /** The civil date of a day number: what getUTCFullYear, getUTCMonth + 1 and getUTCDate read. */
  function FromDay(n: Day): (c: Civil)
    ensures ValidCivil(c)
  {
    var y := YearOf(n);
    YearLength(y);
    MonthStarts(y);
    var doy := n - DayFromYear(y);
    var m := MonthFrom(y, doy, 1);
    Civil(y, m, doy - MonthStart(y, m) + 1)
  }

  lemma ToDayFromDay(n: Day)
    ensures ToDay(FromDay(n)) == n
  {
  }

  lemma FromDayToDay(c: Civil)
    requires ValidCivil(c)
    ensures FromDay(ToDay(c)) == c
  {
    var n := ToDay(c);
    MonthStarts(c.year);
    YearLength(c.year);
    MonthStartMonotone(c.year, c.month, 13);
    if c.month > 1 {
      MonthStartMonotone(c.year, 1, c.month);
    }
    YearOfUnique(n, c.year);
    var m := FromDay(n).month;
    if m < c.month {
      MonthStartMonotone(c.year, m, c.month);
    } else if c.month < m {
      MonthStartMonotone(c.year, c.month, m);
    }
  }

  /** Civil dates compare field by field exactly as their day numbers do. */
  lemma CivilOrder(a: Civil, b: Civil)
    requires ValidCivil(a) && ValidCivil(b)
    ensures CivilLess(a, b) <==> ToDay(a) < ToDay(b)
  {
    if CivilLess(a, b) {
      CivilLessImpliesEarlier(a, b);
    } else if a != b {
      CivilLessImpliesEarlier(b, a);
    }
  }

  lemma CivilLessImpliesEarlier(a: Civil, b: Civil)
    requires ValidCivil(a) && ValidCivil(b) && CivilLess(a, b)
    ensures ToDay(a) < ToDay(b)
  {
    if a.year < b.year {
      MonthStarts(a.year);
      YearLength(a.year);
      MonthStartMonotone(a.year, a.month, 13);
      DayFromYearMonotone(a.year + 1, b.year);
      if b.month > 1 {
        MonthStartMonotone(b.year, 1, b.month);
      }
    } else if a.month < b.month {
      MonthStartMonotone(a.year, a.month, b.month);
    }
  }

  // ---------------------------------------------------------------- UTC setters

  /** MakeDay of ECMA-262 section 21.4.1.28 with an already resolved full year: a month
      outside 0..11 carries into the year, a day outside the month carries into the month. */
  function MakeDay(year: int, month0: int, date: int): Day {
    ToDay(Civil(year + month0 / 12, month0 % 12 + 1, 1)) + date - 1
  }

  lemma MakeDayInYear(year: int, month: int, date: int)
    requires 1 <= month <= 12
    ensures MakeDay(year, month - 1, date) == ToDay(Civil(year, month, 1)) + date - 1
  {
  }

  /** Date.prototype.setUTCDate, section 21.4.4.28. */
  function SetUtcDate(n: Day, date: int): Day {
    var c := FromDay(n);
    MakeDay(c.year, c.month - 1, date)
  }

  /** `d.setUTCDate(d.getUTCDate() + k)` moves exactly `k` days, across month and year ends alike. */
  lemma StepIsAddition(n: Day, k: int)
    ensures SetUtcDate(n, FromDay(n).day + k) == n + k
  {
    hide FromDay, MakeDay;
    ToDayFromDay(n);
    var c := FromDay(n);
    MakeDayInYear(c.year, c.month, c.day + k);
  }

  // ---------------------------------------------------------------- YYYY-MM-DD

  /** Days whose year has four digits, 0000-01-01 to 9999-12-31. */
  predicate FourDigitYear(n: Day) {
    0 <= FromDay(n).year <= 9999
  }

  lemma FourDigitYearRange(n: Day)
    ensures FourDigitYear(n) <==> DayFromYear(0) <= n < DayFromYear(10000)
  {
    YearReached(n, 0);
    YearReached(n, 10000);
  }

  /** The days with four-digit years form an interval. */
  lemma FourDigitBetween(a: Day, n: Day, b: Day)
    requires FourDigitYear(a) && FourDigitYear(b) && a <= n <= b
    ensures FourDigitYear(n)
  {
    hide FourDigitYear, DayFromYear;
    FourDigitYearRange(a);
    FourDigitYearRange(n);
    FourDigitYearRange(b);
  }

  lemma YearBounds()
    ensures DayFromYear(0) == -719_528 && DayFromYear(10000) == 2_932_897
    ensures DayFromYear(-999_999) < -100_000_000 && DayFromYear(1_000_000) > 100_000_000
  {
    hide DayFromYear;
    DayFromYearIsEcma(0);
    DayFromYearIsEcma(10000);
    DayFromYearIsEcma(-999_999);
    DayFromYearIsEcma(1_000_000);
  }

  lemma YearReached(n: Day, y: int)
    ensures y <= YearOf(n) <==> DayFromYear(y) <= n
  {
    var r := YearOf(n);
    if y <= r {
      DayFromYearMonotone(y, r);
    } else {
      DayFromYearMonotone(r + 1, y);
    }
  }

  function CivilText(c: Civil): (s: string)
    requires ValidCivil(c) && 0 <= c.year <= 9999
    ensures |s| == 10
  {
    Pad(c.year, 4) + "-" + Pad(c.month, 2) + "-" + Pad(c.day, 2)
  }

  /** A valid time value spans 100,000,000 days either way (section 21.4.1.1);
      outside it toISOString throws. */
  predicate InTimeRange(n: Day) {
    -100_000_000 <= n <= 100_000_000
  }

  lemma TimeRangeYears(n: Day)
    requires InTimeRange(n)
    ensures -1_000_000 < FromDay(n).year < 1_000_000
  {
    YearBounds();
    YearReached(n, -999_999);
    YearReached(n, 1_000_000);
  }

  /** `toISOString().slice(0, 10)`: years outside 0000..9999 print as a sign and six
      digits, so only the month survives the slice. */
  function IsoSlice(n: Day): (s: string)
    requires InTimeRange(n)
    ensures |s| == 10
  {
    TimeRangeYears(n);
    var c := FromDay(n);
    if 0 <= c.year <= 9999 then CivilText(c)
    else if c.year < 0 then "-" + Pad(-c.year, 6) + "-" + Pad(c.month, 2)
    else "+" + Pad(c.year, 6) + "-" + Pad(c.month, 2)
  }

  /** The printed text; None stands for the RangeError. */
  function PrintDay(n: Day): Option<string> {
    if InTimeRange(n) then Some(IsoSlice(n)) else None
  }

  predicate HasIsoShape(s: string) {
    |s| == 10 && s[4] == '-' && s[7] == '-' && AllDigits(s[..4]) && AllDigits(s[5..7]) && AllDigits(s[8..])
  }

  /** The three numbers in a text of the shape YYYY-MM-DD. */
  function IsoFields(s: string): Civil
    requires HasIsoShape(s)
  {
    Civil(ParseNat(s[..4]), ParseNat(s[5..7]), ParseNat(s[8..]))
  }

  /** The day a calendar date in the form YYYY-MM-DD denotes. */
  function ParseIso(s: string): Option<Day> {
    if HasIsoShape(s) && ValidCivil(IsoFields(s)) then Some(ToDay(IsoFields(s))) else None
  }

  lemma CivilTextFields(c: Civil)
    requires ValidCivil(c) && 0 <= c.year <= 9999
    ensures HasIsoShape(CivilText(c)) && IsoFields(CivilText(c)) == c
  {
    var s := CivilText(c);
    assert Pow10(2) == 100 && Pow10(4) == 10000;
    assert s[..4] == Pad(c.year, 4) && s[5..7] == Pad(c.month, 2) && s[8..] == Pad(c.day, 2);
    ParsePad(c.year, 4);
    ParsePad(c.month, 2);
    ParsePad(c.day, 2);
  }

  lemma IsoFieldsText(s: string)
    requires HasIsoShape(s) && ValidCivil(IsoFields(s))
    ensures 0 <= IsoFields(s).year <= 9999 && CivilText(IsoFields(s)) == s
  {
    PadParse(s[..4]);
    PadParse(s[5..7]);
    PadParse(s[8..]);
    assert Pow10(4) == 10000;
    assert s == s[..4] + "-" + s[5..7] + "-" + s[8..];
  }

  /** Printing then reading a day gives the day back exactly when its year has four digits;
      every other day prints to a text that no longer denotes a date. */
  lemma ParsePrintedDay(n: Day)
    requires InTimeRange(n)
    ensures FourDigitYear(n) ==> ParseIso(IsoSlice(n)) == Some(n)
    ensures !FourDigitYear(n) ==> ParseIso(IsoSlice(n)) == None
  {
    var c := FromDay(n);
    if FourDigitYear(n) {
      CivilTextFields(c);
      ToDayFromDay(n);
    } else {
      TimeRangeYears(n);
      assert !IsDigit(IsoSlice(n)[..4][0]);
    }
  }

  lemma PrintedDay(n: Day)
    ensures FourDigitYear(n) ==> InTimeRange(n) && PrintDay(n) == Some(IsoSlice(n)) && ParseIso(IsoSlice(n)) == Some(n)
    ensures !FourDigitYear(n) && PrintDay(n).Some? ==> ParseIso(PrintDay(n).value) == None
  {
    hide IsoSlice, ParseIso, FourDigitYear;
    FourDigitYearRange(n);
    YearBounds();
    if InTimeRange(n) {
      ParsePrintedDay(n);
    }
  }

  /** Every calendar date text is the printed form of its day. */
  lemma PrintParsedText(s: string)
    requires ParseIso(s).Some?
    ensures FourDigitYear(ParseIso(s).value) && InTimeRange(ParseIso(s).value)
    ensures IsoSlice(ParseIso(s).value) == s
  {
    IsoFieldsText(s);
    FromDayToDay(IsoFields(s));
    FourDigitYearRange(ParseIso(s).value);
    YearBounds();
  }

  /** Two YYYY-MM-DD texts are equal exactly when they denote the same day. */
  lemma TextEqualityIsSameDay(a: string, b: string)
    requires ParseIso(a).Some? && ParseIso(b).Some?
    ensures a == b <==> ParseIso(a).value == ParseIso(b).value
  {
    PrintParsedText(a);
    PrintParsedText(b);
  }

  /** `<` on the texts of two civil dates compares the dates field by field. */
  lemma CivilTextOrder(x: Civil, y: Civil)
    requires ValidCivil(x) && 0 <= x.year <= 9999
    requires ValidCivil(y) && 0 <= y.year <= 9999
    ensures StrLess(CivilText(x), CivilText(y)) <==> CivilLess(x, y)
  {
    hide StrLess;
    assert Pow10(2) == 100 && Pow10(4) == 10000;
    var xd, yd := Pad(x.day, 2), Pad(y.day, 2);
    var xm, ym := Pad(x.month, 2) + ("-" + xd), Pad(y.month, 2) + ("-" + yd);
    StrLessPad(x.day, y.day, 2, "", "");
    assert xd + "" == xd && yd + "" == yd;
    NotLess("");
    StrLessSameHead('-', xd, yd);
    StrLessPad(x.month, y.month, 2, "-" + xd, "-" + yd);
    StrLessSameHead('-', xm, ym);
    StrLessPad(x.year, y.year, 4, "-" + xm, "-" + ym);
    assert CivilText(x) == Pad(x.year, 4) + ("-" + xm);
    assert CivilText(y) == Pad(y.year, 4) + ("-" + ym);
  }

  lemma NotLess(s: string)
    ensures !StrLess(s, "")
  {
  }

  /** `<` on two YYYY-MM-DD texts is chronological order. */
  lemma TextOrderIsChronological(a: string, b: string)
    requires ParseIso(a).Some? && ParseIso(b).Some?
    ensures StrLess(a, b) <==> ParseIso(a).value < ParseIso(b).value
  {
    hide StrLess, CivilText, ValidCivil, IsoFields, HasIsoShape, ToDay, CivilLess;
    IsoFieldsText(a);
    IsoFieldsText(b);
    CivilTextOrder(IsoFields(a), IsoFields(b));
    CivilOrder(IsoFields(a), IsoFields(b));
  }
}
