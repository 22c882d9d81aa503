/** Date arithmetic of parser-job windows and run dates. Every function exists twice: on the
    YYYY-MM-DD texts the service stores, and on day numbers, which the scheduler modules use.
    The lemmas here prove that the two agree as long as years keep four digits. */
module ParserJobDates {
  import opened Basics
  import opened Text
  import opened CivilDate

  /** The body the text functions share: parse at UTC midnight, `setUTCDate` to `k` days on,
      print. None stands for the RangeError that toISOString raises on an invalid date. */
  function StepText(s: string, k: int): Option<string> {
    match ParseIso(s)
    case None => None
    case Some(n) =>
      PrintDay(SetUtcDate(n, FromDay(n).day + k))
  }

  function CalcParserJobStartDate(historicalTo: string): Option<string> {
    StepText(historicalTo, 1)
  }

  function CalcParserJobEndDate(startDate: string, crsDays: nat, addExtraYear: bool): Option<string> {
    StepText(startDate, crsDays + if addExtraYear then 365 else 0)
  }

  function CalcAgodaParserJobStartDate(historicalTo: string, crsDays: nat): Option<string> {
    StepText(historicalTo, 1 - crsDays)
  }

  function CalcAgodaParserJobEndDate(historicalTo: string, crsDays: nat): Option<string> {
    StepText(historicalTo, crsDays + 1)
  }

  function CalcPreliminaryRunDate(endDate: string, crsDays: nat): Option<string> {
    StepText(endDate, 1 + crsDays + 15)
  }

  function JobStart(historicalTo: Day): Day {
    historicalTo + 1
  }

  function JobEnd(start: Day, crsDays: nat, addExtraYear: bool): Day {
    start + crsDays + if addExtraYear then 365 else 0
  }

  function AgodaJobStart(historicalTo: Day, crsDays: nat): Day {
    historicalTo - crsDays + 1
  }

  function AgodaJobEnd(historicalTo: Day, crsDays: nat): Day {
    historicalTo + crsDays + 1
  }

  function PreliminaryRunDate(endDate: Day, crsDays: nat): Day {
    endDate + 1 + crsDays + 15
  }

  /** A step of `k` days on texts is addition of `k` on days; past the four-digit years it
      yields either an error or a text that denotes no date. */
  lemma StepTextAdds(s: string, k: int)
    requires ParseIso(s).Some?
    ensures
      var n := ParseIso(s).value;
      if FourDigitYear(n + k)
      then InTimeRange(n + k) && StepText(s, k) == Some(IsoSlice(n + k)) && ParseIso(IsoSlice(n + k)) == Some(n + k)
      else StepText(s, k).Some? ==> ParseIso(StepText(s, k).value) == None
  {
    hide ParseIso, PrintDay, IsoSlice, FourDigitYear, SetUtcDate, FromDay;
    var n := ParseIso(s).value;
    StepIsAddition(n, k);
    PrintedDay(n + k);
  }

  /** Stepping by `a` and then by `b` is stepping by `a + b`. */
  lemma StepTextComposes(s: string, a: int, b: int)
    requires ParseIso(s).Some? && FourDigitYear(ParseIso(s).value + a)
    ensures StepText(s, a).Some?
    ensures StepText(StepText(s, a).value, b) == StepText(s, a + b)
  {
    hide ParseIso, PrintDay, IsoSlice, FourDigitYear, SetUtcDate, FromDay;
    var n := ParseIso(s).value;
    StepTextAdds(s, a);
    StepIsAddition(n + a, b);
    StepIsAddition(n, a + b);
  }

  /** Each text function prints the day its formula gives, which its day-number twin computes too. */
  lemma TextFunctionsPrintDays(s: string, crs: nat, extra: bool)
    requires ParseIso(s).Some?
    ensures
      var n := ParseIso(s).value;
      && Prints(CalcParserJobStartDate(s), n + 1) && JobStart(n) == n + 1
      && Prints(CalcParserJobEndDate(s, crs, extra), n + crs + if extra then 365 else 0)
      && JobEnd(n, crs, extra) == n + crs + (if extra then 365 else 0)
      && Prints(CalcAgodaParserJobStartDate(s, crs), n - crs + 1) && AgodaJobStart(n, crs) == n - crs + 1
      && Prints(CalcAgodaParserJobEndDate(s, crs), n + crs + 1) && AgodaJobEnd(n, crs) == n + crs + 1
      && Prints(CalcPreliminaryRunDate(s, crs), n + crs + 16) && PreliminaryRunDate(n, crs) == n + crs + 16
  {
    hide StepText, ParseIso, IsoSlice, FourDigitYear;
    StepTextAdds(s, 1);
    StepTextAdds(s, crs + if extra then 365 else 0);
    StepTextAdds(s, 1 - crs);
    StepTextAdds(s, crs + 1);
    StepTextAdds(s, 1 + crs + 15);
  }

  predicate Prints(t: Option<string>, n: Day) {
    FourDigitYear(n) ==> t.Some? && ParseIso(t.value) == Some(n)
  }

  // ---------------------------------------------------------------- last day of last month

  /** Date.UTC reads a year 0..99 as 1900..1999 (MakeFullYear, section 21.4.1.30). */
  function FullYear(y: int): int {
    if 0 <= y <= 99 then 1900 + y else y
  }

  function LastDayOfLastMonth(now: Day): Day {
    var c := FromDay(now);
    MakeDay(FullYear(c.year), c.month - 1, 0)
  }

  /** Day 0 of the current month is the day before its first; it lies in another month. */
  lemma LastDayOfLastMonthPrecedesMonth(now: Day)
    requires FromDay(now).year >= 100
    ensures
      var c := FromDay(now);
      && FromDay(LastDayOfLastMonth(now) + 1) == Civil(c.year, c.month, 1)
      && LastDayOfLastMonth(now) == now - c.day
      && (FromDay(LastDayOfLastMonth(now)).year, FromDay(LastDayOfLastMonth(now)).month) != (c.year, c.month)
  {
    hide FromDay, MonthStart, DayFromYear, DaysInMonth;
    var c := FromDay(now);
    var first := Civil(c.year, c.month, 1);
    FromDayToDay(first);
    ToDayFromDay(now);
    var last := LastDayOfLastMonth(now);
    MakeDayInYear(c.year, c.month, 0);
    ToDayFromDay(last);
    CivilOrder(FromDay(last), first);
  }

  /** In the years 0 to 99 the day is the one before the first of the same month of 1900 to 1999. */
  lemma LastDayOfLastMonthEarly(now: Day)
    requires 0 <= FromDay(now).year <= 99
    ensures FromDay(LastDayOfLastMonth(now) + 1) == Civil(1900 + FromDay(now).year, FromDay(now).month, 1)
  {
    hide FromDay, MonthStart, DayFromYear;
    var c := FromDay(now);
    var first := Civil(1900 + c.year, c.month, 1);
    FromDayToDay(first);
    MakeDayInYear(1900 + c.year, c.month, 0);
  }

  // ---------------------------------------------------------------- CRS

  function DigitRun(s: string): (n: nat)
    ensures n <= |s| && AllDigits(s[..n])
    ensures n < |s| ==> !IsDigit(s[n])
  {
    if s == "" || !IsDigit(s[0]) then 0
    else
      var n := 1 + DigitRun(s[1..]);
      assert forall i :: 0 < i < n ==> s[i] == s[1..][i - 1];
      n
  }

  lemma {:induction false} DigitRunOf(d: string, rest: string)
    requires AllDigits(d) && (rest == "" || !IsDigit(rest[0]))
    ensures DigitRun(d + rest) == |d|
  {
    var s := d + rest;
    if d == "" {
      assert s == rest;
    } else {
      assert s[1..] == d[1..] + rest;
      DigitRunOf(d[1..], rest);
    }
  }

  /** `parseInt(s, 10)` on a string without leading white space; None is NaN. */
  function ParseInt(s: string): Option<int> {
    if s != "" && s[0] in {'+', '-'} then
      var n := DigitRun(s[1..]);
      if n == 0 then None
      else
        var v := ParseNat(s[1..][..n]);
        Some(if s[0] == '-' then 0 - v else v)
    else
      var n := DigitRun(s);
      if n == 0 then None else Some(ParseNat(s[..n]))
  }

  /** The CRS window in days, when the stored text begins with a positive integer. */
  function ParseCrsDays(crs: Option<string>): (r: Option<nat>)
    ensures r.Some? ==> r.value > 0
  {
    if crs == None || crs.value == "" then None
    else
      match ParseInt(Trim(crs.value))
      case None => None
      case Some(v) => if v > 0 then Some(v) else None
  }

  /** Exactly which texts give a CRS: white space, an optional plus, digits of a positive number, and then
      anything that does not begin with a digit. */
  lemma ParseCrsDaysExactly(crs: string, sign: string, digits: string, rest: string)
    requires Trim(crs) == sign + digits + rest && sign in {"", "+", "-"} && AllDigits(digits)
    requires rest == "" || !IsDigit(rest[0])
    requires sign == "" && digits == "" && rest != "" ==> rest[0] !in {'+', '-'}
    ensures
      ParseCrsDays(Some(crs))
      == if digits == "" || sign == "-" || ParseNat(digits) == 0 then None else Some(ParseNat(digits))
  {
    hide Trim;
    var t := Trim(crs);
    var body := digits + rest;
    DigitRunOf(digits, rest);
    assert body[..|digits|] == digits;
    if sign == "" {
      assert t == body;
    } else {
      assert t[0] == sign[0] && t[1..] == body;
    }
    if crs == "" {
      TrimExactly(crs);
    }
  }

  /** A decimal number is read back as itself, whatever white space surrounds it and whatever non-digit
      text follows it. */
  lemma ParseCrsDaysReadsNumber(crs: string, n: nat, rest: string)
    requires Trim(crs) == NatToString(n) + rest && (rest == "" || !IsDigit(rest[0]))
    ensures ParseCrsDays(Some(crs)) == if n > 0 then Some(n) else None
  {
    assert Trim(crs) == "" + NatToString(n) + rest;
    ParseCrsDaysExactly(crs, "", NatToString(n), rest);
    ParseNatToString(n);
  }
}
