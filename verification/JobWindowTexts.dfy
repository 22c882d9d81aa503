/** The job windows and the run-date search once more on the YYYY-MM-DD texts the service really
    stores, sends and compares, proved to agree with their day-number forms. */
module JobWindowTexts {
  import opened Basics
  import opened Text
  import opened CivilDate
  import opened ParserJobDates
  import opened PropertyTable
  import opened RunDateCalculator
  import opened RecurringJobs

  datatype TextChoice = ChosenTexts(start: string, end: string) | SkipTexts(reason: SkipReason) | DateError

  function WindowOf(start: Option<string>, end: Option<string>): TextChoice {
    if start.Some? && end.Some? then ChosenTexts(start.value, end.value) else DateError
  }

  /** The window of one property, computed on texts; dates are compared with `<` on strings. */
  function ChooseWindowTexts(ota: Ota, otaId: Option<int>, historicalTo: Option<string>, crsText: Option<string>,
                             startDate: Option<string>, endDate: Option<string>): TextChoice
  {
    if otaId == None then SkipTexts(NoOtaId)
    else if startDate.Some? then
      if endDate.Some? then ChosenTexts(startDate.value, endDate.value)
      else
        match ParseCrsDays(crsText)
        case None => SkipTexts(CrsUnusable)
        case Some(crs) =>
          var span := if ota == Agoda then crs * 2 else crs;
          WindowOf(startDate, CalcParserJobEndDate(startDate.value, span, ota == Booking))
    else if historicalTo == None then SkipTexts(NoHistoricalTo)
    else if endDate.Some? then
      match CalcParserJobStartDate(historicalTo.value)
      case None => DateError
      case Some(start) =>
        if StrLess(endDate.value, start) then SkipTexts(EndBeforeStart) else ChosenTexts(start, endDate.value)
    else
      match ParseCrsDays(crsText)
      case None => SkipTexts(CrsUnusable)
      case Some(crs) =>
        if ota == Agoda then
          WindowOf(CalcAgodaParserJobStartDate(historicalTo.value, crs),
              CalcAgodaParserJobEndDate(historicalTo.value, crs))
        else
          match CalcParserJobStartDate(historicalTo.value)
          case None => DateError
          case Some(start) => WindowOf(Some(start), CalcParserJobEndDate(start, crs, ota == Booking))
  }

  function DayOf(text: Option<string>): Option<Day> {
    if text == None then None else ParseIso(text.value)
  }

  predicate IsDate(text: Option<string>) {
    text.Some? ==> ParseIso(text.value).Some?
  }

  /** Every date the choice computes keeps a four-digit year. */
  predicate KeepsFourDigits(choice: WindowChoice, historicalTo: Option<Day>) {
    && (historicalTo.Some? ==> FourDigitYear(JobStart(historicalTo.value)))
    && (choice.Chosen? ==> FourDigitYear(choice.window.start) && FourDigitYear(choice.window.end))
  }

  /** The texts denote what the days are, and a skipped property is skipped for the same reason. */
  predicate Denotes(t: TextChoice, c: WindowChoice) {
    match c
    case Chosen(w) => t.ChosenTexts? && ParseIso(t.start) == Some(w.start) && ParseIso(t.end) == Some(w.end)
    case Skip(reason) => t == SkipTexts(reason)
  }

  /** On calendar dates the text computation yields exactly the window that the day computation yields,
      as long as no computed year leaves 0000..9999. */
  lemma WindowTextsDenoteDays(
    ota: Ota, f: OtaFields, historicalTo: Option<string>, startDate: Option<string>, endDate: Option<string>)
    requires IsDate(historicalTo) && IsDate(startDate) && IsDate(endDate)
    requires f.historicalTo == DayOf(historicalTo)
    requires KeepsFourDigits(ChooseWindow(ota, f, DayOf(startDate), DayOf(endDate)), f.historicalTo)
    ensures Denotes(ChooseWindowTexts(ota, f.otaId, historicalTo, f.crs, startDate, endDate),
                    ChooseWindow(ota, f, DayOf(startDate), DayOf(endDate)))
  {
    hide ParseIso, StrLess, FourDigitYear, StepText;
    var crs := ParseCrsDays(f.crs);
    if startDate.Some? {
      if crs.Some? {
        TextFunctionsPrintDays(startDate.value, if ota == Agoda then crs.value * 2 else crs.value, ota == Booking);
      }
    } else if historicalTo.Some? {
      TextFunctionsPrintDays(historicalTo.value, if crs.Some? then crs.value else 0, false);
      var start := CalcParserJobStartDate(historicalTo.value).value;
      if endDate.Some? {
        TextOrderIsChronological(endDate.value, start);
      } else if crs.Some? {
        TextFunctionsPrintDays(start, crs.value, ota == Booking);
      }
    }
  }

  // ---------------------------------------------------------------- counting by text

  /** The count query as the database runs it: rows whose stored run-date text equals the candidate's. */
  function UsedTexts(texts: seq<Option<string>>, ids: seq<Id>, candidate: string, exclude: Option<Id>): nat
    requires |texts| == |ids|
  {
    if texts == [] then 0
    else (if texts[0] == Some(candidate) && exclude != Some(ids[0]) then 1 else 0)
         + UsedTexts(texts[1..], ids[1..], candidate, exclude)
  }

  predicate Stores(texts: seq<Option<string>>, ids: seq<Id>, rows: seq<Property>, ota: Ota) {
    && |texts| == |ids| == |rows|
    && forall i :: 0 <= i < |rows| ==>
         ids[i] == rows[i].id && IsDate(texts[i]) && DayOf(texts[i]) == rows[i].Get(ota).runDate
  }

  /** Counting equal texts is counting equal days. */
  lemma {:induction false} CountsAgree(
    texts: seq<Option<string>>, ids: seq<Id>, rows: seq<Property>, ota: Ota, candidate: string, exclude: Option<Id>)
    requires Stores(texts, ids, rows, ota) && ParseIso(candidate).Some?
    ensures UsedTexts(texts, ids, candidate, exclude) == Used(rows, ota, ParseIso(candidate).value, exclude)
  {
    hide ParseIso;
    if rows != [] {
      CountsAgree(texts[1..], ids[1..], rows[1..], ota, candidate, exclude);
      if texts[0].Some? {
        TextEqualityIsSameDay(texts[0].value, candidate);
      }
    }
  }

  /** The search of `calcRunDate` on texts; None is the RangeError of an invalid date. */
  function SearchTexts(
    texts: seq<Option<string>>, ids: seq<Id>, capacity: int, exclude: Option<Id>, candidate: string,
    days: nat): Option<string>
    requires |texts| == |ids|
    decreases days
  {
    if days == 0 || UsedTexts(texts, ids, candidate, exclude) < capacity then Some(candidate)
    else
      match StepText(candidate, 1)
      case None => None
      case Some(next) => SearchTexts(texts, ids, capacity, exclude, next, days - 1)
  }

  lemma StoresLengths(texts: seq<Option<string>>, ids: seq<Id>, rows: seq<Property>, ota: Ota)
    requires Stores(texts, ids, rows, ota)
    ensures |texts| == |ids|
  {
  }

  /** The search on texts finds the text of the day that the search on days finds. */
  lemma {:induction false} SearchesAgree(
    texts: seq<Option<string>>, ids: seq<Id>, rows: seq<Property>, ota: Ota, capacity: int, exclude: Option<Id>,
    candidate: string, days: nat)
    requires Stores(texts, ids, rows, ota) && ParseIso(candidate).Some?
    requires FourDigitYear(ParseIso(candidate).value + days)
    ensures
      var found := SearchTexts(texts, ids, capacity, exclude, candidate, days);
      found.Some? && ParseIso(found.value)
          == Some(Search(rows, ota, capacity, exclude, ParseIso(candidate).value, days))
    decreases days
  {
    hide ParseIso, FourDigitYear, StepText, IsoSlice, InTimeRange, UsedTexts, Used, IsDate, DayOf, Stores;
    assert |texts| == |ids| by {
      StoresLengths(texts, ids, rows, ota);
    }
    CountsAgree(texts, ids, rows, ota, candidate, exclude);
    if days > 0 && UsedTexts(texts, ids, candidate, exclude) >= capacity {
      var n := ParseIso(candidate).value;
      PrintParsedText(candidate);
      FourDigitBetween(n, n + 1, n + days);
      StepTextAdds(candidate, 1);
      SearchesAgree(texts, ids, rows, ota, capacity, exclude, StepText(candidate, 1).value, days - 1);
    }
  }
}
