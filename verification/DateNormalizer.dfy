/** `normalizeParserJobDate`, which turns whatever a caller or a spreadsheet sends into
    YYYY-MM-DD, and `formatExportDate`, which prints a stored date as MM/DD/YYYY. */
module DateNormalizer {
  import opened Basics
  import opened Text
  import opened CivilDate
  import opened ParserJobDates

  const MS_PER_DAY := 86_400_000
  const EXCEL_EPOCH_OFFSET_DAYS := 25_569
  const MAX_EXCEL_SERIAL := 3_000_000.0
  const MAX_TIME_MS := 8_640_000_000_000_000

  const MONTH_NAMES: seq<string> :=
    ["january", "february", "march", "april", "may", "june", "july",
     "august", "september", "october", "november", "december"]

  /** A date payload. An invalid Date object has no time value. */
  datatype Cell =
    | Absent
    | TextCell(text: string)
    | DateCell(time: Option<int>)
    | NumberCell(value: real)

  datatype Normalized = Undefined | Date(text: string) | RangeError

  /** How the engine's own `new Date(text)` reads the texts that no pattern below matches. */
  type DateReader = string -> Option<Day>

  // ---------------------------------------------------------------- patterns

  function SpaceRun(s: string): (n: nat)
    ensures n <= |s|
    ensures n < |s| ==> !IsSpace(s[n])
  {
    if s == "" || !IsSpace(s[0]) then 0 else 1 + SpaceRun(s[1..])
  }

  predicate IsLetter(c: char) {
    'a' <= c <= 'z' || 'A' <= c <= 'Z'
  }

  lemma LetterExactly(c: char)
    ensures IsLetter(c) <==> 'a' <= LowerLetter(c) <= 'z'
  {
  }

  function LetterRun(s: string): (n: nat)
    ensures n <= |s|
    ensures n < |s| ==> !IsLetter(s[n])
  {
    if s == "" || !IsLetter(s[0]) then 0 else 1 + LetterRun(s[1..])
  }

  /** A run of one or two digits, its value and what follows it. */
  function ShortNumber(s: string): Option<(nat, string)> {
    var n := DigitRun(s);
    if 1 <= n <= 2 then Some((ParseNat(s[..n]), s[n..])) else None
  }

  function FourDigits(s: string): Option<nat> {
    if |s| == 4 && AllDigits(s) then Some(ParseNat(s)) else None
  }

  function AfterSlash(s: string): Option<string> {
    if s != "" && s[0] in {'/', '-'} then Some(s[1..]) else None
  }

  /** `^(\d{1,2})[/-](\d{1,2})[/-](\d{4})$` */
  function MatchSlashDate(s: string): Option<(nat, nat, nat)> {
    match ShortNumber(s)
    case None => None
    case Some((first, s1)) =>
      match AfterSlash(s1)
      case None => None
      case Some(s2) =>
        match ShortNumber(s2)
        case None => None
        case Some((second, s3)) =>
          match AfterSlash(s3)
          case None => None
          case Some(s4) =>
            match FourDigits(s4)
            case None => None
            case Some(year) => Some((first, second, year))
  }

  /** `\s*,?\s+` with what follows it. */
  function AfterComma(s: string): Option<string> {
    var a := SpaceRun(s);
    if a < |s| && s[a] == ',' then
      var t := s[a + 1..];
      var b := SpaceRun(t);
      if b >= 1 then Some(t[b..]) else None
    else if a >= 1 then Some(s[a..]) else None
  }

  /** `\s+(\d{1,2})\s*,?\s+(\d{4})$` */
  function MatchDayYear(s: string): Option<(nat, nat)> {
    var k := SpaceRun(s);
    if k == 0 then None
    else
      match ShortNumber(s[k..])
      case None => None
      case Some((day, s1)) =>
        match AfterComma(s1)
        case None => None
        case Some(s2) =>
          match FourDigits(s2)
          case None => None
          case Some(year) => Some((day, year))
  }

  /** `^([A-Za-z]{3,9})\.?\s+(\d{1,2})\s*,?\s+(\d{4})$` */
  function MatchMonthNameDate(s: string): Option<(string, nat, nat)> {
    var n := LetterRun(s);
    if !(3 <= n <= 9) then None
    else
      var s0 := s[n..];
      var s1 := if s0 != "" && s0[0] == '.' then s0[1..] else s0;
      match MatchDayYear(s1)
      case None => None
      case Some((day, year)) => Some((s[..n], day, year))
  }

  /** The first month at or after index `i` whose name starts with `name`, or -1. */
  function FindMonth(name: string, i: nat): (r: int)
    requires i <= 12
    ensures -1 <= r < 12
    ensures r >= 0 ==> r >= i && name <= MONTH_NAMES[r]
    ensures r < 0 ==> forall j :: i <= j < 12 ==> !(name <= MONTH_NAMES[j])
    decreases 12 - i
  {
    if i == 12 then -1
    else if name <= MONTH_NAMES[i] then i
    else FindMonth(name, i + 1)
  }

  function MonthIndexFromName(token: string): int {
    FindMonth(LowerWord(token), 0)
  }

  /** Three letters already single out the month, so the answer does not depend on the order of the list. */
  lemma MonthPrefixUnique(token: string, m: nat)
    requires |token| >= 3 && m < 12
    ensures MonthIndexFromName(token) == m <==> LowerWord(token) <= MONTH_NAMES[m]
  {
    var name := LowerWord(token);
    var r := MonthIndexFromName(token);
    if r >= 0 && name <= MONTH_NAMES[m] {
      assert name[0] == MONTH_NAMES[r][0] == MONTH_NAMES[m][0];
      assert name[1] == MONTH_NAMES[r][1] == MONTH_NAMES[m][1];
      assert name[2] == MONTH_NAMES[r][2] == MONTH_NAMES[m][2];
      FirstThreeLettersDiffer(r, m);
    }
  }

  lemma FirstThreeLettersDiffer(i: nat, j: nat)
    requires i < 12 && j < 12
    requires MONTH_NAMES[i][0] == MONTH_NAMES[j][0]
    requires MONTH_NAMES[i][1] == MONTH_NAMES[j][1]
    requires MONTH_NAMES[i][2] == MONTH_NAMES[j][2]
    ensures i == j
  {
  }

  // ---------------------------------------------------------------- normalizing

  /** Builds the date with Date.UTC and accepts it when it reads back as the same triple. */
  function AcceptCivil(year: nat, month: nat, day: nat): Option<string>
    requires year <= 9999
  {
    var n := MakeDay(FullYear(year), month - 1, day);
    if FromDay(n) == Civil(year, month, day) then PrintDay(n) else None
  }

  /** What the month-name branch returns once its pattern has matched. */
  function AcceptMonthName(token: string, day: nat, year: nat): Normalized
    requires year <= 9999
  {
    var month := MonthIndexFromName(token);
    if month >= 0 then FromOption(AcceptCivil(year, month + 1, day)) else Undefined
  }

  function NormalizeText(value: string, reader: DateReader): Normalized {
    var str := Trim(value);
    if HasIsoShape(str) then Date(str)
    else
      match MatchSlashDate(str)
      case Some((first, second, year)) =>
        FourDigitValue(str);
        FromOption(if first > 12 then AcceptCivil(year, second, first) else AcceptCivil(year, first, second))
      case None =>
        match MatchMonthNameDate(str)
        case Some((token, day, year)) =>
          FourDigitValue(str);
          AcceptMonthName(token, day, year)
        case None => NormalizeOther(str, reader)
  }

  function NormalizeOther(str: string, reader: DateReader): Normalized {
    if 'T' in str || (|str| >= 10 && HasIsoShape(str[..10])) then
      match reader(str)
      case Some(n) => FromOption(PrintDay(n))
      case None => Undefined
    else Undefined
  }

  function FromOption(t: Option<string>): Normalized {
    match t
    case None => Undefined
    case Some(s) => Date(s)
  }

  lemma FourDigitValue(s: string)
    ensures MatchSlashDate(s).Some? ==> MatchSlashDate(s).value.2 <= 9999
    ensures MatchMonthNameDate(s).Some? ==> MatchMonthNameDate(s).value.2 <= 9999
  {
    assert Pow10(4) == 10000;
    forall t: string | |t| == 4 && AllDigits(t)
      ensures ParseNat(t) <= 9999
    {
      PadParse(t);
    }
  }

  function Truncate(v: real): int {
    if v >= 0.0 then v.Floor else -((-v).Floor)
  }

  /** The day a numeric cell stands for: an Excel serial when small, epoch milliseconds when large. */
  function DayFromNumber(v: real): (r: Option<Day>)
    ensures r.Some? ==> InTimeRange(r.value)
  {
    if -MAX_EXCEL_SERIAL < v < MAX_EXCEL_SERIAL then Some((v - EXCEL_EPOCH_OFFSET_DAYS as real).Floor)
    else if -(MAX_TIME_MS as real) <= v <= MAX_TIME_MS as real then Some(Truncate(v) / MS_PER_DAY)
    else None
  }

  function Normalize(value: Cell, reader: DateReader): Normalized {
    match value
    case Absent => Undefined
    case TextCell(text) => NormalizeText(text, reader)
    case DateCell(None) => RangeError
    case DateCell(Some(ms)) =>
      if InTimeRange(ms / MS_PER_DAY) then Date(IsoSlice(ms / MS_PER_DAY)) else RangeError
    case NumberCell(v) =>
      match DayFromNumber(v)
      case Some(n) => Date(IsoSlice(n))
      case None => Undefined
  }

  // ---------------------------------------------------------------- exporting

  function ExportText(iso: string): string
    requires HasIsoShape(iso)
  {
    iso[5..7] + "/" + iso[8..] + "/" + iso[..4]
  }

  /** `formatExportDate` of a text cell. */
  function FormatExportDate(value: string, reader: DateReader): string {
    if value == "" then ""
    else
      match NormalizeText(value, reader)
      case Date(iso) => if HasIsoShape(iso) then ExportText(iso) else value
      case _ => value
  }

  // ---------------------------------------------------------------- properties

  lemma MakeDayLate(year: int, month0: int, day: nat)
    requires year >= 1900 && month0 >= -1
    ensures FromDay(MakeDay(year, month0, day)).year >= 1898
  {
    var first := Civil(year + month0 / 12, month0 % 12 + 1, 1);
    MonthStarts(first.year);
    DayFromYearMonotone(1899, first.year);
    YearLength(1898);
    YearReached(MakeDay(year, month0, day), 1898);
  }

  lemma PrintDayOfCivil(c: Civil)
    requires ValidCivil(c) && 0 <= c.year <= 9999
    ensures PrintDay(ToDay(c)) == Some(CivilText(c))
  {
    FromDayToDay(c);
    FourDigitYearRange(ToDay(c));
    YearBounds();
  }

  /** A triple is accepted exactly when it is a real Gregorian date of the years 100 to 9999. */
  lemma AcceptsExactlyRealDates(year: nat, month: nat, day: nat)
    requires year <= 9999 && month <= 99 && day <= 99
    ensures
      var c := Civil(year, month, day);
      AcceptCivil(year, month, day) == if ValidCivil(c) && year >= 100 then Some(CivilText(c)) else None
  {
    var c := Civil(year, month, day);
    hide FromDay, DayFromYear, MonthStart, DaysInMonth, CivilText, PrintDay, MakeDay;
    var n := MakeDay(FullYear(year), month - 1, day);
    if year < 100 {
      MakeDayLate(FullYear(year), month - 1, day);
    } else if ValidCivil(c) {
      MakeDayInYear(year, month, day);
      FromDayToDay(c);
      PrintDayOfCivil(c);
    }
  }

  lemma ShortNumberOf(d: string, rest: string)
    requires 1 <= |d| <= 2 && AllDigits(d) && (rest == "" || !IsDigit(rest[0]))
    ensures ShortNumber(d + rest) == Some((ParseNat(d), rest))
  {
    DigitRunOf(d, rest);
    assert (d + rest)[..|d|] == d && (d + rest)[|d|..] == rest;
  }

  lemma SlashDateMatches(first: string, a: char, second: string, b: char, year: string)
    requires 1 <= |first| <= 2 && AllDigits(first)
    requires 1 <= |second| <= 2 && AllDigits(second)
    requires |year| == 4 && AllDigits(year)
    requires a in {'/', '-'} && b in {'/', '-'}
    ensures MatchSlashDate(first + ([a] + (second + ([b] + year))))
        == Some((ParseNat(first), ParseNat(second), ParseNat(year)))
  {
    hide ShortNumber, ParseNat;
    var s3 := [b] + year;
    var s1 := [a] + (second + s3);
    ShortNumberOf(first, s1);
    ShortNumberOf(second, s3);
    assert s1[1..] == second + s3 && s3[1..] == year;
  }

  /** A character other than a digit among the first four. */
  lemma EarlyNonDigit(s: string, k: nat)
    requires k < 4 <= |s| && !IsDigit(s[k])
    ensures !HasIsoShape(s)
  {
    assert s[..4][k] == s[k];
  }

  lemma TwoDigitBound(d: string)
    requires |d| <= 2 && AllDigits(d)
    ensures ParseNat(d) <= 99
  {
    PadParse(d);
    assert Pow10(0) == 1 && Pow10(1) == 10 && Pow10(2) == 100;
  }

  /** Text with slashes or dashes, however padded: the first number is the month unless it exceeds 12, and the
      text is accepted exactly when the resulting triple is a real date from year 100 on. */
  lemma SlashTextAcceptance(
    value: string, first: string, a: char, second: string, b: char, year: string, reader: DateReader)
    requires Trim(value) == first + ([a] + (second + ([b] + year)))
    requires 1 <= |first| <= 2 && AllDigits(first)
    requires 1 <= |second| <= 2 && AllDigits(second)
    requires |year| == 4 && AllDigits(year)
    requires a in {'/', '-'} && b in {'/', '-'}
    ensures
      var x, y := ParseNat(first), ParseNat(second);
      var c := if x > 12 then Civil(ParseNat(year), y, x) else Civil(ParseNat(year), x, y);
      0 <= c.year <= 9999 &&
      NormalizeText(value, reader) == if ValidCivil(c) && c.year >= 100 then Date(CivilText(c)) else Undefined
  {
    hide MatchSlashDate, HasIsoShape, Trim, AcceptCivil, ValidCivil, CivilText, ParseNat, MatchMonthNameDate,
        NormalizeOther;
    var s := first + ([a] + (second + ([b] + year)));
    SlashDateMatches(first, a, second, b, year);
    assert s[|first|] == a;
    EarlyNonDigit(s, |first|);
    FourDigitValue(s);
    TwoDigitBound(first);
    TwoDigitBound(second);
    var x, y, z := ParseNat(first), ParseNat(second), ParseNat(year);
    AcceptsExactlyRealDates(z, x, y);
    AcceptsExactlyRealDates(z, y, x);
  }

  /** The separator between day and year: white space, perhaps around a comma. */
  function Separator(before: string, comma: bool, after: string): string {
    before + (if comma then "," else "") + after
  }

  lemma {:induction false} SpaceRunOf(w: string, rest: string)
    requires AllSpaces(w) && (rest == "" || !IsSpace(rest[0]))
    ensures SpaceRun(w + rest) == |w|
  {
    if w == "" {
      assert w + rest == rest;
    } else {
      assert (w + rest)[1..] == w[1..] + rest;
      SpaceRunOf(w[1..], rest);
    }
  }

  lemma {:induction false} LetterRunOf(w: string, rest: string)
    requires (forall i :: 0 <= i < |w| ==> IsLetter(w[i])) && (rest == "" || !IsLetter(rest[0]))
    ensures LetterRun(w + rest) == |w|
  {
    if w == "" {
      assert w + rest == rest;
    } else {
      assert (w + rest)[1..] == w[1..] + rest;
      LetterRunOf(w[1..], rest);
    }
  }

  lemma AfterCommaOf(before: string, comma: bool, after: string, rest: string)
    requires AllSpaces(before) && AllSpaces(after)
    requires after != "" && rest != "" && !IsSpace(rest[0]) && rest[0] != ','
    ensures AfterComma(Separator(before, comma, after) + rest) == Some(rest)
  {
    var s := Separator(before, comma, after) + rest;
    if comma {
      var t := "," + (after + rest);
      assert s == before + t;
      SpaceRunOf(before, t);
      assert s[|before| + 1..] == after + rest;
      SpaceRunOf(after, rest);
      assert (after + rest)[|after|..] == rest;
    } else {
      assert s == (before + after) + rest;
      SpaceRunOf(before + after, rest);
      assert s[|before + after|..] == rest;
    }
  }

  lemma MonthNameDateMatches(
    token: string, dot: bool, gap: string, day: string, before: string, comma: bool, after: string, year: string)
    requires 3 <= |token| <= 9 && forall i :: 0 <= i < |token| ==> IsLetter(token[i])
    requires gap != "" && after != "" && AllSpaces(gap) && AllSpaces(before) && AllSpaces(after)
    requires 1 <= |day| <= 2 && AllDigits(day)
    requires |year| == 4 && AllDigits(year)
    ensures
      var s := token + ((if dot then "." else "") + (gap + (day + (Separator(before, comma, after) + year))));
      && MatchMonthNameDate(s) == Some((token, ParseNat(day), ParseNat(year)))
      && MatchSlashDate(s) == None
  {
    hide MatchDayYear, ParseNat, ShortNumber, Separator;
    var s1 := gap + (day + (Separator(before, comma, after) + year));
    var s0 := (if dot then "." else "") + s1;
    var s := token + s0;
    assert s1[0] == gap[0] && !IsLetter(s0[0]) && (s0[0] == '.' <==> dot);
    LetterRunOf(token, s0);
    assert s[|token|..] == s0 && s[..|token|] == token;
    assert (if dot then s0[1..] else s0) == s1;
    DayYearMatches(gap, day, before, comma, after, year);
    assert s[0] == token[0];
    NoShortNumber(s);
  }

  lemma DayYearMatches(gap: string, day: string, before: string, comma: bool, after: string, year: string)
    requires gap != "" && after != "" && AllSpaces(gap) && AllSpaces(before) && AllSpaces(after)
    requires 1 <= |day| <= 2 && AllDigits(day)
    requires |year| == 4 && AllDigits(year)
    ensures MatchDayYear(gap + (day + (Separator(before, comma, after) + year)))
        == Some((ParseNat(day), ParseNat(year)))
  {
    hide ParseNat, ShortNumber, AfterComma;
    var s2 := Separator(before, comma, after) + year;
    assert s2 != "" && !IsDigit(s2[0]) by {
      assert s2[0] == if before != "" then before[0] else if comma then ',' else after[0];
    }
    var s := gap + (day + s2);
    assert (day + s2)[0] == day[0] && IsDigit(day[0]);
    SpaceRunOf(gap, day + s2);
    assert s[|gap|..] == day + s2;
    ShortNumberOf(day, s2);
    assert IsDigit(year[0]);
    AfterCommaOf(before, comma, after, year);
  }

  lemma NoShortNumber(s: string)
    requires s != "" && !IsDigit(s[0])
    ensures ShortNumber(s) == None
  {
  }

  lemma NormalizeMonthName(value: string, token: string, day: nat, year: nat, reader: DateReader)
    requires !HasIsoShape(Trim(value)) && MatchSlashDate(Trim(value)) == None
    requires MatchMonthNameDate(Trim(value)) == Some((token, day, year))
    ensures year <= 9999 && NormalizeText(value, reader) == AcceptMonthName(token, day, year)
  {
    FourDigitValue(Trim(value));
  }

  lemma AcceptMonthNameExactly(token: string, day: nat, year: nat)
    requires |token| >= 3 && day <= 99 && year <= 9999
    ensures forall m :: 0 <= m < 12 && LowerWord(token) <= MONTH_NAMES[m] ==>
              var c := Civil(year, m + 1, day);
              AcceptMonthName(token, day, year)
              == if ValidCivil(c) && year >= 100 then Date(CivilText(c)) else Undefined
    ensures (forall m :: 0 <= m < 12 ==> !(LowerWord(token) <= MONTH_NAMES[m])) ==>
              AcceptMonthName(token, day, year) == Undefined
  {
    hide AcceptCivil, ValidCivil, CivilText, LowerWord;
    forall m | 0 <= m < 12 && LowerWord(token) <= MONTH_NAMES[m]
      ensures MonthIndexFromName(token) == m
    {
      MonthPrefixUnique(token, m);
    }
    var m := MonthIndexFromName(token);
    if m >= 0 {
      AcceptsExactlyRealDates(year, m + 1, day);
    }
  }

  /** Text with a written month, however padded, is accepted exactly when some month starts with the word (in any
      letter case) and the triple is a real date from year 100 on. */
  lemma MonthNameTextAcceptance(
    value: string, token: string, dot: bool, gap: string, day: string, before: string, comma: bool, after: string,
    year: string, reader: DateReader)
    requires 3 <= |token| <= 9 && forall i :: 0 <= i < |token| ==> IsLetter(token[i])
    requires gap != "" && after != "" && AllSpaces(gap) && AllSpaces(before) && AllSpaces(after)
    requires 1 <= |day| <= 2 && AllDigits(day)
    requires |year| == 4 && AllDigits(year)
    requires Trim(value) == token
        + ((if dot then "." else "") + (gap + (day + (Separator(before, comma, after) + year))))
    ensures
      var r := NormalizeText(value, reader);
      && (forall m :: 0 <= m < 12 && LowerWord(token) <= MONTH_NAMES[m] ==>
            var c := Civil(ParseNat(year), m + 1, ParseNat(day));
            0 <= c.year <= 9999 && r == if ValidCivil(c) && c.year >= 100 then Date(CivilText(c)) else Undefined)
      && ((forall m :: 0 <= m < 12 ==> !(LowerWord(token) <= MONTH_NAMES[m])) ==> r == Undefined)
  {
    hide MatchSlashDate, MatchMonthNameDate, HasIsoShape, Trim, NormalizeText, AcceptMonthName,
         Separator, LowerWord, ValidCivil, CivilText, ParseNat;
    var s := token + ((if dot then "." else "") + (gap + (day + (Separator(before, comma, after) + year))));
    MonthNameDateMatches(token, dot, gap, day, before, comma, after, year);
    assert s[0] == token[0] && IsLetter(token[0]);
    EarlyNonDigit(s, 0);
    NormalizeMonthName(value, token, ParseNat(day), ParseNat(year), reader);
    TwoDigitBound(day);
    AcceptMonthNameExactly(token, ParseNat(day), ParseNat(year));
  }

  lemma IsoTextFixed(s: string, reader: DateReader)
    requires HasIsoShape(s)
    ensures NormalizeText(s, reader) == Date(s)
  {
    assert s[0] == s[..4][0] && s[9] == s[8..][1];
    UnpaddedTrim(s);
  }

  /** Normalizing is idempotent on every result in the form YYYY-MM-DD. */
  lemma NormalizedIsFixed(value: Cell, reader: DateReader)
    ensures
      var r := Normalize(value, reader);
      r.Date? && HasIsoShape(r.text) ==> Normalize(TextCell(r.text), reader) == r
  {
    var r := Normalize(value, reader);
    if r.Date? && HasIsoShape(r.text) {
      IsoTextFixed(r.text, reader);
    }
  }

  /** Uploading an exported date gives the stored date back exactly from year 100 on; the
      exported text of an earlier year is refused. */
  lemma ExportRoundTrip(c: Civil, reader: DateReader)
    requires ValidCivil(c) && 0 <= c.year <= 9999
    ensures
      var stored := CivilText(c);
      var exported := FormatExportDate(stored, reader);
      Normalize(TextCell(exported), reader) == if c.year >= 100 then Date(stored) else Undefined
  {
    var stored := CivilText(c);
    CivilTextFields(c);
    IsoTextFixed(stored, reader);
    var m, d, y := stored[5..7], stored[8..], stored[..4];
    assert IsoFields(stored) == c;
    assert ExportText(stored) == m + ("/" + (d + ("/" + y)));
    var exported := ExportText(stored);
    assert IsDigit(exported[0]) && IsDigit(exported[9]) by {
      assert exported[0] == m[0] && exported[9] == y[3];
    }
    UnpaddedTrim(exported);
    SlashTextAcceptance(exported, m, '/', d, '/', y, reader);
  }

  /** The exported text is MM/DD/YYYY; what does not normalize is exported as it is. */
  lemma ExportedForm(value: string, c: Civil, reader: DateReader)
    requires ValidCivil(c) && 0 <= c.year <= 9999
    ensures NormalizeText(value, reader) == Date(CivilText(c)) && value != "" ==>
              FormatExportDate(value, reader) == Pad(c.month, 2) + "/" + Pad(c.day, 2) + "/" + Pad(c.year, 4)
    ensures value == "" || NormalizeText(value, reader) in {Undefined, RangeError} ==>
        FormatExportDate(value, reader) == value
  {
    hide NormalizeText, HasIsoShape;
    CivilTextFields(c);
    var s := CivilText(c);
    assert Pow10(2) == 100 && Pow10(4) == 10000;
    assert s[..4] == Pad(c.year, 4) && s[5..7] == Pad(c.month, 2) && s[8..] == Pad(c.day, 2);
  }

  /** A number of 3,000,000 or more, or a Date object, is epoch milliseconds: it normalizes to the day in which
      its whole millisecond falls, and only up to the 8.64e15 that a Date can hold. */
  lemma EpochMillisDate(ms: int, v: real, n: Day, reader: DateReader)
    requires n * 86_400_000 <= ms < (n + 1) * 86_400_000
    requires if v >= 0.0 then ms as real <= v < ms as real + 1.0 else ms as real - 1.0 < v <= ms as real
    requires !(-3_000_000.0 < v < 3_000_000.0)
    ensures -8_640_000_000_000_000.0 <= v <= 8_640_000_000_000_000.0 ==>
              InTimeRange(n) && Normalize(NumberCell(v), reader) == Date(IsoSlice(n))
    ensures !(-8_640_000_000_000_000.0 <= v <= 8_640_000_000_000_000.0) ==>
        Normalize(NumberCell(v), reader) == Undefined
  {
    hide IsoSlice;
    assert Truncate(v) == ms;
    DivModUnique(ms, MS_PER_DAY, n, ms - n * MS_PER_DAY);
  }

  lemma DateObjectDate(ms: int, n: Day, reader: DateReader)
    requires n * 86_400_000 <= ms < (n + 1) * 86_400_000 && InTimeRange(n)
    ensures Normalize(DateCell(Some(ms)), reader) == Date(IsoSlice(n))
    ensures Normalize(DateCell(None), reader) == RangeError && Normalize(Absent, reader) == Undefined
  {
    hide IsoSlice;
    DivModUnique(ms, MS_PER_DAY, n, ms - n * MS_PER_DAY);
  }

  // ---------------------------------------------------------------- texts of no known form

  predicate SlashParts(s: string, first: string, a: char, second: string, b: char, year: string) {
    && 1 <= |first| <= 2 && AllDigits(first)
    && 1 <= |second| <= 2 && AllDigits(second)
    && |year| == 4 && AllDigits(year)
    && a in {'/', '-'} && b in {'/', '-'}
    && s == first + ([a] + (second + ([b] + year)))
  }

  lemma ShortNumberCuts(s: string) returns (digits: string)
    requires ShortNumber(s).Some?
    ensures 1 <= |digits| <= 2 && AllDigits(digits) && s == digits + ShortNumber(s).value.1
  {
    digits := s[..DigitRun(s)];
  }

  lemma AfterSlashCuts(s: string)
    requires AfterSlash(s).Some?
    ensures s[0] in {'/', '-'} && s == [s[0]] + AfterSlash(s).value
  {
  }

  /** The slash pattern matches exactly the texts that have its parts. */
  lemma SlashPatternExact(s: string)
    ensures MatchSlashDate(s).Some? <==> exists first, a, second, b, year :: SlashParts(s, first, a, second, b, year)
  {
    hide ShortNumber, AfterSlash, FourDigits, AllDigits;
    if MatchSlashDate(s).Some? {
      SlashPartsOf(s);
    }
    forall first, a, second, b, year | SlashParts(s, first, a, second, b, year)
      ensures MatchSlashDate(s).Some?
    {
      SlashDateMatches(first, a, second, b, year);
    }
  }

  lemma SlashPartsOf(s: string)
    requires MatchSlashDate(s).Some?
    ensures exists first, a, second, b, year :: SlashParts(s, first, a, second, b, year)
  {
    hide ShortNumber, AfterSlash, AllDigits;
    var first := ShortNumberCuts(s);
    var s1 := ShortNumber(s).value.1;
    AfterSlashCuts(s1);
    var s2 := AfterSlash(s1).value;
    var second := ShortNumberCuts(s2);
    var s3 := ShortNumber(s2).value.1;
    AfterSlashCuts(s3);
    var year := AfterSlash(s3).value;
    assert SlashParts(s, first, s1[0], second, s3[0], year);
  }

  predicate MonthNameParts(s: string, token: string, dot: bool, gap: string, day: string, before: string, comma: bool,
                           after: string, year: string)
  {
    && 3 <= |token| <= 9 && (forall i :: 0 <= i < |token| ==> IsLetter(token[i]))
    && gap != "" && after != "" && AllSpaces(gap) && AllSpaces(before) && AllSpaces(after)
    && 1 <= |day| <= 2 && AllDigits(day)
    && |year| == 4 && AllDigits(year)
    && s == token + ((if dot then "." else "") + (gap + (day + (Separator(before, comma, after) + year))))
  }

  lemma {:induction false} SpaceRunCuts(s: string)
    ensures AllSpaces(s[..SpaceRun(s)])
  {
    if s != "" && IsSpace(s[0]) {
      SpaceRunCuts(s[1..]);
      assert s[..SpaceRun(s)] == [s[0]] + s[1..][..SpaceRun(s[1..])];
    }
  }

  lemma {:induction false} LetterRunCuts(s: string)
    ensures forall i :: 0 <= i < LetterRun(s) ==> IsLetter(s[i])
  {
    if s != "" && IsLetter(s[0]) {
      LetterRunCuts(s[1..]);
      assert forall i :: 0 < i < LetterRun(s) ==> s[i] == s[1..][i - 1];
    }
  }

  lemma AfterCommaCuts(s: string) returns (before: string, comma: bool, after: string)
    requires AfterComma(s).Some?
    ensures AllSpaces(before) && AllSpaces(after) && after != ""
    ensures s == Separator(before, comma, after) + AfterComma(s).value
  {
    hide SpaceRun, AllSpaces;
    var n := SpaceRun(s);
    SpaceRunCuts(s);
    if n < |s| && s[n] == ',' {
      var t := s[n + 1..];
      SpaceRunCuts(t);
      before, comma, after := s[..n], true, t[..SpaceRun(t)];
      CommaCut(s, n, SpaceRun(t));
    } else {
      before, comma, after := "", false, s[..n];
      NoSpaces();
      assert s == "" + "" + s[..n] + s[n..];
    }
  }

  lemma NoSpaces()
    ensures AllSpaces("")
  {
  }

  lemma CommaCut(s: string, n: nat, k: nat)
    requires n < |s| && s[n] == ',' && k <= |s[n + 1..]|
    ensures s == s[..n] + "," + s[n + 1..][..k] + s[n + 1..][k..]
  {
    assert s[n + 1..] == s[n + 1..][..k] + s[n + 1..][k..];
    assert s == s[..n] + [s[n]] + s[n + 1..];
  }

  lemma DayYearPartsOf(
    s: string) returns (gap: string, day: string, before: string, comma: bool, after: string, year: string)
    requires MatchDayYear(s).Some?
    ensures gap != "" && after != "" && AllSpaces(gap) && AllSpaces(before) && AllSpaces(after)
    ensures 1 <= |day| <= 2 && AllDigits(day) && |year| == 4 && AllDigits(year)
    ensures s == gap + (day + (Separator(before, comma, after) + year))
  {
    hide ShortNumber, AfterComma, Separator, AllSpaces;
    var k := SpaceRun(s);
    SpaceRunCuts(s);
    gap := s[..k];
    day := ShortNumberCuts(s[k..]);
    var s1 := ShortNumber(s[k..]).value.1;
    before, comma, after := AfterCommaCuts(s1);
    year := AfterComma(s1).value;
    assert s == gap + s[k..];
  }

  /** The month-name pattern matches exactly the texts that have its parts. */
  lemma MonthNamePatternExact(s: string)
    ensures MatchMonthNameDate(s).Some? <==>
            exists token, dot, gap, day, before, comma, after, year ::
              MonthNameParts(s, token, dot, gap, day, before, comma, after, year)
  {
    hide MatchDayYear, AllSpaces, Separator, AllDigits;
    if MatchMonthNameDate(s).Some? {
      var n := LetterRun(s);
      LetterRunCuts(s);
      var token, s0 := s[..n], s[n..];
      var dot := s0 != "" && s0[0] == '.';
      var s1 := if dot then s0[1..] else s0;
      assert s == token + s0 && s0 == (if dot then "." else "") + s1;
      var gap, day, before, comma, after, year := DayYearPartsOf(s1);
      assert MonthNameParts(s, token, dot, gap, day, before, comma, after, year);
    }
    forall token, dot, gap, day, before, comma, after, year
      | MonthNameParts(s, token, dot, gap, day, before, comma, after, year)
      ensures MatchMonthNameDate(s).Some?
    {
      MonthNameDateMatches(token, dot, gap, day, before, comma, after, year);
    }
  }

  /** A text of neither form, and not YYYY-MM-DD, is read by the engine when it holds a T or begins like
      YYYY-MM-DD, and refused otherwise. */
  lemma OtherTextExact(value: string, reader: DateReader)
    requires !HasIsoShape(Trim(value)) && MatchSlashDate(Trim(value)) == None && MatchMonthNameDate(Trim(value)) == None
    ensures
      var s := Trim(value);
      var asked := 'T' in s || exists head, tail :: HasIsoShape(head) && s == head + tail;
      NormalizeText(value, reader)
      == if !asked || reader(s) == None
          || !InTimeRange(reader(s).value) then Undefined else Date(IsoSlice(reader(s).value))
  {
    hide HasIsoShape, Trim, IsoSlice, MatchSlashDate, MatchMonthNameDate;
    var s := Trim(value);
    if |s| >= 10 && HasIsoShape(s[..10]) {
      assert s == s[..10] + s[10..];
    }
    forall head, tail | HasIsoShape(head) && s == head + tail
      ensures |s| >= 10 && HasIsoShape(s[..10])
    {
      IsoLength(head);
      assert s[..10] == head;
    }
  }

  lemma IsoLength(s: string)
    requires HasIsoShape(s)
    ensures |s| == 10
  {
  }

  /** An Excel serial counts days from 1899-12-30; its fraction, the time of day, is dropped. */
  lemma ExcelSerialDate(n: int, fraction: real, reader: DateReader)
    requires 0.0 <= fraction < 1.0
    requires -MAX_EXCEL_SERIAL < n as real + fraction < MAX_EXCEL_SERIAL
    ensures
      var epoch := ToDay(Civil(1899, 12, 30));
      && InTimeRange(epoch + n)
      && Normalize(NumberCell(n as real + fraction), reader) == Date(IsoSlice(epoch + n))
      && (ParseIso(IsoSlice(epoch + n)) == Some(epoch + n) <==> -693_959 <= n <= 2_958_465)
  {
    hide IsoSlice, ParseIso, ToDay, DayFromNumber, Normalize;
    ExcelEpoch();
    SerialDay(n, fraction);
    NormalizeNumber(n as real + fraction, n - EXCEL_EPOCH_OFFSET_DAYS, reader);
    SerialYears(n);
  }

  lemma NormalizeNumber(v: real, n: Day, reader: DateReader)
    requires DayFromNumber(v) == Some(n)
    ensures InTimeRange(n) && Normalize(NumberCell(v), reader) == Date(IsoSlice(n))
  {
    hide IsoSlice;
  }

  lemma SerialYears(n: int)
    requires -3_000_001 <= n <= 3_000_000
    ensures InTimeRange(n - EXCEL_EPOCH_OFFSET_DAYS)
    ensures ParseIso(IsoSlice(n - EXCEL_EPOCH_OFFSET_DAYS)) == Some(n - EXCEL_EPOCH_OFFSET_DAYS)
        <==> -693_959 <= n <= 2_958_465
  {
    hide IsoSlice, ParseIso, FourDigitYear;
    ParsePrintedDay(n - EXCEL_EPOCH_OFFSET_DAYS);
    FourDigitYearRange(n - EXCEL_EPOCH_OFFSET_DAYS);
    YearBounds();
  }

  lemma SerialDay(n: int, fraction: real)
    requires 0.0 <= fraction < 1.0
    requires -MAX_EXCEL_SERIAL < n as real + fraction < MAX_EXCEL_SERIAL
    ensures DayFromNumber(n as real + fraction) == Some(n - EXCEL_EPOCH_OFFSET_DAYS)
    ensures -3_000_001 <= n <= 3_000_000
  {
    var v := n as real + fraction - EXCEL_EPOCH_OFFSET_DAYS as real;
    assert v.Floor == n - EXCEL_EPOCH_OFFSET_DAYS;
  }

  lemma ExcelEpoch()
    ensures ValidCivil(Civil(1899, 12, 30)) && ToDay(Civil(1899, 12, 30)) == -EXCEL_EPOCH_OFFSET_DAYS
  {
    MonthStarts(1899);
    DayFromYearIsEcma(1899);
  }
}
