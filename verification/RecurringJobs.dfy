/** Recurring parser jobs: the windows that `bulkCreateParserJobs` requests from the parser,
    and the callback `updateHistoricalAndRunDate` that records a finished one. */
module RecurringJobs {
  import opened Basics
  import opened Text
  import opened CivilDate
  import opened ParserJobDates
  import opened PropertyTable
  import opened RunDateCalculator

  // ---------------------------------------------------------------- priority

  /** The characters whose upper case is a letter of the word HIGH or another ASCII letter. */
  function UpperLetter(c: char): char {
    if 'a' <= c <= 'z' then (c as int - 32) as char
    else if c == '\U{0131}' then 'I'
    else c
  }

  function UpperWord(s: string): (r: string)
    ensures |r| == |s|
  {
    seq(|s|, i requires 0 <= i < |s| => UpperLetter(s[i]))
  }

  predicate IsHigh(priority: Option<string>) {
    priority.Some? && UpperWord(Trim(priority.value)) == "HIGH"
  }

  /** A priority counts as HIGH exactly when it is the word in any letter case, perhaps padded; the dotless
      i is the one further character whose upper case is a letter of the word. */
  lemma HighExactly(priority: string)
    ensures IsHigh(Some(priority)) <==>
            var t := Trim(priority);
            |t| == 4 && t[0] in {'h', 'H'} && t[1] in {'i', 'I', '\U{0131}'} && t[2] in {'g', 'G'} && t[3] in {'h', 'H'}
    ensures !IsHigh(None)
  {
    hide Trim;
    var w := UpperWord(Trim(priority));
    assert |"HIGH"| == 4;
    assert w == "HIGH" <==> |w| == 4 && w[0] == 'H' && w[1] == 'I' && w[2] == 'G' && w[3] == 'H';
  }

  lemma RegularIsNotHigh()
    ensures !IsHigh(Some("REGULAR"))
    ensures IsHigh(Some("HIGH"))
    ensures ParseCrsDays(Some("30")) == Some(30)
  {
    assert Trim("REGULAR") == "REGULAR";
    assert Trim("HIGH") == "HIGH";
    UnpaddedTrim("30");
    assert NatToString(30) + "" == "30";
    ParseCrsDaysReadsNumber("30", 30, "");
  }

  // ---------------------------------------------------------------- job windows

  datatype Window = Window(start: Day, end: Day)

  datatype SkipReason = NoOtaId | CrsUnusable | NoHistoricalTo | EndBeforeStart

  datatype WindowChoice = Chosen(window: Window) | Skip(reason: SkipReason)

  /** The window of one property for one request: which dates are fixed decides the rule. */
  function ChooseWindow(ota: Ota, f: OtaFields, startDate: Option<Day>, endDate: Option<Day>): WindowChoice {
    if f.otaId == None then Skip(NoOtaId)
    else if startDate.Some? then
      if endDate.Some? then Chosen(Window(startDate.value, endDate.value))
      else
        match ParseCrsDays(f.crs)
        case None => Skip(CrsUnusable)
        case Some(crs) =>
          var span := if ota == Agoda then crs * 2 else crs;
          Chosen(Window(startDate.value, JobEnd(startDate.value, span, ota == Booking)))
    else if f.historicalTo == None then Skip(NoHistoricalTo)
    else if endDate.Some? then
      var start := JobStart(f.historicalTo.value);
      if endDate.value < start then Skip(EndBeforeStart) else Chosen(Window(start, endDate.value))
    else
      match ParseCrsDays(f.crs)
      case None => Skip(CrsUnusable)
      case Some(crs) =>
        if ota == Agoda then
          Chosen(Window(AgodaJobStart(f.historicalTo.value, crs), AgodaJobEnd(f.historicalTo.value, crs)))
        else
          var start := JobStart(f.historicalTo.value);
          Chosen(Window(start, JobEnd(start, crs, ota == Booking)))
  }

  /** The days a window of the request spans when neither end is fixed by it. */
  function SpanFor(ota: Ota, crs: nat): nat {
    match ota
    case Expedia => crs
    case Booking => crs + 365
    case Agoda => 2 * crs
  }

  /** Every window runs forward. Its length is the OTA's span unless the request fixes the end, and
      a window that the request does not start covers the day after the property's "to" date. */
  lemma WindowShape(ota: Ota, f: OtaFields, startDate: Option<Day>, endDate: Option<Day>)
    requires startDate.Some? && endDate.Some? ==> startDate.value <= endDate.value
    requires ChooseWindow(ota, f, startDate, endDate).Chosen?
    ensures
      var w := ChooseWindow(ota, f, startDate, endDate).window;
      && w.start <= w.end
      && (startDate.Some? ==> w.start == startDate.value)
      && (endDate.Some? ==> w.end == endDate.value)
      && (endDate == None ==> ParseCrsDays(f.crs).Some? && w.end - w.start == SpanFor(ota, ParseCrsDays(f.crs).value))
      && (startDate == None ==>
            && f.historicalTo.Some? && Continues(ota, f.historicalTo.value, w)
            && w.start == FirstDay(ota, f.historicalTo.value, endDate, ParseCrsDays(f.crs)))
  {
  }

  /** Where a window starts when the request fixes no start: the day after the "to" date, and CRS days
      earlier for Agoda when the request fixes no end either. */
  function FirstDay(ota: Ota, to: Day, endDate: Option<Day>, crs: Option<nat>): Day {
    to + 1 - if ota == Agoda && endDate == None && crs.Some? then crs.value else 0
  }

  /** `w` carries on from a history that ends on day `to`: it ends later and starts the next day,
      or for Agoda no later than the next day. */
  predicate Continues(ota: Ota, to: Day, w: Window) {
    && to < w.end
    && if ota == Agoda then w.start <= to + 1 else w.start == to + 1
  }

  // ---------------------------------------------------------------- bulk creation

  datatype BulkRequest = BulkRequest(propertyIds: seq<Id>, ota: Ota, startDate: Option<Day>, endDate: Option<Day>)

  datatype ParserJob = ParserJob(
    parentId: Id,
    ota: Ota,
    window: Window,
    billingType: Option<string>,
    priority: int,
    bookingOtpNumber: Option<string>)

  datatype PropertyResult = PropertyResult(
    propertyId: Id,
    name: string,
    jobsCreated: seq<Window>,
    skippedOtas: seq<SkipReason>)

  /** What posting the jobs comes to; `Failed` is an error that is not an HTTP client error. */
  datatype Post = Responded(status: int) | Unreachable | Failed

  datatype BulkOutcome =
    | BadGateway
    | BadRequest
    | NotFound(missing: seq<Id>)
    | Rethrown
    | Accepted(status: int, jobs: seq<ParserJob>, summary: seq<PropertyResult>)

  /** findMany by ids, in table order. */
  function Select(rows: seq<Property>, ids: seq<Id>): seq<Property> {
    if rows == [] then []
    else (if rows[0].id in ids then [rows[0]] else []) + Select(rows[1..], ids)
  }

  function Missing(rows: seq<Property>, ids: seq<Id>): seq<Id> {
    if ids == [] then []
    else (if HasId(rows, ids[0]) then [] else [ids[0]]) + Missing(rows, ids[1..])
  }

  function ResultFor(p: Property, request: BulkRequest): PropertyResult {
    match ChooseWindow(request.ota, p.Get(request.ota), request.startDate, request.endDate)
    case Chosen(w) => PropertyResult(p.id, p.name, [w], [])
    case Skip(reason) => PropertyResult(p.id, p.name, [], [reason])
  }

  function JobsFor(p: Property, request: BulkRequest): seq<ParserJob> {
    var f := p.Get(request.ota);
    match ChooseWindow(request.ota, f, request.startDate, request.endDate)
    case Chosen(w) =>
      [ParserJob(p.id, request.ota, w, f.billingType, if IsHigh(f.priority) then 1 else 0, p.bookingOtpNumber)]
    case Skip(_) => []
  }

  function Jobs(ps: seq<Property>, request: BulkRequest): seq<ParserJob> {
    if ps == [] then [] else Jobs(ps[..|ps| - 1], request) + JobsFor(ps[|ps| - 1], request)
  }

  function Summary(ps: seq<Property>, request: BulkRequest): (r: seq<PropertyResult>)
    ensures |r| == |ps|
  {
    seq(|ps|, i requires 0 <= i < |ps| => ResultFor(ps[i], request))
  }

  function BulkCreate(rows: seq<Property>, request: BulkRequest, urlConfigured: bool, post: Post): BulkOutcome {
    var ps := Select(rows, request.propertyIds);
    var jobs := Jobs(ps, request);
    if !urlConfigured then BadGateway
    else if request.startDate.Some? && request.endDate.Some? && request.endDate.value < request.startDate.value
    then BadRequest
    else if |ps| != |request.propertyIds| then NotFound(Missing(ps, request.propertyIds))
    else if jobs == [] then Accepted(200, jobs, Summary(ps, request))
    else
      match post
      case Responded(status) => Accepted(status, jobs, Summary(ps, request))
      case Unreachable => BadGateway
      case Failed => Rethrown
  }

  /** The windows a summary reports as created, in order, with the property each is for. */
  function CreatedWindows(summary: seq<PropertyResult>): seq<(Id, Window)> {
    if summary == [] then []
    else CreatedWindows(summary[..|summary| - 1]) + OfResult(summary[|summary| - 1])
  }

  function OfResult(r: PropertyResult): seq<(Id, Window)> {
    seq(|r.jobsCreated|, i requires 0 <= i < |r.jobsCreated| => (r.propertyId, r.jobsCreated[i]))
  }

  function JobWindows(jobs: seq<ParserJob>): (r: seq<(Id, Window)>)
    ensures |r| == |jobs|
  {
    seq(|jobs|, i requires 0 <= i < |jobs| => (jobs[i].parentId, jobs[i].window))
  }

  lemma {:induction false} JobsAreCreatedWindows(ps: seq<Property>, request: BulkRequest)
    ensures JobWindows(Jobs(ps, request)) == CreatedWindows(Summary(ps, request))
  {
    if ps != [] {
      var init, last := ps[..|ps| - 1], ps[|ps| - 1];
      JobsAreCreatedWindows(init, request);
      var s := Summary(ps, request);
      assert s[..|s| - 1] == Summary(init, request);
      OneResult(last, request);
      hide JobsFor, ResultFor;
      JobWindowsConcat(Jobs(init, request), JobsFor(last, request));
    }
  }

  lemma OneResult(p: Property, request: BulkRequest)
    ensures JobWindows(JobsFor(p, request)) == OfResult(ResultFor(p, request))
  {
    hide ChooseWindow, IsHigh;
  }

  lemma JobWindowsConcat(a: seq<ParserJob>, b: seq<ParserJob>)
    ensures JobWindows(a + b) == JobWindows(a) + JobWindows(b)
  {
  }

  lemma {:induction false} JobOrigin(ps: seq<Property>, request: BulkRequest, j: ParserJob)
    requires j in Jobs(ps, request)
    ensures exists p :: p in ps && j in JobsFor(p, request)
  {
    var init, last := ps[..|ps| - 1], ps[|ps| - 1];
    if j in JobsFor(last, request) {
      assert last in ps;
    } else {
      JobOrigin(init, request, j);
    }
  }

  /** The window is the one the request prescribes for this property: it runs forward, keeps the fixed
      dates, and without a fixed end spans CRS, CRS + 365 or 2 * CRS days. */
  predicate Prescribed(p: Property, request: BulkRequest, w: Window) {
    var f := p.Get(request.ota);
    && w.start <= w.end
    && (request.startDate.Some? ==> w.start == request.startDate.value)
    && (request.endDate.Some? ==> w.end == request.endDate.value)
    && (request.endDate == None ==>
          ParseCrsDays(f.crs).Some? && w.end - w.start == SpanFor(request.ota, ParseCrsDays(f.crs).value))
    && (request.startDate == None ==>
          && f.historicalTo.Some? && Continues(request.ota, f.historicalTo.value, w)
          && w.start == FirstDay(request.ota, f.historicalTo.value, request.endDate, ParseCrsDays(f.crs)))
  }

  // ---------------------------------------------------------------- skips and outcomes

  /** Which properties are skipped, and why. */
  predicate SkippedFor(f: OtaFields, request: BulkRequest, reason: SkipReason) {
    match reason
    case NoOtaId => f.otaId == None
    case NoHistoricalTo => f.otaId.Some? && request.startDate == None && f.historicalTo == None
    case EndBeforeStart =>
      && f.otaId.Some? && request.startDate == None && f.historicalTo.Some?
      && request.endDate.Some? && request.endDate.value <= f.historicalTo.value
    case CrsUnusable =>
      && f.otaId.Some? && (request.startDate.Some? || f.historicalTo.Some?)
      && request.endDate == None && ParseCrsDays(f.crs) == None
  }

  /** A property is skipped for a reason exactly when the reason applies, so at most one does, and it gets
      a window exactly when none applies. */
  lemma SkipsExactly(f: OtaFields, request: BulkRequest, reason: SkipReason)
    ensures
      var choice := ChooseWindow(request.ota, f, request.startDate, request.endDate);
      && (choice == Skip(reason) <==> SkippedFor(f, request, reason))
      && (choice.Chosen? <==> forall x: SkipReason :: !SkippedFor(f, request, x))
  {
    var choice := ChooseWindow(request.ota, f, request.startDate, request.endDate);
    assert choice.Skip? ==> SkippedFor(f, request, choice.reason);
  }

  /** The summary entry reports this property: its window, or the one reason it has none. */
  predicate Reports(s: PropertyResult, p: Property, request: BulkRequest) {
    && s.propertyId == p.id && s.name == p.name
    && ((|s.jobsCreated| == 1 && s.skippedOtas == [] && Prescribed(p, request, s.jobsCreated[0])
         && forall x: SkipReason :: !SkippedFor(p.Get(request.ota), request, x))
        || (s.jobsCreated == [] && |s.skippedOtas| == 1
            && SkippedFor(p.Get(request.ota), request, s.skippedOtas[0])))
  }

  /** What the job carries besides its window is the property's own: priority 1 for the word HIGH in any
      letter case, perhaps padded, and 0 otherwise. */
  predicate CarriesProperty(j: ParserJob, p: Property, request: BulkRequest) {
    var f := p.Get(request.ota);
    var high := f.priority.Some? && UpperWord(Trim(f.priority.value)) == "HIGH";
    && j.parentId == p.id && j.ota == request.ota
    && j.billingType == f.billingType && j.bookingOtpNumber == p.bookingOtpNumber
    && j.priority == if high then 1 else 0
  }

  /** Exactly one entry of the summary is about the property. */
  predicate OneEntry(summary: seq<PropertyResult>, id: Id) {
    exists i :: 0 <= i < |summary| && summary[i].propertyId == id && OnlyEntry(summary, i)
  }

  predicate OnlyEntry(summary: seq<PropertyResult>, i: nat)
    requires i < |summary|
  {
    forall j :: 0 <= j < |summary| && summary[j].propertyId == summary[i].propertyId ==> j == i
  }

  /** Each requested property has one entry in the summary, created or skipped and never both; the jobs
      sent are exactly the created windows of the summary, in its order; and every job has its
      property's prescribed window. */
  lemma AcceptedRequest(rows: seq<Property>, request: BulkRequest, urlConfigured: bool, post: Post)
    requires BulkCreate(rows, request, urlConfigured, post).Accepted?
    ensures
      var r := BulkCreate(rows, request, urlConfigured, post);
      && |r.summary| == |request.propertyIds|
      && (UniqueIds(rows) ==> forall id :: id in request.propertyIds ==> OneEntry(r.summary, id))
      && (forall s :: s in r.summary ==> s.propertyId in request.propertyIds && |s.jobsCreated| + |s.skippedOtas| == 1)
      && JobWindows(r.jobs) == CreatedWindows(r.summary)
      && (forall s :: s in r.summary ==> exists p :: p in rows && Reports(s, p, request))
      && (forall j :: j in r.jobs ==>
            exists p :: p in rows && p.id in request.propertyIds
                        && CarriesProperty(j, p, request) && Prescribed(p, request, j.window))
  {
    hide JobsFor, Prescribed, JobWindows, CreatedWindows, OneEntry, ChooseWindow, CarriesProperty, Reports;
    var r := BulkCreate(rows, request, urlConfigured, post);
    var ps := Select(rows, request.propertyIds);
    JobsAreCreatedWindows(ps, request);
    SelectedIds(rows, request.propertyIds);
    if UniqueIds(rows) {
      EveryIdHasItsEntry(rows, request);
    }
    forall s | s in r.summary
      ensures exists p :: p in rows && Reports(s, p, request)
    {
      var i :| 0 <= i < |ps| && r.summary[i] == s;
      assert ps[i] in ps;
      ResultReports(ps[i], request);
    }
    forall j | j in r.jobs
      ensures exists p :: p in rows && p.id in request.propertyIds
                          && CarriesProperty(j, p, request) && Prescribed(p, request, j.window)
    {
      JobOrigin(ps, request, j);
      var p :| p in ps && j in JobsFor(p, request);
      JobPrescribed(p, request, j);
    }
  }

  lemma EveryIdHasItsEntry(rows: seq<Property>, request: BulkRequest)
    requires UniqueIds(rows)
    requires |Select(rows, request.propertyIds)| == |request.propertyIds|
    ensures forall id :: id in request.propertyIds ==>
              OneEntry(Summary(Select(rows, request.propertyIds), request), id)
  {
    hide Select, HasId, ChooseWindow;
    var ids := request.propertyIds;
    var ps := Select(rows, ids);
    var summary := Summary(ps, request);
    LengthCheckExact(rows, ids);
    SelectKeepsUnique(rows, ids);
    forall id | id in ids
      ensures OneEntry(summary, id)
    {
      FoundIds(rows, ids, id);
      var i :| 0 <= i < |ps| && IdsOf(ps)[i] == id;
      assert summary[i].propertyId == id && OnlyEntry(summary, i);
    }
  }

  lemma JobPrescribed(p: Property, request: BulkRequest, j: ParserJob)
    requires j in JobsFor(p, request)
    requires request.startDate.Some? && request.endDate.Some? ==> request.startDate.value <= request.endDate.value
    ensures CarriesProperty(j, p, request) && Prescribed(p, request, j.window)
  {
    WindowShape(request.ota, p.Get(request.ota), request.startDate, request.endDate);
  }

  lemma ResultReports(p: Property, request: BulkRequest)
    requires request.startDate.Some? && request.endDate.Some? ==> request.startDate.value <= request.endDate.value
    ensures Reports(ResultFor(p, request), p, request)
  {
    hide ChooseWindow, SkippedFor;
    var f := p.Get(request.ota);
    var choice := ChooseWindow(request.ota, f, request.startDate, request.endDate);
    SkipsExactly(f, request, if choice.Skip? then choice.reason else NoOtaId);
    if choice.Chosen? {
      WindowShape(request.ota, f, request.startDate, request.endDate);
    }
  }

  /** When each answer is given; the missing ids are those requested and not found, in request order. */
  lemma OutcomeExact(rows: seq<Property>, request: BulkRequest, urlConfigured: bool, post: Post)
    requires UniqueIds(rows)
    ensures
      var r := BulkCreate(rows, request, urlConfigured, post);
      var reversed := request.startDate.Some? && request.endDate.Some?
          && request.endDate.value < request.startDate.value;
      var resolved := Distinct(request.propertyIds) && forall id :: id in request.propertyIds ==> HasId(rows, id);
      var sends := exists p :: p in rows && p.id in request.propertyIds
                               && forall x: SkipReason :: !SkippedFor(p.Get(request.ota), request, x);
      && (r == BadRequest <==> urlConfigured && reversed)
      && (r.NotFound? <==> urlConfigured && !reversed && !resolved)
      && (r.NotFound? ==> r.missing == Missing(rows, request.propertyIds))
      && (r == BadGateway <==> !urlConfigured || (!reversed && resolved && sends && post == Unreachable))
      && (r == Rethrown <==> urlConfigured && !reversed && resolved && sends && post == Failed)
      && (r.Accepted? ==> (r.jobs != [] <==> sends)
                          && (if sends then post == Responded(r.status) else r.status == 200))
  {
    hide Jobs, Summary, SkippedFor, UniqueIds, Distinct, HasId, Missing;
    LengthCheckExact(rows, request.propertyIds);
    SomeJobExactly(rows, request);
    MissingFromSelected(rows, request.propertyIds, request.propertyIds);
  }

  lemma SomeJobExactly(rows: seq<Property>, request: BulkRequest)
    ensures Jobs(Select(rows, request.propertyIds), request) != [] <==>
            exists p :: p in rows && p.id in request.propertyIds
                        && forall x: SkipReason :: !SkippedFor(p.Get(request.ota), request, x)
  {
    hide ChooseWindow, SkippedFor, Select;
    var ps := Select(rows, request.propertyIds);
    SelectedIds(rows, request.propertyIds);
    NoJobsExactly(ps, request);
    forall p
      ensures JobsFor(p, request) != [] <==> forall x: SkipReason :: !SkippedFor(p.Get(request.ota), request, x)
    {
      SkipsExactly(p.Get(request.ota), request, NoOtaId);
    }
  }

  lemma {:induction false} NoJobsExactly(ps: seq<Property>, request: BulkRequest)
    ensures Jobs(ps, request) == [] <==> forall p :: p in ps ==> JobsFor(p, request) == []
  {
    if ps != [] {
      hide JobsFor;
      var init, last := ps[..|ps| - 1], ps[|ps| - 1];
      NoJobsExactly(init, request);
      assert ps == init + [last];
    }
  }

  lemma {:induction false} MissingFromSelected(rows: seq<Property>, ids: seq<Id>, wanted: seq<Id>)
    requires forall id :: id in ids ==> id in wanted
    ensures Missing(Select(rows, wanted), ids) == Missing(rows, ids)
  {
    if ids != [] {
      hide Select, HasId;
      assert forall id :: id in ids[1..] ==> id in ids;
      MissingFromSelected(rows, ids[1..], wanted);
      SelectedHasId(rows, wanted, ids[0]);
    }
  }

  lemma SelectedHasId(rows: seq<Property>, ids: seq<Id>, id: Id)
    requires id in ids
    ensures HasId(Select(rows, ids), id) <==> HasId(rows, id)
  {
    FoundIds(rows, ids, id);
    IdsOfRows(Select(rows, ids));
    var ps := Select(rows, ids);
    if HasId(ps, id) {
      var i :| 0 <= i < |ps| && ps[i].id == id;
      assert IdsOf(ps)[i] == id;
    }
  }

  /** The list of missing ids is the request without the ids that exist, order and repetitions kept. */
  lemma {:induction false} MissingExactly(rows: seq<Property>, ids: seq<Id>, id: Id)
    ensures multiset(Missing(rows, ids))[id] == if HasId(rows, id) then 0 else multiset(ids)[id]
  {
    if ids != [] {
      MissingExactly(rows, ids[1..], id);
      assert ids == [ids[0]] + ids[1..];
    }
  }

  lemma {:induction false} SelectedIds(rows: seq<Property>, ids: seq<Id>)
    ensures forall p :: p in Select(rows, ids) <==> p in rows && p.id in ids
  {
    if rows != [] {
      SelectedIds(rows[1..], ids);
      assert rows == [rows[0]] + rows[1..];
    }
  }

  // ---------------------------------------------------------------- which requests resolve

  function IdsOf(ps: seq<Property>): seq<Id> {
    seq(|ps|, i requires 0 <= i < |ps| => ps[i].id)
  }

  lemma {:induction false} SelectKeepsUnique(rows: seq<Property>, ids: seq<Id>)
    requires UniqueIds(rows)
    ensures UniqueIds(Select(rows, ids))
  {
    if rows != [] {
      SelectKeepsUnique(rows[1..], ids);
      SelectedIds(rows[1..], ids);
      forall p | p in Select(rows[1..], ids)
        ensures p.id != rows[0].id
      {
        var j :| 0 <= j < |rows[1..]| && rows[1..][j] == p;
        assert rows[j + 1].id != rows[0].id;
      }
    }
  }

  lemma FoundIds(rows: seq<Property>, ids: seq<Id>, id: Id)
    ensures id in IdsOf(Select(rows, ids)) <==> id in ids && HasId(rows, id)
  {
    var ps := Select(rows, ids);
    SelectedIds(rows, ids);
    if id in IdsOf(ps) {
      var i :| 0 <= i < |ps| && IdsOf(ps)[i] == id;
      assert ps[i] in ps;
    }
    if id in ids && HasId(rows, id) {
      var i :| 0 <= i < |rows| && rows[i].id == id;
      assert rows[i] in ps;
      var k :| 0 <= k < |ps| && ps[k] == rows[i];
      assert IdsOf(ps)[k] == id;
    }
  }

  /** The length check passes exactly when the requested ids are pairwise distinct and all exist. A
      repeated id alone is answered NotFound with an empty list of missing ids. */
  lemma LengthCheckExact(rows: seq<Property>, ids: seq<Id>)
    requires UniqueIds(rows)
    ensures |Select(rows, ids)| == |ids| <==> Distinct(ids) && forall id :: id in ids ==> HasId(rows, id)
    ensures (forall id :: id in ids ==> HasId(rows, id)) ==> Missing(Select(rows, ids), ids) == []
  {
    hide Select, HasId, IdsOf;
    var ps := Select(rows, ids);
    var found := IdsOf(ps);
    SelectKeepsUnique(rows, ids);
    IdsOfRows(ps);
    DistinctSize(found);
    DistinctSize(ids);
    forall id
      ensures id in found <==> id in ids && HasId(rows, id)
    {
      FoundIds(rows, ids, id);
    }
    assert ToSet(found) <= ToSet(ids);
    if |ps| == |ids| {
      SubsetOfSameSize(ToSet(found), ToSet(ids));
      assert forall id :: id in ids ==> id in ToSet(found);
    }
    if forall id :: id in ids ==> HasId(rows, id) {
      assert ToSet(found) == ToSet(ids);
      NothingMissing(ps, ids);
    }
  }

  lemma IdsOfRows(ps: seq<Property>)
    ensures |IdsOf(ps)| == |ps|
    ensures UniqueIds(ps) ==> Distinct(IdsOf(ps))
    ensures forall id :: id in IdsOf(ps) ==> HasId(ps, id)
  {
  }

  lemma {:induction false} NothingMissing(rows: seq<Property>, ids: seq<Id>)
    requires forall id :: id in ids ==> HasId(rows, id)
    ensures Missing(rows, ids) == []
  {
    if ids != [] {
      assert forall id :: id in ids[1..] ==> id in ids;
      NothingMissing(rows, ids[1..]);
    }
  }

  // ---------------------------------------------------------------- callback

  datatype Callback = Callback(parentId: Id, ota: Ota, endDate: Day)

  datatype CallbackResult = NoProperty | Updated(propertyId: Id, ota: Ota, historicalTo: Day, runDate: Option<Day>)

  /** The CRS that counts for the new run date: a HIGH property becomes REGULAR with CRS 30. */
  function EffectiveCrs(f: OtaFields): Option<string> {
    if IsHigh(f.priority) then Some("30") else f.crs
  }

  function CallbackRunDate(rows: seq<Property>, capacity: Capacity, f: OtaFields, cb: Callback): Option<Day> {
    RunDate(rows, capacity, cb.endDate, EffectiveCrs(f), cb.ota, Some(cb.parentId))
  }

  function CallbackFields(rows: seq<Property>, capacity: Capacity, f: OtaFields, cb: Callback): OtaFields {
    var runDate := CallbackRunDate(rows, capacity, f, cb);
    f.(historicalTo := Some(cb.endDate),
       runDate := if runDate.Some? then runDate else f.runDate,
       priority := if IsHigh(f.priority) then Some("REGULAR") else f.priority,
       crs := EffectiveCrs(f))
  }

  /** The table after a callback; an unknown property changes nothing. */
  function AfterCallback(rows: seq<Property>, capacity: Capacity, cb: Callback): (r: seq<Property>)
    ensures |r| == |rows|
    ensures forall i :: 0 <= i < |rows| ==> r[i].id == rows[i].id
  {
    match Find(rows, cb.parentId)
    case None => rows
    case Some(p) => SetOta(rows, cb.parentId, cb.ota, CallbackFields(rows, capacity, p.Get(cb.ota), cb))
  }

  /** What a callback stores, field by field: the end date always; a HIGH priority becomes REGULAR with CRS
      30 and the earliest slot from 46 days after the end on; any other keeps priority and CRS and
      gets the earliest slot from CRS + 16 days on, or keeps its run date when the CRS is unusable. No
      other OTA and no other row changes. */
  lemma CallbackStores(rows: seq<Property>, capacity: Capacity, cb: Callback)
    requires UniqueIds(rows) && HasId(rows, cb.parentId)
    ensures
      var after := AfterCallback(rows, capacity, cb);
      var p := Find(rows, cb.parentId).value;
      var f, g := p.Get(cb.ota), Find(after, cb.parentId).value.Get(cb.ota);
      var high := f.priority.Some? && UpperWord(Trim(f.priority.value)) == "HIGH";
      var limit :=
        match cb.ota case Expedia => capacity.expedia case Booking => capacity.booking case Agoda => capacity.agoda;
      && Find(after, cb.parentId) == Some(p.Set(cb.ota, g))
      && (forall id :: id != cb.parentId ==> Find(after, id) == Find(rows, id))
      && g.historicalTo == Some(cb.endDate) && g.otaId == f.otaId && g.billingType == f.billingType
      && (high ==>
            && g.priority == Some("REGULAR") && g.crs == Some("30") && g.runDate.Some?
            && IsEarliestSlot(rows, cb.ota, limit, Some(cb.parentId), cb.endDate + 46, g.runDate.value))
      && (!high ==>
            && g.priority == f.priority && g.crs == f.crs
            && match ParseCrsDays(f.crs)
               case None => g.runDate == f.runDate
               case Some(days) =>
                 g.runDate.Some?
                 && IsEarliestSlot(rows, cb.ota, limit, Some(cb.parentId), cb.endDate + days + 16, g.runDate.value))
  {
    hide Search, Used, IsEarliestSlot, ParseCrsDays, UniqueIds, HasId, SetOta, RunDate;
    var f := Find(rows, cb.parentId).value.Get(cb.ota);
    var g := CallbackFields(rows, capacity, f, cb);
    forall id
      ensures Find(AfterCallback(rows, capacity, cb), id)
           == match Find(rows, id) case None => None case Some(p) => Some(if id
               == cb.parentId then p.Set(cb.ota, g) else p)
    {
      FindAfterSet(rows, cb.parentId, cb.ota, g, id);
    }
    RegularIsNotHigh();
    var d := CallbackRunDate(rows, capacity, f, cb);
    RunDateIsEarliest(rows, capacity, cb.endDate, EffectiveCrs(f), cb.ota, Some(cb.parentId), if d.Some?
        then d.value else 0);
    RunDateNeedsCrs(rows, capacity, cb.endDate, EffectiveCrs(f), cb.ota, Some(cb.parentId));
  }

  /** A callback for an unknown property changes nothing. */
  lemma UnknownCallback(rows: seq<Property>, capacity: Capacity, cb: Callback)
    requires !HasId(rows, cb.parentId)
    ensures AfterCallback(rows, capacity, cb) == rows
  {
  }

  class RecurringJobsService {
    const store: PropertyStore
    const runDateCalculator: RunDateCalculatorService

    constructor (store: PropertyStore, runDateCalculator: RunDateCalculatorService)
      requires runDateCalculator.store == store
      ensures this.store == store && this.runDateCalculator == runDateCalculator
    {
      this.store, this.runDateCalculator := store, runDateCalculator;
    }

    method UpdateHistoricalAndRunDate(cb: Callback) returns (r: CallbackResult)
      requires runDateCalculator.store == store
      modifies store
      ensures store.rows == AfterCallback(old(store.rows), runDateCalculator.capacity, cb)
      ensures
        match Find(old(store.rows), cb.parentId)
        case None => r == NoProperty
        case Some(p) =>
          r == Updated(cb.parentId, cb.ota, cb.endDate,
                       CallbackRunDate(old(store.rows), runDateCalculator.capacity, p.Get(cb.ota), cb))
    {
      var property := Find(store.rows, cb.parentId);
      if property == None {
        return NoProperty;
      }
      var f := property.value.Get(cb.ota);
      var isHighPriority := IsHigh(f.priority);
      var crsRaw := if isHighPriority then Some("30") else f.crs;
      var runDate: Option<Day> := None;
      if ParseCrsDays(crsRaw).Some? {
        runDate := runDateCalculator.CalcRunDate(cb.endDate, crsRaw, cb.ota, Some(cb.parentId));
        // The calculator cannot answer null here, so the "CRS is invalid" rejection never happens.
        assert runDate.Some?;
      }
      var data := f.(historicalTo := Some(cb.endDate));
      if runDate.Some? {
        data := data.(runDate := runDate);
      }
      if isHighPriority {
        data := data.(priority := Some("REGULAR"), crs := Some("30"));
      }
      store.rows := SetOta(store.rows, cb.parentId, cb.ota, data);
      r := Updated(cb.parentId, cb.ota, cb.endDate, runDate);
    }

    method BuildJobs(
      properties: seq<Property>, request: BulkRequest)
      returns (jobs: seq<ParserJob>, summary: seq<PropertyResult>)
      ensures jobs == Jobs(properties, request) && summary == Summary(properties, request)
    {
      hide ChooseWindow, IsHigh;
      jobs, summary := [], [];
      for i := 0 to |properties|
        invariant jobs == Jobs(properties[..i], request)
        invariant summary == Summary(properties[..i], request)
      {
        var property := properties[i];
        var f := property.Get(request.ota);
        var result := PropertyResult(property.id, property.name, [], []);
        assert properties[..i + 1][..i] == properties[..i];
        match ChooseWindow(request.ota, f, request.startDate, request.endDate) {
          case Skip(reason) =>
            result := result.(skippedOtas := result.skippedOtas + [reason]);
          case Chosen(w) =>
            jobs := jobs + [ParserJob(property.id, request.ota, w, f.billingType,
                                      if IsHigh(f.priority) then 1 else 0, property.bookingOtpNumber)];
            result := result.(jobsCreated := result.jobsCreated + [w]);
        }
        assert result == ResultFor(property, request);
        summary := summary + [result];
        assert Summary(properties[..i + 1], request) == Summary(properties[..i], request) + [result];
      }
      assert properties[..|properties|] == properties;
    }

    method BulkCreateParserJobs(request: BulkRequest, urlConfigured: bool, post: Post) returns (r: BulkOutcome)
      ensures r == BulkCreate(store.rows, request, urlConfigured, post)
    {
      if !urlConfigured {
        return BadGateway;
      }
      if request.startDate.Some? && request.endDate.Some? && request.endDate.value < request.startDate.value {
        return BadRequest;
      }
      var properties := Select(store.rows, request.propertyIds);
      if |properties| != |request.propertyIds| {
        return NotFound(Missing(properties, request.propertyIds));
      }
      var jobs, summary := BuildJobs(properties, request);
      if |jobs| == 0 {
        return Accepted(200, jobs, summary);
      }
      match post {
        case Responded(status) => r := Accepted(status, jobs, summary);
        case Unreachable => r := BadGateway;
        case Failed => r := Rethrown;
      }
    }
  }
}
