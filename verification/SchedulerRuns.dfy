/** Whole runs of the scheduler: callbacks, creations and edits never overfill a day, and repeating
    a callback changes nothing. */
module SchedulerRuns {
  import opened Basics
  import opened CivilDate
  import opened ParserJobDates
  import opened PropertyTable
  import opened RunDateCalculator
  import opened RecurringJobs

  // ---------------------------------------------------------------- repeating a callback

  lemma OthersUnaffected(
    rows: seq<Property>, id: Id, ota: Ota, f: OtaFields, capacity: Capacity, to: Day, crs: Option<string>)
    ensures RunDate(SetOta(rows, id, ota, f), capacity, to, crs, ota, Some(id))
         == RunDate(rows, capacity, to, crs, ota, Some(id))
  {
    var days := ParseCrsDays(crs);
    if days.Some? {
      var r := SetOta(rows, id, ota, f);
      forall d
        ensures Used(rows, ota, d, Some(id)) == Used(r, ota, d, Some(id))
      {
        UsedExcludingWritten(rows, id, ota, f, ota, d);
      }
      SearchDependsOnCounts(rows, r, ota, capacity.For(ota), Some(id), PreliminaryRunDate(to, days.value),
          MAX_SEARCH_DAYS);
    }
  }

  /** Delivering a callback twice is delivering it once, also when the first delivery turned the
      property from HIGH into REGULAR with CRS 30. */
  lemma CallbackIdempotent(rows: seq<Property>, capacity: Capacity, cb: Callback)
    requires UniqueIds(rows)
    ensures AfterCallback(AfterCallback(rows, capacity, cb), capacity, cb) == AfterCallback(rows, capacity, cb)
  {
    hide ParseCrsDays, IsHigh, Search, RunDate, Used;
    var found := Find(rows, cb.parentId);
    if found.Some? {
      var f := found.value.Get(cb.ota);
      var g := CallbackFields(rows, capacity, f, cb);
      var rows1 := SetOta(rows, cb.parentId, cb.ota, g);
      FindAfterSet(rows, cb.parentId, cb.ota, g, cb.parentId);
      RegularIsNotHigh();
      assert EffectiveCrs(g) == EffectiveCrs(f);
      OthersUnaffected(rows, cb.parentId, cb.ota, g, capacity, cb.endDate, EffectiveCrs(f));
      assert CallbackFields(rows1, capacity, g, cb) == g;
      assert SetOta(rows1, cb.parentId, cb.ota, g) == rows1;
    }
  }

  /** Recalculating a property's run date right after its callback finds the date the callback stored,
      and none exactly when the CRS that counts is unusable. */
  lemma RecalculationAgrees(rows: seq<Property>, capacity: Capacity, cb: Callback)
    requires UniqueIds(rows) && HasId(rows, cb.parentId)
    ensures
      var after := AfterCallback(rows, capacity, cb);
      var p := Find(after, cb.parentId).value;
      var crs := EffectiveCrs(Find(rows, cb.parentId).value.Get(cb.ota));
      && RunDateFor(after, capacity, p, cb.ota, Some(cb.parentId))
         == (if ParseCrsDays(crs) == None then None else p.Get(cb.ota).runDate)
      && (ParseCrsDays(crs).Some? ==> p.Get(cb.ota).runDate.Some?)
  {
    hide ParseCrsDays, IsHigh, Search, RunDate, Used, SetOta, UniqueIds, HasId;
    var f := Find(rows, cb.parentId).value.Get(cb.ota);
    var g := CallbackFields(rows, capacity, f, cb);
    FindAfterSet(rows, cb.parentId, cb.ota, g, cb.parentId);
    RegularIsNotHigh();
    OthersUnaffected(rows, cb.parentId, cb.ota, g, capacity, cb.endDate, EffectiveCrs(f));
    RunDateNeedsCrs(rows, capacity, cb.endDate, EffectiveCrs(f), cb.ota, Some(cb.parentId));
  }

  // ---------------------------------------------------------------- capacity

  /** No date is the run date of more properties than its OTA's capacity. */
  ghost predicate WithinCapacity(rows: seq<Property>, capacity: Capacity) {
    forall ota: Ota, day: Day :: Used(rows, ota, day, None) <= capacity.For(ota)
  }

  /** Days the search can end on: the 365 it tests, and the one after them that it takes untested. */
  const REACHABLE_DAYS := 366

  predicate Small(rows: seq<Property>, capacity: Capacity) {
    forall ota: Ota :: |rows| <= REACHABLE_DAYS * capacity.For(ota)
  }

  ghost predicate SomeDayFree(rows: seq<Property>, ota: Ota, capacity: int, id: Id, start: Day) {
    exists d :: start <= d < start + REACHABLE_DAYS && Used(rows, ota, d, Some(id)) < capacity
  }

  /** Writing a searched run date keeps the table within capacity exactly when one of the
      366 reachable days was free for this property. */
  lemma SearchedDateExact(rows: seq<Property>, capacity: Capacity, id: Id, ota: Ota, f: OtaFields, start: Day)
    requires UniqueIds(rows) && HasId(rows, id) && WithinCapacity(rows, capacity)
    requires f.runDate == Some(Search(rows, ota, capacity.For(ota), Some(id), start, MAX_SEARCH_DAYS))
    ensures WithinCapacity(SetOta(rows, id, ota, f), capacity) <==> SomeDayFree(rows, ota, capacity.For(ota), id, start)
  {
    var c := capacity.For(ota);
    var r := f.runDate.value;
    var after := SetOta(rows, id, ota, f);
    SearchFinds(rows, ota, c, Some(id), start, MAX_SEARCH_DAYS);
    UsedAfterSet(rows, id, ota, f, r);
    if SomeDayFree(rows, ota, c, id, start) {
      var d :| start <= d < start + REACHABLE_DAYS && Used(rows, ota, d, Some(id)) < c;
      assert Used(rows, ota, r, Some(id)) < c;
      forall o: Ota, day: Day
        ensures Used(after, o, day, None) <= capacity.For(o)
      {
        WriteCount(rows, id, ota, f, o, day);
        assert Used(rows, o, day, None) <= capacity.For(o);
      }
    } else {
      assert Used(rows, ota, r, Some(id)) >= c;
      assert Used(after, ota, r, None) > c;
    }
  }

  /** Writing one row raises a day's count only for the written run date. */
  lemma WriteCount(rows: seq<Property>, id: Id, ota: Ota, f: OtaFields, o: Ota, day: Day)
    requires UniqueIds(rows) && HasId(rows, id)
    ensures
      var after := SetOta(rows, id, ota, f);
      if o != ota then Used(after, o, day, None) == Used(rows, o, day, None)
      else if f.runDate == Some(day) then Used(after, o, day, None) == Used(rows, o, day, Some(id)) + 1
      else Used(after, o, day, None) <= Used(rows, o, day, None)
  {
    if o != ota {
      UsedOtherOta(rows, id, ota, f, o, day);
    } else {
      UsedAfterSet(rows, id, ota, f, day);
      var i :| 0 <= i < |rows| && rows[i].id == id;
      UsedSplitsOffRow(rows, i, ota, day);
    }
  }

  lemma KeptDateStaysWithin(rows: seq<Property>, capacity: Capacity, id: Id, ota: Ota, f: OtaFields)
    requires UniqueIds(rows) && HasId(rows, id) && WithinCapacity(rows, capacity)
    requires f.runDate == Find(rows, id).value.Get(ota).runDate
    ensures WithinCapacity(SetOta(rows, id, ota, f), capacity)
  {
    forall o: Ota, day: Day
      ensures Used(SetOta(rows, id, ota, f), o, day, None) <= capacity.For(o)
    {
      forall i | 0 <= i < |rows| && rows[i].id == id
        ensures rows[i].Get(ota).runDate == f.runDate
      {
        FindAt(rows, i);
      }
      UsedOtherOta(rows, id, ota, f, o, day);
      assert Used(rows, o, day, None) <= capacity.For(o);
    }
  }

  lemma SmallTableHasFreeDay(rows: seq<Property>, capacity: Capacity, id: Id, ota: Ota, start: Day)
    requires HasId(rows, id) && Small(rows, capacity)
    ensures SomeDayFree(rows, ota, capacity.For(ota), id, start)
  {
    assert |rows| <= REACHABLE_DAYS * capacity.For(ota);
    if !SomeDayFree(rows, ota, capacity.For(ota), id, start) {
      FullDaysNeedProperties(rows, ota, start, REACHABLE_DAYS, id, capacity.For(ota));
    }
  }

  /** A property update: what one OTA's CRS and priority are after it, and its "to" date if the update
      carries one. The run date is then recalculated. */
  datatype Edit = Edit(id: Id, ota: Ota, newTo: Option<Option<Day>>, crs: Option<string>, priority: Option<string>)

  function Edited(f: OtaFields, e: Edit): OtaFields {
    f.(historicalTo := if e.newTo.Some? then e.newTo.value else f.historicalTo, crs := e.crs, priority := e.priority)
  }

  function EditFields(rows: seq<Property>, capacity: Capacity, p: Property, e: Edit): OtaFields {
    var f := Edited(p.Get(e.ota), e);
    var rows1 := SetOta(rows, e.id, e.ota, f);
    var runDate := RunDateFor(rows1, capacity, p.Set(e.ota, f), e.ota, Some(e.id));
    if runDate.Some? then f.(runDate := runDate) else f
  }

  function AfterEdit(rows: seq<Property>, capacity: Capacity, e: Edit): seq<Property> {
    match Find(rows, e.id)
    case None => rows
    case Some(p) => SetOta(rows, e.id, e.ota, EditFields(rows, capacity, p, e))
  }

  /** What creating a property without run dates comes to: the row is stored, then each OTA's run
      date is calculated and written. */
  function Scheduled(rows: seq<Property>, capacity: Capacity, p: Property): (r: Property)
    ensures r.id == p.id
    ensures forall ota: Ota ::
              r.Get(ota) == p.Get(ota).(runDate := RunDateFor(rows + [p], capacity, p, ota, Some(p.id)))
  {
    p.(expedia := p.expedia.(runDate := RunDateFor(rows + [p], capacity, p, Expedia, Some(p.id))),
       booking := p.booking.(runDate := RunDateFor(rows + [p], capacity, p, Booking, Some(p.id))),
       agoda := p.agoda.(runDate := RunDateFor(rows + [p], capacity, p, Agoda, Some(p.id))))
  }

  predicate Unscheduled(p: Property) {
    forall ota: Ota :: p.Get(ota).runDate == None
  }

  /** Ids are fresh, so a creation under a taken id does not occur; it is modelled as no change. */
  function AfterCreate(rows: seq<Property>, capacity: Capacity, p: Property): seq<Property> {
    if HasId(rows, p.id) then rows else rows + [Scheduled(rows, capacity, p)]
  }

  /** What an update stores: the new CRS and priority, the new "to" date if it carries one, and the run date
      by the rule for the merged fields, or the old run date when the rule gives none. */
  lemma EditStores(rows: seq<Property>, capacity: Capacity, e: Edit)
    requires UniqueIds(rows) && HasId(rows, e.id)
    ensures
      var after := AfterEdit(rows, capacity, e);
      var p := Find(rows, e.id).value;
      var f, g := p.Get(e.ota), Find(after, e.id).value.Get(e.ota);
      var limit :=
        match e.ota case Expedia => capacity.expedia case Booking => capacity.booking case Agoda => capacity.agoda;
      && Find(after, e.id) == Some(p.Set(e.ota, g))
      && (forall id :: id != e.id ==> Find(after, id) == Find(rows, id))
      && g.crs == e.crs && g.priority == e.priority && g.otaId == f.otaId && g.billingType == f.billingType
      && g.historicalTo == (match e.newTo case None => f.historicalTo case Some(to) => to)
      && (g.historicalTo == None ==> g.runDate == f.runDate)
      && (g.historicalTo.Some? && e.priority == Some("HIGH") ==> g.runDate == Some(p.createdAt + 1))
      && (g.historicalTo.Some? && e.priority != Some("HIGH") ==>
            match ParseCrsDays(e.crs)
            case None => g.runDate == f.runDate
            case Some(days) =>
              g.runDate.Some?
              && IsEarliestSlot(rows, e.ota, limit, Some(e.id), g.historicalTo.value + days + 16, g.runDate.value))
  {
    hide Search, Used, IsEarliestSlot, ParseCrsDays, UniqueIds, HasId, SetOta, RunDate, AfterEdit, Find;
    var p := Find(rows, e.id).value;
    var f := Edited(p.Get(e.ota), e);
    var rows1 := SetOta(rows, e.id, e.ota, f);
    var g := EditFields(rows, capacity, p, e);
    EditReaches(rows, capacity, e);
    var r := RunDateFor(rows1, capacity, p.Set(e.ota, f), e.ota, Some(e.id));
    RunDateForMeans(rows1, capacity, p.Set(e.ota, f), e.ota, Some(e.id));
    if f.historicalTo.Some? {
      OthersUnaffected(rows, e.id, e.ota, f, capacity, f.historicalTo.value, f.crs);
      RunDateIsEarliest(rows, capacity, f.historicalTo.value, f.crs, e.ota, Some(e.id), if r.Some? then r.value else 0);
    }
  }

  lemma EditReaches(rows: seq<Property>, capacity: Capacity, e: Edit)
    requires UniqueIds(rows) && HasId(rows, e.id)
    ensures
      var p := Find(rows, e.id).value;
      var after := AfterEdit(rows, capacity, e);
      && Find(after, e.id) == Some(p.Set(e.ota, EditFields(rows, capacity, p, e)))
      && forall id :: id != e.id ==> Find(after, id) == Find(rows, id)
  {
    hide EditFields, UniqueIds, HasId, SetOta;
    var g := EditFields(rows, capacity, Find(rows, e.id).value, e);
    forall id
      ensures Find(AfterEdit(rows, capacity, e), id)
           == match Find(rows, id) case None => None case Some(q) => Some(if id == e.id then q.Set(e.ota, g) else q)
    {
      FindAfterSet(rows, e.id, e.ota, g, id);
    }
  }

  /** What a creation stores: the property as given, with each OTA's run date by its rule. */
  lemma CreateStores(rows: seq<Property>, capacity: Capacity, p: Property, ota: Ota)
    requires !HasId(rows, p.id)
    ensures
      var after := AfterCreate(rows, capacity, p);
      && |after| == |rows| + 1 && after[..|rows|] == rows
      && var q := after[|rows|];
      var f, g := p.Get(ota), q.Get(ota);
      var limit :=
        match ota case Expedia => capacity.expedia case Booking => capacity.booking case Agoda => capacity.agoda;
      && q.id == p.id && q.name == p.name && q.createdAt == p.createdAt && q.bookingOtpNumber == p.bookingOtpNumber
      && g == f.(runDate := g.runDate)
      && (f.historicalTo == None ==> g.runDate == None)
      && (f.historicalTo.Some? && f.priority == Some("HIGH") ==> g.runDate == Some(p.createdAt + 1))
      && (f.historicalTo.Some? && f.priority != Some("HIGH") ==>
            match ParseCrsDays(f.crs)
            case None => g.runDate == None
            case Some(days) =>
              g.runDate.Some?
              && IsEarliestSlot(rows, ota, limit, None, f.historicalTo.value + days + 16, g.runDate.value))
  {
    hide Search, IsEarliestSlot, ParseCrsDays, RunDateFor;
    var all := rows + [p];
    RunDateForMeans(all, capacity, p, ota, Some(p.id));
    var r := RunDateFor(all, capacity, p, ota, Some(p.id));
    if r.Some? && ParseCrsDays(p.Get(ota).crs).Some? && p.Get(ota).historicalTo.Some? {
      var start := p.Get(ota).historicalTo.value + ParseCrsDays(p.Get(ota).crs).value + 16;
      var limit :=
        match ota case Expedia => capacity.expedia case Booking => capacity.booking case Agoda => capacity.agoda;
      NewRowSlot(rows, p, ota, limit, start, r.value);
    }
  }

  /** The earliest slot for a new row, which ignores the row, is the earliest slot among the rows stored before. */
  lemma NewRowSlot(rows: seq<Property>, p: Property, ota: Ota, capacity: int, start: Day, r: Day)
    requires !HasId(rows, p.id)
    ensures IsEarliestSlot(rows + [p], ota, capacity, Some(p.id), start, r)
        <==> IsEarliestSlot(rows, ota, capacity, None, start, r)
  {
    forall d
      ensures Used(rows + [p], ota, d, Some(p.id)) == Used(rows, ota, d, None)
    {
      NewRowCounts(rows, p, ota, d);
    }
  }

  datatype TableEvent = CallbackEvent(cb: Callback) | EditEvent(edit: Edit) | CreateEvent(property: Property)

  function AfterEvent(rows: seq<Property>, capacity: Capacity, event: TableEvent): seq<Property> {
    match event
    case CallbackEvent(cb) => AfterCallback(rows, capacity, cb)
    case EditEvent(e) => AfterEdit(rows, capacity, e)
    case CreateEvent(p) => AfterCreate(rows, capacity, p)
  }

  function AfterEvents(rows: seq<Property>, capacity: Capacity, events: seq<TableEvent>): seq<Property> {
    if events == [] then rows
    else AfterEvent(AfterEvents(rows, capacity, events[..|events| - 1]), capacity, events[|events| - 1])
  }

  /** Priority HIGH schedules the day after creation and ignores capacity. */
  predicate RespectsCapacity(event: TableEvent) {
    match event
    case CallbackEvent(_) => true
    case EditEvent(e) => e.priority != Some("HIGH")
    case CreateEvent(p) => Unscheduled(p) && forall ota: Ota :: p.Get(ota).priority != Some("HIGH")
  }

  /** The exact effect of one callback that has a usable CRS. */
  lemma CallbackCapacityExact(rows: seq<Property>, capacity: Capacity, cb: Callback)
    requires UniqueIds(rows) && HasId(rows, cb.parentId) && WithinCapacity(rows, capacity)
    ensures
      var crs := ParseCrsDays(EffectiveCrs(Find(rows, cb.parentId).value.Get(cb.ota)));
      WithinCapacity(AfterCallback(rows, capacity, cb), capacity) <==>
      crs == None || SomeDayFree(rows, cb.ota, capacity.For(cb.ota), cb.parentId,
          PreliminaryRunDate(cb.endDate, crs.value))
  {
    var f := Find(rows, cb.parentId).value.Get(cb.ota);
    var g := CallbackFields(rows, capacity, f, cb);
    var crs := ParseCrsDays(EffectiveCrs(f));
    if crs == None {
      KeptDateStaysWithin(rows, capacity, cb.parentId, cb.ota, g);
    } else {
      SearchedDateExact(rows, capacity, cb.parentId, cb.ota, g, PreliminaryRunDate(cb.endDate, crs.value));
    }
  }

  lemma CallbackKeepsCapacity(rows: seq<Property>, capacity: Capacity, cb: Callback)
    requires UniqueIds(rows) && WithinCapacity(rows, capacity) && Small(rows, capacity)
    ensures WithinCapacity(AfterCallback(rows, capacity, cb), capacity)
  {
    hide WithinCapacity, AfterCallback, SomeDayFree, Small;
    if HasId(rows, cb.parentId) {
      var crs := ParseCrsDays(EffectiveCrs(Find(rows, cb.parentId).value.Get(cb.ota)));
      CallbackCapacityExact(rows, capacity, cb);
      if crs.Some? {
        SmallTableHasFreeDay(rows, capacity, cb.parentId, cb.ota, PreliminaryRunDate(cb.endDate, crs.value));
      }
    } else {
      UnknownCallback(rows, capacity, cb);
    }
  }

  lemma EditKeepsCapacity(rows: seq<Property>, capacity: Capacity, e: Edit)
    requires UniqueIds(rows) && WithinCapacity(rows, capacity) && Small(rows, capacity)
    requires e.priority != Some("HIGH")
    ensures WithinCapacity(AfterEdit(rows, capacity, e), capacity)
  {
    hide WithinCapacity, SomeDayFree, Small, SetOta, Search, PreliminaryRunDate;
    if HasId(rows, e.id) {
      var p := Find(rows, e.id).value;
      var f := Edited(p.Get(e.ota), e);
      var g := EditFields(rows, capacity, p, e);
      if f.historicalTo == None || ParseCrsDays(f.crs) == None {
        KeptDateStaysWithin(rows, capacity, e.id, e.ota, g);
      } else {
        var start := PreliminaryRunDate(f.historicalTo.value, ParseCrsDays(f.crs).value);
        OthersUnaffected(rows, e.id, e.ota, f, capacity, f.historicalTo.value, f.crs);
        SearchedDateExact(rows, capacity, e.id, e.ota, g, start);
        SmallTableHasFreeDay(rows, capacity, e.id, e.ota, start);
      }
    }
  }

  /** Counting for a new row ignores the row itself, so it counts everyone stored before. */
  lemma NewRowCounts(rows: seq<Property>, p: Property, ota: Ota, day: Day)
    requires !HasId(rows, p.id)
    ensures Used(rows + [p], ota, day, Some(p.id)) == Used(rows, ota, day, None)
    ensures Used(rows + [p], ota, day, None)
         == Used(rows, ota, day, None) + if p.Get(ota).runDate == Some(day) then 1 else 0
  {
    UsedAppend(rows, p, ota, day, Some(p.id));
    UsedAppend(rows, p, ota, day, None);
    UsedWithoutAbsentId(rows, ota, day, p.id);
  }

  /** A run date calculated for a new row lies on a day that still has room. */
  lemma NewRunDateHasRoom(rows: seq<Property>, capacity: Capacity, p: Property, ota: Ota)
    requires !HasId(rows, p.id) && Small(rows + [p], capacity) && p.Get(ota).priority != Some("HIGH")
    ensures
      var r := RunDateFor(rows + [p], capacity, p, ota, Some(p.id));
      r.Some? ==> Used(rows, ota, r.value, None) < capacity.For(ota)
  {
    hide Search, Small, SomeDayFree;
    var f, all, c := p.Get(ota), rows + [p], capacity.For(ota);
    var crs := ParseCrsDays(f.crs);
    if f.historicalTo.Some? && crs.Some? {
      var start := PreliminaryRunDate(f.historicalTo.value, crs.value);
      assert all[|rows|].id == p.id;
      SmallTableHasFreeDay(all, capacity, p.id, ota, start);
      FreeDayIsFound(all, ota, c, p.id, start);
      NewRowCounts(rows, p, ota, Search(all, ota, c, Some(p.id), start, MAX_SEARCH_DAYS));
    }
  }

  lemma FreeDayIsFound(rows: seq<Property>, ota: Ota, capacity: int, id: Id, start: Day)
    requires SomeDayFree(rows, ota, capacity, id, start)
    ensures Used(rows, ota, Search(rows, ota, capacity, Some(id), start, MAX_SEARCH_DAYS), Some(id)) < capacity
  {
    SearchFinds(rows, ota, capacity, Some(id), start, MAX_SEARCH_DAYS);
  }

  lemma CreateKeepsCapacity(rows: seq<Property>, capacity: Capacity, p: Property)
    requires WithinCapacity(rows, capacity) && Small(AfterCreate(rows, capacity, p), capacity)
    requires RespectsCapacity(CreateEvent(p))
    ensures WithinCapacity(AfterCreate(rows, capacity, p), capacity)
  {
    hide RunDateFor;
    if !HasId(rows, p.id) {
      var q := Scheduled(rows, capacity, p);
      forall ota: Ota, day: Day
        ensures Used(rows + [q], ota, day, None) <= capacity.For(ota)
      {
        NewRunDateHasRoom(rows, capacity, p, ota);
        NewRowCounts(rows, q, ota, day);
        assert Used(rows, ota, day, None) <= capacity.For(ota);
      }
    }
  }

  lemma EventKeepsIds(rows: seq<Property>, capacity: Capacity, event: TableEvent)
    requires UniqueIds(rows)
    ensures
      var r := AfterEvent(rows, capacity, event);
      UniqueIds(r) && |r| >= |rows|
  {
    hide CallbackFields, EditFields, Scheduled;
  }

  /** As long as the table has at most 366 times the capacity of properties, no run of callbacks,
      creations and non-HIGH edits ever gives a date more properties than its OTA's capacity. */
  lemma {:induction false} RunsKeepCapacity(rows: seq<Property>, capacity: Capacity, events: seq<TableEvent>)
    requires UniqueIds(rows) && WithinCapacity(rows, capacity)
    requires Small(AfterEvents(rows, capacity, events), capacity)
    requires forall e :: e in events ==> RespectsCapacity(e)
    ensures
      var r := AfterEvents(rows, capacity, events);
      UniqueIds(r) && WithinCapacity(r, capacity)
  {
    if events != [] {
      hide AfterEvent, WithinCapacity, RespectsCapacity;
      var init, last := events[..|events| - 1], events[|events| - 1];
      var before := AfterEvents(rows, capacity, init);
      RunKeepsIds(rows, capacity, init);
      EventKeepsIds(before, capacity, last);
      RunsKeepCapacity(rows, capacity, init);
      assert RespectsCapacity(last);
      EventKeepsCapacity(before, capacity, last);
    }
  }

  lemma EventKeepsCapacity(rows: seq<Property>, capacity: Capacity, event: TableEvent)
    requires UniqueIds(rows) && WithinCapacity(rows, capacity) && RespectsCapacity(event)
    requires Small(rows, capacity) && Small(AfterEvent(rows, capacity, event), capacity)
    ensures WithinCapacity(AfterEvent(rows, capacity, event), capacity)
  {
    hide WithinCapacity, AfterCallback, AfterEdit, AfterCreate;
    match event
    case CallbackEvent(cb) => CallbackKeepsCapacity(rows, capacity, cb);
    case EditEvent(e) => EditKeepsCapacity(rows, capacity, e);
    case CreateEvent(p) => CreateKeepsCapacity(rows, capacity, p);
  }

  lemma {:induction false} RunKeepsIds(rows: seq<Property>, capacity: Capacity, events: seq<TableEvent>)
    requires UniqueIds(rows)
    ensures UniqueIds(AfterEvents(rows, capacity, events))
  {
    if events != [] {
      hide UniqueIds;
      RunKeepsIds(rows, capacity, events[..|events| - 1]);
      EventKeepsIds(AfterEvents(rows, capacity, events[..|events| - 1]), capacity, events[|events| - 1]);
    }
  }

  // ---------------------------------------------------------------- the bound is tight

  const IDLE := OtaFields(None, None, None, None, None, None)

  function Idle(id: Id): Property {
    Property(id, "", 0, None, IDLE, IDLE, IDLE)
  }

  function RunningOn(id: Id, day: Day): Property {
    Idle(id).Set(Expedia, IDLE.(runDate := Some(day)))
  }

  /** One waiting property with CRS 30, id 0, and `n` others that fill `c` slots a day from `start`. */
  function Crowd(n: nat, c: nat, start: Day): (r: seq<Property>)
    requires c > 0
    ensures |r| == n + 1
    ensures r[n].id == n
  {
    if n == 0 then [Idle(0).Set(Expedia, IDLE.(crs := Some("30")))]
    else Crowd(n - 1, c, start) + [RunningOn(n, start + (n - 1) / c)]
  }

  lemma {:induction false} CrowdIds(n: nat, c: nat, start: Day)
    requires c > 0
    ensures forall i :: 0 <= i <= n ==> Crowd(n, c, start)[i].id == i
    ensures Crowd(n, c, start)[0] == Idle(0).Set(Expedia, IDLE.(crs := Some("30")))
  {
    if n > 0 {
      CrowdIds(n - 1, c, start);
    }
  }

  lemma {:induction false} UsedAppend(rows: seq<Property>, p: Property, ota: Ota, day: Day, exclude: Option<Id>)
    ensures Used(rows + [p], ota, day, exclude)
        == Used(rows, ota, day, exclude) + if Takes(p, ota, day, exclude) then 1 else 0
  {
    if rows != [] {
      assert (rows + [p])[1..] == rows[1..] + [p];
      UsedAppend(rows[1..], p, ota, day, exclude);
    }
  }

  /** The crowd's count on a day: the part of `n` that falls into that day's block of `c`. */
  function BlockCount(n: nat, c: nat, k: int): int {
    var before := k * c;
    if k < 0 || n <= before then 0 else if n >= before + c then c else n - before
  }

  lemma {:induction false} CrowdCounts(n: nat, c: nat, start: Day, ota: Ota, day: Day)
    requires c > 0
    ensures Used(Crowd(n, c, start), ota, day, Some(0)) == Used(Crowd(n, c, start), ota, day, None)
    ensures Used(Crowd(n, c, start), ota, day, None) == if ota == Expedia then BlockCount(n, c, day - start) else 0
  {
    if n == 0 {
      CrowdOfOne(c, start, ota, day);
    } else {
      hide BlockCount;
      CrowdCounts(n - 1, c, start, ota, day);
      var q := (n - 1) / c;
      var p := RunningOn(n, start + q);
      UsedAppend(Crowd(n - 1, c, start), p, ota, day, None);
      UsedAppend(Crowd(n - 1, c, start), p, ota, day, Some(0));
      BlockStep(n, c, day - start);
    }
  }

  lemma CrowdOfOne(c: nat, start: Day, ota: Ota, day: Day)
    requires c > 0
    ensures Used(Crowd(0, c, start), ota, day, Some(0)) == Used(Crowd(0, c, start), ota, day, None) == 0
    ensures BlockCount(0, c, day - start) == 0
  {
    assert !Takes(Crowd(0, c, start)[0], ota, day, None);
    var k := day - start;
    assert k >= 0 ==> k * c >= 0;
  }

  lemma BlockStep(n: nat, c: nat, k: int)
    requires c > 0 && n > 0
    ensures BlockCount(n, c, k) == BlockCount(n - 1, c, k) + if (n - 1) / c == k then 1 else 0
  {
    var q := (n - 1) / c;
    QuotientBounds(n - 1, c);
    if k < q {
      BlocksOrdered(k, q, c);
    } else if q < k {
      BlocksOrdered(q, k, c);
    }
  }

  lemma QuotientBounds(x: nat, c: nat)
    requires c > 0
    ensures x / c * c <= x < x / c * c + c
  {
  }

  lemma {:induction false} BlocksOrdered(a: int, b: int, c: nat)
    requires a < b
    ensures a * c + c <= b * c
    decreases b - a
  {
    assert (a + 1) * c == a * c + c;
    if a + 1 < b {
      BlocksOrdered(a + 1, b, c);
    }
  }

  lemma CrowdWithinCapacity(n: nat, c: nat, start: Day)
    requires c > 0
    ensures UniqueIds(Crowd(n, c, start)) && WithinCapacity(Crowd(n, c, start), Capacity(c, c, c))
  {
    CrowdIds(n, c, start);
    forall ota: Ota, day: Day
      ensures Used(Crowd(n, c, start), ota, day, None) <= c
    {
      CrowdCounts(n, c, start, ota, day);
    }
  }

  lemma FullBlock(m: nat, c: nat, k: nat)
    requires k < m && c > 0
    ensures BlockCount(m * c, c, k) == c
  {
    BlocksOrdered(k, m, c);
  }

  lemma CrowdFillsReachableDays(c: nat, start: Day)
    requires c > 0
    ensures !SomeDayFree(Crowd(REACHABLE_DAYS * c, c, start), Expedia, c, 0, start)
  {
    forall d | start <= d < start + REACHABLE_DAYS
      ensures Used(Crowd(REACHABLE_DAYS * c, c, start), Expedia, d, Some(0)) >= c
    {
      hide BlockCount, Crowd;
      CrowdCounts(REACHABLE_DAYS * c, c, start, Expedia, d);
      FullBlock(REACHABLE_DAYS, c, d - start);
    }
  }

  /** One property more than 366 times the capacity and a single callback can overfill a day, for
      every capacity. */
  lemma CapacityBoundTight(c: nat, end: Day)
    requires c > 0
    ensures
      var capacity := Capacity(c, c, c);
      var rows := Crowd(REACHABLE_DAYS * c, c, PreliminaryRunDate(end, 30));
      && UniqueIds(rows) && WithinCapacity(rows, capacity) && |rows| == REACHABLE_DAYS * c + 1
      && !WithinCapacity(AfterCallback(rows, capacity, Callback(0, Expedia, end)), capacity)
  {
    hide WithinCapacity, AfterCallback, SomeDayFree, Crowd;
    var capacity := Capacity(c, c, c);
    var start := PreliminaryRunDate(end, 30);
    var n := REACHABLE_DAYS * c;
    var rows := Crowd(n, c, start);
    CrowdIds(n, c, start);
    CrowdWithinCapacity(n, c, start);
    CrowdFillsReachableDays(c, start);
    FindAt(rows, 0);
    RegularIsNotHigh();
    CallbackCapacityExact(rows, capacity, Callback(0, Expedia, end));
  }
}
