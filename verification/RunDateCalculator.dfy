/** The run-date calculator: a bounded search for the first day on which fewer than
    `capacity` other properties already run. */
module RunDateCalculator {
  import opened Basics
  import opened CivilDate
  import opened ParserJobDates
  import opened PropertyTable

  const MAX_SEARCH_DAYS := 365

  datatype Capacity = Capacity(expedia: int, booking: int, agoda: int) {
    function For(ota: Ota): int {
      match ota
      case Expedia => expedia
      case Booking => booking
      case Agoda => agoda
    }
  }

  /** What the search must return, said without the search: every day before it is full, and
      it is itself free unless it lies 365 days out. */
  ghost predicate IsEarliestSlot(
    rows: seq<Property>, ota: Ota, capacity: int, exclude: Option<Id>, preliminary: Day, r: Day) {
    && preliminary <= r <= preliminary + 365
    && (forall d :: preliminary <= d < r ==> Used(rows, ota, d, exclude) >= capacity)
    && (r < preliminary + 365 ==> Used(rows, ota, r, exclude) < capacity)
  }

  function Search(rows: seq<Property>, ota: Ota, capacity: int, exclude: Option<Id>, candidate: Day, days: nat): Day
    decreases days
  {
    if days == 0 || Used(rows, ota, candidate, exclude) < capacity then candidate
    else Search(rows, ota, capacity, exclude, candidate + 1, days - 1)
  }

  /** The run date for a job that ended on `historicalTo`; None when the CRS is unusable. */
  function RunDate(
    rows: seq<Property>, capacity: Capacity, historicalTo: Day, crs: Option<string>, ota: Ota,
    exclude: Option<Id>): Option<Day> {
    match ParseCrsDays(crs)
    case None => None
    case Some(days) =>
      Some(Search(rows, ota, capacity.For(ota), exclude, PreliminaryRunDate(historicalTo, days), MAX_SEARCH_DAYS))
  }

  lemma {:induction false} SearchFinds(
    rows: seq<Property>, ota: Ota, capacity: int, exclude: Option<Id>, candidate: Day, days: nat)
    ensures
      var r := Search(rows, ota, capacity, exclude, candidate, days);
      && candidate <= r <= candidate + days
      && (forall d :: candidate <= d < r ==> Used(rows, ota, d, exclude) >= capacity)
      && (r < candidate + days ==> Used(rows, ota, r, exclude) < capacity)
    decreases days
  {
    if days > 0 && Used(rows, ota, candidate, exclude) >= capacity {
      SearchFinds(rows, ota, capacity, exclude, candidate + 1, days - 1);
    }
  }

  /** A run date is calculated exactly when the CRS is usable, and it is then the one earliest slot. */
  lemma RunDateIsEarliest(
    rows: seq<Property>, capacity: Capacity, historicalTo: Day, crs: Option<string>, ota: Ota, exclude: Option<Id>,
    r: Day)
    ensures RunDate(rows, capacity, historicalTo, crs, ota, exclude) == Some(r) <==>
            var days := ParseCrsDays(crs);
            days.Some? && IsEarliestSlot(rows, ota, capacity.For(ota), exclude,
                PreliminaryRunDate(historicalTo, days.value), r)
  {
    var days := ParseCrsDays(crs);
    if days.Some? {
      var c, p := capacity.For(ota), PreliminaryRunDate(historicalTo, days.value);
      var s := Search(rows, ota, c, exclude, p, MAX_SEARCH_DAYS);
      SearchFinds(rows, ota, c, exclude, p, MAX_SEARCH_DAYS);
      assert IsEarliestSlot(rows, ota, c, exclude, p, r) && s < r ==> Used(rows, ota, s, exclude) >= c;
    }
  }

  lemma RunDateNeedsCrs(
    rows: seq<Property>, capacity: Capacity, to: Day, crs: Option<string>, ota: Ota, exclude: Option<Id>)
    ensures RunDate(rows, capacity, to, crs, ota, exclude) == None <==> ParseCrsDays(crs) == None
  {
  }

  /** Two tables in which the counted rows agree give the same run date. */
  lemma {:induction false} SearchDependsOnCounts(
    rows: seq<Property>, rows': seq<Property>, ota: Ota, capacity: int, exclude: Option<Id>, candidate: Day,
    days: nat)
    requires forall d :: Used(rows, ota, d, exclude) == Used(rows', ota, d, exclude)
    ensures Search(rows, ota, capacity, exclude, candidate, days)
        == Search(rows', ota, capacity, exclude, candidate, days)
    decreases days
  {
    assert Used(rows, ota, candidate, exclude) == Used(rows', ota, candidate, exclude);
    if days > 0 {
      SearchDependsOnCounts(rows, rows', ota, capacity, exclude, candidate + 1, days - 1);
    }
  }

  // ---------------------------------------------------------------- per-property rules

  datatype RunDateUpdates = RunDateUpdates(expedia: Option<Day>, booking: Option<Day>, agoda: Option<Day>) {
    function For(ota: Ota): Option<Day> {
      match ota
      case Expedia => expedia
      case Booking => booking
      case Agoda => agoda
    }
  }

  /** The rule for one OTA: nothing without a "to" date; HIGH runs the day after the property was
      created, whatever the capacity; REGULAR and no priority use the capacity search. */
  function RunDateFor(
    rows: seq<Property>, capacity: Capacity, property: Property, ota: Ota, exclude: Option<Id>): Option<Day> {
    var f := property.Get(ota);
    if f.historicalTo == None then None
    else if f.priority == Some("HIGH") then Some(property.createdAt + 1)
    else RunDate(rows, capacity, f.historicalTo.value, f.crs, ota, exclude)
  }

  /** The rule for one OTA, said without the search. */
  lemma RunDateForMeans(rows: seq<Property>, capacity: Capacity, property: Property, ota: Ota, exclude: Option<Id>)
    ensures
      var r := RunDateFor(rows, capacity, property, ota, exclude);
      var f := property.Get(ota);
      var limit :=
        match ota case Expedia => capacity.expedia case Booking => capacity.booking case Agoda => capacity.agoda;
      && (f.historicalTo == None ==> r == None)
      && (f.historicalTo.Some? && f.priority == Some("HIGH") ==> r == Some(property.createdAt + 1))
      && (f.historicalTo.Some? && f.priority != Some("HIGH") ==>
            match ParseCrsDays(f.crs)
            case None => r == None
            case Some(days) =>
              r.Some? && IsEarliestSlot(rows, ota, limit, exclude, f.historicalTo.value + days + 16, r.value))
  {
    hide IsEarliestSlot, RunDate;
    var r := RunDateFor(rows, capacity, property, ota, exclude);
    var f := property.Get(ota);
    if f.historicalTo.Some? {
      var d := if r.Some? then r.value else 0;
      RunDateIsEarliest(rows, capacity, f.historicalTo.value, f.crs, ota, exclude, d);
      RunDateNeedsCrs(rows, capacity, f.historicalTo.value, f.crs, ota, exclude);
    }
  }

  class RunDateCalculatorService {
    const store: PropertyStore
    const capacity: Capacity

    constructor (store: PropertyStore, capacity: Capacity)
      ensures this.store == store && this.capacity == capacity
    {
      this.store, this.capacity := store, capacity;
    }

    method CalcRunDate(historicalTo: Day, crs: Option<string>, ota: Ota, exclude: Option<Id>) returns (r: Option<Day>)
      ensures r == RunDate(store.rows, capacity, historicalTo, crs, ota, exclude)
      ensures r.Some? <==> ParseCrsDays(crs).Some?
      ensures r.Some? ==>
                IsEarliestSlot(store.rows, ota, capacity.For(ota), exclude,
                               PreliminaryRunDate(historicalTo, ParseCrsDays(crs).value), r.value)
    {
      var days := ParseCrsDays(crs);
      if days == None {
        return None;
      }
      var limit := capacity.For(ota);
      var candidate := PreliminaryRunDate(historicalTo, days.value);
      ghost var first := candidate;
      for i := 0 to MAX_SEARCH_DAYS
        invariant candidate == first + i
        invariant Search(store.rows, ota, limit, exclude, first, MAX_SEARCH_DAYS)
               == Search(store.rows, ota, limit, exclude, candidate, MAX_SEARCH_DAYS - i)
      {
        var slotsUsed := Used(store.rows, ota, candidate, exclude);
        if slotsUsed < limit {
          break;
        }
        candidate := candidate + 1;
      }
      r := Some(candidate);
      RunDateIsEarliest(store.rows, capacity, historicalTo, crs, ota, exclude, candidate);
    }

    method CalcRunDatesForProperty(property: Property, exclude: Option<Id>) returns (updates: RunDateUpdates)
      ensures forall ota :: updates.For(ota) == RunDateFor(store.rows, capacity, property, ota, exclude)
    {
      hide RunDate;
      updates := RunDateUpdates(None, None, None);
      if property.expedia.historicalTo.Some? {
        var d := CalcForOta(property, Expedia, exclude);
        updates := updates.(expedia := d);
      }
      if property.booking.historicalTo.Some? {
        var d := CalcForOta(property, Booking, exclude);
        updates := updates.(booking := d);
      }
      if property.agoda.historicalTo.Some? {
        var d := CalcForOta(property, Agoda, exclude);
        updates := updates.(agoda := d);
      }
    }

    method CalcForOta(property: Property, ota: Ota, exclude: Option<Id>) returns (d: Option<Day>)
      requires property.Get(ota).historicalTo.Some?
      ensures d == RunDateFor(store.rows, capacity, property, ota, exclude)
    {
      hide RunDate;
      var f := property.Get(ota);
      if f.priority == Some("HIGH") {
        d := Some(property.createdAt + 1);
      } else {
        d := CalcRunDate(f.historicalTo.value, f.crs, ota, exclude);
      }
    }
  }
}
