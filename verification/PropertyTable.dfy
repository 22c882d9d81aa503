/** The property table as the scheduler sees it: rows with one group of fields per OTA, held
    in a store that the services query and update. Stored dates are day numbers. */
module PropertyTable {
  import opened Basics
  import opened CivilDate

  datatype Ota = Expedia | Booking | Agoda

  /** `historicalTo` is the OTA's "to" date; null and the empty text both mean None. */
  datatype OtaFields = OtaFields(
    otaId: Option<int>,
    historicalTo: Option<Day>,
    crs: Option<string>,
    priority: Option<string>,
    runDate: Option<Day>,
    billingType: Option<string>)

  datatype Property = Property(
    id: Id,
    name: string,
    createdAt: Day,
    bookingOtpNumber: Option<string>,
    expedia: OtaFields,
    booking: OtaFields,
    agoda: OtaFields)
  {
    function Get(ota: Ota): OtaFields {
      match ota
      case Expedia => expedia
      case Booking => booking
      case Agoda => agoda
    }

    function Set(ota: Ota, f: OtaFields): Property {
      match ota
      case Expedia => this.(expedia := f)
      case Booking => this.(booking := f)
      case Agoda => this.(agoda := f)
    }
  }

  class PropertyStore {
    var rows: seq<Property>

    constructor (rows: seq<Property>)
      ensures this.rows == rows
    {
      this.rows := rows;
    }
  }

  predicate UniqueIds(rows: seq<Property>) {
    forall i, j :: 0 <= i < j < |rows| ==> rows[i].id != rows[j].id
  }

  predicate HasId(rows: seq<Property>, id: Id) {
    exists i :: 0 <= i < |rows| && rows[i].id == id
  }

  /** findUnique by id. */
  function Find(rows: seq<Property>, id: Id): (r: Option<Property>)
    ensures r.Some? <==> HasId(rows, id)
    ensures r.Some? ==> r.value in rows && r.value.id == id
  {
    if rows == [] then None
    else if rows[0].id == id then Some(rows[0])
    else Find(rows[1..], id)
  }

  /** update by id: the row's field group of one OTA is replaced. */
  function SetOta(rows: seq<Property>, id: Id, ota: Ota, f: OtaFields): (r: seq<Property>)
    ensures |r| == |rows|
    ensures forall i :: 0 <= i < |rows| ==> r[i] == if rows[i].id == id then rows[i].Set(ota, f) else rows[i]
  {
    seq(|rows|, i requires 0 <= i < |rows| => if rows[i].id == id then rows[i].Set(ota, f) else rows[i])
  }

  lemma {:induction false} FindAt(rows: seq<Property>, i: nat)
    requires UniqueIds(rows) && i < |rows|
    ensures Find(rows, rows[i].id) == Some(rows[i])
  {
    if i > 0 {
      assert rows[i] == rows[1..][i - 1];
      FindAt(rows[1..], i - 1);
    }
  }

  /** An update changes the one field group of the one row, and nothing that any other lookup sees. */
  lemma FindAfterSet(rows: seq<Property>, id: Id, ota: Ota, f: OtaFields, id': Id)
    requires UniqueIds(rows)
    ensures UniqueIds(SetOta(rows, id, ota, f))
    ensures Find(SetOta(rows, id, ota, f), id') ==
            match Find(rows, id')
            case None => None
            case Some(p) => Some(if id' == id then p.Set(ota, f) else p)
  {
    var r := SetOta(rows, id, ota, f);
    if HasId(rows, id') {
      var i :| 0 <= i < |rows| && rows[i].id == id';
      FindAt(rows, i);
      FindAt(r, i);
    } else {
      assert forall i :: 0 <= i < |r| ==> r[i].id == rows[i].id;
    }
  }

  // ---------------------------------------------------------------- counting run dates

  predicate Takes(p: Property, ota: Ota, day: Day, exclude: Option<Id>) {
    p.Get(ota).runDate == Some(day) && exclude != Some(p.id)
  }

  /** The count query: rows whose run date for `ota` is `day`, without the excluded row. */
  function Used(rows: seq<Property>, ota: Ota, day: Day, exclude: Option<Id>): nat {
    if rows == [] then 0
    else (if Takes(rows[0], ota, day, exclude) then 1 else 0) + Used(rows[1..], ota, day, exclude)
  }

  /** Rows whose run date falls in the `n` days from `start`, without the excluded row. */
  function UsedInRange(rows: seq<Property>, ota: Ota, start: Day, n: nat, exclude: Option<Id>): nat {
    if n == 0 then 0
    else UsedInRange(rows, ota, start, n - 1, exclude) + Used(rows, ota, start + n - 1, exclude)
  }

  function Others(rows: seq<Property>, exclude: Option<Id>): nat {
    if rows == [] then 0
    else (if exclude == Some(rows[0].id) then 0 else 1) + Others(rows[1..], exclude)
  }

  lemma {:induction false} UsedInRangeHead(rows: seq<Property>, ota: Ota, start: Day, n: nat, exclude: Option<Id>)
    requires rows != []
    ensures
      var p := rows[0];
      var d := p.Get(ota).runDate;
      UsedInRange(rows, ota, start, n, exclude)
      == (if d.Some? && start <= d.value < start + n && exclude != Some(p.id) then 1 else 0)
         + UsedInRange(rows[1..], ota, start, n, exclude)
  {
    if n > 0 {
      UsedInRangeHead(rows, ota, start, n - 1, exclude);
    }
  }

  /** Each row has one run date per OTA, so a range of days never holds more rows than there are. */
  lemma {:induction false} UsedInRangeAtMostOthers(
    rows: seq<Property>, ota: Ota, start: Day, n: nat, exclude: Option<Id>)
    ensures UsedInRange(rows, ota, start, n, exclude) <= Others(rows, exclude)
  {
    if rows == [] {
      UsedInRangeEmpty(ota, start, n, exclude);
    } else {
      UsedInRangeHead(rows, ota, start, n, exclude);
      UsedInRangeAtMostOthers(rows[1..], ota, start, n, exclude);
    }
  }

  lemma {:induction false} UsedInRangeEmpty(ota: Ota, start: Day, n: nat, exclude: Option<Id>)
    ensures UsedInRange([], ota, start, n, exclude) == 0
  {
    if n > 0 {
      UsedInRangeEmpty(ota, start, n - 1, exclude);
    }
  }

  lemma {:induction false} FullDaysFillRange(
    rows: seq<Property>, ota: Ota, start: Day, n: nat, exclude: Option<Id>, capacity: int)
    requires forall d :: start <= d < start + n ==> Used(rows, ota, d, exclude) >= capacity
    ensures UsedInRange(rows, ota, start, n, exclude) >= n * capacity
  {
    if n > 0 {
      FullDaysFillRange(rows, ota, start, n - 1, exclude, capacity);
      assert n * capacity == (n - 1) * capacity + capacity;
    }
  }

  lemma {:induction false} OthersBound(rows: seq<Property>, id: Id)
    ensures Others(rows, Some(id)) <= |rows|
    ensures HasId(rows, id) ==> Others(rows, Some(id)) < |rows|
  {
    if rows != [] {
      OthersBound(rows[1..], id);
      if HasId(rows, id) && rows[0].id != id {
        var i :| 0 <= i < |rows| && rows[i].id == id;
        assert rows[1..][i - 1].id == id;
      }
    }
  }

  /** The pigeonhole behind the search: `n` full days need `n * capacity` other properties. */
  lemma FullDaysNeedProperties(rows: seq<Property>, ota: Ota, start: Day, n: nat, id: Id, capacity: int)
    requires HasId(rows, id)
    requires forall d :: start <= d < start + n ==> Used(rows, ota, d, Some(id)) >= capacity
    ensures n * capacity < |rows|
  {
    FullDaysFillRange(rows, ota, start, n, Some(id), capacity);
    UsedInRangeAtMostOthers(rows, ota, start, n, Some(id));
    OthersBound(rows, id);
  }

  lemma {:induction false} UsedWithoutAbsentId(rows: seq<Property>, ota: Ota, day: Day, id: Id)
    requires !HasId(rows, id)
    ensures Used(rows, ota, day, Some(id)) == Used(rows, ota, day, None)
  {
    if rows != [] {
      assert rows[0].id != id;
      assert forall i :: 0 <= i < |rows[1..]| ==> rows[1..][i] == rows[i + 1];
      UsedWithoutAbsentId(rows[1..], ota, day, id);
    }
  }

  /** Writing a row leaves every count that excludes the row unchanged. */
  lemma {:induction false} UsedExcludingWritten(rows: seq<Property>, id: Id, ota: Ota, f: OtaFields, o: Ota, day: Day)
    ensures Used(SetOta(rows, id, ota, f), o, day, Some(id)) == Used(rows, o, day, Some(id))
  {
    if rows != [] {
      assert SetOta(rows, id, ota, f)[1..] == SetOta(rows[1..], id, ota, f);
      UsedExcludingWritten(rows[1..], id, ota, f, o, day);
    }
  }

  /** Counting everyone is counting the others, plus one if the row itself has that run date. */
  lemma {:induction false} UsedSplitsOffRow(rows: seq<Property>, i: nat, ota: Ota, day: Day)
    requires UniqueIds(rows) && i < |rows|
    ensures Used(rows, ota, day, None)
            == Used(rows, ota, day, Some(rows[i].id)) + if rows[i].Get(ota).runDate == Some(day) then 1 else 0
  {
    var tail := rows[1..];
    if i == 0 {
      assert !HasId(tail, rows[0].id) by {
        assert forall j :: 0 <= j < |tail| ==> tail[j] == rows[j + 1];
      }
      UsedWithoutAbsentId(tail, ota, day, rows[0].id);
    } else {
      assert tail[i - 1] == rows[i];
      UsedSplitsOffRow(tail, i - 1, ota, day);
    }
  }

  lemma {:induction false} UsedOtherOta(rows: seq<Property>, id: Id, ota: Ota, f: OtaFields, o: Ota, day: Day)
    requires o != ota || forall i :: 0 <= i < |rows| && rows[i].id == id ==> rows[i].Get(ota).runDate == f.runDate
    ensures Used(SetOta(rows, id, ota, f), o, day, None) == Used(rows, o, day, None)
  {
    if rows != [] {
      assert SetOta(rows, id, ota, f)[1..] == SetOta(rows[1..], id, ota, f);
      UsedOtherOta(rows[1..], id, ota, f, o, day);
    }
  }

  /** The count of a day after a row's run date was written. */
  lemma UsedAfterSet(rows: seq<Property>, id: Id, ota: Ota, f: OtaFields, day: Day)
    requires UniqueIds(rows) && HasId(rows, id)
    ensures Used(SetOta(rows, id, ota, f), ota, day, None)
            == Used(rows, ota, day, Some(id)) + if f.runDate == Some(day) then 1 else 0
  {
    var i :| 0 <= i < |rows| && rows[i].id == id;
    var r := SetOta(rows, id, ota, f);
    assert UniqueIds(r);
    UsedSplitsOffRow(r, i, ota, day);
    UsedExcludingWritten(rows, id, ota, f, ota, day);
  }
}
