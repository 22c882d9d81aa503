/** Job windows over whole runs: requests, finished jobs and edits interleave in any order on
    the whole table, and the finished windows of every property and OTA tile its calendar. */
module JobTiling {
  import opened Basics
  import opened CivilDate
  import opened PropertyTable
  import opened RunDateCalculator
  import opened RecurringJobs
  import opened SchedulerRuns

  datatype Key = Key(id: Id, ota: Ota)

  /** The table, the job last sent for each key and not yet reported back, the finished windows, and the
      properties created so far, as they were created. */
  datatype System = System(
    rows: seq<Property>,
    sent: map<Key, Window>,
    done: map<Key, seq<Window>>,
    born: map<Id, Property>)

  datatype Event =
    | Request(request: BulkRequest, post: Post)
    | Finish(key: Key)
    | EditProperty(edit: Edit)
    | CreateProperty(property: Property)

  function Record(sent: map<Key, Window>, jobs: seq<ParserJob>): map<Key, Window> {
    if jobs == [] then sent
    else
      var j := jobs[|jobs| - 1];
      Record(sent, jobs[..|jobs| - 1])[Key(j.parentId, j.ota) := j.window]
  }

  function Done(s: System, key: Key): seq<Window> {
    if key in s.done then s.done[key] else []
  }

  function Sent(s: System, key: Key): Option<Window> {
    if key in s.sent then Some(s.sent[key]) else None
  }

  /** A finished job is reported by a callback carrying the end of the job last sent. */
  function Step(s: System, capacity: Capacity, e: Event): System {
    match e
    case Request(request, post) =>
      (match BulkCreate(s.rows, request, true, post)
       case Accepted(_, jobs, _) => s.(sent := Record(s.sent, jobs))
       case _ => s)
    case Finish(key) =>
      if key in s.sent then
        var w := s.sent[key];
        s.(rows := AfterCallback(s.rows, capacity, Callback(key.id, key.ota, w.end)),
           sent := s.sent - {key},
           done := s.done[key := Done(s, key) + [w]])
      else s
    case EditProperty(edit) => s.(rows := AfterEdit(s.rows, capacity, edit))
    case CreateProperty(p) =>
      if HasId(s.rows, p.id) then s
      else s.(rows := AfterCreate(s.rows, capacity, p), born := s.born[p.id := p])
  }

  /** No request fixes a start date, and no edit writes a "to" date. */
  predicate LeavesHistory(e: Event) {
    match e
    case Request(request, _) => request.startDate == None
    case Finish(_) => true
    case EditProperty(edit) => edit.newTo == None
    case CreateProperty(_) => true
  }

  function Run(s: System, capacity: Capacity, events: seq<Event>): System {
    if events == [] then s
    else Step(Run(s, capacity, events[..|events| - 1]), capacity, events[|events| - 1])
  }

  /** The finished windows lead, one continuing the other, from the initial "to" date to the current one. */
  predicate Tiles(ota: Ota, from: Day, ws: seq<Window>, to: Day) {
    if ws == [] then from == to
    else
      var w, init := ws[|ws| - 1], ws[..|ws| - 1];
      var before := if init == [] then from else init[|init| - 1].end;
      w.end == to && Continues(ota, before, w) && Tiles(ota, from, init, before)
  }

  predicate KeyHolds(ota: Ota, from: Option<Day>, to: Option<Day>, sent: Option<Window>, done: seq<Window>) {
    match from
    case None => to == None && sent == None && done == []
    case Some(first) =>
      && to.Some?
      && Tiles(ota, first, done, to.value)
      && (sent.Some? ==> Continues(ota, to.value, sent.value))
  }

  function ToDate(rows: seq<Property>, key: Key): Option<Day> {
    match Find(rows, key.id)
    case None => None
    case Some(p) => p.Get(key.ota).historicalTo
  }

  /** The "to" date a property started with: as created during the run, or in the initial table. */
  function FirstTo(start: seq<Property>, s: System, key: Key): Option<Day> {
    if key.id in s.born then s.born[key.id].Get(key.ota).historicalTo else ToDate(start, key)
  }

  ghost predicate Holds(start: seq<Property>, s: System) {
    && UniqueIds(s.rows)
    && (forall id :: id in s.born ==> HasId(s.rows, id))
    && forall key: Key :: KeyHolds(key.ota, FirstTo(start, s, key), ToDate(s.rows, key), Sent(s, key), Done(s, key))
  }

  lemma {:induction false} RecordedJobs(sent: map<Key, Window>, jobs: seq<ParserJob>, key: Key)
    requires key in Record(sent, jobs)
    ensures
      var w := Record(sent, jobs)[key];
      (key in sent && sent[key] == w)
          || exists j :: j in jobs && j.parentId == key.id && j.ota == key.ota && j.window == w
  {
    if jobs != [] {
      var last := jobs[|jobs| - 1];
      if key != Key(last.parentId, last.ota) {
        RecordedJobs(sent, jobs[..|jobs| - 1], key);
      } else {
        assert last in jobs;
      }
    }
  }

  /** A job that a request without start date sends continues the history of its property. */
  lemma SentJobContinues(rows: seq<Property>, request: BulkRequest, j: ParserJob)
    requires UniqueIds(rows) && request.startDate == None
    requires j in Jobs(Select(rows, request.propertyIds), request)
    ensures
      var to := ToDate(rows, Key(j.parentId, j.ota));
      to.Some? && Continues(j.ota, to.value, j.window)
  {
    var ps := Select(rows, request.propertyIds);
    JobOrigin(ps, request, j);
    var p :| p in ps && j in JobsFor(p, request);
    SelectedIds(rows, request.propertyIds);
    var i :| 0 <= i < |rows| && rows[i] == p;
    FindAt(rows, i);
    WindowShape(request.ota, p.Get(request.ota), None, request.endDate);
  }

  lemma RequestKeepsHolds(start: seq<Property>, s: System, capacity: Capacity, request: BulkRequest, post: Post)
    requires Holds(start, s) && request.startDate == None
    ensures Holds(start, Step(s, capacity, Request(request, post)))
  {
    var r := Step(s, capacity, Request(request, post));
    var outcome := BulkCreate(s.rows, request, true, post);
    if outcome.Accepted? {
      forall key: Key
        ensures KeyHolds(key.ota, FirstTo(start, r, key), ToDate(r.rows, key), Sent(r, key), Done(r, key))
      {
        assert KeyHolds(key.ota, FirstTo(start, s, key), ToDate(s.rows, key), Sent(s, key), Done(s, key));
        if key in r.sent {
          RecordedJobs(s.sent, outcome.jobs, key);
          if !(key in s.sent && s.sent[key] == r.sent[key]) {
            var j :| j in outcome.jobs && j.parentId == key.id && j.ota == key.ota && j.window == r.sent[key];
            SentJobContinues(s.rows, request, j);
          }
        } else {
          NotRecorded(s.sent, outcome.jobs, key);
        }
      }
    }
  }

  lemma {:induction false} NotRecorded(sent: map<Key, Window>, jobs: seq<ParserJob>, key: Key)
    requires key !in Record(sent, jobs)
    ensures key !in sent
  {
    if jobs != [] {
      NotRecorded(sent, jobs[..|jobs| - 1], key);
    }
  }

  lemma ToDateAfterSet(rows: seq<Property>, id: Id, ota: Ota, f: OtaFields, key: Key)
    requires UniqueIds(rows)
    ensures UniqueIds(SetOta(rows, id, ota, f))
    ensures ToDate(SetOta(rows, id, ota, f), key)
         == if key == Key(id, ota) && HasId(rows, id) then f.historicalTo else ToDate(rows, key)
  {
    hide SetOta, UniqueIds, HasId, Find;
    FindAfterSet(rows, id, ota, f, key.id);
  }

  lemma FinishKeepsHolds(start: seq<Property>, s: System, capacity: Capacity, key: Key)
    requires Holds(start, s)
    ensures Holds(start, Step(s, capacity, Finish(key)))
  {
    hide SetOta, UniqueIds, HasId, Find, CallbackRunDate, IsHigh, EffectiveCrs;
    if key in s.sent {
      var w := s.sent[key];
      var r := Step(s, capacity, Finish(key));
      assert KeyHolds(key.ota, FirstTo(start, s, key), ToDate(s.rows, key), Sent(s, key), Done(s, key));
      var p := Find(s.rows, key.id).value;
      var g := CallbackFields(s.rows, capacity, p.Get(key.ota), Callback(key.id, key.ota, w.end));
      assert r.rows == SetOta(s.rows, key.id, key.ota, g);
      IdsStay(s.rows, key.id, key.ota, g);
      forall k: Key
        ensures KeyHolds(k.ota, FirstTo(start, r, k), ToDate(r.rows, k), Sent(r, k), Done(r, k))
      {
        ToDateAfterSet(s.rows, key.id, key.ota, g, k);
        assert KeyHolds(k.ota, FirstTo(start, s, k), ToDate(s.rows, k), Sent(s, k), Done(s, k));
        if k == key {
          TilesExtend(key.ota, FirstTo(start, s, key).value, Done(s, key), ToDate(s.rows, key).value, w);
        }
      }
      ToDateAfterSet(s.rows, key.id, key.ota, g, key);
    }
  }

  lemma TilesExtend(ota: Ota, from: Day, ws: seq<Window>, to: Day, w: Window)
    requires Tiles(ota, from, ws, to) && Continues(ota, to, w)
    ensures Tiles(ota, from, ws + [w], w.end)
  {
    assert (ws + [w])[..|ws|] == ws;
  }

  lemma EditKeepsHolds(start: seq<Property>, s: System, capacity: Capacity, e: Edit)
    requires Holds(start, s) && e.newTo == None
    ensures Holds(start, Step(s, capacity, EditProperty(e)))
  {
    hide EditFields, KeyHolds, SetOta, UniqueIds, HasId, ToDate;
    if HasId(s.rows, e.id) {
      var r := Step(s, capacity, EditProperty(e));
      var g := EditFields(s.rows, capacity, Find(s.rows, e.id).value, e);
      EditedTo(s.rows, capacity, e);
      IdsStay(s.rows, e.id, e.ota, g);
      forall k: Key
        ensures KeyHolds(k.ota, FirstTo(start, r, k), ToDate(r.rows, k), Sent(r, k), Done(r, k))
      {
        ToDateAfterSet(s.rows, e.id, e.ota, g, k);
        assert KeyHolds(k.ota, FirstTo(start, s, k), ToDate(s.rows, k), Sent(s, k), Done(s, k));
      }
      ToDateAfterSet(s.rows, e.id, e.ota, g, Key(e.id, e.ota));
    }
  }

  lemma EditedTo(rows: seq<Property>, capacity: Capacity, e: Edit)
    requires HasId(rows, e.id) && e.newTo == None
    ensures EditFields(rows, capacity, Find(rows, e.id).value, e).historicalTo == ToDate(rows, Key(e.id, e.ota))
  {
    hide RunDateFor;
  }

  lemma IdsStay(rows: seq<Property>, id: Id, ota: Ota, f: OtaFields)
    ensures forall x :: HasId(rows, x) ==> HasId(SetOta(rows, id, ota, f), x)
  {
    forall x | HasId(rows, x)
      ensures HasId(SetOta(rows, id, ota, f), x)
    {
      var i :| 0 <= i < |rows| && rows[i].id == x;
      assert SetOta(rows, id, ota, f)[i].id == x;
    }
  }

  lemma NewRowFound(rows: seq<Property>, p: Property, key: Key)
    requires UniqueIds(rows) && !HasId(rows, p.id)
    ensures UniqueIds(rows + [p])
    ensures ToDate(rows + [p], key) == if key.id == p.id then p.Get(key.ota).historicalTo else ToDate(rows, key)
  {
    var all := rows + [p];
    if key.id == p.id {
      FindAt(all, |rows|);
    } else if HasId(rows, key.id) {
      var i :| 0 <= i < |rows| && rows[i].id == key.id;
      FindAt(rows, i);
      FindAt(all, i);
    }
  }

  lemma AbsentKey(start: seq<Property>, s: System, key: Key)
    requires Holds(start, s) && !HasId(s.rows, key.id)
    ensures Sent(s, key) == None && Done(s, key) == []
  {
    assert KeyHolds(key.ota, FirstTo(start, s, key), ToDate(s.rows, key), Sent(s, key), Done(s, key));
  }

  lemma CreateKeepsHolds(start: seq<Property>, s: System, capacity: Capacity, p: Property)
    requires Holds(start, s)
    ensures Holds(start, Step(s, capacity, CreateProperty(p)))
  {
    hide KeyHolds, Done, Sent, ToDate;
    if !HasId(s.rows, p.id) {
      var r := Step(s, capacity, CreateProperty(p));
      var q := Scheduled(s.rows, capacity, p);
      forall key: Key
        ensures KeyHolds(key.ota, FirstTo(start, r, key), ToDate(r.rows, key), Sent(r, key), Done(r, key))
      {
        NewRowFound(s.rows, q, key);
        assert KeyHolds(key.ota, FirstTo(start, s, key), ToDate(s.rows, key), Sent(s, key), Done(s, key));
        SameRecords(s, r, key);
        if key.id == p.id {
          AbsentKey(start, s, key);
          FreshKeyHolds(key.ota, p.Get(key.ota).historicalTo);
        }
      }
      NewRowFound(s.rows, q, Key(p.id, Expedia));
      forall id | id in r.born
        ensures HasId(r.rows, id)
      {
        if id == p.id {
          assert r.rows[|s.rows|].id == id;
        } else {
          var i :| 0 <= i < |s.rows| && s.rows[i].id == id;
          assert r.rows[i].id == id;
        }
      }
    }
  }

  lemma SameRecords(s: System, r: System, key: Key)
    requires r.sent == s.sent && r.done == s.done
    ensures Sent(r, key) == Sent(s, key) && Done(r, key) == Done(s, key)
  {
  }

  lemma FreshKeyHolds(ota: Ota, to: Option<Day>)
    ensures KeyHolds(ota, to, to, None, [])
  {
  }

  lemma {:induction false} RunsHold(rows: seq<Property>, capacity: Capacity, events: seq<Event>)
    requires UniqueIds(rows)
    requires forall e :: e in events ==> LeavesHistory(e)
    ensures Holds(rows, Run(System(rows, map[], map[], map[]), capacity, events))
  {
    if events != [] {
      var init, last := events[..|events| - 1], events[|events| - 1];
      RunsHold(rows, capacity, init);
      var s := Run(System(rows, map[], map[], map[]), capacity, init);
      assert last in events;
      match last
      case Request(request, post) => RequestKeepsHolds(rows, s, capacity, request, post);
      case Finish(key) => FinishKeepsHolds(rows, s, capacity, key);
      case EditProperty(edit) => EditKeepsHolds(rows, s, capacity, edit);
      case CreateProperty(p) => CreateKeepsHolds(rows, s, capacity, p);
    }
  }

  /** An accepted request leaves exactly its jobs outstanding for their properties, and all others as they
      were; the table and the finished windows stay. */
  lemma RequestSends(s: System, capacity: Capacity, request: BulkRequest, post: Post)
    requires UniqueIds(s.rows) && BulkCreate(s.rows, request, true, post).Accepted?
    ensures
      var r := Step(s, capacity, Request(request, post));
      var jobs := BulkCreate(s.rows, request, true, post).jobs;
      && r.rows == s.rows && r.done == s.done && r.born == s.born
      && (forall j :: j in jobs ==> Sent(r, Key(j.parentId, j.ota)) == Some(j.window))
      && (forall key: Key :: (forall j :: j in jobs ==> key != Key(j.parentId, j.ota)) ==> Sent(r, key) == Sent(s, key))
  {
    var ps := Select(s.rows, request.propertyIds);
    SelectKeepsUnique(s.rows, request.propertyIds);
    forall j | j in Jobs(ps, request)
      ensures Sent(Step(s, capacity, Request(request, post)), Key(j.parentId, j.ota)) == Some(j.window)
    {
      RecordedJob(ps, request, s.sent, j);
    }
    forall key: Key | forall j :: j in Jobs(ps, request) ==> key != Key(j.parentId, j.ota)
      ensures Sent(Step(s, capacity, Request(request, post)), key) == Sent(s, key)
    {
      OthersRecorded(s.sent, Jobs(ps, request), key);
    }
  }

  lemma {:induction false} OthersRecorded(sent: map<Key, Window>, jobs: seq<ParserJob>, key: Key)
    requires forall j :: j in jobs ==> key != Key(j.parentId, j.ota)
    ensures key in Record(sent, jobs) <==> key in sent
    ensures key in sent ==> Record(sent, jobs)[key] == sent[key]
  {
    if jobs != [] {
      var init, last := jobs[..|jobs| - 1], jobs[|jobs| - 1];
      assert last in jobs;
      OthersRecorded(sent, init, key);
    }
  }

  /** Each property has at most one job in a request, so none overwrites another. */
  lemma {:induction false} RecordedJob(ps: seq<Property>, request: BulkRequest, sent: map<Key, Window>, j: ParserJob)
    requires UniqueIds(ps) && j in Jobs(ps, request)
    ensures
      var key := Key(j.parentId, j.ota);
      key in Record(sent, Jobs(ps, request)) && Record(sent, Jobs(ps, request))[key] == j.window
  {
    hide ChooseWindow, IsHigh;
    var init, last := ps[..|ps| - 1], ps[|ps| - 1];
    var before, own := Jobs(init, request), JobsFor(last, request);
    assert before + own == Jobs(ps, request);
    if j in own {
      assert own == [j];
      assert (before + [j])[..|before|] == before;
    } else {
      RecordedJob(init, request, sent, j);
      JobOrigin(init, request, j);
      var p :| p in init && j in JobsFor(p, request);
      var i :| 0 <= i < |init| && init[i] == p;
      assert ps[i].id != last.id;
      if own != [] {
        assert own == [own[0]];
        assert (before + own)[..|before|] == before;
      } else {
        assert before + own == before;
      }
    }
  }

  /** A finished job is appended to the finished windows of its key, the property's "to" date becomes its end,
      and no other key is affected. */
  lemma FinishMeans(s: System, capacity: Capacity, key: Key)
    requires UniqueIds(s.rows) && key in s.sent && HasId(s.rows, key.id)
    ensures
      var r := Step(s, capacity, Finish(key));
      && Sent(r, key) == None && Done(r, key) == Done(s, key) + [s.sent[key]]
      && ToDate(r.rows, key) == Some(s.sent[key].end)
      && forall k: Key :: k != key ==>
           Sent(r, k) == Sent(s, k) && Done(r, k) == Done(s, k) && ToDate(r.rows, k) == ToDate(s.rows, k)
  {
    hide SetOta, UniqueIds, HasId, ToDate, Search;
    var g := CallbackFields(s.rows, capacity, Find(s.rows, key.id).value.Get(key.ota),
        Callback(key.id, key.ota, s.sent[key].end));
    ToDateAfterSet(s.rows, key.id, key.ota, g, key);
    forall k: Key
      ensures k != key ==> ToDate(Step(s, capacity, Finish(key)).rows, k) == ToDate(s.rows, k)
    {
      ToDateAfterSet(s.rows, key.id, key.ota, g, k);
    }
  }

  // ---------------------------------------------------------------- what tiling means

  predicate Covers(w: Window, day: Day) {
    w.start <= day <= w.end
  }

  predicate Covered(ws: seq<Window>, day: Day) {
    exists i :: 0 <= i < |ws| && Covers(ws[i], day)
  }

  lemma {:induction false} TilesAdvance(ota: Ota, from: Day, ws: seq<Window>, to: Day)
    requires Tiles(ota, from, ws, to)
    ensures from <= to
    ensures forall i :: 0 <= i < |ws| ==> from < ws[i].end <= to
    ensures forall i, j :: 0 <= i < j < |ws| ==> ws[i].end < ws[j].end
  {
    if ws != [] {
      var init := ws[..|ws| - 1];
      var before := if init == [] then from else init[|init| - 1].end;
      TilesAdvance(ota, from, init, before);
      assert ws == init + [ws[|ws| - 1]];
    }
  }

  /** Window `i` starts the day after the one before it ended. */
  predicate Abuts(from: Day, ws: seq<Window>, i: nat)
    requires i < |ws|
  {
    ws[i].start == (if i == 0 then from else ws[i - 1].end) + 1
  }

  /** Outside Agoda each window starts the day after the one before it ended. */
  lemma {:induction false} TilesAbut(ota: Ota, from: Day, ws: seq<Window>, to: Day, i: nat)
    requires Tiles(ota, from, ws, to) && ota != Agoda && i < |ws|
    ensures Abuts(from, ws, i)
  {
    var init := ws[..|ws| - 1];
    var before := if init == [] then from else init[|init| - 1].end;
    if i < |ws| - 1 {
      TilesAbut(ota, from, init, before, i);
    }
  }

  lemma {:induction false} TilesLeaveNoGap(ota: Ota, from: Day, ws: seq<Window>, to: Day, day: Day)
    requires Tiles(ota, from, ws, to) && from < day <= to
    ensures Covered(ws, day)
  {
    var init := ws[..|ws| - 1];
    var before := if init == [] then from else init[|init| - 1].end;
    if day <= before {
      TilesLeaveNoGap(ota, from, init, before, day);
      var i :| 0 <= i < |init| && Covers(init[i], day);
      assert Covers(ws[i], day);
    } else {
      assert Covers(ws[|ws| - 1], day);
    }
  }

  /** The windows lead forward from `from` to `to` and cover every day in between; for Expedia and
      Booking they cover no day twice and none outside, each starting the day after the one before ended. */
  ghost predicate Calendar(ota: Ota, from: Day, ws: seq<Window>, to: Day) {
    && from <= to && (ws != [] ==> from < to)
    && (forall i, j :: 0 <= i < j < |ws| ==> ws[i].end < ws[j].end)
    && (forall day :: from < day <= to ==> Covered(ws, day))
    && (ota != Agoda ==>
          && (forall i, day :: 0 <= i < |ws| && Covers(ws[i], day) ==> from < day <= to)
          && (forall i, j, day :: 0 <= i < j < |ws| ==> !(Covers(ws[i], day) && Covers(ws[j], day)))
          && (forall i :: 0 <= i < |ws| ==> Abuts(from, ws, i)))
  }

  lemma TilesAreCalendar(ota: Ota, from: Day, ws: seq<Window>, to: Day)
    requires Tiles(ota, from, ws, to)
    ensures Calendar(ota, from, ws, to)
  {
    hide Tiles;
    TilesAdvance(ota, from, ws, to);
    assert ws != [] ==> from < ws[0].end <= to;
    forall day | from < day <= to
      ensures Covered(ws, day)
    {
      TilesLeaveNoGap(ota, from, ws, to, day);
    }
    if ota != Agoda {
      forall i | 0 <= i < |ws|
        ensures Abuts(from, ws, i)
      {
        TilesAbut(ota, from, ws, to, i);
      }
      forall i, j, day | 0 <= i < j < |ws|
        ensures !(Covers(ws[i], day) && Covers(ws[j], day))
      {
        assert Abuts(from, ws, j);
        assert i < j - 1 ==> ws[i].end < ws[j - 1].end;
      }
      forall i, day | 0 <= i < |ws| && Covers(ws[i], day)
        ensures from < day <= to
      {
        assert from < ws[i].end <= to;
        assert i > 0 ==> from < ws[i - 1].end <= to;
        assert Abuts(from, ws, i);
      }
    }
  }

  /** In every run without fixed start dates and rewritten "to" dates, whatever CRS and priority changes
      and creations happen in between, the finished windows of each property and OTA tile the calendar
      from its first "to" date to its current one; without a first "to" date no job is ever created. */
  lemma WindowsTileTheCalendar(rows: seq<Property>, capacity: Capacity, events: seq<Event>, key: Key)
    requires UniqueIds(rows)
    requires forall e :: e in events ==> LeavesHistory(e)
    ensures
      var s := Run(System(rows, map[], map[], map[]), capacity, events);
      match FirstTo(rows, s, key)
      case None => ToDate(s.rows, key) == None && Done(s, key) == []
      case Some(from) => ToDate(s.rows, key).Some? && Calendar(key.ota, from, Done(s, key), ToDate(s.rows, key).value)
  {
    hide Calendar, Tiles, Run, ToDate, FirstTo, Done;
    RunsHold(rows, capacity, events);
    var s := Run(System(rows, map[], map[], map[]), capacity, events);
    var from, to, ws := FirstTo(rows, s, key), ToDate(s.rows, key), Done(s, key);
    assert KeyHolds(key.ota, from, to, Sent(s, key), ws);
    if from.Some? {
      TilesAreCalendar(key.ota, from.value, ws, to.value);
    }
  }
}
