/** The concurrency gate in front of property exports. Callers interleave at promise
    granularity: a resumed continuation is a microtask, and microtasks run first in, first out
    (sections 9.5 and 27.2.2 of ECMA-262). A caller that queued needs two microtasks from hand-over to start, one
    for the `await` inside `acquire` and one for the `await` in `run`; a caller that found a free
    slot needs only the second. */
module ExportGate {
  import opened Basics

  datatype Limits = Limits(concurrency: nat, maxQueued: nat) {
    /** Both settings are clamped to at least 1. */
    predicate Valid() {
      concurrency >= 1 && maxQueued >= 1
    }
  }

  /** How a call of `run` comes out synchronously. */
  datatype Entry = QueueFull | Granted | Queued

  // ---------------------------------------------------------------- the gate object

  function EntryFor(limits: Limits, active: nat, waiting: seq<Id>): Entry {
    if |waiting| >= limits.maxQueued then QueueFull
    else if active < limits.concurrency then Granted
    else Queued
  }

  class PropertyExportRunner {
    const limits: Limits
    var active: nat
    var waiting: seq<Id>

    constructor (limits: Limits)
      ensures this.limits == limits && active == 0 && waiting == []
    {
      this.limits, active, waiting := limits, 0, [];
    }

    /** The synchronous part of `run`: the queue check followed by `acquire`. */
    method Enter(caller: Id) returns (entry: Entry)
      modifies this
      ensures entry == QueueFull <==> |old(waiting)| >= limits.maxQueued
      ensures entry == Granted <==> |old(waiting)| < limits.maxQueued && old(active) < limits.concurrency
      ensures active == old(active) + if entry == Granted then 1 else 0
      ensures waiting == old(waiting) + if entry == Queued then [caller] else []
    {
      if |waiting| >= limits.maxQueued {
        return QueueFull;
      }
      if active < limits.concurrency {
        active := active + 1;
        return Granted;
      }
      waiting := waiting + [caller];
      entry := Queued;
    }

    /** Hands the slot to the longest waiting caller, or frees it. */
    method Release() returns (next: Option<Id>)
      requires active > 0
      modifies this
      ensures next == if old(waiting) == [] then None else Some(old(waiting)[0])
      ensures waiting == if old(waiting) == [] then [] else old(waiting)[1..]
      ensures active == old(active) - if old(waiting) == [] then 1 else 0
    {
      if waiting != [] {
        next := Some(waiting[0]);
        waiting := waiting[1..];
        return;
      }
      next := None;
      active := active - 1;
    }
  }

  // ---------------------------------------------------------------- the protocol

  /** A pending continuation: of the `await` inside `acquire`, or of the `await this.acquire()` in `run`. */
  datatype Task = InAcquire(id: Id) | InRun(id: Id)

  /** The gate, the microtask queue and the jobs; the other fields record history. `arrived` are
      the accepted callers, `granted` the slots in the order they were taken, `started` the jobs
      in the order they were called, `finished` those that settled, by returning or by throwing. */
  datatype State = State(
    active: nat,
    waiting: seq<Id>,
    tasks: seq<Task>,
    running: set<Id>,
    arrived: seq<Id>,
    granted: seq<Id>,
    started: seq<Id>,
    finished: seq<Id>,
    rejected: set<Id>)

  const INITIAL := State(0, [], [], {}, [], [], [], [], {})

  datatype Event = Arrive(id: Id) | Tick | Settle(id: Id)

  predicate Known(s: State, id: Id) {
    id in s.arrived || id in s.rejected
  }

  predicate Enabled(s: State, e: Event) {
    match e
    case Arrive(id) => !Known(s, id)
    case Tick => s.tasks != []
    case Settle(id) => id in s.running
  }

  /** One event; an event that cannot happen in the state leaves it alone. */
  function Step(limits: Limits, s: State, e: Event): State {
    if !Enabled(s, e) then s else EnabledStep(limits, s, e)
  }

  function EnabledStep(limits: Limits, s: State, e: Event): State
    requires Enabled(s, e)
  {
    match e
    case Arrive(id) =>
      (match EntryFor(limits, s.active, s.waiting)
       case QueueFull => s.(rejected := s.rejected + {id})
       case Granted =>
         s.(active := s.active + 1, tasks := s.tasks + [InRun(id)],
            arrived := s.arrived + [id], granted := s.granted + [id])
       case Queued => s.(waiting := s.waiting + [id], arrived := s.arrived + [id]))
    case Tick =>
      (match s.tasks[0]
       case InAcquire(id) => s.(tasks := s.tasks[1..] + [InRun(id)])
       case InRun(id) => s.(tasks := s.tasks[1..], running := s.running + {id}, started := s.started + [id]))
    case Settle(id) =>
      var t := s.(running := s.running - {id}, finished := s.finished + [id]);
      if s.waiting == [] then t.(active := if s.active > 0 then s.active - 1 else 0)
      else
        t.(waiting := s.waiting[1..], tasks := s.tasks + [InAcquire(s.waiting[0])],
           granted := s.granted + [s.waiting[0]])
  }

  function RunFrom(limits: Limits, s: State, events: seq<Event>): State {
    if events == [] then s
    else Step(limits, RunFrom(limits, s, events[..|events| - 1]), events[|events| - 1])
  }

  function Run(limits: Limits, events: seq<Event>): State {
    RunFrom(limits, INITIAL, events)
  }

  function TaskIds(tasks: seq<Task>): (r: seq<Id>)
    ensures |r| == |tasks|
  {
    seq(|tasks|, i requires 0 <= i < |tasks| => tasks[i].id)
  }

  /** Slots and queue lengths. */
  ghost predicate SlotsInv(limits: Limits, s: State) {
    && s.active <= limits.concurrency
    && |s.waiting| <= limits.maxQueued
    && (s.waiting != [] ==> s.active == limits.concurrency)
    && s.active == |s.running| + |s.tasks|
  }

  /** Slots are taken strictly in order of arrival: the accepted callers are those granted so far
      followed by those still queued. */
  ghost predicate QueueInv(s: State) {
    && s.arrived == s.granted + s.waiting
    && Distinct(s.arrived)
    && ToSet(s.arrived) !! s.rejected
  }

  /** Every granted caller is exactly one of: to be resumed, running, finished. */
  ghost predicate JobsInv(s: State) {
    && Distinct(s.started + TaskIds(s.tasks))
    && ToSet(s.started + TaskIds(s.tasks)) == ToSet(s.granted)
    && Distinct(s.finished)
    && ToSet(s.started) == s.running + ToSet(s.finished)
    && s.running !! ToSet(s.finished)
  }

  ghost predicate Inv(limits: Limits, s: State) {
    SlotsInv(limits, s) && QueueInv(s) && JobsInv(s)
  }

  lemma DistinctAppend(ids: seq<Id>, id: Id)
    requires Distinct(ids) && id !in ids
    ensures Distinct(ids + [id]) && ToSet(ids + [id]) == ToSet(ids) + {id}
  {
  }

  lemma DistinctParts(a: seq<Id>, b: seq<Id>)
    requires Distinct(a + b)
    ensures Distinct(a) && Distinct(b) && ToSet(a) !! ToSet(b)
    ensures ToSet(a + b) == ToSet(a) + ToSet(b)
  {
    assert forall i :: 0 <= i < |a| ==> a[i] == (a + b)[i];
    assert forall i :: 0 <= i < |b| ==> b[i] == (a + b)[|a| + i];
  }

  lemma MoveToEnd(a: seq<Id>, id: Id, b: seq<Id>)
    requires Distinct(a + ([id] + b))
    ensures Distinct(a + (b + [id])) && ToSet(a + (b + [id])) == ToSet(a + ([id] + b))
  {
    var x, y := a + ([id] + b), a + (b + [id]);
    assert ToSet(x) == ToSet(a) + {id} + ToSet(b);
    assert ToSet(y) == ToSet(a) + {id} + ToSet(b);
    DistinctSize(x);
    DistinctSize(y);
  }

  lemma TaskIdsParts(tasks: seq<Task>, t: Task)
    ensures tasks != [] ==> TaskIds(tasks) == [tasks[0].id] + TaskIds(tasks[1..])
    ensures TaskIds(tasks + [t]) == TaskIds(tasks) + [t.id]
  {
  }

  /** A caller that takes a slot joins the end of the pending jobs. */
  lemma GrantKeepsJobs(s: State, t: State, task: Task)
    requires JobsInv(s) && task.id !in s.granted
    requires t.tasks == s.tasks + [task] && t.granted == s.granted + [task.id]
    requires t.started == s.started && t.running == s.running && t.finished == s.finished
    ensures JobsInv(t)
  {
    TaskIdsParts(s.tasks, task);
    var all := s.started + TaskIds(s.tasks);
    assert t.started + TaskIds(t.tasks) == all + [task.id];
    assert task.id !in ToSet(all);
    DistinctAppend(all, task.id);
  }

  lemma ArriveKeepsInv(limits: Limits, s: State, id: Id)
    requires limits.Valid() && Inv(limits, s) && Enabled(s, Arrive(id))
    ensures Inv(limits, Step(limits, s, Arrive(id)))
  {
    hide JobsInv;
    var r := Step(limits, s, Arrive(id));
    match EntryFor(limits, s.active, s.waiting)
    case QueueFull =>
      JobsUnchanged(s, r);
    case Granted =>
      DistinctAppend(s.arrived, id);
      assert s.arrived == s.granted;
      GrantKeepsJobs(s, r, InRun(id));
    case Queued =>
      DistinctAppend(s.arrived, id);
      assert r.granted + r.waiting == s.arrived + [id];
      JobsUnchanged(s, r);
  }

  lemma JobsUnchanged(s: State, t: State)
    requires JobsInv(s)
    requires t.tasks == s.tasks && t.granted == s.granted && t.started == s.started
    requires t.running == s.running && t.finished == s.finished
    ensures JobsInv(t)
  {
  }

  lemma ResumeKeepsJobs(s: State, t: State)
    requires JobsInv(s) && s.tasks != []
    requires t.tasks == s.tasks[1..] + [InRun(s.tasks[0].id)] && t.granted == s.granted
    requires t.started == s.started && t.running == s.running && t.finished == s.finished
    ensures JobsInv(t)
  {
    var id, rest := s.tasks[0].id, TaskIds(s.tasks[1..]);
    TaskIdsParts(s.tasks, s.tasks[0]);
    TaskIdsParts(s.tasks[1..], InRun(id));
    MoveToEnd(s.started, id, rest);
  }

  lemma StartKeepsJobs(s: State, t: State)
    requires JobsInv(s) && s.tasks != []
    requires t.tasks == s.tasks[1..] && t.granted == s.granted && t.finished == s.finished
    requires t.started == s.started + [s.tasks[0].id] && t.running == s.running + {s.tasks[0].id}
    ensures JobsInv(t) && s.tasks[0].id !in s.running
  {
    var id, rest := s.tasks[0].id, TaskIds(s.tasks[1..]);
    TaskIdsParts(s.tasks, s.tasks[0]);
    assert t.started + TaskIds(t.tasks) == s.started + ([id] + rest);
    DistinctParts(s.started, [id] + rest);
    assert ([id] + rest)[0] == id;
    assert id in ToSet([id] + rest);
    assert ToSet(t.started) == ToSet(s.started) + {id};
  }

  lemma TickKeepsInv(limits: Limits, s: State)
    requires Inv(limits, s) && Enabled(s, Tick)
    ensures Inv(limits, Step(limits, s, Tick))
  {
    hide JobsInv, Distinct, ToSet;
    var r := Step(limits, s, Tick);
    if s.tasks[0].InRun? {
      StartKeepsJobs(s, r);
    } else {
      ResumeKeepsJobs(s, r);
    }
  }

  /** A job that settles leaves the running set for good. */
  lemma FinishKeepsJobs(s: State, t: State, id: Id)
    requires JobsInv(s) && id in s.running
    requires t.tasks == s.tasks && t.granted == s.granted && t.started == s.started
    requires t.running == s.running - {id} && t.finished == s.finished + [id]
    ensures JobsInv(t)
  {
    assert id !in ToSet(s.finished);
    DistinctAppend(s.finished, id);
  }

  lemma SettleKeepsInv(limits: Limits, s: State, id: Id)
    requires Inv(limits, s) && Enabled(s, Settle(id))
    ensures Inv(limits, Step(limits, s, Settle(id)))
    ensures s.active > 0
  {
    hide JobsInv;
    var r := Step(limits, s, Settle(id));
    assert |s.running - {id}| == |s.running| - 1;
    var t := s.(running := s.running - {id}, finished := s.finished + [id]);
    FinishKeepsJobs(s, t, id);
    if s.waiting == [] {
      JobsUnchanged(t, r);
    } else {
      var next := s.waiting[0];
      assert s.granted + s.waiting == (s.granted + [next]) + s.waiting[1..];
      DistinctParts(s.granted, s.waiting);
      assert next in ToSet(s.waiting);
      GrantKeepsJobs(t, r, InAcquire(next));
    }
  }

  lemma StepKeepsInv(limits: Limits, s: State, e: Event)
    requires limits.Valid() && Inv(limits, s)
    ensures Inv(limits, Step(limits, s, e))
  {
    hide Inv, EnabledStep;
    if Enabled(s, e) {
      match e
      case Arrive(id) => ArriveKeepsInv(limits, s, id);
      case Tick => TickKeepsInv(limits, s);
      case Settle(id) => SettleKeepsInv(limits, s, id);
    }
  }

  lemma InitialInv(limits: Limits)
    ensures Inv(limits, INITIAL)
  {
    assert TaskIds([]) == [];
  }

  /** Every interleaving keeps the invariant. */
  lemma {:induction false} RunKeepsInv(limits: Limits, s: State, events: seq<Event>)
    requires limits.Valid() && Inv(limits, s)
    ensures Inv(limits, RunFrom(limits, s, events))
  {
    if events != [] {
      RunKeepsInv(limits, s, events[..|events| - 1]);
      StepKeepsInv(limits, RunFrom(limits, s, events[..|events| - 1]), events[|events| - 1]);
    }
  }

  lemma SettleHoldsSlot(limits: Limits, s: State, id: Id)
    requires Inv(limits, s) && id in s.running
    ensures s.active > 0
  {
    assert |s.running - {id}| == |s.running| - 1;
  }

  /** The gate object, driven by the calls that the events of a run make, goes through the gate states
      of the protocol. */
  method Replay(limits: Limits, events: seq<Event>) returns (gate: PropertyExportRunner, s: State)
    requires limits.Valid()
    ensures fresh(gate) && gate.limits == limits
    ensures s == Run(limits, events) && gate.active == s.active && gate.waiting == s.waiting
  {
    hide Inv;
    gate := new PropertyExportRunner(limits);
    s := INITIAL;
    InitialInv(limits);
    for n := 0 to |events|
      invariant fresh(gate) && gate.limits == limits
      invariant s == Run(limits, events[..n]) && Inv(limits, s)
      invariant gate.active == s.active && gate.waiting == s.waiting
    {
      var e := events[n];
      assert events[..n + 1][..n] == events[..n];
      if Enabled(s, e) {
        match e {
          case Arrive(id) =>
            var _ := gate.Enter(id);
          case Tick =>
          case Settle(id) =>
            SettleHoldsSlot(limits, s, id);
            var _ := gate.Release();
        }
      }
      StepKeepsInv(limits, s, e);
      s := Step(limits, s, e);
    }
    assert events[..|events|] == events;
  }

  /** An unknown caller is rejected exactly when the queue is full, and otherwise accepted: at once into a
      free slot, exactly when there is one, or at the end of the queue. Nobody else is affected. */
  lemma ArrivalExact(limits: Limits, s: State, id: Id)
    requires Inv(limits, s) && id !in s.arrived && id !in s.rejected
    ensures
      var r := Step(limits, s, Arrive(id));
      && (if |s.waiting| == limits.maxQueued then r == s.(rejected := s.rejected + {id})
          else r.arrived == s.arrived + [id] && r.rejected == s.rejected)
      && (|s.waiting| < limits.maxQueued && s.active < limits.concurrency ==>
            r.granted == s.granted + [id] && r.active == s.active + 1
            && r.tasks == s.tasks + [InRun(id)] && r.waiting == s.waiting)
      && (|s.waiting| < limits.maxQueued && s.active == limits.concurrency ==>
            r.waiting == s.waiting + [id] && r.granted == s.granted && r.active == s.active && r.tasks == s.tasks)
      && r.running == s.running && r.started == s.started && r.finished == s.finished
  {
    hide JobsInv, QueueInv;
  }

  // ---------------------------------------------------------------- slots are conserved

  /** Slots taken are slots held plus slots given back, each job that settles gave back the one slot it
      took, and no rejected caller ever takes a slot or starts. */
  lemma SlotsConserved(limits: Limits, s: State)
    requires Inv(limits, s)
    ensures |s.granted| == s.active + |s.finished|
    ensures Distinct(s.finished) && ToSet(s.finished) <= ToSet(s.granted)
    ensures s.rejected !! ToSet(s.granted) && s.rejected !! ToSet(s.started)
  {
    DistinctParts(s.granted, s.waiting);
    DistinctParts(s.started, TaskIds(s.tasks));
    DistinctSize(s.granted);
    DistinctSize(s.started + TaskIds(s.tasks));
    DistinctSize(s.started);
    DistinctSize(s.finished);
    assert |s.running + ToSet(s.finished)| == |s.running| + |ToSet(s.finished)|;
  }

  // ---------------------------------------------------------------- progress

  /** As long as some accepted job has not finished, a continuation is pending or a job is running. */
  lemma NoDeadlock(limits: Limits, s: State, id: Id)
    requires limits.Valid() && Inv(limits, s) && id in s.arrived && id !in s.finished
    ensures s.tasks != [] || s.running != {}
  {
    if s.waiting == [] && s.tasks == [] {
      assert s.started + TaskIds(s.tasks) == s.started;
      assert ToSet(s.granted) == ToSet(s.started) && id in ToSet(s.granted);
      assert id !in ToSet(s.finished);
    } else if s.tasks == [] && s.running == {} {
      assert false;
    }
  }

  lemma StepExtends(limits: Limits, s: State, e: Event)
    ensures
      var r := Step(limits, s, e);
      s.arrived <= r.arrived && s.finished <= r.finished
  {
  }

  lemma {:induction false} RunExtends(limits: Limits, s: State, events: seq<Event>)
    ensures
      var r := RunFrom(limits, s, events);
      s.arrived <= r.arrived && s.finished <= r.finished
  {
    if events != [] {
      RunExtends(limits, s, events[..|events| - 1]);
      StepExtends(limits, RunFrom(limits, s, events[..|events| - 1]), events[|events| - 1]);
    }
  }

  lemma GrantedIsPrefix(limits: Limits, s: State)
    requires Inv(limits, s)
    ensures s.arrived == s.granted + s.waiting && |s.granted| == s.active + |s.finished|
    ensures s.active <= limits.concurrency && (s.waiting != [] ==> s.active == limits.concurrency)
  {
    SlotsConserved(limits, s);
  }

  /** The caller at position `p` of the queue holds a slot once `p + 1` more jobs have settled, and until
      then its position drops by one with each of them. */
  lemma {:induction false} BoundedWait(limits: Limits, s: State, events: seq<Event>, p: nat)
    requires limits.Valid() && Inv(limits, s) && p < |s.waiting|
    ensures
      var t := RunFrom(limits, s, events);
      var releases := |t.finished| - |s.finished|;
      && releases >= 0
      && (releases > p ==> s.waiting[p] in t.granted)
      && (releases <= p ==> |t.waiting| > p - releases && t.waiting[p - releases] == s.waiting[p])
  {
    hide Inv, RunFrom;
    var t := RunFrom(limits, s, events);
    RunKeepsInv(limits, s, events);
    RunExtends(limits, s, events);
    GrantedIsPrefix(limits, s);
    GrantedIsPrefix(limits, t);
    var place := |s.granted| + p;
    assert s.arrived[place] == s.waiting[p] == t.arrived[place];
    if |t.finished| - |s.finished| <= p {
      assert t.waiting[place - |t.granted|] == s.waiting[p];
    } else if t.waiting == [] {
      assert t.granted == t.arrived;
    } else {
      assert t.granted[place] == s.waiting[p];
    }
  }

  /** Ticks that the pending continuations still need before all of their jobs have started. */
  function TicksNeeded(tasks: seq<Task>): nat {
    if tasks == [] then 0
    else TicksNeeded(tasks[..|tasks| - 1]) + if tasks[|tasks| - 1].InAcquire? then 2 else 1
  }

  lemma {:induction false} TicksNeededHead(tasks: seq<Task>)
    requires tasks != []
    ensures TicksNeeded(tasks) == TicksNeeded(tasks[1..]) + if tasks[0].InAcquire? then 2 else 1
  {
    if |tasks| > 1 {
      var init := tasks[..|tasks| - 1];
      TicksNeededHead(init);
      assert init[1..] == tasks[1..][..|tasks| - 2];
    }
  }

  /** Each tick brings the pending continuations one step closer to having started. */
  lemma TickProgress(limits: Limits, s: State)
    requires Enabled(s, Tick)
    ensures TicksNeeded(Step(limits, s, Tick).tasks) == TicksNeeded(s.tasks) - 1
  {
    TicksNeededHead(s.tasks);
    if s.tasks[0].InAcquire? {
      assert (s.tasks[1..] + [InRun(s.tasks[0].id)])[..|s.tasks| - 1] == s.tasks[1..];
    }
  }

  function Ticks(events: seq<Event>): nat {
    if events == [] then 0 else Ticks(events[..|events| - 1]) + if events[|events| - 1] == Tick then 1 else 0
  }

  /** The caller has started, or holds a slot and will have started after at most `n` further ticks. */
  predicate StartsWithin(limits: Limits, s: State, id: Id, n: int) {
    || id in s.started
    || exists i :: 0 <= i < |s.tasks| && s.tasks[i].id == id
                   && i + 1 + (if s.tasks[i].InAcquire? then limits.concurrency else 0) <= n
  }

  /** No event delays a granted caller, and every tick brings it closer to its start: what joins the
      microtask queue joins behind it, and its own second microtask joins a queue of at most
      `concurrency` entries. */
  lemma StepBringsStart(limits: Limits, s: State, e: Event, id: Id, n: int)
    requires limits.Valid() && Inv(limits, s) && StartsWithin(limits, s, id, n)
    ensures StartsWithin(limits, Step(limits, s, e), id, if e == Tick then n - 1 else n)
  {
    if id !in s.started {
      var i :| 0 <= i < |s.tasks| && s.tasks[i].id == id
               && i + 1 + (if s.tasks[i].InAcquire? then limits.concurrency else 0) <= n;
      var r := Step(limits, s, e);
      match e
      case Arrive(_) =>
        assert r.tasks[i] == s.tasks[i];
      case Settle(_) =>
        assert r.tasks[i] == s.tasks[i];
      case Tick =>
        if i > 0 {
          assert r.tasks[i - 1] == s.tasks[i];
        } else if s.tasks[0].InAcquire? {
          assert r.tasks[|s.tasks| - 1] == InRun(id) && |s.tasks| <= limits.concurrency;
        }
    }
  }

  lemma {:induction false} RunBringsStart(limits: Limits, s: State, events: seq<Event>, id: Id, n: int)
    requires limits.Valid() && Inv(limits, s) && StartsWithin(limits, s, id, n)
    ensures StartsWithin(limits, RunFrom(limits, s, events), id, n - Ticks(events))
  {
    if events != [] {
      hide Step, Inv, StartsWithin;
      var init := events[..|events| - 1];
      RunBringsStart(limits, s, init, id, n);
      RunKeepsInv(limits, s, init);
      StepBringsStart(limits, RunFrom(limits, s, init), events[|events| - 1], id, n - Ticks(init));
    }
  }

  /** A caller that holds a slot has started after 2 * concurrency ticks, whatever is interleaved. */
  lemma GrantedStarts(limits: Limits, s: State, events: seq<Event>, id: Id)
    requires limits.Valid() && Inv(limits, s) && id in s.granted
    requires Ticks(events) >= 2 * limits.concurrency
    ensures id in RunFrom(limits, s, events).started
  {
    assert id in ToSet(s.granted);
    if id !in s.started {
      assert id in s.started + TaskIds(s.tasks);
      var i :| 0 <= i < |s.tasks| && TaskIds(s.tasks)[i] == id;
      assert i < limits.concurrency;
    }
    assert StartsWithin(limits, s, id, 2 * limits.concurrency);
    RunBringsStart(limits, s, events, id, 2 * limits.concurrency);
  }

  /** The waiter at position `p` has started once `p + 1` jobs have settled and 2 * concurrency further
      ticks have happened, whatever else arrives, settles or resumes in between. */
  lemma WaiterStarts(limits: Limits, s: State, events: seq<Event>, later: seq<Event>, p: nat)
    requires limits.Valid() && Inv(limits, s) && p < |s.waiting|
    requires |RunFrom(limits, s, events).finished| - |s.finished| > p
    requires Ticks(later) >= 2 * limits.concurrency
    ensures s.waiting[p] in RunFrom(limits, s, events + later).started
  {
    hide Inv, RunFrom, Ticks;
    BoundedWait(limits, s, events, p);
    RunKeepsInv(limits, s, events);
    RunsCompose(limits, s, events, later);
    GrantedStarts(limits, RunFrom(limits, s, events), later, s.waiting[p]);
  }

  lemma {:induction false} RunsCompose(limits: Limits, s: State, a: seq<Event>, b: seq<Event>)
    ensures RunFrom(limits, s, a + b) == RunFrom(limits, RunFrom(limits, s, a), b)
  {
    if b == [] {
      assert a + b == a;
    } else {
      RunsCompose(limits, s, a, b[..|b| - 1]);
      assert (a + b)[..|a + b| - 1] == a + b[..|b| - 1];
    }
  }

  /** Without a slot to give, every accepted caller queues for ever. A limit that is not a number makes
      the comparison with it false, as the limit 0 does. */
  lemma {:induction false} NoSlotNoStart(limits: Limits, events: seq<Event>)
    requires limits.concurrency == 0
    ensures
      var s := Run(limits, events);
      s.granted == [] && s.started == [] && s.arrived == s.waiting && s.tasks == [] && s.running == {}
  {
    if events != [] {
      NoSlotNoStart(limits, events[..|events| - 1]);
    }
  }

  // ---------------------------------------------------------------- the order of starts

  function InRunIds(tasks: seq<Task>): seq<Id> {
    if tasks == [] then []
    else InRunIds(tasks[..|tasks| - 1]) + if tasks[|tasks| - 1].InRun? then [tasks[|tasks| - 1].id] else []
  }

  function InAcquireIds(tasks: seq<Task>): seq<Id> {
    if tasks == [] then []
    else InAcquireIds(tasks[..|tasks| - 1]) + if tasks[|tasks| - 1].InAcquire? then [tasks[|tasks| - 1].id] else []
  }

  lemma {:induction false} InRunIdsHead(tasks: seq<Task>)
    requires tasks != []
    ensures InRunIds(tasks) == (if tasks[0].InRun? then [tasks[0].id] else []) + InRunIds(tasks[1..])
  {
    if |tasks| > 1 {
      InRunIdsHead(tasks[..|tasks| - 1]);
      assert tasks[..|tasks| - 1][1..] == tasks[1..][..|tasks| - 2];
    } else {
      assert tasks[..0] == [] && tasks[1..] == [];
    }
  }

  lemma {:induction false} InAcquireIdsHead(tasks: seq<Task>)
    requires tasks != []
    ensures InAcquireIds(tasks) == (if tasks[0].InAcquire? then [tasks[0].id] else []) + InAcquireIds(tasks[1..])
  {
    if |tasks| > 1 {
      InAcquireIdsHead(tasks[..|tasks| - 1]);
      assert tasks[..|tasks| - 1][1..] == tasks[1..][..|tasks| - 2];
    } else {
      assert tasks[..0] == [] && tasks[1..] == [];
    }
  }

  lemma TaskIdsLast(tasks: seq<Task>, t: Task)
    ensures InRunIds(tasks + [t]) == InRunIds(tasks) + if t.InRun? then [t.id] else []
    ensures InAcquireIds(tasks + [t]) == InAcquireIds(tasks) + if t.InAcquire? then [t.id] else []
  {
    assert (tasks + [t])[..|tasks|] == tasks;
  }

  /** Jobs in the order in which they started or, if nobody else arrived, would start. */
  function StartOrder(s: State): seq<Id> {
    s.started + InRunIds(s.tasks) + InAcquireIds(s.tasks)
  }

  /** An arrival that takes a free slot while a handed-over caller still awaits its first resumption. */
  predicate Overtakes(limits: Limits, s: State, e: Event) {
    && e.Arrive? && Enabled(s, e)
    && EntryFor(limits, s.active, s.waiting) == Granted
    && InAcquireIds(s.tasks) != []
  }

  /** Running a continuation does not change the order of starts. */
  lemma TickKeepsStartOrder(limits: Limits, s: State)
    ensures StartOrder(Step(limits, s, Tick)) == StartOrder(s)
  {
    if s.tasks != [] {
      InRunIdsHead(s.tasks);
      InAcquireIdsHead(s.tasks);
      var id := s.tasks[0].id;
      if s.tasks[0].InAcquire? {
        TaskIdsLast(s.tasks[1..], InRun(id));
      }
    }
  }

  /** A hand-over appends to the order of starts. */
  lemma SettleExtendsStartOrder(limits: Limits, s: State, id: Id)
    requires Enabled(s, Settle(id))
    ensures
      var r := Step(limits, s, Settle(id));
      StartOrder(r) == StartOrder(s) + (if s.waiting == [] then [] else [s.waiting[0]])
  {
    if s.waiting != [] {
      TaskIdsLast(s.tasks, InAcquire(s.waiting[0]));
    }
  }

  /** A caller that finds a free slot is put in front of the handed-over callers that still await
      their first resumption. */
  lemma GrantedStartOrder(limits: Limits, s: State, id: Id)
    requires Enabled(s, Arrive(id)) && EntryFor(limits, s.active, s.waiting) == Granted
    ensures StartOrder(Step(limits, s, Arrive(id))) == s.started + InRunIds(s.tasks) + [id] + InAcquireIds(s.tasks)
  {
    TaskIdsLast(s.tasks, InRun(id));
  }

  lemma {:induction false} InAcquireIdsKnown(tasks: seq<Task>)
    ensures forall id :: id in InAcquireIds(tasks) ==> id in TaskIds(tasks)
  {
    if tasks != [] {
      var init := tasks[..|tasks| - 1];
      InAcquireIdsKnown(init);
      assert TaskIds(tasks) == TaskIds(init) + [tasks[|tasks| - 1].id];
    }
  }

  /** Starts follow the order of slots after a step exactly when they did before and the step is no
      overtaking arrival. */
  lemma OrderStepExact(limits: Limits, s: State, e: Event)
    requires limits.Valid() && Inv(limits, s)
    ensures StartOrder(Step(limits, s, e)) == Step(limits, s, e).granted
       <==> StartOrder(s) == s.granted && !Overtakes(limits, s, e)
  {
    if !Enabled(s, e) {
      return;
    }
    var r := Step(limits, s, e);
    var order, granted := StartOrder(s), s.granted;
    match e
    case Tick =>
      TickKeepsStartOrder(limits, s);
    case Settle(id) =>
      SettleExtendsStartOrder(limits, s, id);
      if s.waiting == [] {
        assert order + [] == order;
      } else {
        AppendInjective(order, granted, s.waiting[0]);
      }
    case Arrive(id) =>
      if EntryFor(limits, s.active, s.waiting) == Granted {
        GrantedStartOrder(limits, s, id);
        if InAcquireIds(s.tasks) == [] {
          assert StartOrder(r) == order + [id];
          AppendInjective(order, granted, id);
        } else {
          OvertakingBreaksOrder(limits, s, id);
        }
      }
  }

  lemma OvertakingBreaksOrder(limits: Limits, s: State, id: Id)
    requires Inv(limits, s) && Overtakes(limits, s, Arrive(id))
    ensures StartOrder(Step(limits, s, Arrive(id))) != Step(limits, s, Arrive(id)).granted
  {
    var r := Step(limits, s, Arrive(id));
    GrantedStartOrder(limits, s, id);
    InAcquireIdsKnown(s.tasks);
    var later := InAcquireIds(s.tasks);
    var last := later[|later| - 1];
    assert last in s.started + TaskIds(s.tasks);
    assert last in ToSet(s.granted) && last in s.arrived;
    assert StartOrder(r)[|StartOrder(r)| - 1] == last;
    assert r.granted[|r.granted| - 1] == id;
  }

  lemma AppendInjective(a: seq<Id>, b: seq<Id>, id: Id)
    ensures a + [id] == b + [id] <==> a == b
  {
    if a + [id] == b + [id] {
      assert a == (a + [id])[..|a|] == (b + [id])[..|b|] == b;
    }
  }

  /** The run up to event `i` contains no overtaking arrival. */
  ghost predicate NoOvertaking(limits: Limits, events: seq<Event>) {
    forall i :: 0 <= i < |events| ==> !Overtakes(limits, Run(limits, events[..i]), events[i])
  }

  lemma NoOvertakingStep(limits: Limits, events: seq<Event>)
    requires events != []
    ensures
      var init := events[..|events| - 1];
      NoOvertaking(limits, events) <==>
      NoOvertaking(limits, init) && !Overtakes(limits, Run(limits, init), events[|events| - 1])
  {
    hide Overtakes, Run;
    var init := events[..|events| - 1];
    assert forall i :: 0 <= i < |init| ==> init[..i] == events[..i] && init[i] == events[i];
    if NoOvertaking(limits, init) && !Overtakes(limits, Run(limits, init), events[|events| - 1]) {
      forall i | 0 <= i < |events|
        ensures !Overtakes(limits, Run(limits, events[..i]), events[i])
      {
        if i < |init| {
          assert !Overtakes(limits, Run(limits, init[..i]), init[i]);
        }
      }
    }
    if NoOvertaking(limits, events) {
      forall i | 0 <= i < |init|
        ensures !Overtakes(limits, Run(limits, init[..i]), init[i])
      {
        assert !Overtakes(limits, Run(limits, events[..i]), events[i]);
      }
    }
  }

  /** Slots are always taken in order of arrival. Jobs also start in that order exactly in the runs
      without an overtaking arrival. */
  lemma {:induction false} StartsInOrderExactly(limits: Limits, events: seq<Event>)
    requires limits.Valid()
    ensures
      var s := Run(limits, events);
      && s.arrived == s.granted + s.waiting
      && s.started <= StartOrder(s)
      && (StartOrder(s) == s.granted <==> NoOvertaking(limits, events))
  {
    InitialInv(limits);
    RunKeepsInv(limits, INITIAL, events);
    var s := Run(limits, events);
    assert s.started + (InRunIds(s.tasks) + InAcquireIds(s.tasks)) == StartOrder(s);
    if events != [] {
      hide StartOrder, Step, Inv, NoOvertaking, Overtakes;
      var init := events[..|events| - 1];
      StartsInOrderExactly(limits, init);
      RunKeepsInv(limits, INITIAL, init);
      OrderStepExact(limits, Run(limits, init), events[|events| - 1]);
      NoOvertakingStep(limits, events);
    }
  }

  /** With one slot nobody can overtake: a handed-over caller holds the only slot. */
  lemma OneSlotKeepsOrder(limits: Limits, s: State, e: Event)
    requires limits.concurrency == 1 && Inv(limits, s)
    ensures !Overtakes(limits, s, e)
  {
    if s.tasks == [] {
      assert InAcquireIds(s.tasks) == [];
    }
  }

  /** Callers 0 and 1 run, 2 waits; 0 settles, which hands its slot to 2. */
  const HANDED_OVER := State(2, [], [InAcquire(2)], {1}, [0, 1, 2], [0, 1, 2], [0, 1], [0], {})

  lemma HandedOverReached()
    ensures Run(Limits(2, 20), [Arrive(0), Arrive(1), Tick, Tick, Arrive(2), Settle(0)]) == HANDED_OVER
  {
    var limits := Limits(2, 20);
    var s1 := Step(limits, INITIAL, Arrive(0));
    assert s1 == State(1, [], [InRun(0)], {}, [0], [0], [], [], {});
    var s2 := Step(limits, s1, Arrive(1));
    assert s2 == State(2, [], [InRun(0), InRun(1)], {}, [0, 1], [0, 1], [], [], {});
    var s3 := Step(limits, s2, Tick);
    assert s3 == State(2, [], [InRun(1)], {0}, [0, 1], [0, 1], [0], [], {});
    var s4 := Step(limits, s3, Tick);
    assert s4 == State(2, [], [], {0, 1}, [0, 1], [0, 1], [0, 1], [], {});
    var s5 := Step(limits, s4, Arrive(2));
    assert s5 == s4.(waiting := [2], arrived := [0, 1, 2]);
    assert {0, 1} - {0} == {1};
    assert Step(limits, s5, Settle(0)) == HANDED_OVER;
    assert [Arrive(0)][..0] == [];
    assert Run(limits, [Arrive(0)]) == s1;
    assert [Arrive(0), Arrive(1)][..1] == [Arrive(0)];
    assert Run(limits, [Arrive(0), Arrive(1)]) == s2;
    assert [Arrive(0), Arrive(1), Tick][..2] == [Arrive(0), Arrive(1)];
    assert Run(limits, [Arrive(0), Arrive(1), Tick]) == s3;
    assert [Arrive(0), Arrive(1), Tick, Tick][..3] == [Arrive(0), Arrive(1), Tick];
    assert Run(limits, [Arrive(0), Arrive(1), Tick, Tick]) == s4;
    assert [Arrive(0), Arrive(1), Tick, Tick, Arrive(2)][..4] == [Arrive(0), Arrive(1), Tick, Tick];
    assert Run(limits, [Arrive(0), Arrive(1), Tick, Tick, Arrive(2)]) == s5;
    assert [Arrive(0), Arrive(1), Tick, Tick, Arrive(2), Settle(0)][..5]
        == [Arrive(0), Arrive(1), Tick, Tick, Arrive(2)];
  }

  /** With two slots a later caller can start before an earlier one: after the hand-over to 2, caller 1
      settles and frees a slot, and 3 takes it before 2 is resumed for the first time. */
  lemma TwoSlotsCanOvertake()
    ensures
      var s := RunFrom(Limits(2, 20), HANDED_OVER, [Settle(1), Arrive(3), Tick, Tick]);
      s.arrived == [0, 1, 2, 3] && s.started == [0, 1, 3] && s.tasks == [InRun(2)]
    ensures Overtakes(Limits(2, 20), RunFrom(Limits(2, 20), HANDED_OVER, [Settle(1)]), Arrive(3))
  {
    var limits := Limits(2, 20);
    var s1 := Step(limits, HANDED_OVER, Settle(1));
    assert s1 == State(1, [], [InAcquire(2)], {}, [0, 1, 2], [0, 1, 2], [0, 1], [0, 1], {});
    var s2 := Step(limits, s1, Arrive(3));
    assert s2 == State(2, [], [InAcquire(2), InRun(3)], {}, [0, 1, 2, 3], [0, 1, 2, 3], [0, 1], [0, 1], {});
    var s3 := Step(limits, s2, Tick);
    assert s3 == s2.(tasks := [InRun(3), InRun(2)]);
    var s4 := Step(limits, s3, Tick);
    assert [Settle(1)][..0] == [];
    assert RunFrom(limits, HANDED_OVER, [Settle(1)]) == s1;
    assert [Settle(1), Arrive(3)][..1] == [Settle(1)];
    assert RunFrom(limits, HANDED_OVER, [Settle(1), Arrive(3)]) == s2;
    assert [Settle(1), Arrive(3), Tick][..2] == [Settle(1), Arrive(3)];
    assert RunFrom(limits, HANDED_OVER, [Settle(1), Arrive(3), Tick]) == s3;
    assert [Settle(1), Arrive(3), Tick, Tick][..3] == [Settle(1), Arrive(3), Tick];
    assert InAcquireIds(s1.tasks) == InAcquireIds([]) + [2];
  }
}
