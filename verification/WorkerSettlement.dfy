/** The promise around the export worker thread: timer, messages, errors and exit race, and the flag
    `settled` lets only the first deciding event through. */
module WorkerSettlement {
  import opened Basics

  datatype WorkerEvent = TimedOut | Message(ok: bool) | Failed | Exited(code: int)

  datatype Outcome = Resolved | Rejected

  /** What an event would settle the promise with; a clean exit decides nothing. */
  function Decision(e: WorkerEvent): Option<Outcome> {
    match e
    case TimedOut => Some(Rejected)
    case Message(ok) => Some(if ok then Resolved else Rejected)
    case Failed => Some(Rejected)
    case Exited(code) => if code != 0 then Some(Rejected) else None
  }

  /** Index of the first deciding event, or the number of events. */
  function FirstDeciding(events: seq<WorkerEvent>): (n: nat)
    ensures n <= |events|
    ensures forall i :: 0 <= i < n ==> Decision(events[i]) == None
    ensures n < |events| ==> Decision(events[n]).Some?
  {
    if events == [] then 0
    else
      var n := FirstDeciding(events[..|events| - 1]);
      assert forall i :: 0 <= i < |events| - 1 ==> events[..|events| - 1][i] == events[i];
      if n < |events| - 1 || Decision(events[|events| - 1]).Some? then n else n + 1
  }

  class WorkerPromise {
    var settled: bool
    var outcome: Option<Outcome>
    /** How often resolve or reject was called. */
    var settlements: nat
    var terminated: bool

    constructor ()
      ensures !settled && outcome == None && settlements == 0 && !terminated
    {
      settled, outcome, settlements, terminated := false, None, 0, false;
    }

    method Settle(o: Outcome)
      modifies this
      ensures old(settled) ==> outcome == old(outcome) && settlements == old(settlements)
      ensures !old(settled) ==> outcome == Some(o) && settlements == old(settlements) + 1
      ensures settled && terminated == old(terminated)
    {
      if settled {
        return;
      }
      settled := true;
      outcome, settlements := Some(o), settlements + 1;
    }

    method Handle(e: WorkerEvent)
      modifies this
      ensures old(settled) || Decision(e) == None ==>
                settled == old(settled) && outcome == old(outcome)
                && settlements == old(settlements) && terminated == old(terminated)
      ensures !old(settled) && Decision(e).Some? ==>
                settled && outcome == Decision(e) && settlements == old(settlements) + 1
                && terminated == (old(terminated) || e == TimedOut)
    {
      match e {
        case TimedOut =>
          if settled {
            return;
          }
          settled, terminated := true, true;
          outcome, settlements := Some(Rejected), settlements + 1;
        case Message(ok) =>
          Settle(if ok then Resolved else Rejected);
        case Failed =>
          Settle(Rejected);
        case Exited(code) =>
          if code != 0 {
            Settle(Rejected);
          }
      }
    }
  }

  /** Whatever events arrive in whatever order, the promise settles at most once, with what the first
      deciding event says; the worker is terminated exactly when that event is the timeout. */
  method HandleAll(events: seq<WorkerEvent>) returns (outcome: Option<Outcome>, settlements: nat, terminated: bool)
    ensures
      var n := FirstDeciding(events);
      if n == |events| then outcome == None && settlements == 0 && !terminated
      else outcome == Decision(events[n]) && settlements == 1 && terminated == (events[n] == TimedOut)
    ensures outcome == None <==> forall i :: 0 <= i < |events| ==> events[i] == Exited(0)
    ensures outcome == Some(Resolved) <==>
            exists n :: 0 <= n < |events| && events[n] == Message(true) && forall i :: 0 <= i < n ==>
                events[i] == Exited(0)
    ensures terminated <==>
            exists n :: 0 <= n < |events| && events[n] == TimedOut && forall i :: 0 <= i < n ==> events[i] == Exited(0)
  {
    var p := new WorkerPromise();
    for i := 0 to |events|
      invariant
        var n := FirstDeciding(events[..i]);
        p.settled == (n < i) &&
        if n == i then p.outcome == None && p.settlements == 0 && !p.terminated
        else p.outcome == Decision(events[n]) && p.settlements == 1 && p.terminated == (events[n] == TimedOut)
    {
      assert events[..i + 1][..i] == events[..i];
      p.Handle(events[i]);
    }
    assert events[..|events|] == events;
    outcome, settlements, terminated := p.outcome, p.settlements, p.terminated;
  }
}
