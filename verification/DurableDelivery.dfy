/** At-most-once delivery of model messages across crashes (src/durable-delivery.ts). */
module DurableDelivery {
  import opened Options
  import opened Sequences

  datatype Status = Queued | Dispatching | Delivered | Uncertain | Cancelled

  datatype Delivery = Delivery(id: string, status: Status)

  // ---------------------------------------------------------------- the list of pending deliveries

  function StatusOf(pending: seq<Delivery>, id: string): Option<Status> {
    if pending == [] then None else if pending[0].id == id then Some(pending[0].status) else StatusOf(pending[1..], id)
  }

  /** The record with the id, its status changed. */
  function WithStatus(pending: seq<Delivery>, id: string, status: Status): seq<Delivery> {
    if pending == [] then []
    else if pending[0].id == id then [Delivery(id, status)] + pending[1..]
    else [pending[0]] + WithStatus(pending[1..], id, status)
  }

  /** `queueModelDelivery`: a known id is not queued again. */
  function Enqueue(pending: seq<Delivery>, id: string): seq<Delivery> {
    if StatusOf(pending, id).Some? then pending else pending + [Delivery(id, Queued)]
  }

  ghost predicate UniqueIds(pending: seq<Delivery>) {
    forall i, j | 0 <= i < j < |pending| :: pending[i].id != pending[j].id
  }

  lemma {:induction false} StatusAfter(pending: seq<Delivery>, id: string, status: Status, other: string)
    ensures StatusOf(WithStatus(pending, id, status), other)
      == if other == id && StatusOf(pending, id).Some? then Some(status) else StatusOf(pending, other)
  {
    if pending != [] && pending[0].id != id {
      StatusAfter(pending[1..], id, status, other);
    }
  }

  lemma {:induction false} StatusAfterEnqueue(pending: seq<Delivery>, id: string, other: string)
    ensures StatusOf(pending + [Delivery(id, Queued)], other)
      == if StatusOf(pending, other).Some? then StatusOf(pending, other) else if other == id then Some(Queued) else None
  {
    if pending != [] {
      assert (pending + [Delivery(id, Queued)])[1..] == pending[1..] + [Delivery(id, Queued)];
      StatusAfterEnqueue(pending[1..], id, other);
    }
  }

  lemma {:induction false} IdsKept(pending: seq<Delivery>, id: string, status: Status)
    ensures |WithStatus(pending, id, status)| == |pending|
    ensures forall k | 0 <= k < |pending| :: WithStatus(pending, id, status)[k].id == pending[k].id
  {
    if pending != [] && pending[0].id != id {
      IdsKept(pending[1..], id, status);
    }
  }

  lemma {:induction false} Unlisted(pending: seq<Delivery>, id: string)
    requires StatusOf(pending, id).None?
    ensures forall k | 0 <= k < |pending| :: pending[k].id != id
  {
    if pending != [] {
      Unlisted(pending[1..], id);
    }
  }

  lemma EnqueueKeepsIdsUnique(pending: seq<Delivery>, id: string)
    requires UniqueIds(pending)
    ensures UniqueIds(Enqueue(pending, id))
  {
    if StatusOf(pending, id).None? {
      Unlisted(pending, id);
    }
  }

  // ---------------------------------------------------------------- the source's code between its awaits

  /** How a dispatch ends before it begins, or that it begins. */
  datatype Opening = AlreadyDelivered | WasCancelled | RefusedUncertain | Begun

  function Open(status: Status): Opening {
    match status
    case Delivered => AlreadyDelivered
    case Cancelled => WasCancelled
    case Dispatching => RefusedUncertain
    case Uncertain => RefusedUncertain
    case Queued => Begun
  }

  /** What the `deliver` call does. */
  datatype Outcome = Accepted | Declined | Threw

  function StatusFor(outcome: Outcome): Status {
    match outcome
    case Accepted => Delivered
    case Declined => Queued
    case Threw => Uncertain
  }

  class ReviewGateState {
    var pendingModelDeliveries: seq<Delivery>

    constructor ()
      ensures pendingModelDeliveries == []
    {
      pendingModelDeliveries := [];
    }

    method QueueModelDelivery(id: string)
      requires UniqueIds(pendingModelDeliveries)
      modifies this
      ensures pendingModelDeliveries == Enqueue(old(pendingModelDeliveries), id) && UniqueIds(pendingModelDeliveries)
      ensures StatusOf(pendingModelDeliveries, id).Some?
    {
      EnqueueKeepsIdsUnique(pendingModelDeliveries, id);
      StatusAfterEnqueue(pendingModelDeliveries, id, id);
      if StatusOf(pendingModelDeliveries, id).Some? {
        return;
      }
      pendingModelDeliveries := pendingModelDeliveries + [Delivery(id, Queued)];
    }

    /** The part of `dispatchModelDelivery` before its first await. */
    method BeginDispatch(id: string) returns (opening: Opening)
      requires StatusOf(pendingModelDeliveries, id).Some?
      modifies this
      ensures opening == Open(StatusOf(old(pendingModelDeliveries), id).value)
      ensures pendingModelDeliveries ==
        if opening.Begun? then WithStatus(old(pendingModelDeliveries), id, Dispatching) else old(pendingModelDeliveries)
    {
      var status := StatusOf(pendingModelDeliveries, id).value;
      if status == Delivered {
        return AlreadyDelivered;
      }
      if status == Cancelled {
        return WasCancelled;
      }
      if status == Dispatching || status == Uncertain {
        return RefusedUncertain;
      }
      pendingModelDeliveries := WithStatus(pendingModelDeliveries, id, Dispatching);
      opening := Begun;
    }
  }

  // ---------------------------------------------------------------- the protocol

  datatype Event = Started(id: string) | Refused(id: string)

  /** Where a dispatch waits: for its first save, for `deliver`, or for its last save. */
  datatype Phase = Opening_ | Delivering | Settling | Failing

  datatype Dispatcher = Dispatcher(id: string, phase: Phase, saved: bool)

  datatype System = System(
    memory: seq<Delivery>, durable: seq<Delivery>, dispatchers: map<nat, Dispatcher>, log: seq<Event>)

  datatype Step =
    | Queue(id: string)
    | Begin(d: nat, id: string)
    | Save
    | PersistResolves(d: nat)
    | PersistRejects(d: nat)
    | DeliverEnds(d: nat, outcome: Outcome)
    | Cancel(id: string)
    | MarkUncertain(id: string)
    | FindReceipt(id: string)
    | CrashAndRestore

  const INITIAL := System([], [], map[], [])

  function SetStatus(s: System, id: string, status: Status): System {
    s.(memory := WithStatus(s.memory, id, status))
  }

  function Without(dispatchers: map<nat, Dispatcher>, d: nat): map<nat, Dispatcher> {
    map e | e in dispatchers && e != d :: dispatchers[e]
  }

  function AllSaved(dispatchers: map<nat, Dispatcher>): map<nat, Dispatcher> {
    map e | e in dispatchers :: dispatchers[e].(saved := true)
  }

  function DoQueue(s: System, id: string): System {
    s.(memory := Enqueue(s.memory, id))
  }

  /** Saving writes the current state; every `persist` waiting may then resolve. */
  function DoSave(s: System): System {
    s.(durable := s.memory, dispatchers := AllSaved(s.dispatchers))
  }

  function DoBegin(s: System, d: nat, id: string): System {
    if d in s.dispatchers || StatusOf(s.memory, id) != Some(Queued) then s
    else SetStatus(s, id, Dispatching).(dispatchers := s.dispatchers[d := Dispatcher(id, Opening_, false)])
  }

  function DoResolve(s: System, d: nat): System {
    if d !in s.dispatchers || !s.dispatchers[d].saved || s.dispatchers[d].phase.Delivering? then s
    else if s.dispatchers[d].phase.Opening_? then
      s.(dispatchers := s.dispatchers[d := s.dispatchers[d].(phase := Delivering)],
         log := s.log + [Started(s.dispatchers[d].id)])
    else s.(dispatchers := Without(s.dispatchers, d))
  }

  function DoReject(s: System, d: nat): System {
    if d !in s.dispatchers || s.dispatchers[d].phase.Delivering? then s
    else if s.dispatchers[d].phase.Settling? then
      var id := s.dispatchers[d].id;
      SetStatus(s, id, Uncertain).(dispatchers := s.dispatchers[d := Dispatcher(id, Failing, false)])
    else s.(dispatchers := Without(s.dispatchers, d))
  }

  function DoEnd(s: System, d: nat, outcome: Outcome): System {
    if d !in s.dispatchers || !s.dispatchers[d].phase.Delivering? then s
    else
      var id := s.dispatchers[d].id;
      var phase := if outcome.Threw? then Failing else Settling;
      SetStatus(s, id, StatusFor(outcome)).(
        dispatchers := s.dispatchers[d := Dispatcher(id, phase, false)],
        log := s.log + if outcome.Declined? then [Refused(id)] else [])
  }

  function DoCancel(s: System, id: string): System {
    if StatusOf(s.memory, id) == Some(Queued) then SetStatus(s, id, Cancelled) else s
  }

  /** At startup, a dispatch found open is recorded as uncertain. */
  function DoMark(s: System, id: string): System {
    if StatusOf(s.memory, id) == Some(Dispatching) then SetStatus(s, id, Uncertain) else s
  }

  /** A receipt proves an earlier delivery. */
  function DoReceipt(s: System, id: string): System {
    if StatusOf(s.memory, id) == Some(Cancelled) then s else SetStatus(s, id, Delivered)
  }

  function Do(s: System, step: Step): System {
    match step
    case Queue(id) => DoQueue(s, id)
    case Begin(d, id) => DoBegin(s, d, id)
    case Save => DoSave(s)
    case PersistResolves(d) => DoResolve(s, d)
    case PersistRejects(d) => DoReject(s, d)
    case DeliverEnds(d, outcome) => DoEnd(s, d, outcome)
    case Cancel(id) => DoCancel(s, id)
    case MarkUncertain(id) => DoMark(s, id)
    case FindReceipt(id) => DoReceipt(s, id)
    case CrashAndRestore => s.(memory := s.durable, dispatchers := map[])
  }

  function Run(steps: seq<Step>): System {
    if steps == [] then INITIAL else Do(Run(steps[..|steps| - 1]), steps[|steps| - 1])
  }

  // ---------------------------------------------------------------- safety

  /** The last `deliver` call for the id has not returned false. */
  predicate Spent(log: seq<Event>, id: string) {
    log != [] && (log[|log| - 1] == Started(id) || (log[|log| - 1] != Refused(id) && Spent(log[..|log| - 1], id)))
  }

  predicate Active(d: Dispatcher) {
    d.phase.Opening_? || d.phase.Delivering?
  }

  /** Recorded, and not free to be dispatched. */
  predicate Held(pending: seq<Delivery>, id: string) {
    StatusOf(pending, id).Some? && StatusOf(pending, id) != Some(Queued)
  }

  ghost predicate DispatchersOk(s: System) {
    && (forall d, e | d in s.dispatchers && e in s.dispatchers && d != e && Active(s.dispatchers[d]) && Active(s.dispatchers[e]) ::
          s.dispatchers[d].id != s.dispatchers[e].id)
    && (forall d | d in s.dispatchers && Active(s.dispatchers[d]) :: Held(s.memory, s.dispatchers[d].id))
    && (forall d | d in s.dispatchers && s.dispatchers[d].phase.Opening_? ::
          !Spent(s.log, s.dispatchers[d].id) && (s.dispatchers[d].saved ==> Held(s.durable, s.dispatchers[d].id)))
  }

  ghost predicate SpentOk(s: System) {
    forall id | Spent(s.log, id) :: Held(s.memory, id) && Held(s.durable, id)
  }

  /** Between two starts for one id, a call returned false. */
  ghost predicate AtMostOnce(log: seq<Event>) {
    forall i, j | 0 <= i < j < |log| && log[i].Started? && log[j] == log[i] ::
      exists k | i < k < j :: log[k] == Refused(log[i].id)
  }

  ghost predicate Inv(s: System) {
    DispatchersOk(s) && SpentOk(s) && UniqueIds(s.memory) && UniqueIds(s.durable) && AtMostOnce(s.log)
  }

  lemma {:induction false} UnspentWasRefused(log: seq<Event>, id: string, i: nat)
    requires i < |log| && log[i] == Started(id) && !Spent(log, id)
    ensures exists k | i < k < |log| :: log[k] == Refused(id)
  {
    var n := |log| - 1;
    if log[n] != Refused(id) {
      assert log[..n][i] == log[i];
      UnspentWasRefused(log[..n], id, i);
      var k :| i < k < n && log[..n][k] == Refused(id);
      assert log[k] == Refused(id);
    }
  }

  lemma StartKeepsAtMostOnce(log: seq<Event>, id: string)
    requires AtMostOnce(log) && !Spent(log, id)
    ensures AtMostOnce(log + [Started(id)])
  {
    var more := log + [Started(id)];
    forall i, j | 0 <= i < j < |more| && more[i].Started? && more[j] == more[i]
      ensures exists k | i < k < j :: more[k] == Refused(more[i].id)
    {
      if j == |log| {
        UnspentWasRefused(log, id, i);
        var k :| i < k < |log| && log[k] == Refused(id);
        assert more[k] == Refused(id);
      } else {
        assert log[i] == more[i] && log[j] == more[j];
        var k :| i < k < j && log[k] == Refused(log[i].id);
        assert more[k] == Refused(more[i].id);
      }
    }
  }

  lemma HeldAfter(pending: seq<Delivery>, id: string, status: Status, other: string)
    requires other != id || status != Queued
    ensures Held(pending, other) ==> Held(WithStatus(pending, id, status), other)
  {
    StatusAfter(pending, id, status, other);
  }

  lemma UniqueAfter(pending: seq<Delivery>, id: string, status: Status)
    requires UniqueIds(pending)
    ensures UniqueIds(WithStatus(pending, id, status))
  {
    IdsKept(pending, id, status);
  }

  lemma PushSpent(log: seq<Event>, e: Event, id: string)
    ensures Spent(log + [e], id) == (e == Started(id) || (e != Refused(id) && Spent(log, id)))
  {
    assert (log + [e])[..|log|] == log;
  }

  /** A status other than queued frees nothing. */
  lemma SetKeepsInv(s: System, id: string, status: Status)
    requires Inv(s) && status != Queued
    ensures Inv(SetStatus(s, id, status))
  {
    UniqueAfter(s.memory, id, status);
    forall other | Held(s.memory, other) ensures Held(WithStatus(s.memory, id, status), other) {
      HeldAfter(s.memory, id, status, other);
    }
  }

  lemma QueueKeepsInv(s: System, id: string)
    requires Inv(s)
    ensures Inv(DoQueue(s, id))
  {
    EnqueueKeepsIdsUnique(s.memory, id);
    forall other | Held(s.memory, other) ensures Held(Enqueue(s.memory, id), other) {
      StatusAfterEnqueue(s.memory, id, other);
    }
  }

  lemma BeginKeepsInv(s: System, d: nat, id: string)
    requires Inv(s)
    ensures Inv(DoBegin(s, d, id))
  {
    if d !in s.dispatchers && StatusOf(s.memory, id) == Some(Queued) {
      SetKeepsInv(s, id, Dispatching);
      StatusAfter(s.memory, id, Dispatching, id);
    }
  }

  lemma SaveKeepsInv(s: System)
    requires Inv(s)
    ensures Inv(DoSave(s))
  {
  }

  lemma ResolveKeepsInv(s: System, d: nat)
    requires Inv(s)
    ensures Inv(DoResolve(s, d))
  {
    if d in s.dispatchers && s.dispatchers[d].saved && s.dispatchers[d].phase.Opening_? {
      var id := s.dispatchers[d].id;
      StartKeepsAtMostOnce(s.log, id);
      forall other ensures Spent(s.log + [Started(id)], other) == (other == id || Spent(s.log, other)) {
        PushSpent(s.log, Started(id), other);
      }
    }
  }

  lemma RejectKeepsInv(s: System, d: nat)
    requires Inv(s)
    ensures Inv(DoReject(s, d))
  {
    if d in s.dispatchers && s.dispatchers[d].phase.Settling? {
      SetKeepsInv(s, s.dispatchers[d].id, Uncertain);
    }
  }

  lemma EndKeepsInv(s: System, d: nat, outcome: Outcome)
    requires Inv(s)
    ensures Inv(DoEnd(s, d, outcome))
  {
    if d in s.dispatchers && s.dispatchers[d].phase.Delivering? {
      var id := s.dispatchers[d].id;
      if outcome.Declined? {
        DeclineKeepsInv(s, d);
      } else {
        SetKeepsInv(s, id, StatusFor(outcome));
        assert s.log + [] == s.log;
      }
    }
  }

  lemma DeclineKeepsInv(s: System, d: nat)
    requires Inv(s) && d in s.dispatchers && s.dispatchers[d].phase.Delivering?
    ensures Inv(DoEnd(s, d, Declined))
  {
    var id := s.dispatchers[d].id;
    UniqueAfter(s.memory, id, Queued);
    forall other | other != id && Held(s.memory, other) ensures Held(WithStatus(s.memory, id, Queued), other) {
      HeldAfter(s.memory, id, Queued, other);
    }
    forall other ensures Spent(s.log + [Refused(id)], other) == (other != id && Spent(s.log, other)) {
      PushSpent(s.log, Refused(id), other);
    }
    RefusalKeepsAtMostOnce(s.log, id);
  }

  lemma RefusalKeepsAtMostOnce(log: seq<Event>, id: string)
    requires AtMostOnce(log)
    ensures AtMostOnce(log + [Refused(id)])
  {
    var more := log + [Refused(id)];
    forall i, j | 0 <= i < j < |more| && more[i].Started? && more[j] == more[i]
      ensures exists k | i < k < j :: more[k] == Refused(more[i].id)
    {
      assert log[i] == more[i] && log[j] == more[j];
      var k :| i < k < j && log[k] == Refused(log[i].id);
      assert more[k] == Refused(more[i].id);
    }
  }

  lemma StepKeepsInv(s: System, step: Step)
    requires Inv(s)
    ensures Inv(Do(s, step))
  {
    match step
    case Queue(id) => QueueKeepsInv(s, id);
    case Begin(d, id) => BeginKeepsInv(s, d, id);
    case Save => SaveKeepsInv(s);
    case PersistResolves(d) => ResolveKeepsInv(s, d);
    case PersistRejects(d) => RejectKeepsInv(s, d);
    case DeliverEnds(d, outcome) => EndKeepsInv(s, d, outcome);
    case Cancel(id) => SetKeepsInv(s, id, Cancelled);
    case MarkUncertain(id) => SetKeepsInv(s, id, Uncertain);
    case FindReceipt(id) => SetKeepsInv(s, id, Delivered);
    case CrashAndRestore =>
  }

  lemma {:induction false} RunKeepsInv(steps: seq<Step>)
    ensures Inv(Run(steps))
  {
    if steps != [] {
      RunKeepsInv(steps[..|steps| - 1]);
      StepKeepsInv(Run(steps[..|steps| - 1]), steps[|steps| - 1]);
    }
  }

  /** Main result: over every interleaving of dispatches, saves that resolve or reject, crashes and
      restores, a second `deliver` call for an id comes only after one that returned false; and ids
      stay unique in the list. */
  lemma DeliveredAtMostOnce(steps: seq<Step>)
    ensures AtMostOnce(Run(steps).log) && UniqueIds(Run(steps).memory) && UniqueIds(Run(steps).durable)
  {
    RunKeepsInv(steps);
  }

  /** The number of `deliver` calls for the id. */
  function Starts(log: seq<Event>, id: string): nat {
    if log == [] then 0
    else Starts(log[..|log| - 1], id) + if log[|log| - 1] == Started(id) then 1 else 0
  }

  /** A call for the id returned true, threw, or was cut off by a crash, and none is under way. */
  ghost predicate Settled(s: System, id: string) {
    Spent(s.log, id)
    && forall d | d in s.dispatchers && s.dispatchers[d].phase.Delivering? :: s.dispatchers[d].id != id
  }

  lemma ResolveKeepsSettled(s: System, d: nat, id: string)
    requires Inv(s) && Settled(s, id)
    ensures Settled(DoResolve(s, d), id) && Starts(DoResolve(s, d).log, id) == Starts(s.log, id)
  {
    if d in s.dispatchers && s.dispatchers[d].saved && s.dispatchers[d].phase.Opening_? {
      var e := Started(s.dispatchers[d].id);
      assert e.id != id;
      PushSpent(s.log, e, id);
      assert (s.log + [e])[..|s.log|] == s.log;
    }
  }

  lemma EndKeepsSettled(s: System, d: nat, outcome: Outcome, id: string)
    requires Inv(s) && Settled(s, id)
    ensures Settled(DoEnd(s, d, outcome), id) && Starts(DoEnd(s, d, outcome).log, id) == Starts(s.log, id)
  {
    if d in s.dispatchers && s.dispatchers[d].phase.Delivering? {
      var e := Refused(s.dispatchers[d].id);
      assert e.id != id;
      PushSpent(s.log, e, id);
      assert (s.log + [e])[..|s.log|] == s.log;
      assert s.log + [] == s.log;
    }
  }

  lemma StepKeepsSettled(s: System, step: Step, id: string)
    requires Inv(s) && Settled(s, id)
    ensures Settled(Do(s, step), id) && Starts(Do(s, step).log, id) == Starts(s.log, id)
  {
    match step
    case PersistResolves(d) => ResolveKeepsSettled(s, d, id);
    case DeliverEnds(d, outcome) => EndKeepsSettled(s, d, outcome, id);
    case _ =>
  }

  /** Once that is so, no continuation of the run, crashes included, calls `deliver` for it again. */
  lemma {:induction false} NeverDeliveredAgain(steps: seq<Step>, more: seq<Step>, id: string)
    requires Settled(Run(steps), id)
    ensures Settled(Run(steps + more), id)
    ensures Starts(Run(steps + more).log, id) == Starts(Run(steps).log, id)
  {
    if more == [] {
      assert steps + more == steps;
    } else {
      var n := |more| - 1;
      NeverDeliveredAgain(steps, more[..n], id);
      RunKeepsInv(steps + more[..n]);
      StepKeepsSettled(Run(steps + more[..n]), more[n], id);
      RunPush(steps + more[..n], more[n]);
      assert steps + more == (steps + more[..n]) + [more[n]];
    }
  }

  lemma RunPush(steps: seq<Step>, step: Step)
    ensures Run(steps + [step]) == Do(Run(steps), step)
  {
    assert (steps + [step])[..|steps|] == steps;
  }
}
