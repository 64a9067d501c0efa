/** What deliveries come to: the status of every id after every step, and a dispatch from its start to
    its end (src/durable-delivery.ts). */
module DeliveryRuns {
  import opened Options
  import opened DurableDelivery

  /** The dispatch waits where it has to for the step to concern the id. */
  predicate Waits(s: System, d: nat, phase: Phase, id: string) {
    d in s.dispatchers && s.dispatchers[d].phase == phase && s.dispatchers[d].id == id
  }

  /** The status of an id after a step, given the one before. */
  function Moved(s: System, step: Step, id: string, status: Option<Status>): Option<Status> {
    match step
    case Queue(i) => if i == id && status.None? then Some(Queued) else status
    case Begin(d, i) => if i == id && d !in s.dispatchers && status == Some(Queued) then Some(Dispatching) else status
    case Save => status
    case PersistResolves(_) => status
    case PersistRejects(d) => if Waits(s, d, Settling, id) && status.Some? then Some(Uncertain) else status
    case DeliverEnds(d, outcome) =>
      if !Waits(s, d, Delivering, id) || status.None? then status
      else if outcome == Accepted then Some(Delivered)
      else if outcome == Declined then Some(Queued)
      else Some(Uncertain)
    case Cancel(i) => if i == id && status == Some(Queued) then Some(Cancelled) else status
    case MarkUncertain(i) => if i == id && status == Some(Dispatching) then Some(Uncertain) else status
    case FindReceipt(i) => if i == id && status.Some? && status != Some(Cancelled) then Some(Delivered) else status
    case CrashAndRestore => StatusOf(s.durable, id)
  }

  /** Every step moves the status of each id as it should, and that of no other; saving makes the
      durable state the current one. */
  lemma StatusMoves(s: System, step: Step, id: string)
    ensures StatusOf(Do(s, step).memory, id) == Moved(s, step, id, StatusOf(s.memory, id))
    ensures Do(s, step).durable == if step.Save? then s.memory else s.durable
  {
    forall other: string, status: Status
      ensures StatusOf(WithStatus(s.memory, other, status), id)
        == if id == other && StatusOf(s.memory, other).Some? then Some(status) else StatusOf(s.memory, id)
    {
      StatusAfter(s.memory, other, status, id);
    }
    match step
    case Queue(i) => StatusAfterEnqueue(s.memory, i, id);
    case _ =>
  }

  /** What a dispatch does to the statuses, and the calls it makes. */
  ghost predicate Completed(s: System, after: System, id: string, outcome: Outcome) {
    && (forall other | other != id :: StatusOf(after.memory, other) == StatusOf(s.memory, other))
    && after.log == s.log + [Started(id)] + (if outcome == Declined then [Refused(id)] else [])
    && StatusOf(after.memory, id)
       == (match outcome
           case Accepted => Some(Delivered)
           case Declined => Some(Queued)
           case Threw => Some(Uncertain))
  }

  /** The steps of a dispatch that nothing interrupts. */
  function Dispatch(d: nat, id: string, outcome: Outcome): seq<Step> {
    [Begin(d, id), Save, PersistResolves(d), DeliverEnds(d, outcome), Save, PersistResolves(d)]
  }

  function DoAll(s: System, steps: seq<Step>): System
    decreases |steps|
  {
    if steps == [] then s else DoAll(Do(s, steps[0]), steps[1..])
  }

  lemma DoFirst(s: System, step: Step, steps: seq<Step>)
    ensures DoAll(s, [step] + steps) == DoAll(Do(s, step), steps)
  {
    assert ([step] + steps)[1..] == steps;
  }

  lemma DoThree(s: System, a: Step, b: Step, c: Step, steps: seq<Step>)
    ensures DoAll(s, [a, b, c] + steps) == DoAll(Do(Do(Do(s, a), b), c), steps)
  {
    assert [a, b, c] + steps == [a] + ([b] + ([c] + steps));
    DoFirst(s, a, [b] + ([c] + steps));
    DoFirst(Do(s, a), b, [c] + steps);
    DoFirst(Do(Do(s, a), b), c, steps);
  }

  lemma DispatchIs(s: System, d: nat, id: string, outcome: Outcome)
    ensures DoAll(s, Dispatch(d, id, outcome))
      == Do(Do(Do(Do(Do(Do(s, Begin(d, id)), Save), PersistResolves(d)), DeliverEnds(d, outcome)), Save), PersistResolves(d))
  {
    var front, back := [Begin(d, id), Save, PersistResolves(d)], [DeliverEnds(d, outcome), Save, PersistResolves(d)];
    assert Dispatch(d, id, outcome) == front + back && back + [] == back;
    DoThree(s, Begin(d, id), Save, PersistResolves(d), back);
    DoThree(Do(Do(Do(s, Begin(d, id)), Save), PersistResolves(d)), DeliverEnds(d, outcome), Save, PersistResolves(d), []);
  }

  /** Before its call, a dispatch is on record. */
  lemma BeginsOnRecord(s: System, d: nat, id: string)
    requires d !in s.dispatchers && StatusOf(s.memory, id) == Some(Queued)
    ensures var t := Do(Do(s, Begin(d, id)), Save);
      && t.log == s.log && t.durable == t.memory && StatusOf(t.durable, id) == Some(Dispatching)
      && d in t.dispatchers && t.dispatchers[d] == Dispatcher(id, Opening_, true)
      && forall other | other != id :: StatusOf(t.memory, other) == StatusOf(s.memory, other)
  {
    forall other ensures StatusOf(Do(s, Begin(d, id)).memory, other)
      == if other == id then Some(Dispatching) else StatusOf(s.memory, other)
    {
      StatusMoves(s, Begin(d, id), other);
    }
  }

  /** The call and its end. */
  lemma CallEnds(t: System, d: nat, id: string, outcome: Outcome)
    requires d in t.dispatchers && t.dispatchers[d] == Dispatcher(id, Opening_, true) && StatusOf(t.memory, id).Some?
    ensures var u := Do(Do(t, PersistResolves(d)), DeliverEnds(d, outcome));
      && Completed(t, u, id, outcome) && d in u.dispatchers && (u.dispatchers[d].phase in {Settling, Failing})
  {
    var r := Do(t, PersistResolves(d));
    assert r.memory == t.memory && r.log == t.log + [Started(id)];
    forall other ensures StatusOf(Do(r, DeliverEnds(d, outcome)).memory, other)
      == Moved(r, DeliverEnds(d, outcome), other, StatusOf(t.memory, other))
    {
      StatusMoves(r, DeliverEnds(d, outcome), other);
    }
  }

  /** Main result: a queued message can be delivered. A dispatch that nothing interrupts calls `deliver`
      once, with the message on record, and leaves it delivered, queued again or uncertain as the call
      went, durably, and no other message changed. */
  lemma QueuedIsDelivered(s: System, d: nat, id: string, outcome: Outcome)
    requires d !in s.dispatchers && StatusOf(s.memory, id) == Some(Queued)
    ensures var after := DoAll(s, Dispatch(d, id, outcome));
      && Completed(s, after, id, outcome) && after.durable == after.memory && d !in after.dispatchers
  {
    DispatchIs(s, d, id, outcome);
    BeginsOnRecord(s, d, id);
    var t := Do(Do(s, Begin(d, id)), Save);
    CallEnds(t, d, id, outcome);
  }

  /** Nothing but a queued message is dispatched: a settled one calls nothing. */
  lemma SettledIsNotDispatched(s: System, d: nat, id: string)
    requires StatusOf(s.memory, id) != Some(Queued)
    ensures Do(s, Begin(d, id)) == s
  {
  }
}
