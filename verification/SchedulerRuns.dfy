/** Every interleaving of any number of Enqueue calls with Run. */
module SchedulerRuns {
  import opened Bytes
  import opened Identities
  import opened Scheduler
  import opened Sorting

  /** Where an Enqueue call stands; its ticket number is its name. */
  datatype Call = Preparing | Ticketed | Refused

  datatype Outcome = Sent(at: Time) | SendFailed(error: Error) | CommandExpired | RunFailed(error: Error)

  /** Where the goroutine inside Run stands. */
  datatype Phase =
    | NotStarted
    | Waiting
    | Dispatching(taken: Taken, cover: Bytes, now: Time)
    | Closing(error: Error)
    | Closed(error: Error)
    | Failing(error: Error, rest: seq<Packet>)
    | Returned(error: Error)

  /** `results` records every send ever made on a ticket's channel. `enqueued` and `dequeued` record the
      order in which tickets entered the queue and were taken off it by slots. `wire` is what was sent. */
  datatype System = System(core: Core, calls: map<nat, Call>, phase: Phase,
                           results: map<nat, seq<Outcome>>, enqueued: seq<nat>, dequeued: seq<nat>, wire: seq<Bytes>)

  datatype Step =
    | BeginEnqueue(ticket: nat)
    | AbortEnqueue(ticket: nat)
    | CommitEnqueue(ticket: nat, expiresAt: Time, data: Bytes)
    | StartRun
    | StopRun(error: Error)
    | TakeSlotStep(now: Time, cover: Bytes)
    | PollFails(error: Error)
    | SendStep(poll: Bytes, failure: Option<Error>)
    | CloseRun
    | DrainQueue
    | FailOne
    | FinishRun

  function Initially(maxQueue: nat): System
  {
    System(Core(maxQueue, [], 0, 0, false, None), map[], NotStarted, map[], [], [], [])
  }

  function Deliver(s: System, ticket: nat, o: Outcome): System
  {
    s.(results := s.results[ticket := (if ticket in s.results then s.results[ticket] else []) + [o]])
  }

  /** Which steps the code can take. Guards speak only of what the code itself looks at. */
  predicate Enabled(s: System, step: Step)
  {
    match step
    case BeginEnqueue(t) => t !in s.calls
    case AbortEnqueue(t) => t in s.calls && s.calls[t] == Preparing
    case CommitEnqueue(t, _, data) =>
      t in s.calls && s.calls[t] == Preparing && |data| == PACKET_BYTES
    case StartRun => MayStart(s.core)
    case StopRun(_) => s.phase.Waiting?
    case TakeSlotStep(_, cover) => s.phase.Waiting? && |cover| == PACKET_BYTES
    case PollFails(_) => s.phase.Dispatching? && s.phase.taken.Poll?
    case SendStep(poll, _) => s.phase.Dispatching? && (s.phase.taken.Poll? ==> |poll| == PACKET_BYTES)
    case CloseRun => s.phase.Closing?
    case DrainQueue => s.phase.Closed?
    case FailOne => s.phase.Failing? && s.phase.rest != []
    case FinishRun => s.phase.Failing? && s.phase.rest == []
  }

  function PacketSent(p: Phase, poll: Bytes): Bytes
    requires p.Dispatching?
  {
    match p.taken
    case Poll => poll
    case Real(q) => q.data
    case _ => p.cover
  }

  function Next(s: System, step: Step): System
    requires Enabled(s, step)
  {
    match step
    case BeginEnqueue(t) =>
      s.(core := Reserved(s.core), calls := s.calls[t := if MayReserve(s.core) then Preparing else Refused])
    case AbortEnqueue(t) => s.(core := Released(s.core), calls := s.calls[t := Refused])
    case CommitEnqueue(t, expiresAt, data) =>
      if s.core.terminal.Some? then s.(core := Released(s.core), calls := s.calls[t := Refused])
      else s.(core := Committed(s.core, Packet(t, expiresAt, data)), calls := s.calls[t := Ticketed],
              enqueued := s.enqueued + [t])
    case StartRun => s.(core := s.core.(running := true), phase := Waiting)
    case StopRun(e) => s.(phase := Closing(e))
    case TakeSlotStep(now, cover) =>
      var taken := TakenAt(s.core, now);
      var after := s.(core := AfterSlot(s.core, now), phase := Dispatching(taken, cover, now));
      if taken.Expired? then Deliver(after, taken.packet.ticket, CommandExpired).(dequeued := s.dequeued + [taken.packet.ticket])
      else if taken.Real? then after.(dequeued := s.dequeued + [taken.packet.ticket])
      else after
    case PollFails(e) => s.(phase := Closing(e))
    case SendStep(poll, failure) =>
      var out := s.(wire := s.wire + [PacketSent(s.phase, poll)],
                    phase := if failure.Some? then Closing(failure.value) else Waiting);
      if s.phase.taken.Real? then
        Deliver(out, s.phase.taken.packet.ticket, if failure.Some? then SendFailed(failure.value) else Sent(s.phase.now))
      else out
    case CloseRun => s.(core := Ended(s.core, s.phase.error), phase := Closed(s.phase.error))
    case DrainQueue => s.(core := Drained(s.core), phase := Failing(s.phase.error, s.core.queue))
    case FailOne =>
      Deliver(s, s.phase.rest[0].ticket, RunFailed(s.phase.error)).(phase := Failing(s.phase.error, s.phase.rest[1..]))
    case FinishRun => s.(phase := Returned(s.phase.error))
  }

  ghost predicate Reaches(s: System, steps: seq<Step>)
    decreases |steps|
  {
    steps == [] || (Enabled(s, steps[0]) && Reaches(Next(s, steps[0]), steps[1..]))
  }

  ghost function After(s: System, steps: seq<Step>): System
    requires Reaches(s, steps)
    decreases |steps|
  {
    if steps == [] then s else After(Next(s, steps[0]), steps[1..])
  }

  // ---------- the invariant ----------

  /** The packets that still owe their ticket a result. */
  function Owed(s: System): seq<Packet>
  {
    (match s.phase
     case Dispatching(Real(p), _, _) => [p]
     case Failing(_, rest) => rest
     case _ => []) + s.core.queue
  }

  function Tickets(ps: seq<Packet>): (ts: seq<nat>)
    ensures |ts| == |ps| && forall i :: 0 <= i < |ps| ==> ts[i] == ps[i].ticket
  {
    seq(|ps|, i requires 0 <= i < |ps| => ps[i].ticket)
  }

  function PreparingCalls(s: System): set<nat>
  {
    set t | t in s.calls && s.calls[t] == Preparing
  }

  function ResultsOf(s: System, t: nat): seq<Outcome>
  {
    if t in s.results then s.results[t] else []
  }

  ghost predicate CapacityHolds(s: System)
  {
    && s.core.reservations == |PreparingCalls(s)|
    && |s.core.queue| + s.core.reservations <= s.core.maxQueue
  }

  /** Each ticket handed out either waits for its result or has exactly one; nothing else has any. */
  ghost predicate ResultsHold(s: System)
  {
    && NoDuplicates(Tickets(Owed(s)))
    && (forall t :: t in Tickets(Owed(s)) ==> t in s.calls && s.calls[t] == Ticketed)
    && (forall t :: t in s.calls && s.calls[t] == Ticketed ==>
          |ResultsOf(s, t)| == if t in Tickets(Owed(s)) then 0 else 1)
    && (forall t :: ResultsOf(s, t) != [] ==> t in s.calls && s.calls[t] == Ticketed)
  }

  ghost predicate PhaseHolds(s: System)
  {
    && (s.core.running <==> s.phase.Waiting? || s.phase.Dispatching? || s.phase.Closing?)
    && (s.core.terminal.Some? <==> s.phase.Closed? || s.phase.Failing? || s.phase.Returned?)
    && (s.phase.Failing? || s.phase.Returned? ==> s.core.queue == [])
  }

  ghost predicate SizesHold(s: System)
  {
    && (forall i :: 0 <= i < |Owed(s)| ==> |Owed(s)[i].data| == PACKET_BYTES)
    && (s.phase.Dispatching? ==> |s.phase.cover| == PACKET_BYTES)
    && (forall i :: 0 <= i < |s.wire| ==> |s.wire[i]| == PACKET_BYTES)
  }

  /** First in, first out: slots take tickets off in the order in which they entered. */
  ghost predicate FifoHolds(s: System)
  {
    && s.dequeued <= s.enqueued
    && (s.core.terminal.None? ==> s.enqueued == s.dequeued + Tickets(s.core.queue))
  }

  ghost predicate Invariant(s: System)
  {
    CapacityHolds(s) && ResultsHold(s) && PhaseHolds(s) && SizesHold(s) && FifoHolds(s)
  }

  // ---------- what a step does to the packets that owe a result ----------

  predicate Queues(s: System, step: Step)
  {
    step.CommitEnqueue? && s.core.terminal.None?
  }

  predicate Delivers(s: System, step: Step)
    requires Enabled(s, step)
  {
    || (step.TakeSlotStep? && TakenAt(s.core, step.now).Expired?)
    || (step.SendStep? && s.phase.taken.Real?)
    || step.FailOne?
  }

  function Delivery(s: System, step: Step): Outcome
    requires Enabled(s, step) && Delivers(s, step)
  {
    match step
    case TakeSlotStep(_, _) => CommandExpired
    case SendStep(_, failure) => if failure.Some? then SendFailed(failure.value) else Sent(s.phase.now)
    case FailOne => RunFailed(s.phase.error)
  }

  lemma OwedEnqueue(s: System, step: Step)
    requires Enabled(s, step) && (step.BeginEnqueue? || step.AbortEnqueue? || step.CommitEnqueue?)
    ensures Owed(Next(s, step)) == if Queues(s, step) then Owed(s) + [Packet(step.ticket, step.expiresAt, step.data)] else Owed(s)
    ensures !Delivers(s, step) && Next(s, step).results == s.results
  {
  }

  lemma OwedTake(s: System, step: Step)
    requires PhaseHolds(s) && Enabled(s, step) && step.TakeSlotStep?
    ensures Delivers(s, step) ==> Owed(s) != []
    ensures Owed(Next(s, step)) == if Delivers(s, step) then Owed(s)[1..] else Owed(s)
    ensures Next(s, step).results == if Delivers(s, step) then Deliver(s, Owed(s)[0].ticket, Delivery(s, step)).results else s.results
  {
  }

  lemma OwedSend(s: System, step: Step)
    requires PhaseHolds(s) && Enabled(s, step) && (step.SendStep? || step.PollFails?)
    ensures Delivers(s, step) ==> Owed(s) != []
    ensures Owed(Next(s, step)) == if Delivers(s, step) then Owed(s)[1..] else Owed(s)
    ensures Next(s, step).results == if Delivers(s, step) then Deliver(s, Owed(s)[0].ticket, Delivery(s, step)).results else s.results
  {
  }

  lemma OwedShutdown(s: System, step: Step)
    requires PhaseHolds(s) && Enabled(s, step)
    requires step.StartRun? || step.StopRun? || step.CloseRun? || step.DrainQueue? || step.FailOne? || step.FinishRun?
    ensures !Queues(s, step) && (Delivers(s, step) ==> Owed(s) != [])
    ensures Owed(Next(s, step)) == if Delivers(s, step) then Owed(s)[1..] else Owed(s)
    ensures Next(s, step).results == if Delivers(s, step) then Deliver(s, Owed(s)[0].ticket, Delivery(s, step)).results else s.results
  {
  }

  /** A step queues one packet behind, or sends one result on the channel of the first, or neither. */
  lemma OwedStep(s: System, step: Step)
    requires PhaseHolds(s) && Enabled(s, step)
    ensures Delivers(s, step) ==> Owed(s) != [] && !Queues(s, step)
    ensures Owed(Next(s, step)) ==
      if Queues(s, step) then Owed(s) + [Packet(step.ticket, step.expiresAt, step.data)]
      else if Delivers(s, step) then Owed(s)[1..] else Owed(s)
    ensures Next(s, step).results ==
      if Delivers(s, step) then Deliver(s, Owed(s)[0].ticket, Delivery(s, step)).results else s.results
  {
    if step.BeginEnqueue? || step.AbortEnqueue? || step.CommitEnqueue? {
      OwedEnqueue(s, step);
    } else if step.TakeSlotStep? {
      OwedTake(s, step);
    } else if step.SendStep? || step.PollFails? {
      OwedSend(s, step);
    } else {
      OwedShutdown(s, step);
    }
  }

  lemma CapacityCall(s: System, step: Step)
    requires CapacityHolds(s) && Enabled(s, step) && (step.AbortEnqueue? || step.CommitEnqueue?)
    ensures CapacityHolds(Next(s, step))
  {
    assert PreparingCalls(Next(s, step)) == PreparingCalls(s) - {step.ticket};
    RemovedSize(PreparingCalls(s), step.ticket);
  }

  lemma CapacityBegin(s: System, t: nat)
    requires CapacityHolds(s) && Enabled(s, BeginEnqueue(t))
    ensures CapacityHolds(Next(s, BeginEnqueue(t)))
  {
    var n := Next(s, BeginEnqueue(t));
    if MayReserve(s.core) {
      assert PreparingCalls(n) == PreparingCalls(s) + {t};
      AddedSize(PreparingCalls(s), t);
    } else {
      assert PreparingCalls(n) == PreparingCalls(s);
    }
  }

  lemma CapacityStep(s: System, step: Step)
    requires CapacityHolds(s) && Enabled(s, step)
    ensures CapacityHolds(Next(s, step))
  {
    match step
    case BeginEnqueue(t) => CapacityBegin(s, t);
    case AbortEnqueue(t) => CapacityCall(s, step);
    case CommitEnqueue(t, _, _) => CapacityCall(s, step);
    case _ =>
      assert Next(s, step).calls == s.calls;
      assert PreparingCalls(Next(s, step)) == PreparingCalls(s);
  }

  lemma PhaseStep(s: System, step: Step)
    requires PhaseHolds(s) && Enabled(s, step)
    ensures PhaseHolds(Next(s, step))
  {
  }

  lemma OwedSizes(s: System, step: Step)
    requires SizesHold(s) && PhaseHolds(s) && Enabled(s, step)
    ensures forall i :: 0 <= i < |Owed(Next(s, step))| ==> |Owed(Next(s, step))[i].data| == PACKET_BYTES
  {
    OwedStep(s, step);
  }

  lemma WireSizes(s: System, step: Step)
    requires SizesHold(s) && Enabled(s, step)
    ensures var n := Next(s, step);
      && (n.phase.Dispatching? ==> |n.phase.cover| == PACKET_BYTES)
      && (forall i :: 0 <= i < |n.wire| ==> |n.wire[i]| == PACKET_BYTES)
  {
    if step.SendStep? && s.phase.taken.Real? {
      assert Owed(s)[0] == s.phase.taken.packet;
    }
  }

  lemma SizesStep(s: System, step: Step)
    requires SizesHold(s) && PhaseHolds(s) && Enabled(s, step)
    ensures SizesHold(Next(s, step))
  {
    OwedSizes(s, step);
    WireSizes(s, step);
  }

  lemma TicketsTail(q: seq<Packet>)
    requires q != []
    ensures Tickets(q) == [q[0].ticket] + Tickets(q[1..])
  {
  }

  lemma FifoMoves(enqueued: seq<nat>, dequeued: seq<nat>, q: seq<Packet>)
    requires q != [] && enqueued == dequeued + Tickets(q)
    ensures enqueued == dequeued + [q[0].ticket] + Tickets(q[1..])
  {
    TicketsTail(q);
  }

  /** A slot leaves queue and order alone, or moves the head from one to the other. */
  lemma TakenMoves(s: System, now: Time, cover: Bytes)
    requires Enabled(s, TakeSlotStep(now, cover))
    ensures var n := Next(s, TakeSlotStep(now, cover));
      && n.core.terminal == s.core.terminal && n.enqueued == s.enqueued
      && (|| (n.core.queue == s.core.queue && n.dequeued == s.dequeued)
          || (s.core.queue != [] && n.core.queue == s.core.queue[1..] && n.dequeued == s.dequeued + [s.core.queue[0].ticket]))
  {
  }

  lemma FifoTaken(s: System, now: Time, cover: Bytes)
    requires FifoHolds(s) && s.core.terminal.None? && Enabled(s, TakeSlotStep(now, cover))
    ensures FifoHolds(Next(s, TakeSlotStep(now, cover)))
  {
    TakenMoves(s, now, cover);
    if s.core.queue != [] {
      FifoMoves(s.enqueued, s.dequeued, s.core.queue);
    }
  }

  lemma FifoStep(s: System, step: Step)
    requires FifoHolds(s) && PhaseHolds(s) && Enabled(s, step)
    ensures FifoHolds(Next(s, step))
  {
    match step
    case CommitEnqueue(t, expiresAt, data) =>
      if s.core.terminal.None? {
        assert Tickets(Next(s, step).core.queue) == Tickets(s.core.queue) + [t];
      }
    case TakeSlotStep(now, cover) => FifoTaken(s, now, cover);
    case _ =>
      assert Next(s, step).enqueued == s.enqueued && Next(s, step).dequeued == s.dequeued;
  }

  lemma ResultsUnchanged(s: System, n: System)
    requires ResultsHold(s) && Owed(n) == Owed(s) && n.results == s.results
    requires forall t :: (t in n.calls && n.calls[t] == Ticketed) <==> (t in s.calls && s.calls[t] == Ticketed)
    ensures ResultsHold(n)
  {
    assert forall t :: ResultsOf(n, t) == ResultsOf(s, t);
  }

  lemma ResultsQueued(s: System, n: System, p: Packet)
    requires ResultsHold(s) && Owed(n) == Owed(s) + [p] && n.results == s.results
    requires p.ticket in s.calls && s.calls[p.ticket] == Preparing && n.calls == s.calls[p.ticket := Ticketed]
    ensures ResultsHold(n)
  {
    assert Tickets(Owed(n)) == Tickets(Owed(s)) + [p.ticket];
    assert forall t :: ResultsOf(n, t) == ResultsOf(s, t);
    assert p.ticket !in Tickets(Owed(s));
  }

  /** Sending on the channel of the first packet that owes a result: the channel was empty. */
  lemma ResultsDelivered(s: System, n: System, o: Outcome)
    requires ResultsHold(s) && Owed(s) != [] && Owed(n) == Owed(s)[1..] && n.calls == s.calls
    requires n.results == Deliver(s, Owed(s)[0].ticket, o).results
    ensures ResultsOf(s, Owed(s)[0].ticket) == [] && ResultsHold(n)
  {
    var x := Owed(s)[0].ticket;
    var ts := Tickets(Owed(s));
    assert ts == [x] + Tickets(Owed(n));
    assert x in ts;
    assert x !in Tickets(Owed(n));
    forall t ensures ResultsOf(n, t) == if t == x then [o] else ResultsOf(s, t) {
    }
    assert forall t :: t in ts <==> t == x || t in Tickets(Owed(n));
  }

  lemma ResultsStep(s: System, step: Step)
    requires ResultsHold(s) && PhaseHolds(s) && Enabled(s, step)
    ensures ResultsHold(Next(s, step))
  {
    var n := Next(s, step);
    OwedStep(s, step);
    if Queues(s, step) {
      ResultsQueued(s, n, Packet(step.ticket, step.expiresAt, step.data));
    } else if Delivers(s, step) {
      ResultsDelivered(s, n, Delivery(s, step));
    } else {
      ResultsUnchanged(s, n);
    }
  }

  lemma StepKeepsInvariant(s: System, step: Step)
    requires Invariant(s) && Enabled(s, step)
    ensures Invariant(Next(s, step))
  {
    CapacityStep(s, step);
    ResultsStep(s, step);
    PhaseStep(s, step);
    SizesStep(s, step);
    FifoStep(s, step);
  }

  lemma InitialInvariant(maxQueue: nat)
    ensures Invariant(Initially(maxQueue))
  {
    assert PreparingCalls(Initially(maxQueue)) == {};
  }

  lemma {:induction false} RunKeepsInvariant(s: System, steps: seq<Step>)
    requires Invariant(s) && Reaches(s, steps)
    ensures Invariant(After(s, steps))
    decreases |steps|
  {
    if steps != [] {
      StepKeepsInvariant(s, steps[0]);
      RunKeepsInvariant(Next(s, steps[0]), steps[1..]);
    }
  }

  // ---------- the theorems ----------

  /** Capacity, order and packet size hold in every reachable state; slots serve tickets first in, first out. */
  lemma EveryReachableState(maxQueue: nat, steps: seq<Step>)
    requires Reaches(Initially(maxQueue), steps)
    ensures var s := After(Initially(maxQueue), steps);
      && |s.core.queue| + s.core.reservations <= maxQueue
      && s.dequeued <= s.enqueued
      && (forall i :: 0 <= i < |s.wire| ==> |s.wire[i]| == PACKET_BYTES)
  {
    InitialInvariant(maxQueue);
    RunKeepsInvariant(Initially(maxQueue), steps);
    MaxQueueConstant(Initially(maxQueue), steps);
  }

  lemma {:induction false} MaxQueueConstant(s: System, steps: seq<Step>)
    requires Reaches(s, steps)
    ensures After(s, steps).core.maxQueue == s.core.maxQueue
    decreases |steps|
  {
    if steps != [] {
      MaxQueueConstant(Next(s, steps[0]), steps[1..]);
    }
  }

  /** By the time Run has returned every ticket ever handed out has received exactly one result. */
  lemma EveryTicketAnsweredOnce(maxQueue: nat, steps: seq<Step>, t: nat)
    requires Reaches(Initially(maxQueue), steps)
    ensures var s := After(Initially(maxQueue), steps);
      && |ResultsOf(s, t)| <= 1
      && (s.phase.Returned? && t in s.calls && s.calls[t] == Ticketed ==> |ResultsOf(s, t)| == 1)
      && (s.phase.Returned? ==> s.core.queue == [])
  {
    InitialInvariant(maxQueue);
    RunKeepsInvariant(Initially(maxQueue), steps);
    var s := After(Initially(maxQueue), steps);
    if s.phase.Returned? {
      assert Owed(s) == [];
    }
  }

  /** No send on a result channel can block: its single place is still free. */
  lemma SendNeverBlocks(maxQueue: nat, steps: seq<Step>, step: Step)
    requires Reaches(Initially(maxQueue), steps)
    requires Enabled(After(Initially(maxQueue), steps), step) && Delivers(After(Initially(maxQueue), steps), step)
    ensures var s := After(Initially(maxQueue), steps);
      Owed(s) != [] && ResultsOf(s, Owed(s)[0].ticket) == [] &&
      Next(s, step).results == s.results[Owed(s)[0].ticket := [Delivery(s, step)]]
  {
    InitialInvariant(maxQueue);
    RunKeepsInvariant(Initially(maxQueue), steps);
    var s := After(Initially(maxQueue), steps);
    OwedStep(s, step);
    ChannelEmpty(s);
    assert ResultsOf(s, Owed(s)[0].ticket) + [Delivery(s, step)] == [Delivery(s, step)];
  }

  lemma ChannelEmpty(s: System)
    requires ResultsHold(s) && Owed(s) != []
    ensures ResultsOf(s, Owed(s)[0].ticket) == []
  {
    assert Tickets(Owed(s))[0] == Owed(s)[0].ticket;
  }

  /** Run passes its guard once: whenever it is enabled, no earlier Run got past it. */
  lemma RunStartsOnce(maxQueue: nat, steps: seq<Step>)
    requires Reaches(Initially(maxQueue), steps)
    ensures var s := After(Initially(maxQueue), steps); Enabled(s, StartRun) <==> s.phase.NotStarted?
  {
    InitialInvariant(maxQueue);
    RunKeepsInvariant(Initially(maxQueue), steps);
  }

  /** Once Run has failed the queue it stays empty, no ticket is handed out any more, and after Run has
      returned no further result is sent. */
  lemma {:induction false} FailedForever(s: System, steps: seq<Step>)
    requires Invariant(s) && (s.phase.Failing? || s.phase.Returned?) && Reaches(s, steps)
    ensures var n := After(s, steps);
      && n.core.queue == [] && (n.phase.Failing? || n.phase.Returned?) && n.enqueued == s.enqueued
      && (s.phase.Returned? ==> n.results == s.results && n.wire == s.wire)
    decreases |steps|
  {
    if steps != [] {
      StepKeepsInvariant(s, steps[0]);
      FailedForever(Next(s, steps[0]), steps[1..]);
    }
  }

  // ---------- slots ----------

  function SlotsTaken(steps: seq<Step>): nat
  {
    if steps == [] then 0 else (if steps[0].TakeSlotStep? then 1 else 0) + SlotsTaken(steps[1..])
  }

  lemma CounterWraps(a: nat, b: nat)
    ensures ((a + 1) % TWO64 + b) % TWO64 == (a + (1 + b)) % TWO64
  {
  }

  lemma {:induction false} SlotCounter(s: System, steps: seq<Step>)
    requires Reaches(s, steps)
    ensures After(s, steps).core.slots == (s.core.slots + SlotsTaken(steps)) % TWO64
    decreases |steps|
  {
    if steps != [] {
      var n := Next(s, steps[0]);
      SlotCounter(n, steps[1..]);
      SlotsAfter(s, steps[0]);
      CounterWraps(s.core.slots, SlotsTaken(steps[1..]));
    }
  }

  /** The cadence of slot number i: every sixth value of the 64-bit counter. */
  predicate PollsAt(i: nat)
  {
    IsPollSlot(i % TWO64)
  }

  /** Slot number i of any run is a poll exactly when six divides the counter's reading of i, which is i itself
      below 2^64. Any other slot carries the queue head unless it has expired, and cover otherwise. */
  lemma SlotCarries(maxQueue: nat, steps: seq<Step>, now: Time, cover: Bytes)
    requires Reaches(Initially(maxQueue), steps)
    requires Enabled(After(Initially(maxQueue), steps), TakeSlotStep(now, cover))
    ensures var s := After(Initially(maxQueue), steps);
      var n := Next(s, TakeSlotStep(now, cover));
      var i := SlotsTaken(steps) + 1;
      && (n.phase.taken.Poll? <==> PollsAt(i))
      && (i < TWO64 ==> (PollsAt(i) <==> i % 6 == 0))
      && (n.phase.taken.Real? <==> !PollsAt(i) && s.core.queue != [] && now <= s.core.queue[0].expiresAt)
      && (forall poll: Bytes :: PacketSent(n.phase, poll) ==
            if PollsAt(i) then poll
            else if s.core.queue != [] && now <= s.core.queue[0].expiresAt then s.core.queue[0].data else cover)
  {
    SlotCounter(Initially(maxQueue), steps);
    NextReading(After(Initially(maxQueue), steps).core.slots, SlotsTaken(steps));
    TakenAs(After(Initially(maxQueue), steps), SlotsTaken(steps) + 1, now, cover);
  }

  lemma NextReading(slots: U64, taken: nat)
    requires slots == taken % TWO64
    ensures NextSlot(slots) == (taken + 1) % TWO64
    ensures taken + 1 < TWO64 ==> (PollsAt(taken + 1) <==> (taken + 1) % 6 == 0)
  {
    CounterWraps(taken, 0);
  }

  lemma TakenAs(s: System, i: nat, now: Time, cover: Bytes)
    requires Enabled(s, TakeSlotStep(now, cover)) && NextSlot(s.core.slots) == i % TWO64
    ensures var n := Next(s, TakeSlotStep(now, cover));
      && (n.phase.taken.Poll? <==> PollsAt(i))
      && (n.phase.taken.Real? <==> !PollsAt(i) && s.core.queue != [] && now <= s.core.queue[0].expiresAt)
      && (forall poll: Bytes :: PacketSent(n.phase, poll) ==
            if PollsAt(i) then poll
            else if s.core.queue != [] && now <= s.core.queue[0].expiresAt then s.core.queue[0].data else cover)
  {
  }

  /** Slot number i is a poll exactly when it should be. */
  predicate InCadence(i: nat)
  {
    PollsAt(i) <==> i % POLL_EVERY_SLOTS == 0
  }

  lemma WrapResidue(q: nat, r: U64)
    ensures (q * TWO64 + r) % 6 == (4 * (q % 3) + r) % 6
  {
    var k, m := q / 3, q % 3;
    var c := 3_074_457_345_618_258_602;
    assert TWO64 == 6 * c + 4;
    assert q * TWO64 == (3 * k + m) * (6 * c + 4) == 6 * ((3 * k + m) * c + 2 * k) + 4 * m;
    SameResidue((3 * k + m) * c + 2 * k, 4 * m + r);
  }

  lemma SameResidue(a: int, b: int)
    ensures (6 * a + b) % 6 == b % 6
  {
  }

  lemma InCadenceIff(i: nat)
    ensures InCadence(i) <==> ((4 * (i / TWO64 % 3) + i % TWO64) % 6 == 0 <==> i % TWO64 % 6 == 0)
  {
    WrapResidue(i / TWO64, i % TWO64);
    assert i == i / TWO64 * TWO64 + i % TWO64;
  }

  /** Where the cadence stops being every sixth slot: the slots after q wrap-arounds of the 64-bit counter are
      all in cadence if and only if three divides q. */
  lemma CadenceAfterWrap(q: nat)
    ensures (forall i: nat :: i / TWO64 == q ==> InCadence(i)) <==> q % 3 == 0
  {
    if q % 3 == 0 {
      forall i: nat | i / TWO64 == q ensures InCadence(i) {
        InCadenceIff(i);
      }
    } else {
      var i := q * TWO64;
      assert i / TWO64 == q && i % TWO64 == 0;
      InCadenceIff(i);
      assert !InCadence(i);
    }
  }

  // ---------- waiting time ----------

  /** How many of the `n` slots after slot `i` are not polls. */
  function CarryingSlots(i: nat, n: nat): nat
    decreases n
  {
    if n == 0 then 0 else (if (i + 1) % POLL_EVERY_SLOTS == 0 then 0 else 1) + CarryingSlots(i + 1, n - 1)
  }

  lemma {:induction false} CarryingSlotsCount(i: nat, n: nat)
    ensures CarryingSlots(i, n) == n - ((i + n) / 6 - i / 6)
    decreases n
  {
    if n > 0 {
      CarryingSlotsCount(i + 1, n - 1);
    }
  }

  lemma GoneAfterStep(s: System, step: Step, t: nat)
    requires Enabled(s, step)
    requires t in s.calls && s.calls[t] == Ticketed && t !in Tickets(s.core.queue)
    ensures t in Next(s, step).calls && Next(s, step).calls[t] == Ticketed && t !in Tickets(Next(s, step).core.queue)
  {
    QueueAfter(s, step);
    var n := Next(s, step).core.queue;
    forall i | 0 <= i < |n| ensures n[i].ticket != t {
      if n != s.core.queue && s.core.queue != [] && n == s.core.queue[1..] {
        assert n[i] == s.core.queue[i + 1] && Tickets(s.core.queue)[i + 1] != t;
      } else if i < |s.core.queue| {
        assert n[i] == s.core.queue[i] && Tickets(s.core.queue)[i] != t;
      }
    }
  }

  /** A ticket that left the queue never comes back. */
  lemma {:induction false} GoneStaysGone(s: System, steps: seq<Step>, t: nat)
    requires Reaches(s, steps)
    requires t in s.calls && s.calls[t] == Ticketed && t !in Tickets(s.core.queue)
    ensures t !in Tickets(After(s, steps).core.queue)
    decreases |steps|
  {
    if steps != [] {
      GoneAfterStep(s, steps[0], t);
      GoneStaysGone(Next(s, steps[0]), steps[1..], t);
    }
  }

  /** What one step does to the queue alone. */
  lemma QueueAfter(s: System, step: Step)
    requires Enabled(s, step)
    ensures var n := Next(s, step).core.queue;
      || n == s.core.queue
      || (s.core.queue != [] && n == s.core.queue[1..] && step.TakeSlotStep?)
      || n == []
      || (step.CommitEnqueue? && n == s.core.queue + [Packet(step.ticket, step.expiresAt, step.data)] && s.calls[step.ticket] == Preparing)
    ensures forall t :: t in s.calls && s.calls[t] == Ticketed ==> t in Next(s, step).calls && Next(s, step).calls[t] == Ticketed
  {
  }

  predicate Carries(s: System, step: Step)
  {
    step.TakeSlotStep? && !IsPollSlot(NextSlot(s.core.slots))
  }

  /** A step empties the queue, or moves it up by one in a carrying slot, or leaves position p alone. */
  lemma PositionAfter(s: System, step: Step, p: nat)
    requires Enabled(s, step) && p < |s.core.queue|
    ensures var n := Next(s, step).core.queue;
      || n == []
      || (Carries(s, step) && n == s.core.queue[1..])
      || (!Carries(s, step) && p < |n| && n[p] == s.core.queue[p])
  {
  }

  lemma SlotsAfter(s: System, step: Step)
    requires Enabled(s, step)
    ensures Next(s, step).core.slots == if step.TakeSlotStep? then NextSlot(s.core.slots) else s.core.slots
  {
  }

  lemma CarryingStep(s: System, steps: seq<Step>)
    requires steps != [] && Enabled(s, steps[0]) && s.core.slots + SlotsTaken(steps) < TWO64
    ensures var n := Next(s, steps[0]);
      && n.core.slots + SlotsTaken(steps[1..]) == s.core.slots + SlotsTaken(steps)
      && CarryingSlots(s.core.slots, SlotsTaken(steps)) ==
           (if Carries(s, steps[0]) then 1 else 0) + CarryingSlots(n.core.slots, SlotsTaken(steps[1..]))
  {
    SlotsAfter(s, steps[0]);
    if steps[0].TakeSlotStep? {
      CarryingOne(s.core.slots, SlotsTaken(steps[1..]));
    }
  }

  lemma CarryingOne(i: U64, rest: nat)
    requires i + 1 + rest < TWO64
    ensures NextSlot(i) == i + 1
    ensures CarryingSlots(i, 1 + rest) == (if IsPollSlot(NextSlot(i)) then 0 else 1) + CarryingSlots(NextSlot(i), rest)
  {
  }

  /** A queued packet leaves the queue once more carrying slots have passed than stood before it. */
  lemma {:induction false} LeavesAfter(s: System, steps: seq<Step>, p: nat)
    requires Invariant(s) && Reaches(s, steps) && p < |s.core.queue|
    requires s.core.slots + SlotsTaken(steps) < TWO64
    requires CarryingSlots(s.core.slots, SlotsTaken(steps)) > p
    ensures s.core.queue[p].ticket !in Tickets(After(s, steps).core.queue)
    decreases |steps|
  {
    var n := Next(s, steps[0]);
    StepKeepsInvariant(s, steps[0]);
    PositionAfter(s, steps[0], p);
    CarryingStep(s, steps);
    if n.core.queue != [] && !(Carries(s, steps[0]) && p == 0) {
      LeavesAfter(n, steps[1..], if Carries(s, steps[0]) then p - 1 else p);
    } else {
      LeavesNow(s, steps[0], p);
      GoneStaysGone(n, steps[1..], s.core.queue[p].ticket);
    }
  }

  lemma LeavesNow(s: System, step: Step, p: nat)
    requires Invariant(s) && Enabled(s, step) && p < |s.core.queue|
    requires Next(s, step).core.queue == [] || (Carries(s, step) && p == 0)
    ensures var t := s.core.queue[p].ticket; var n := Next(s, step);
      t in n.calls && n.calls[t] == Ticketed && t !in Tickets(n.core.queue)
  {
    TicketOf(s, p);
    QueueAfter(s, step);
    PositionAfter(s, step, p);
    if Next(s, step).core.queue != [] {
      HeadLeaves(s, Next(s, step));
    }
  }

  lemma TicketOf(s: System, p: nat)
    requires ResultsHold(s) && p < |s.core.queue|
    ensures s.core.queue[p].ticket in s.calls && s.calls[s.core.queue[p].ticket] == Ticketed
  {
    var k := |Owed(s)| - |s.core.queue| + p;
    assert Owed(s)[k] == s.core.queue[p] && Tickets(Owed(s))[k] == s.core.queue[p].ticket;
  }

  lemma HeadLeaves(s: System, n: System)
    requires ResultsHold(s) && s.core.queue != [] && n.core.queue == s.core.queue[1..]
    ensures s.core.queue[0].ticket !in Tickets(n.core.queue)
  {
    var base := |Owed(s)| - |s.core.queue|;
    forall i | 0 <= i < |n.core.queue| ensures Tickets(n.core.queue)[i] != s.core.queue[0].ticket {
      assert Owed(s)[base + 1 + i] == n.core.queue[i] && Owed(s)[base] == s.core.queue[0];
      assert Tickets(Owed(s))[base] != Tickets(Owed(s))[base + 1 + i];
    }
  }

  /** The packet at queue position p is taken off within p + 2 + p/5 further slots. */
  lemma WaitingTime(s: System, steps: seq<Step>, p: nat)
    requires Invariant(s) && Reaches(s, steps) && p < |s.core.queue|
    requires s.core.slots + SlotsTaken(steps) < TWO64
    requires SlotsTaken(steps) >= p + 2 + p / 5
    ensures s.core.queue[p].ticket !in Tickets(After(s, steps).core.queue)
  {
    CarryingSlotsCount(s.core.slots, SlotsTaken(steps));
    LeavesAfter(s, steps, p);
  }

  predicate Drains(steps: seq<Step>)
  {
    exists i :: 0 <= i < |steps| && steps[i].DrainQueue?
  }

  lemma DrainsLater(steps: seq<Step>)
    requires steps != [] && !Drains(steps)
    ensures !steps[0].DrainQueue? && !Drains(steps[1..])
  {
    assert forall i :: 0 <= i < |steps[1..]| ==> steps[1..][i] == steps[i + 1];
  }

  lemma PositionKept(s: System, step: Step, p: nat)
    requires Enabled(s, step) && p < |s.core.queue| && !step.DrainQueue?
    ensures var n := Next(s, step).core.queue;
      if Carries(s, step) then n == s.core.queue[1..] else p < |n| && n[p] == s.core.queue[p]
  {
  }

  /** Until more carrying slots have passed than stood before it, a packet moves up one place per carrying slot
      and stays queued, as long as the queue is not failed. */
  lemma {:induction false} StaysUntil(s: System, steps: seq<Step>, p: nat)
    requires Reaches(s, steps) && p < |s.core.queue| && !Drains(steps)
    requires s.core.slots + SlotsTaken(steps) < TWO64
    requires CarryingSlots(s.core.slots, SlotsTaken(steps)) <= p
    ensures var q, k := After(s, steps).core.queue, p - CarryingSlots(s.core.slots, SlotsTaken(steps));
      k < |q| && q[k] == s.core.queue[p]
    decreases |steps|
  {
    if steps != [] {
      DrainsLater(steps);
      PositionKept(s, steps[0], p);
      CarryingStep(s, steps);
      StaysUntil(Next(s, steps[0]), steps[1..], if Carries(s, steps[0]) then p - 1 else p);
    }
  }

  lemma InTickets(q: seq<Packet>, k: nat)
    requires k < |q|
    ensures q[k].ticket in Tickets(q)
  {
    assert Tickets(q)[k] == q[k].ticket;
  }

  /** In a run that does not fail the queue, a packet is still queued exactly while no more carrying slots have
      passed than packets stood before it. */
  lemma QueuedIff(s: System, steps: seq<Step>, p: nat)
    requires Invariant(s) && Reaches(s, steps) && p < |s.core.queue| && !Drains(steps)
    requires s.core.slots + SlotsTaken(steps) < TWO64
    ensures s.core.queue[p].ticket in Tickets(After(s, steps).core.queue) <==> CarryingSlots(s.core.slots, SlotsTaken(steps)) <= p
  {
    var c := CarryingSlots(s.core.slots, SlotsTaken(steps));
    if c <= p {
      StaysUntil(s, steps, p);
      InTickets(After(s, steps).core.queue, p - c);
    } else {
      LeavesAfter(s, steps, p);
    }
  }

  // ---------- the bound is met ----------

  function Blank(): (b: Bytes)
    ensures |b| == PACKET_BYTES
  {
    seq(PACKET_BYTES, i => 0)
  }

  /** n slots in which everything goes well. */
  function SlotSteps(n: nat): seq<Step>
  {
    if n == 0 then [] else [TakeSlotStep(0, Blank()), SendStep(Blank(), None)] + SlotSteps(n - 1)
  }

  /** n calls of Enqueue, one after the other. */
  function EnqueueSteps(t: nat, n: nat): seq<Step>
    decreases n
  {
    if n == 0 then [] else [BeginEnqueue(t), CommitEnqueue(t, 0, Blank())] + EnqueueSteps(t + 1, n - 1)
  }

  lemma {:induction false} Chain(s: System, a: seq<Step>, b: seq<Step>)
    requires Reaches(s, a) && Reaches(After(s, a), b)
    ensures Reaches(s, a + b) && After(s, a + b) == After(After(s, a), b)
    decreases |a|
  {
    if a == [] {
      assert a + b == b;
    } else {
      Chain(Next(s, a[0]), a[1..], b);
      assert (a + b)[0] == a[0] && (a + b)[1..] == a[1..] + b;
    }
  }

  /** Two steps at the front of a run. */
  lemma TwoSteps(s: System, x: Step, y: Step, rest: seq<Step>)
    requires Enabled(s, x) && Enabled(Next(s, x), y) && Reaches(Next(Next(s, x), y), rest)
    ensures var steps := [x, y] + rest;
      && Reaches(s, steps) && After(s, steps) == After(Next(Next(s, x), y), rest)
      && SlotsTaken(steps) == (if x.TakeSlotStep? then 1 else 0) + (if y.TakeSlotStep? then 1 else 0) + SlotsTaken(rest)
  {
    var steps := [x, y] + rest;
    assert steps[1..] == [y] + rest && steps[1..][1..] == rest;
  }

  lemma OneSlot(s: System)
    requires s.phase.Waiting?
    ensures var x, y := TakeSlotStep(0, Blank()), SendStep(Blank(), None);
      && Enabled(s, x) && Enabled(Next(s, x), y)
      && var e := Next(Next(s, x), y);
         && e.phase.Waiting? && e.calls == s.calls && (s.core.queue == [] ==> e.core.queue == [])
         && e.core == s.core.(queue := e.core.queue, slots := e.core.slots)
  {
  }

  lemma {:induction false} SlotRun(s: System, n: nat)
    requires s.phase.Waiting?
    ensures Reaches(s, SlotSteps(n)) && SlotsTaken(SlotSteps(n)) == n && !Drains(SlotSteps(n))
    ensures var e := After(s, SlotSteps(n));
      && e.phase.Waiting? && e.calls == s.calls && (s.core.queue == [] ==> e.core.queue == [])
      && e.core == s.core.(queue := e.core.queue, slots := e.core.slots)
    decreases n
  {
    if n > 0 {
      var x, y := TakeSlotStep(0, Blank()), SendStep(Blank(), None);
      OneSlot(s);
      SlotRun(Next(Next(s, x), y), n - 1);
      TwoSteps(s, x, y, SlotSteps(n - 1));
      var steps := SlotSteps(n);
      forall i | 0 <= i < |steps| ensures !steps[i].DrainQueue? {
        assert i >= 2 ==> steps[i] == SlotSteps(n - 1)[i - 2];
      }
    }
  }

  lemma {:induction false} EnqueueRun(s: System, t: nat, n: nat)
    requires s.core.terminal.None? && s.core.reservations == 0 && |s.core.queue| + n <= s.core.maxQueue
    requires forall u: nat :: u in s.calls ==> u < t
    ensures Reaches(s, EnqueueSteps(t, n)) && SlotsTaken(EnqueueSteps(t, n)) == 0
    ensures var e := After(s, EnqueueSteps(t, n));
      e.phase == s.phase && |e.core.queue| == |s.core.queue| + n && e.core.slots == s.core.slots
    decreases n
  {
    if n > 0 {
      var x, y := BeginEnqueue(t), CommitEnqueue(t, 0, Blank());
      var m := Next(Next(s, x), y);
      EnqueueRun(m, t + 1, n - 1);
      TwoSteps(s, x, y, EnqueueSteps(t + 1, n - 1));
    }
  }

  /** Five idle slots, and then p + 1 packets. */
  function Prelude(p: nat): seq<Step>
  {
    [StartRun] + SlotSteps(5) + EnqueueSteps(0, p + 1)
  }

  lemma PreludeRun(maxQueue: nat, p: nat)
    requires p < maxQueue
    ensures Reaches(Initially(maxQueue), Prelude(p))
    ensures var s := After(Initially(maxQueue), Prelude(p)); s.phase.Waiting? && |s.core.queue| == p + 1 && s.core.slots == 5
  {
    var first := Initially(maxQueue);
    var started := Next(first, StartRun);
    assert [StartRun][1..] == [];
    assert Reaches(first, [StartRun]) && After(first, [StartRun]) == started;
    SlotRun(started, 5);
    SlotCounter(started, SlotSteps(5));
    Chain(first, [StartRun], SlotSteps(5));
    var idle := After(started, SlotSteps(5));
    EnqueueRun(idle, 0, p + 1);
    Chain(first, [StartRun] + SlotSteps(5), EnqueueSteps(0, p + 1));
  }

  lemma CarryingBeforePoll(p: nat)
    ensures CarryingSlots(5, p + 1 + p / 5) == p
  {
    CarryingSlotsCount(5, p + 1 + p / 5);
  }

  lemma StillQueued(s: System, steps: seq<Step>, p: nat)
    requires Reaches(s, steps) && p < |s.core.queue| && !Drains(steps)
    requires s.core.slots == 5 && SlotsTaken(steps) == p + 1 + p / 5 && 5 + SlotsTaken(steps) < TWO64
    ensures s.core.queue[p].ticket in Tickets(After(s, steps).core.queue)
  {
    CarryingBeforePoll(p);
    StaysUntil(s, steps, p);
    InTickets(After(s, steps).core.queue, 0);
  }

  /** The bound is met: for every position there is a reachable state and a run of one slot fewer after which the
      packet is still queued. */
  lemma WaitingTimeIsTight(maxQueue: nat, p: nat)
    requires p < maxQueue && 6 + p + p / 5 < TWO64
    ensures Reaches(Initially(maxQueue), Prelude(p))
    ensures var s := After(Initially(maxQueue), Prelude(p)); var steps := SlotSteps(p + 1 + p / 5);
      && p < |s.core.queue| && Reaches(s, steps) && SlotsTaken(steps) == p + 1 + p / 5
      && s.core.queue[p].ticket in Tickets(After(s, steps).core.queue)
  {
    PreludeRun(maxQueue, p);
    var s := After(Initially(maxQueue), Prelude(p));
    SlotRun(s, p + 1 + p / 5);
    StillQueued(s, SlotSteps(p + 1 + p / 5), p);
  }
}
