/** What each ticket's result says about the run, and how a failure ends it. */
module SchedulerResults {
  import opened Bytes
  import opened Identities
  import opened Scheduler
  import opened SchedulerRuns

  // ---------- the states of a run ----------

  lemma {:induction false} Prefix(s: System, steps: seq<Step>, k: nat)
    requires Reaches(s, steps) && k <= |steps|
    ensures Reaches(s, steps[..k]) && Reaches(After(s, steps[..k]), steps[k..])
    ensures After(s, steps) == After(After(s, steps[..k]), steps[k..])
    decreases |steps|
  {
    if k == 0 {
      assert steps[..0] == [] && steps[0..] == steps;
    } else {
      Prefix(Next(s, steps[0]), steps[1..], k - 1);
      assert steps[..k][1..] == steps[1..][..k - 1] && steps[1..][k - 1..] == steps[k..] && steps[..k][0] == steps[0];
    }
  }

  /** The state after the first `k` steps. */
  ghost function StateAt(s: System, steps: seq<Step>, k: nat): System
    requires Reaches(s, steps) && k <= |steps|
  {
    Prefix(s, steps, k);
    After(s, steps[..k])
  }

  lemma StateNext(s: System, steps: seq<Step>, k: nat)
    requires Reaches(s, steps) && k < |steps|
    ensures Enabled(StateAt(s, steps, k), steps[k]) && StateAt(s, steps, k + 1) == Next(StateAt(s, steps, k), steps[k])
  {
    Prefix(s, steps, k + 1);
    Prefix(s, steps[..k + 1], k);
    assert steps[..k + 1][..k] == steps[..k] && steps[..k + 1][k..] == [steps[k]];
    assert [steps[k]][1..] == [];
  }

  lemma StateEnds(s: System, steps: seq<Step>)
    requires Reaches(s, steps)
    ensures StateAt(s, steps, 0) == s && StateAt(s, steps, |steps|) == After(s, steps)
  {
    assert steps[..0] == [] && steps[..|steps|] == steps;
  }

  lemma InvariantAt(s: System, steps: seq<Step>, k: nat)
    requires Invariant(s) && Reaches(s, steps) && k <= |steps|
    ensures Invariant(StateAt(s, steps, k))
  {
    Prefix(s, steps, k);
    RunKeepsInvariant(s, steps[..k]);
  }

  // ---------- a failure ends the run ----------

  /** The error with which a step makes Run give up. */
  function FailureOf(step: Step): Option<Error>
  {
    match step
    case StopRun(e) => Some(e)
    case PollFails(e) => Some(e)
    case SendStep(_, failure) => failure
    case _ => None
  }

  /** Run is on its way out, or gone, with this error. */
  predicate Stopping(s: System, e: Error)
  {
    s.phase == Closing(e) || s.phase == Closed(e) || (s.phase.Failing? && s.phase.error == e) || s.phase == Returned(e)
  }

  lemma StoppingStep(s: System, step: Step, e: Error)
    requires Invariant(s) && Stopping(s, e) && Enabled(s, step)
    ensures Stopping(Next(s, step), e) && Next(s, step).wire == s.wire
    ensures !step.TakeSlotStep? && !step.SendStep? && !step.StartRun? && FailureOf(step) == None
  {
  }

  lemma {:induction false} StoppingAt(s: System, steps: seq<Step>, j: nat, k: nat, e: Error)
    requires Invariant(s) && Reaches(s, steps) && j <= k <= |steps| && Stopping(StateAt(s, steps, j), e)
    ensures Stopping(StateAt(s, steps, k), e) && StateAt(s, steps, k).wire == StateAt(s, steps, j).wire
    ensures k < |steps| ==> !steps[k].TakeSlotStep? && !steps[k].SendStep? && FailureOf(steps[k]) == None
    decreases k
  {
    if j < k {
      StoppingAt(s, steps, j, k - 1, e);
      InvariantAt(s, steps, k - 1);
      StateNext(s, steps, k - 1);
      StoppingStep(StateAt(s, steps, k - 1), steps[k - 1], e);
    }
    if k < |steps| {
      InvariantAt(s, steps, k);
      StateNext(s, steps, k);
      StoppingStep(StateAt(s, steps, k), steps[k], e);
    }
  }

  lemma FailureStops(s: System, steps: seq<Step>, k: nat, e: Error)
    requires Reaches(s, steps) && k < |steps| && FailureOf(steps[k]) == Some(e)
    ensures Stopping(StateAt(s, steps, k + 1), e)
  {
    StateNext(s, steps, k);
  }

  lemma QueuedIsOwed(s: System, t: nat)
    requires t in Tickets(s.core.queue)
    ensures t in Tickets(Owed(s))
  {
    var p :| 0 <= p < |s.core.queue| && s.core.queue[p].ticket == t;
    InTickets(Owed(s), |Owed(s)| - |s.core.queue| + p);
  }

  /** A failed send, a failed poll or a cancellation is final: nothing is sent and no slot is taken afterwards, no other
      failure follows, and Run can only return that error. */
  lemma FailureEndsRun(maxQueue: nat, steps: seq<Step>, k: nat, e: Error)
    requires Reaches(Initially(maxQueue), steps) && k < |steps| && FailureOf(steps[k]) == Some(e)
    ensures var first := Initially(maxQueue); var n := After(first, steps);
      && Stopping(n, e) && n.wire == StateAt(first, steps, k + 1).wire
      && (n.phase.Returned? ==> n.phase.error == e)
      && (forall j | k < j < |steps| :: !steps[j].TakeSlotStep? && !steps[j].SendStep? && FailureOf(steps[j]) == None)
  {
    var first := Initially(maxQueue);
    InitialInvariant(maxQueue);
    FailureStops(first, steps, k, e);
    forall j | k < j <= |steps|
      ensures Stopping(StateAt(first, steps, j), e) && StateAt(first, steps, j).wire == StateAt(first, steps, k + 1).wire
      ensures j < |steps| ==> !steps[j].TakeSlotStep? && !steps[j].SendStep? && FailureOf(steps[j]) == None
    {
      StoppingAt(first, steps, k + 1, j, e);
    }
    StateEnds(first, steps);
  }

  lemma StartsStopping(s: System, step: Step, e: Error)
    requires Enabled(s, step) && !Stopping(s, e) && Stopping(Next(s, step), e)
    ensures FailureOf(step) == Some(e)
  {
  }

  /** Run never stops without a failure: the error it ends with is that of some step. */
  lemma {:induction false} StopsBecause(maxQueue: nat, steps: seq<Step>, k: nat, e: Error)
    requires Reaches(Initially(maxQueue), steps) && k <= |steps| && Stopping(StateAt(Initially(maxQueue), steps, k), e)
    ensures exists j :: 0 <= j < k && FailureOf(steps[j]) == Some(e)
    decreases k
  {
    var first := Initially(maxQueue);
    StateEnds(first, steps);
    if k > 0 {
      StateNext(first, steps, k - 1);
      if Stopping(StateAt(first, steps, k - 1), e) {
        StopsBecause(maxQueue, steps, k - 1, e);
      } else {
        StartsStopping(StateAt(first, steps, k - 1), steps[k - 1], e);
      }
    }
  }

  lemma ResultKeptStep(s: System, step: Step, t: nat)
    requires Invariant(s) && Enabled(s, step) && |ResultsOf(s, t)| == 1
    ensures ResultsOf(Next(s, step), t) == ResultsOf(s, t)
  {
    OwedStep(s, step);
    if Delivers(s, step) {
      ChannelEmpty(s);
    }
  }

  lemma {:induction false} ResultKept(s: System, steps: seq<Step>, t: nat)
    requires Invariant(s) && Reaches(s, steps) && |ResultsOf(s, t)| == 1
    ensures ResultsOf(After(s, steps), t) == ResultsOf(s, t)
    decreases |steps|
  {
    if steps != [] {
      StepKeepsInvariant(s, steps[0]);
      ResultKeptStep(s, steps[0], t);
      ResultKept(Next(s, steps[0]), steps[1..], t);
    }
  }

  /** While Run stops, whoever still waits keeps waiting or is told the error. */
  lemma OwedWhileStopping(s: System, step: Step, e: Error, t: nat)
    requires Invariant(s) && Stopping(s, e) && Enabled(s, step) && t in Tickets(Owed(s))
    ensures t in Tickets(Owed(Next(s, step))) || ResultsOf(Next(s, step), t) == [RunFailed(e)]
  {
    OwedStep(s, step);
    StoppingStep(s, step, e);
    var i :| 0 <= i < |Owed(s)| && Owed(s)[i].ticket == t;
    if Delivers(s, step) {
      ChannelEmpty(s);
      if i > 0 {
        InTickets(Owed(Next(s, step)), i - 1);
      }
    } else {
      InTickets(Owed(Next(s, step)), i);
    }
  }

  lemma {:induction false} ToldAfterStop(s: System, steps: seq<Step>, e: Error, t: nat)
    requires Invariant(s) && Stopping(s, e) && Reaches(s, steps) && t in Tickets(Owed(s)) && After(s, steps).phase.Returned?
    ensures ResultsOf(After(s, steps), t) == [RunFailed(e)]
    decreases |steps|
  {
    if steps != [] {
      var n := Next(s, steps[0]);
      StepKeepsInvariant(s, steps[0]);
      StoppingStep(s, steps[0], e);
      OwedWhileStopping(s, steps[0], e, t);
      if t in Tickets(Owed(n)) {
        ToldAfterStop(n, steps[1..], e, t);
      } else {
        ResultKept(n, steps[1..], t);
      }
    }
  }

  /** Every ticket that is queued at any moment after the failure gets the error of the failure as its only result. */
  lemma FailureReachesQueue(maxQueue: nat, steps: seq<Step>, k: nat, e: Error, i: nat, t: nat)
    requires Reaches(Initially(maxQueue), steps) && k < i <= |steps| && FailureOf(steps[k]) == Some(e)
    requires t in Tickets(StateAt(Initially(maxQueue), steps, i).core.queue) && After(Initially(maxQueue), steps).phase.Returned?
    ensures ResultsOf(After(Initially(maxQueue), steps), t) == [RunFailed(e)]
  {
    var first := Initially(maxQueue);
    InitialInvariant(maxQueue);
    FailureStops(first, steps, k, e);
    StoppingAt(first, steps, k + 1, i, e);
    InvariantAt(first, steps, i);
    Prefix(first, steps, i);
    QueuedIsOwed(StateAt(first, steps, i), t);
    ToldAfterStop(StateAt(first, steps, i), steps[i..], e, t);
  }

  // ---------- results by content ----------

  /** Slot `j` takes packet `p` off the front of the queue. */
  ghost predicate Takes(s: System, steps: seq<Step>, j: nat, p: Packet)
    requires Reaches(s, steps)
  {
    j < |steps| && steps[j].TakeSlotStep? &&
    var q := StateAt(s, steps, j).core.queue;
    q != [] && q[0] == p && StateAt(s, steps, j + 1).core.queue == q[1..]
  }

  /** Slot `j` takes `p`, which has not expired, and its send, step `k`, puts exactly its data on the wire. */
  ghost predicate WentOut(s: System, steps: seq<Step>, p: Packet, j: nat, k: nat)
    requires Reaches(s, steps)
  {
    && Takes(s, steps, j, p) && steps[j].now <= p.expiresAt
    && j < k < |steps| && steps[k].SendStep? && (forall i | j < i < k :: !steps[i].SendStep?)
    && StateAt(s, steps, k + 1).wire == StateAt(s, steps, k).wire + [p.data]
  }

  /** Run is sending packet `p`, taken at `now`. */
  predicate Sending(s: System, p: Packet, now: Time)
  {
    s.phase.Dispatching? && s.phase.taken == Real(p) && s.phase.now == now
  }

  lemma TakenIsSending(s: System, steps: seq<Step>, j: nat, p: Packet)
    requires Reaches(s, steps) && Takes(s, steps, j, p)
    ensures steps[j].now <= p.expiresAt ==> Sending(StateAt(s, steps, j + 1), p, steps[j].now)
    ensures Enabled(StateAt(s, steps, j), steps[j]) && (steps[j].now > p.expiresAt ==> Delivers(StateAt(s, steps, j), steps[j]))
  {
    StateNext(s, steps, j);
    ShorterQueue(StateAt(s, steps, j).core.queue);
  }

  lemma ShorterQueue(q: seq<Packet>)
    requires q != []
    ensures q[1..] != q
  {
    assert |q[1..]| != |q|;
  }

  /** A packet being sent stays so until the send. */
  lemma {:induction false} SendingKept(s: System, steps: seq<Step>, j: nat, k: nat, p: Packet, now: Time)
    requires Invariant(s) && Reaches(s, steps) && j <= k <= |steps| && Sending(StateAt(s, steps, j), p, now)
    requires forall i | j <= i < k :: !steps[i].SendStep?
    ensures Sending(StateAt(s, steps, k), p, now)
    decreases k
  {
    if j < k {
      SendingKept(s, steps, j, k - 1, p, now);
      StateNext(s, steps, k - 1);
      InvariantAt(s, steps, k - 1);
      StillSending(StateAt(s, steps, k - 1), steps[k - 1], p, now);
    }
  }

  lemma StillSending(s: System, step: Step, p: Packet, now: Time)
    requires Invariant(s) && Enabled(s, step) && Sending(s, p, now) && !step.SendStep?
    ensures Sending(Next(s, step), p, now)
  {
  }

  /** A state that sends a packet got it from a slot. */
  lemma {:induction false} SendingBecause(maxQueue: nat, steps: seq<Step>, k: nat, p: Packet, now: Time) returns (j: nat)
    requires Reaches(Initially(maxQueue), steps) && k <= |steps| && Sending(StateAt(Initially(maxQueue), steps, k), p, now)
    ensures j < k && Takes(Initially(maxQueue), steps, j, p) && steps[j].now == now <= p.expiresAt
    ensures forall i | j < i < k :: !steps[i].SendStep?
    decreases k
  {
    var first := Initially(maxQueue);
    StateEnds(first, steps);
    StateNext(first, steps, k - 1);
    var s := StateAt(first, steps, k - 1);
    if Sending(s, p, now) {
      j := SendingBecause(maxQueue, steps, k - 1, p, now);
      StepWhileSending(s, steps[k - 1], p, now);
    } else {
      j := k - 1;
      StartsSending(s, steps[k - 1], p, now);
    }
  }

  lemma StepWhileSending(s: System, step: Step, p: Packet, now: Time)
    requires Enabled(s, step) && Sending(s, p, now) && Sending(Next(s, step), p, now)
    ensures !step.SendStep?
  {
  }

  lemma StartsSending(s: System, step: Step, p: Packet, now: Time)
    requires Enabled(s, step) && Sending(Next(s, step), p, now) && !Sending(s, p, now)
    ensures step.TakeSlotStep? && step.now == now <= p.expiresAt
    ensures s.core.queue != [] && s.core.queue[0] == p && Next(s, step).core.queue == s.core.queue[1..]
  {
  }

  /** The send of a packet: its data goes out, and its ticket is told how that went. */
  lemma SendTells(s: System, step: Step, p: Packet, now: Time)
    requires Invariant(s) && Enabled(s, step) && Sending(s, p, now) && step.SendStep?
    ensures Next(s, step).wire == s.wire + [p.data]
    ensures ResultsOf(Next(s, step), p.ticket) == [if step.failure.None? then Sent(now) else SendFailed(step.failure.value)]
  {
    OwedStep(s, step);
    assert Owed(s)[0] == p;
    ChannelEmpty(s);
  }

  /** Where a new result comes from. */
  lemma NewResult(s: System, step: Step, t: nat)
    requires Invariant(s) && Enabled(s, step) && ResultsOf(s, t) == [] && ResultsOf(Next(s, step), t) != []
    ensures Delivers(s, step) && Owed(s) != [] && Owed(s)[0].ticket == t && ResultsOf(Next(s, step), t) == [Delivery(s, step)]
  {
    OwedStep(s, step);
  }

  lemma ResultKeptAt(s: System, steps: seq<Step>, k: nat, t: nat)
    requires Invariant(s) && Reaches(s, steps) && k < |steps| && ResultsOf(StateAt(s, steps, k), t) != []
    ensures ResultsOf(StateAt(s, steps, k + 1), t) == ResultsOf(StateAt(s, steps, k), t)
  {
    InvariantAt(s, steps, k);
    StateNext(s, steps, k);
    OneResult(StateAt(s, steps, k), t);
    ResultKeptStep(StateAt(s, steps, k), steps[k], t);
  }

  /** The step after which a ticket has its result. */
  lemma {:induction false} ToldAt(maxQueue: nat, steps: seq<Step>, n: nat, t: nat) returns (k: nat)
    requires Reaches(Initially(maxQueue), steps) && n <= |steps| && ResultsOf(StateAt(Initially(maxQueue), steps, n), t) != []
    ensures k < n && ResultsOf(StateAt(Initially(maxQueue), steps, k), t) == []
    ensures ResultsOf(StateAt(Initially(maxQueue), steps, k + 1), t) == ResultsOf(StateAt(Initially(maxQueue), steps, n), t) != []
    decreases n
  {
    var first := Initially(maxQueue);
    StateEnds(first, steps);
    StateNext(first, steps, n - 1);
    if ResultsOf(StateAt(first, steps, n - 1), t) == [] {
      k := n - 1;
    } else {
      k := ToldAt(maxQueue, steps, n - 1, t);
      InitialInvariant(maxQueue);
      ResultKeptAt(first, steps, n - 1, t);
    }
  }

  lemma OneResult(s: System, t: nat)
    requires Invariant(s) && ResultsOf(s, t) != []
    ensures |ResultsOf(s, t)| == 1
  {
  }

  /** Once told, always the same. */
  lemma ToldForGood(maxQueue: nat, steps: seq<Step>, k: nat, t: nat, o: Outcome)
    requires Reaches(Initially(maxQueue), steps) && k <= |steps| && ResultsOf(StateAt(Initially(maxQueue), steps, k), t) == [o]
    ensures ResultsOf(After(Initially(maxQueue), steps), t) == [o]
  {
    InitialInvariant(maxQueue);
    InvariantAt(Initially(maxQueue), steps, k);
    Prefix(Initially(maxQueue), steps, k);
    ResultKept(StateAt(Initially(maxQueue), steps, k), steps[k..], t);
  }

  lemma SendToldNext(s: System, steps: seq<Step>, p: Packet, j: nat, k: nat)
    requires Invariant(s) && Reaches(s, steps) && WentOut(s, steps, p, j, k)
    ensures ResultsOf(StateAt(s, steps, k + 1), p.ticket) ==
      [if steps[k].failure.None? then Sent(steps[j].now) else SendFailed(steps[k].failure.value)]
  {
    TakenIsSending(s, steps, j, p);
    SendingKept(s, steps, j + 1, k, p, steps[j].now);
    StateNext(s, steps, k);
    InvariantAt(s, steps, k);
    SendTells(StateAt(s, steps, k), steps[k], p, steps[j].now);
  }

  lemma SendToldForGood(s: System, steps: seq<Step>, p: Packet, j: nat, k: nat)
    requires Invariant(s) && Reaches(s, steps) && WentOut(s, steps, p, j, k)
    ensures ResultsOf(After(s, steps), p.ticket) ==
      [if steps[k].failure.None? then Sent(steps[j].now) else SendFailed(steps[k].failure.value)]
  {
    SendToldNext(s, steps, p, j, k);
    InvariantAt(s, steps, k + 1);
    Prefix(s, steps, k + 1);
    ResultKept(StateAt(s, steps, k + 1), steps[k + 1..], p.ticket);
  }

  lemma WentOutTells(maxQueue: nat, steps: seq<Step>, p: Packet, j: nat, k: nat)
    requires Reaches(Initially(maxQueue), steps) && WentOut(Initially(maxQueue), steps, p, j, k)
    ensures ResultsOf(After(Initially(maxQueue), steps), p.ticket) ==
      [if steps[k].failure.None? then Sent(steps[j].now) else SendFailed(steps[k].failure.value)]
  {
    InitialInvariant(maxQueue);
    SendToldForGood(Initially(maxQueue), steps, p, j, k);
  }

  lemma SendBehind(maxQueue: nat, steps: seq<Step>, k: nat, t: nat) returns (p: Packet, j: nat)
    requires Reaches(Initially(maxQueue), steps) && k < |steps| && steps[k].SendStep?
    requires ResultsOf(StateAt(Initially(maxQueue), steps, k), t) == [] && ResultsOf(StateAt(Initially(maxQueue), steps, k + 1), t) != []
    ensures p.ticket == t && WentOut(Initially(maxQueue), steps, p, j, k)
  {
    var first := Initially(maxQueue);
    InitialInvariant(maxQueue);
    InvariantAt(first, steps, k);
    StateNext(first, steps, k);
    var s := StateAt(first, steps, k);
    NewResult(s, steps[k], t);
    p := s.phase.taken.packet;
    assert Owed(s)[0] == p;
    SendTells(s, steps[k], p, s.phase.now);
    j := SendingBecause(maxQueue, steps, k, p, s.phase.now);
  }

  /** A ticket is told "sent at this time" if and only if a slot of that time took its unexpired packet and its data went
      out without failure, and "failed with this error" if and only if that send failed with it. */
  lemma SentIff(maxQueue: nat, steps: seq<Step>, t: nat, o: Outcome)
    requires Reaches(Initially(maxQueue), steps) && (o.Sent? || o.SendFailed?)
    ensures o in ResultsOf(After(Initially(maxQueue), steps), t) <==>
      exists p: Packet, j: nat, k: nat :: WentOut(Initially(maxQueue), steps, p, j, k) && p.ticket == t &&
        (o.Sent? ==> steps[k].failure == None && steps[j].now == o.at) && (o.SendFailed? ==> steps[k].failure == Some(o.error))
  {
    var first := Initially(maxQueue);
    if o in ResultsOf(After(first, steps), t) {
      var p, j, k := SentBecause(maxQueue, steps, t, o);
    }
    forall p: Packet, j: nat, k: nat | WentOut(first, steps, p, j, k) && p.ticket == t
      ensures ResultsOf(After(first, steps), t) == [if steps[k].failure.None? then Sent(steps[j].now) else SendFailed(steps[k].failure.value)]
    {
      WentOutTells(maxQueue, steps, p, j, k);
    }
  }

  lemma SentBecause(maxQueue: nat, steps: seq<Step>, t: nat, o: Outcome) returns (p: Packet, j: nat, k: nat)
    requires Reaches(Initially(maxQueue), steps) && (o.Sent? || o.SendFailed?) && o in ResultsOf(After(Initially(maxQueue), steps), t)
    ensures WentOut(Initially(maxQueue), steps, p, j, k) && p.ticket == t
    ensures (o.Sent? ==> steps[k].failure == None && steps[j].now == o.at) && (o.SendFailed? ==> steps[k].failure == Some(o.error))
  {
    k := SendToldAt(maxQueue, steps, t, o);
    p, j := SendBehind(maxQueue, steps, k, t);
    WentOutTells(maxQueue, steps, p, j, k);
    OneOutcome(maxQueue, steps, t, o);
  }

  lemma OneOutcome(maxQueue: nat, steps: seq<Step>, t: nat, o: Outcome)
    requires Reaches(Initially(maxQueue), steps) && o in ResultsOf(After(Initially(maxQueue), steps), t)
    ensures ResultsOf(After(Initially(maxQueue), steps), t) == [o]
  {
    InitialInvariant(maxQueue);
    RunKeepsInvariant(Initially(maxQueue), steps);
    OneResult(After(Initially(maxQueue), steps), t);
  }

  /** The step that told a ticket, which is a send, a slot or a failing of the queue, by the outcome. */
  lemma ToldBy(maxQueue: nat, steps: seq<Step>, t: nat, o: Outcome) returns (k: nat)
    requires Reaches(Initially(maxQueue), steps) && o in ResultsOf(After(Initially(maxQueue), steps), t)
    ensures k < |steps| && ResultsOf(StateAt(Initially(maxQueue), steps, k), t) == []
    ensures ResultsOf(StateAt(Initially(maxQueue), steps, k + 1), t) == [o]
    ensures var s := StateAt(Initially(maxQueue), steps, k);
      Enabled(s, steps[k]) && Invariant(s) && Delivers(s, steps[k]) && o == Delivery(s, steps[k]) && Owed(s) != [] && Owed(s)[0].ticket == t
  {
    var first := Initially(maxQueue);
    StateEnds(first, steps);
    OneOutcome(maxQueue, steps, t, o);
    k := ToldAt(maxQueue, steps, |steps|, t);
    InitialInvariant(maxQueue);
    InvariantAt(first, steps, k);
    StateNext(first, steps, k);
    NewResult(StateAt(first, steps, k), steps[k], t);
  }

  lemma SendToldAt(maxQueue: nat, steps: seq<Step>, t: nat, o: Outcome) returns (k: nat)
    requires Reaches(Initially(maxQueue), steps) && (o.Sent? || o.SendFailed?) && o in ResultsOf(After(Initially(maxQueue), steps), t)
    ensures k < |steps| && steps[k].SendStep? && ResultsOf(StateAt(Initially(maxQueue), steps, k), t) == []
    ensures ResultsOf(StateAt(Initially(maxQueue), steps, k + 1), t) == [o]
  {
    k := ToldBy(maxQueue, steps, t, o);
  }

  /** A ticket is told that its command expired if and only if a slot took its packet after the expiry. */
  lemma ExpiredIff(maxQueue: nat, steps: seq<Step>, t: nat)
    requires Reaches(Initially(maxQueue), steps)
    ensures CommandExpired in ResultsOf(After(Initially(maxQueue), steps), t) <==>
      exists p: Packet, j: nat :: Takes(Initially(maxQueue), steps, j, p) && p.ticket == t && p.expiresAt < steps[j].now
  {
    var first := Initially(maxQueue);
    if CommandExpired in ResultsOf(After(first, steps), t) {
      var p, j := ExpiredBecause(maxQueue, steps, t);
    }
    forall p: Packet, j: nat | Takes(first, steps, j, p) && p.ticket == t && p.expiresAt < steps[j].now
      ensures CommandExpired in ResultsOf(After(first, steps), t)
    {
      ExpiryTells(maxQueue, steps, p, j);
    }
  }

  lemma ExpiredBecause(maxQueue: nat, steps: seq<Step>, t: nat) returns (p: Packet, j: nat)
    requires Reaches(Initially(maxQueue), steps) && CommandExpired in ResultsOf(After(Initially(maxQueue), steps), t)
    ensures Takes(Initially(maxQueue), steps, j, p) && p.ticket == t && p.expiresAt < steps[j].now
  {
    j := ToldBy(maxQueue, steps, t, CommandExpired);
    StateNext(Initially(maxQueue), steps, j);
    p := StateAt(Initially(maxQueue), steps, j).core.queue[0];
  }

  lemma ExpiryTells(maxQueue: nat, steps: seq<Step>, p: Packet, j: nat)
    requires Reaches(Initially(maxQueue), steps) && Takes(Initially(maxQueue), steps, j, p) && p.expiresAt < steps[j].now
    ensures ResultsOf(After(Initially(maxQueue), steps), p.ticket) == [CommandExpired]
  {
    var first := Initially(maxQueue);
    InitialInvariant(maxQueue);
    InvariantAt(first, steps, j);
    StateNext(first, steps, j);
    TakenIsSending(first, steps, j, p);
    var s := StateAt(first, steps, j);
    OwedStep(s, steps[j]);
    assert Owed(s)[0] == p;
    ChannelEmpty(s);
    ToldForGood(maxQueue, steps, j + 1, p.ticket, CommandExpired);
  }

  /** A ticket is told that the run failed only with the error of a step that ended it. */
  lemma RunFailedBecause(maxQueue: nat, steps: seq<Step>, t: nat, e: Error)
    requires Reaches(Initially(maxQueue), steps) && RunFailed(e) in ResultsOf(After(Initially(maxQueue), steps), t)
    ensures exists j :: 0 <= j < |steps| && FailureOf(steps[j]) == Some(e)
  {
    var k := ToldBy(maxQueue, steps, t, RunFailed(e));
    StopsBecause(maxQueue, steps, k, e);
  }

  // ---------- what is queued was enqueued ----------

  lemma CommittedStep(s: System, step: Step, p: Packet)
    requires Enabled(s, step) && p in Next(s, step).core.queue && p !in s.core.queue
    ensures step == CommitEnqueue(p.ticket, p.expiresAt, p.data)
  {
    QueueAfter(s, step);
  }

  /** Every packet ever queued carries ticket, expiry and data of one call of Enqueue. */
  lemma {:induction false} QueuedWasCommitted(maxQueue: nat, steps: seq<Step>, k: nat, p: Packet)
    requires Reaches(Initially(maxQueue), steps) && k <= |steps| && p in StateAt(Initially(maxQueue), steps, k).core.queue
    ensures exists i :: 0 <= i < k && steps[i] == CommitEnqueue(p.ticket, p.expiresAt, p.data)
    decreases k
  {
    var first := Initially(maxQueue);
    StateEnds(first, steps);
    if k > 0 {
      StateNext(first, steps, k - 1);
      if p in StateAt(first, steps, k - 1).core.queue {
        QueuedWasCommitted(maxQueue, steps, k - 1, p);
      } else {
        CommittedStep(StateAt(first, steps, k - 1), steps[k - 1], p);
      }
    }
  }

  // ---------- who gets a ticket ----------

  /** Run has ended: it is failing the queue or has returned. */
  predicate RunEnded(s: System)
  {
    s.phase.Closed? || s.phase.Failing? || s.phase.Returned?
  }

  /** The calls of Enqueue that are preparing their packet, each of which holds a place. */
  function Preparers(s: System): set<nat>
  {
    set t | t in s.calls && s.calls[t] == Preparing
  }

  /** In every reachable state a call of Enqueue is turned away at once exactly if Run has ended or the queued packets and
      the calls still preparing fill the queue; a prepared packet is queued exactly if Run has not ended meanwhile. */
  lemma TicketIff(maxQueue: nat, steps: seq<Step>, t: nat, expiresAt: Time, data: Bytes)
    requires Reaches(Initially(maxQueue), steps)
    ensures var s := After(Initially(maxQueue), steps);
      && (Enabled(s, BeginEnqueue(t)) ==>
           (Next(s, BeginEnqueue(t)).calls[t] == if RunEnded(s) || |s.core.queue| + |Preparers(s)| >= maxQueue then Refused else Preparing))
      && (Enabled(s, CommitEnqueue(t, expiresAt, data)) ==>
           var n := Next(s, CommitEnqueue(t, expiresAt, data));
           if RunEnded(s) then n.calls[t] == Refused && n.core.queue == s.core.queue
           else n.calls[t] == Ticketed && n.core.queue == s.core.queue + [Packet(t, expiresAt, data)])
  {
    InitialInvariant(maxQueue);
    RunKeepsInvariant(Initially(maxQueue), steps);
    MaxQueueConstant(Initially(maxQueue), steps);
    assert Preparers(After(Initially(maxQueue), steps)) == PreparingCalls(After(Initially(maxQueue), steps));
  }
}
