/** The constant-rate scheduler and the sections it runs under its mutex (mixtransport/scheduler.go). */
module Scheduler {
  import opened Bytes
  import opened Identities

  const PACKET_BYTES := 8 * 1024
  const POLL_EVERY_SLOTS := 6

  /** A prepared command waiting for a slot. `ticket` names its one-place result channel. */
  datatype Packet = Packet(ticket: nat, expiresAt: Time, data: Bytes)

  datatype Error = QueueFull | Terminated | Provider | Transport | Discontinuity | Cancelled

  /** The fields the mutex guards. */
  datatype Core = Core(maxQueue: nat, queue: seq<Packet>, reservations: int, slots: U64,
                       running: bool, terminal: Option<Error>)

  datatype Taken = Poll | Idle | Expired(packet: Packet) | Real(packet: Packet)

  // ---------- the locked sections as functions ----------

  predicate MayReserve(c: Core)
  {
    c.terminal.None? && |c.queue| + c.reservations < c.maxQueue
  }

  function Reserved(c: Core): Core
  {
    if MayReserve(c) then c.(reservations := c.reservations + 1) else c
  }

  function Released(c: Core): Core
  {
    c.(reservations := c.reservations - 1)
  }

  function Committed(c: Core, p: Packet): Core
  {
    if c.terminal.Some? then Released(c) else Released(c).(queue := c.queue + [p])
  }

  predicate MayStart(c: Core)
  {
    !c.running && c.terminal.None?
  }

  /** The slot counter is a 64-bit unsigned integer and wraps around. */
  function NextSlot(slots: U64): U64
  {
    (slots + 1) % TWO64
  }

  predicate IsPollSlot(slot: U64)
  {
    slot % POLL_EVERY_SLOTS == 0
  }

  function TakenAt(c: Core, now: Time): Taken
  {
    if IsPollSlot(NextSlot(c.slots)) then Poll
    else if c.queue == [] then Idle
    else if now > c.queue[0].expiresAt then Expired(c.queue[0])
    else Real(c.queue[0])
  }

  function AfterSlot(c: Core, now: Time): Core
  {
    var slot := NextSlot(c.slots);
    c.(slots := slot, queue := if IsPollSlot(slot) || c.queue == [] then c.queue else c.queue[1..])
  }

  function Ended(c: Core, e: Error): Core
  {
    c.(running := false, terminal := Some(e))
  }

  function Drained(c: Core): Core
  {
    c.(queue := [])
  }

  /** The mutable scheduler: one method per section between Lock and Unlock. */
  class MixScheduler {
    const maxQueue: nat
    var queue: seq<Packet>
    var reservations: int
    var slots: U64
    var running: bool
    var terminal: Option<Error>

    function View(): Core
      reads this
    {
      Core(maxQueue, queue, reservations, slots, running, terminal)
    }

    constructor (maxQueue: nat)
      ensures View() == Core(maxQueue, [], 0, 0, false, None)
    {
      this.maxQueue := maxQueue;
      queue, reservations, slots, running, terminal := [], 0, 0, false, None;
    }

    /** The first section of Enqueue. */
    method Reserve() returns (e: Option<Error>)
      modifies this
      ensures View() == Reserved(old(View()))
      ensures e == if old(terminal).Some? then old(terminal)
                   else if MayReserve(old(View())) then None else Some(QueueFull)
    {
      if terminal.Some? {
        return terminal;
      }
      if |queue| + reservations >= maxQueue {
        return Some(QueueFull);
      }
      reservations := reservations + 1;
      return None;
    }

    /** The deferred section of an Enqueue that failed after reserving. */
    method Release()
      modifies this
      ensures View() == Released(old(View()))
    {
      reservations := reservations - 1;
    }

    /** The last section of Enqueue: gives up the reservation and either refuses or queues. */
    method Commit(p: Packet) returns (e: Option<Error>)
      modifies this
      ensures View() == Committed(old(View()), p) && e == old(terminal)
    {
      reservations := reservations - 1;
      if terminal.Some? {
        return terminal;
      }
      queue := queue + [p];
      return None;
    }

    method Start() returns (ok: bool)
      modifies this
      ensures ok == MayStart(old(View()))
      ensures View() == if ok then old(View()).(running := true) else old(View())
    {
      if running || terminal.Some? {
        return false;
      }
      running := true;
      return true;
    }

    /** The section of dispatchSlot that counts the slot and takes the queue head. */
    method TakeSlot(now: Time) returns (taken: Taken)
      modifies this
      ensures taken == TakenAt(old(View()), now) && View() == AfterSlot(old(View()), now)
    {
      slots := (slots + 1) % TWO64;
      if slots % POLL_EVERY_SLOTS == 0 {
        return Poll;
      }
      if |queue| == 0 {
        return Idle;
      }
      var candidate := queue[0];
      queue := queue[1..];
      if now > candidate.expiresAt {
        return Expired(candidate);
      }
      return Real(candidate);
    }

    /** The deferred section of Run. */
    method End(e: Error)
      modifies this
      ensures View() == Ended(old(View()), e)
    {
      running := false;
      terminal := Some(e);
    }

    /** The section of failQueued. */
    method Drain() returns (queued: seq<Packet>)
      modifies this
      ensures queued == old(queue) && View() == Drained(old(View()))
    {
      queued := queue;
      queue := [];
    }
  }
}
