/** Direct calls: signed signals, the replay cache and the concurrency limit (call/call.go). */
module Calls {
  import opened Bytes
  import opened Identities
  import Totals

  const SIGNAL_VERSION := 1
  const MAX_SDP_BYTES := 64 * 1024
  const MAX_REMEMBERED := 4096
  const MAX_SIGNAL_LIFETIME := 5 * MINUTE
  const CLOCK_SKEW := 2 * MINUTE
  /** How long the endpoint remembers a call ID. */
  const MEMORY := MAX_SIGNAL_LIFETIME + CLOCK_SKEW

  datatype Kind = Offer | Answer

  datatype Signal = Signal(
    version: int, callId: Bytes, kind: Kind, initiator: Bytes, responder: Bytes,
    createdAt: Time, expiresAt: Time, audio: bool, video: bool, sdp: Bytes, signature: Signature)

  /** Signature, call-ID and SDP checks, taken as given. */
  datatype Checks = Checks(
    validIdentity: Identity -> bool,
    validCallId: Bytes -> bool,
    signed: (Identity, Signal) -> bool,
    validSdp: (Bytes, bool, bool) -> bool)

  /** The rules about time in `verifySignal`. */
  predicate InTime(s: Signal, now: Time)
  {
    && s.createdAt <= now + CLOCK_SKEW && now < s.expiresAt
    && s.createdAt < s.expiresAt && s.expiresAt - s.createdAt <= MAX_SIGNAL_LIFETIME
  }

  predicate Verifies(c: Checks, s: Signal, kind: Kind, signer: Identity, local: Bytes, now: Time)
  {
    && c.validIdentity(signer) && s.version == SIGNAL_VERSION && s.kind == kind && c.validCallId(s.callId)
    && s.initiator != [] && s.responder != [] && s.initiator != s.responder
    && signer.nodeId == (if kind.Answer? then s.responder else s.initiator)
    && local == (if kind.Answer? then s.initiator else s.responder)
    && InTime(s, now)
    && (s.audio || s.video) && 0 < |s.sdp| <= MAX_SDP_BYTES && 0 !in s.sdp
    && c.signed(signer, s) && c.validSdp(s.sdp, s.audio, s.video)
  }

  /** A well-formed signal between two different parties, signed by one of them, within its lifetime of at most five
      minutes and with clocks at most two minutes apart. */
  predicate SignedBetween(c: Checks, s: Signal, initiator: Bytes, responder: Bytes, signer: Identity, now: Time)
  {
    && s.initiator == initiator && s.responder == responder && initiator != responder && initiator != [] && responder != []
    && c.validIdentity(signer) && c.signed(signer, s) && s.version == 1 && c.validCallId(s.callId)
    && s.createdAt - 2 * MINUTE <= now < s.expiresAt <= s.createdAt + 5 * MINUTE && s.createdAt < s.expiresAt
    && (s.audio || s.video) && c.validSdp(s.sdp, s.audio, s.video) && s.sdp != [] && |s.sdp| <= 65536 && forall i :: 0 <= i < |s.sdp| ==> s.sdp[i] != 0
  }

  /** An offer is taken exactly if its signer is its initiator and the receiver its responder. */
  lemma OfferIff(c: Checks, s: Signal, signer: Identity, local: Bytes, now: Time)
    ensures Verifies(c, s, Offer, signer, local, now) <==> s.kind == Offer && SignedBetween(c, s, signer.nodeId, local, signer, now)
  {
  }

  /** An answer is taken exactly if its signer is the responder and the receiver the initiator. */
  lemma AnswerIff(c: Checks, s: Signal, signer: Identity, local: Bytes, now: Time)
    ensures Verifies(c, s, Answer, signer, local, now) <==> s.kind == Answer && SignedBetween(c, s, local, signer.nodeId, signer, now)
  {
  }

  /** A verified signal has lapsed by the time its call ID may be forgotten. */
  lemma LapsesBeforeForgotten(s: Signal, verified: Time, acquired: Time)
    requires InTime(s, verified) && verified <= acquired
    ensures s.expiresAt <= acquired + MEMORY
  {
  }

  // ---------- the endpoint ----------

  datatype Verdict = Granted | Replay | Limit

  datatype Core = Core(active: nat, seen: map<Bytes, Time>)

  /** The remembered IDs that have not expired. */
  function Live(seen: map<Bytes, Time>, now: Time): map<Bytes, Time>
  {
    map id | id in seen && now < seen[id] :: seen[id]
  }

  function Judge(max: nat, c: Core, id: Bytes, now: Time): Verdict
  {
    var live := Live(c.seen, now);
    if id != [] && id in live then Replay
    else if id != [] && |live| >= MAX_REMEMBERED then Limit
    else if c.active >= max then Limit
    else Granted
  }

  function Acquired(max: nat, c: Core, id: Bytes, now: Time): Core
  {
    var live := Live(c.seen, now);
    if !Judge(max, c, id, now).Granted? then Core(c.active, live)
    else Core(c.active + 1, if id == [] then live else live[id := now + MEMORY])
  }

  function Released(c: Core): Core
  {
    if c.active > 0 then c.(active := c.active - 1) else c
  }

  class Endpoint {
    const maxConcurrent: nat
    const identity: Identity
    var active: nat
    var seen: map<Bytes, Time>

    function View(): Core
      reads this
    {
      Core(active, seen)
    }

    constructor (maxConcurrent: nat, identity: Identity)
      ensures this.maxConcurrent == maxConcurrent && this.identity == identity && View() == Core(0, map[])
    {
      this.maxConcurrent, this.identity, active, seen := maxConcurrent, identity, 0, map[];
    }

    /** Drop the expired call IDs one by one. */
    method Expire(now: Time)
      modifies `seen
      ensures seen == Live(old(seen), now)
    {
      var ids := seen.Keys;
      while ids != {}
        invariant ids <= old(seen).Keys && seen.Keys <= old(seen).Keys
        invariant forall id :: id in old(seen) ==> (id in seen <==> id in ids || now < old(seen)[id])
        invariant forall id :: id in seen ==> seen[id] == old(seen)[id]
        decreases |ids|
      {
        ghost var some := Totals.Pick(ids);
        assert some in ids;
        var id :| id in ids;
        if seen[id] <= now {
          seen := seen - {id};
        }
        ids := ids - {id};
      }
    }

    method Acquire(id: Bytes, now: Time) returns (v: Verdict)
      modifies this
      ensures v == Judge(maxConcurrent, old(View()), id, now)
      ensures View() == Acquired(maxConcurrent, old(View()), id, now)
    {
      Expire(now);
      if id != [] {
        if id in seen {
          return Replay;
        }
        if |seen| >= MAX_REMEMBERED {
          return Limit;
        }
      }
      if active >= maxConcurrent {
        return Limit;
      }
      if id != [] {
        seen := seen[id := now + MEMORY];
      }
      active := active + 1;
      v := Granted;
    }

    method Release()
      modifies `active
      ensures View() == Released(old(View()))
    {
      if active > 0 {
        active := active - 1;
      }
    }

    /** Answer an offer. `setup` says whether the peer connection and the signed answer could be made. */
    method Accept(c: Checks, remote: Identity, offer: Signal, checkedAt: Time, acquiredAt: Time, setup: bool) returns (r: Option<Session>)
      modifies this
      ensures !Verifies(c, offer, Offer, remote, identity.nodeId, checkedAt) ==> r.None? && View() == old(View())
      ensures Verifies(c, offer, Offer, remote, identity.nodeId, checkedAt) ==>
        && (r.Some? <==> setup && Judge(maxConcurrent, old(View()), offer.callId, acquiredAt).Granted?)
        && seen == Acquired(maxConcurrent, old(View()), offer.callId, acquiredAt).seen
      ensures active == old(active) + (if r.Some? then 1 else 0)
      ensures r.Some? ==> fresh(r.value) && r.value.Valid() && r.value.release == this && r.value.callId == offer.callId
      ensures r.Some? ==> r.value.remote == remote && r.value.local == identity.nodeId && !r.value.initiator
      ensures r.Some? ==> offer.kind == Offer && SignedBetween(c, offer, remote.nodeId, identity.nodeId, remote, checkedAt)
    {
      OfferIff(c, offer, remote, identity.nodeId, checkedAt);
      if !Verifies(c, offer, Offer, remote, identity.nodeId, checkedAt) {
        return None;
      }
      var v := Acquire(offer.callId, acquiredAt);
      if !v.Granted? {
        return None;
      }
      if !setup {
        Release();
        return None;
      }
      var session := new Session(this, offer.callId, remote, false);
      r := Some(session);
    }

    predicate Callable(c: Checks, remote: Identity, audio: bool, video: bool)
    {
      c.validIdentity(remote) && remote.nodeId != identity.nodeId && (audio || video)
    }

    /** Place a call. */
    method Start(c: Checks, remote: Identity, audio: bool, video: bool, callId: Bytes, now: Time, setup: bool) returns (r: Option<Session>)
      modifies this
      ensures r.Some? <==>
        && c.validIdentity(remote) && remote.nodeId != identity.nodeId && (audio || video)
        && old(active) < maxConcurrent && setup
      ensures active == old(active) + (if r.Some? then 1 else 0)
      ensures seen == if Callable(c, remote, audio, video) then Live(old(seen), now) else old(seen)
      ensures r.Some? ==> fresh(r.value) && r.value.Valid() && r.value.release == this && r.value.callId == callId && r.value.initiator
      ensures r.Some? ==> r.value.remote == remote && r.value.local == identity.nodeId
    {
      if !Callable(c, remote, audio, video) {
        return None;
      }
      var v := Acquire([], now);
      if !v.Granted? {
        return None;
      }
      if !setup {
        Release();
        return None;
      }
      var session := new Session(this, callId, remote, true);
      r := Some(session);
    }
  }

  // ---------- a session ----------

  datatype AnswerResult = Applied | Closed | AlreadyUsed | Invalid

  class Session {
    const callId: Bytes
    const local: Bytes
    const remote: Identity
    const initiator: bool
    var release: Endpoint?
    var answerApplied: bool
    var closed: bool

    /** The endpoint's slot is held exactly until the session is closed. */
    predicate Valid()
      reads this
    {
      closed <==> release == null
    }

    constructor (endpoint: Endpoint, callId: Bytes, remote: Identity, initiator: bool)
      ensures Valid() && release == endpoint && !answerApplied && !closed
      ensures this.callId == callId && this.local == endpoint.identity.nodeId && this.remote == remote && this.initiator == initiator
    {
      this.callId, this.local, this.remote, this.initiator := callId, endpoint.identity.nodeId, remote, initiator;
      release, answerApplied, closed := endpoint, false, false;
    }

    /** The first Close gives the slot back, whatever closing the peer connection reports; every later one does
        nothing. */
    method Close(peerClosed: bool) returns (ok: bool)
      requires Valid()
      modifies this, if release == null then {} else {release as object}
      ensures Valid() && closed && answerApplied == old(answerApplied) && ok == (old(closed) || peerClosed)
      ensures old(release) != null ==> old(release).View() == Released(old(release.View()))
    {
      if closed {
        return true;
      }
      closed := true;
      var endpoint := release;
      release := null;
      endpoint.Release();
      ok := peerClosed;
    }

    /** `accepted` says whether the peer connection takes the answer's SDP. */
    method ApplyAnswer(c: Checks, answer: Signal, now: Time, accepted: bool) returns (r: AnswerResult)
      requires Valid()
      modifies `answerApplied
      ensures Valid()
      ensures r.Applied? <==>
        && !closed && initiator && !old(answerApplied) && accepted
        && answer.callId == callId && Verifies(c, answer, Answer, remote, local, now)
      ensures r.Applied? <==>
        && !closed && initiator && !old(answerApplied) && accepted
        && answer.callId == callId && answer.kind == Answer && SignedBetween(c, answer, local, remote.nodeId, remote, now)
      ensures answerApplied == (old(answerApplied) || r.Applied?)
    {
      AnswerIff(c, answer, remote, local, now);
      if closed {
        return Closed;
      }
      if !initiator || answerApplied {
        return AlreadyUsed;
      }
      if answer.callId != callId || answer.initiator != local {
        return Invalid;
      }
      if !Verifies(c, answer, Answer, remote, local, now) || !accepted {
        return Invalid;
      }
      answerApplied := true;
      return Applied;
    }
  }
}
