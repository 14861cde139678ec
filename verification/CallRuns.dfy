/** All interleavings of the calls of one endpoint (call/call.go). */
module CallRuns {
  import opened Bytes
  import opened Identities
  import opened Calls
  import Sorting

  /** A session is open, is between giving up its peer connection and giving back its slot, or is gone. */
  datatype Phase = Open | Closing | Gone

  datatype SessionState = SessionState(phase: Phase, initiator: bool, answerApplied: bool)

  /** A call ID let through, and when. */
  datatype Grant = Grant(id: Bytes, at: Time)

  /** `setups` are the calls between acquiring a slot and either failing or becoming a session. The logs
      record every grant and every session whose answer was applied. */
  datatype State = State(
    core: Core, clock: Time, setups: set<nat>, sessions: map<nat, SessionState>,
    grants: seq<Grant>, answered: seq<nat>)

  datatype Event =
    | Begin(task: nat, id: Bytes, now: Time)
    | Fail(task: nat)
    | Ready(task: nat, session: nat, initiator: bool)
    | Close(session: nat)
    | GiveBack(session: nat)
    | Apply(session: nat, acceptable: bool)

  function Began(max: nat, s: State, task: nat, id: Bytes, now: Time): State
  {
    if task in s.setups || now < s.clock then s
    else
      var t := s.(core := Acquired(max, s.core, id, now), clock := now);
      if !Judge(max, s.core, id, now).Granted? then t
      else t.(setups := s.setups + {task}, grants := if id == [] then s.grants else s.grants + [Grant(id, now)])
  }

  function Failed(s: State, task: nat): State
  {
    if task !in s.setups then s else s.(core := Released(s.core), setups := s.setups - {task})
  }

  function Became(s: State, task: nat, k: nat, initiator: bool): State
  {
    if task !in s.setups || k in s.sessions then s
    else s.(setups := s.setups - {task}, sessions := s.sessions[k := SessionState(Open, initiator, false)])
  }

  /** The first part of Session.Close: only an open session changes. */
  function Closed(s: State, k: nat): State
  {
    if k !in s.sessions || s.sessions[k].phase != Open then s
    else s.(sessions := s.sessions[k := s.sessions[k].(phase := Closing)])
  }

  /** The second part: the slot goes back. */
  function GaveBack(s: State, k: nat): State
  {
    if k !in s.sessions || s.sessions[k].phase != Closing then s
    else s.(core := Released(s.core), sessions := s.sessions[k := s.sessions[k].(phase := Gone)])
  }

  function AppliedTo(s: State, k: nat, acceptable: bool): State
  {
    if k !in s.sessions || s.sessions[k].phase != Open || !s.sessions[k].initiator || s.sessions[k].answerApplied || !acceptable then s
    else s.(sessions := s.sessions[k := s.sessions[k].(answerApplied := true)], answered := s.answered + [k])
  }

  function Next(max: nat, s: State, e: Event): State
  {
    match e
    case Begin(task, id, now) => Began(max, s, task, id, now)
    case Fail(task) => Failed(s, task)
    case Ready(task, session, initiator) => Became(s, task, session, initiator)
    case Close(session) => Closed(s, session)
    case GiveBack(session) => GaveBack(s, session)
    case Apply(session, acceptable) => AppliedTo(s, session, acceptable)
  }

  function Run(max: nat, start: Time, events: seq<Event>): State
  {
    if events == [] then State(Core(0, map[]), start, {}, map[], [], [])
    else Next(max, Run(max, start, events[..|events| - 1]), events[|events| - 1])
  }

  // ---------- slots ----------

  /** The sessions that still hold a slot. */
  function Holders(sessions: map<nat, SessionState>): set<nat>
  {
    set k | k in sessions && sessions[k].phase != Gone
  }

  ghost predicate SlotsCounted(max: nat, s: State)
  {
    s.core.active == |s.setups| + |Holders(s.sessions)| && s.core.active <= max
  }

  lemma BeganCounted(max: nat, s: State, task: nat, id: Bytes, now: Time)
    requires SlotsCounted(max, s)
    ensures SlotsCounted(max, Began(max, s, task, id, now))
  {
    if task !in s.setups {
      Sorting.AddedSize(s.setups, task);
    }
  }

  lemma FailedCounted(max: nat, s: State, task: nat)
    requires SlotsCounted(max, s)
    ensures SlotsCounted(max, Failed(s, task))
  {
    if task in s.setups {
      Sorting.RemovedSize(s.setups, task);
    }
  }

  lemma BecameCounted(max: nat, s: State, task: nat, k: nat, initiator: bool)
    requires SlotsCounted(max, s)
    ensures SlotsCounted(max, Became(s, task, k, initiator))
  {
    if task in s.setups && k !in s.sessions {
      Sorting.RemovedSize(s.setups, task);
      Sorting.AddedSize(Holders(s.sessions), k);
      assert Holders(Became(s, task, k, initiator).sessions) == Holders(s.sessions) + {k};
    }
  }

  lemma GaveBackCounted(max: nat, s: State, k: nat)
    requires SlotsCounted(max, s)
    ensures SlotsCounted(max, GaveBack(s, k))
  {
    if k in s.sessions && s.sessions[k].phase == Closing {
      assert k in Holders(s.sessions);
      Sorting.RemovedSize(Holders(s.sessions), k);
      assert Holders(GaveBack(s, k).sessions) == Holders(s.sessions) - {k};
    }
  }

  lemma NextCounted(max: nat, s: State, e: Event)
    requires SlotsCounted(max, s)
    ensures SlotsCounted(max, Next(max, s, e))
  {
    match e
    case Begin(task, id, now) => BeganCounted(max, s, task, id, now);
    case Fail(task) => FailedCounted(max, s, task);
    case Ready(task, k, initiator) => BecameCounted(max, s, task, k, initiator);
    case Close(k) => assert Holders(Closed(s, k).sessions) == Holders(s.sessions);
    case GiveBack(k) => GaveBackCounted(max, s, k);
    case Apply(k, ok) => assert Holders(AppliedTo(s, k, ok).sessions) == Holders(s.sessions);
  }

  /** In every interleaving the counter is the number of setups and sessions holding a slot, within the limit. */
  lemma {:induction false} SlotsAlwaysCounted(max: nat, start: Time, events: seq<Event>)
    ensures SlotsCounted(max, Run(max, start, events))
  {
    if events != [] {
      SlotsAlwaysCounted(max, start, events[..|events| - 1]);
      NextCounted(max, Run(max, start, events[..|events| - 1]), events[|events| - 1]);
    }
  }

  /** Giving a slot back never meets an empty counter, so no release is lost and none is made twice. */
  lemma ReleaseIsExact(max: nat, start: Time, events: seq<Event>, e: Event)
    ensures var s := Run(max, start, events); var t := Next(max, s, e);
      && (e.Fail? && e.task in s.setups ==> t.core.active == s.core.active - 1)
      && (e.GiveBack? && t != s ==> t.core.active == s.core.active - 1)
      && (e.Close? || e.Apply? || e.Ready? ==> t.core.active == s.core.active)
  {
    var s := Run(max, start, events);
    SlotsAlwaysCounted(max, start, events);
    if e.Fail? && e.task in s.setups {
      Sorting.RemovedSize(s.setups, e.task);
    }
    if e.GiveBack? && e.session in s.sessions && s.sessions[e.session].phase == Closing {
      assert e.session in Holders(s.sessions);
      Sorting.RemovedSize(Holders(s.sessions), e.session);
    }
  }

  // ---------- replays ----------

  /** The cache holds exactly the grants that are not older than the memory, each with its expiry. */
  ghost predicate Remembers(seen: map<Bytes, Time>, clock: Time, grants: seq<Grant>)
  {
    && (forall i :: 0 <= i < |grants| ==> grants[i].at <= clock && (clock < grants[i].at + MEMORY ==> Recorded(seen, grants[i])))
    && (forall id :: id in seen ==> id != [] && clock < seen[id] && Grant(id, seen[id] - MEMORY) in grants)
    && |seen| <= MAX_REMEMBERED
  }

  predicate Recorded(seen: map<Bytes, Time>, g: Grant)
  {
    g.id in seen && seen[g.id] == g.at + MEMORY
  }

  lemma LiveSize(seen: map<Bytes, Time>, now: Time)
    ensures |Live(seen, now)| <= |seen|
  {
    Sorting.MapSize(seen);
    Sorting.MapSize(Live(seen, now));
    Sorting.SubsetSize(Live(seen, now).Keys, seen.Keys);
  }

  lemma ExpiryRemembers(seen: map<Bytes, Time>, clock: Time, grants: seq<Grant>, now: Time)
    requires Remembers(seen, clock, grants) && clock <= now
    ensures Remembers(Live(seen, now), now, grants)
  {
    LiveSize(seen, now);
    forall i | 0 <= i < |grants| && now < grants[i].at + MEMORY ensures Recorded(Live(seen, now), grants[i]) {
      assert Recorded(seen, grants[i]);
    }
  }

  lemma GrantRemembers(seen: map<Bytes, Time>, now: Time, grants: seq<Grant>, id: Bytes)
    requires Remembers(seen, now, grants) && id !in seen && id != [] && |seen| < MAX_REMEMBERED
    ensures Remembers(seen[id := now + MEMORY], now, grants + [Grant(id, now)])
  {
    var after, log := seen[id := now + MEMORY], grants + [Grant(id, now)];
    Sorting.MapUpdateSize(seen, id, now + MEMORY);
    forall i | 0 <= i < |log| && now < log[i].at + MEMORY ensures Recorded(after, log[i]) {
      if i < |grants| {
        assert Recorded(seen, grants[i]);
      }
    }
    forall j | j in after ensures Grant(j, after[j] - MEMORY) in log {
      if j == id {
        assert log[|grants|] == Grant(id, now);
      } else {
        assert Grant(j, seen[j] - MEMORY) in grants;
      }
    }
  }

  ghost predicate Remembering(s: State)
  {
    Remembers(s.core.seen, s.clock, s.grants)
  }

  lemma BeganRemembers(max: nat, s: State, task: nat, id: Bytes, now: Time)
    requires Remembering(s) && task !in s.setups && s.clock <= now
    ensures Remembering(Began(max, s, task, id, now))
  {
    ExpiryRemembers(s.core.seen, s.clock, s.grants, now);
    if id != [] && Judge(max, s.core, id, now).Granted? {
      GrantRemembers(Live(s.core.seen, now), now, s.grants, id);
    }
  }

  lemma OthersForgetNothing(max: nat, s: State, e: Event)
    requires !e.Begin?
    ensures var t := Next(max, s, e); t.core.seen == s.core.seen && t.clock == s.clock && t.grants == s.grants
  {
  }

  lemma NextRemembers(max: nat, s: State, e: Event)
    requires Remembering(s)
    ensures Remembering(Next(max, s, e))
  {
    if e.Begin? {
      if e.task !in s.setups && s.clock <= e.now {
        BeganRemembers(max, s, e.task, e.id, e.now);
      }
    } else {
      OthersForgetNothing(max, s, e);
    }
  }

  lemma {:induction false} AlwaysRemembers(max: nat, start: Time, events: seq<Event>)
    ensures Remembering(Run(max, start, events))
  {
    if events != [] {
      AlwaysRemembers(max, start, events[..|events| - 1]);
      NextRemembers(max, Run(max, start, events[..|events| - 1]), events[|events| - 1]);
    }
  }

  ghost predicate GrantedWithin(s: State, id: Bytes, now: Time)
  {
    exists i :: 0 <= i < |s.grants| && s.grants[i].id == id && now < s.grants[i].at + MEMORY
  }

  /** After any run, a call ID is refused as a replay exactly when it was granted less than seven minutes ago. */
  lemma ReplayIff(max: nat, start: Time, events: seq<Event>, id: Bytes, now: Time)
    requires id != [] && Run(max, start, events).clock <= now
    ensures var s := Run(max, start, events); Judge(max, s.core, id, now).Replay? <==> GrantedWithin(s, id, now)
  {
    var s := Run(max, start, events);
    AlwaysRemembers(max, start, events);
    if GrantedWithin(s, id, now) {
      var i :| 0 <= i < |s.grants| && s.grants[i].id == id && now < s.grants[i].at + MEMORY;
      assert Recorded(s.core.seen, s.grants[i]);
    }
    if id in Live(s.core.seen, now) {
      var g := Grant(id, s.core.seen[id] - MEMORY);
      assert g in s.grants;
      var i :| 0 <= i < |s.grants| && s.grants[i] == g;
    }
  }

  /** Two grants of one call ID lie at least seven minutes apart. */
  lemma {:induction false} GrantsApart(max: nat, start: Time, events: seq<Event>, i: nat, j: nat)
    requires i < j < |Run(max, start, events).grants|
    requires Run(max, start, events).grants[i].id == Run(max, start, events).grants[j].id
    ensures Run(max, start, events).grants[i].at + MEMORY <= Run(max, start, events).grants[j].at
  {
    var front := events[..|events| - 1];
    var s := Run(max, start, front);
    var e := events[|events| - 1];
    if j < |s.grants| {
      GrantsApart(max, start, front, i, j);
    } else {
      AlwaysRemembers(max, start, front);
      var id, now := e.id, e.now;
      ReplayIff(max, start, front, id, now);
      assert now < s.grants[i].at + MEMORY ==> GrantedWithin(s, id, now);
    }
  }

  /** An offer once let through is not let through again while it is still valid, however the calls interleave. */
  lemma OfferNotReplayed(max: nat, start: Time, events: seq<Event>, offer: Signal, checked: Time, i: nat, now: Time)
    requires offer.callId != [] && InTime(offer, checked)
    requires i < |Run(max, start, events).grants| && Run(max, start, events).grants[i].id == offer.callId
    requires checked <= Run(max, start, events).grants[i].at
    requires Run(max, start, events).clock <= now < offer.expiresAt
    ensures Judge(max, Run(max, start, events).core, offer.callId, now).Replay?
  {
    var s := Run(max, start, events);
    LapsesBeforeForgotten(offer, checked, s.grants[i].at);
    assert GrantedWithin(s, offer.callId, now);
    ReplayIff(max, start, events, offer.callId, now);
  }

  /** The same offer can pass both checks a second time when the second acquisition comes late: it is
      checked while valid, and its slot is acquired after the memory of the first has ended. */
  lemma LateAcquireReplays(max: nat, offer: Signal, first: Time)
    requires offer.callId != [] && offer.createdAt == first + CLOCK_SKEW && offer.expiresAt == offer.createdAt + MAX_SIGNAL_LIFETIME
    requires max >= 2
    ensures InTime(offer, first) && InTime(offer, first + MEMORY - 1)
    ensures Run(max, first, [Begin(0, offer.callId, first), Begin(1, offer.callId, first + MEMORY)]).grants
         == [Grant(offer.callId, first), Grant(offer.callId, first + MEMORY)]
  {
    var e, f := Begin(0, offer.callId, first), Begin(1, offer.callId, first + MEMORY);
    assert [e][..0] == [] && [e, f][..1] == [e];
    assert Live(map[], first) == map[];
    var s := Run(max, first, [e]);
    assert s == Next(max, Run(max, first, []), e);
    assert s.core == Core(1, map[offer.callId := first + MEMORY]);
    assert Live(s.core.seen, first + MEMORY) == map[];
  }

  // ---------- answers ----------

  ghost predicate AnswersMarked(s: State)
  {
    && Sorting.NoDuplicates(s.answered)
    && forall k :: k in s.answered ==> k in s.sessions && s.sessions[k].answerApplied && s.sessions[k].initiator
  }

  lemma NextMarked(max: nat, s: State, e: Event)
    requires AnswersMarked(s)
    ensures AnswersMarked(Next(max, s, e))
  {
    var t := Next(max, s, e);
    forall k | k in t.answered ensures k in t.sessions && t.sessions[k].answerApplied && t.sessions[k].initiator {
      assert k in s.answered || (e.Apply? && k == e.session);
    }
  }

  /** Over any run each session takes at most one answer, and only the caller's session takes one. */
  lemma {:induction false} OneAnswerEach(max: nat, start: Time, events: seq<Event>)
    ensures AnswersMarked(Run(max, start, events))
  {
    if events != [] {
      OneAnswerEach(max, start, events[..|events| - 1]);
      NextMarked(max, Run(max, start, events[..|events| - 1]), events[|events| - 1]);
    }
  }

  /** An answer is applied exactly if it is acceptable and reaches an open session of the caller that has none yet; then
      the session is marked and nothing else changes. */
  lemma AnswerAppliedIff(max: nat, start: Time, events: seq<Event>, k: nat, acceptable: bool)
    ensures var s := Run(max, start, events); var n := Run(max, start, events + [Apply(k, acceptable)]);
      if acceptable && k in s.sessions && s.sessions[k] == SessionState(Open, true, false)
      then n == s.(sessions := s.sessions[k := SessionState(Open, true, true)], answered := s.answered + [k])
      else n == s
  {
    var longer := events + [Apply(k, acceptable)];
    assert longer[..|longer| - 1] == events && longer[|longer| - 1] == Apply(k, acceptable);
  }

  /** A setup that succeeds becomes an open session without an answer and keeps its slot. */
  lemma SetupOpens(max: nat, start: Time, events: seq<Event>, task: nat, k: nat, initiator: bool)
    requires task in Run(max, start, events).setups && k !in Run(max, start, events).sessions
    ensures var s, n := Run(max, start, events), Run(max, start, events + [Ready(task, k, initiator)]);
      && n.sessions == s.sessions[k := SessionState(Open, initiator, false)] && n.setups == s.setups - {task} && n.core == s.core
  {
    var longer := events + [Ready(task, k, initiator)];
    assert longer[..|longer| - 1] == events && longer[|longer| - 1] == Ready(task, k, initiator);
  }

  lemma ClosedGivesBack(s: State, k: nat)
    requires k in s.sessions && s.sessions[k].phase == Open && s.core.active == |s.setups| + |Holders(s.sessions)|
    ensures var n := GaveBack(Closed(s, k), k);
      && s.core.active > 0 && n.core.active == s.core.active - 1 && n.core.seen == s.core.seen
      && n.sessions == s.sessions[k := s.sessions[k].(phase := Gone)] && Closed(n, k) == n && GaveBack(n, k) == n
  {
    assert k in Holders(s.sessions);
    Sorting.RemovedSize(Holders(s.sessions), k);
  }

  /** Closing an open session frees exactly one slot, and nothing frees a second one for it. */
  lemma CloseFreesOne(max: nat, start: Time, events: seq<Event>, k: nat)
    requires k in Run(max, start, events).sessions && Run(max, start, events).sessions[k].phase == Open
    ensures var s, n := Run(max, start, events), Run(max, start, events + [Close(k), GiveBack(k)]);
      && s.core.active > 0 && n.core.active == s.core.active - 1 && n.core.seen == s.core.seen
      && n.sessions == s.sessions[k := s.sessions[k].(phase := Gone)]
      && Closed(n, k) == n && GaveBack(n, k) == n
  {
    var s := Run(max, start, events);
    SlotsAlwaysCounted(max, start, events);
    ClosedGivesBack(s, k);
    var longer := events + [Close(k), GiveBack(k)];
    assert longer[..|longer| - 1] == events + [Close(k)] && longer[|longer| - 1] == GiveBack(k);
    assert (events + [Close(k)])[..|events|] == events;
  }
}
