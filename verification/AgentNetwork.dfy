/** Any number of directory agents on a network that may deliver anything it can build without
    forging signatures of the agents themselves. */
module AgentNetwork {
  import opened Bytes
  import opened Identities
  import opened Directory
  import opened Admission
  import opened Registry
  import opened Agents

  /** `issued` holds every attestation message an agent ever signed, `log` what it had observed then, `leases` every
      announcement an agent ever signed for itself. */
  datatype System = System(agents: map<nat, AgentState>, issued: set<(Identity, Bytes)>, log: set<Testimony>, leases: set<Announcement>)

  datatype Step =
    | RenewStep(agent: nat, now: Time, s: Signature)
    | RegisterStep(agent: nat, remote: Bytes, record: Record, now: Time, probed: bool, signs: bool, s: Signature)
    | AdoptStep(agent: nat, record: Record, now: Time)
    | PublishStep(agent: nat, now: Time)
    | PullStep(agent: nat, snapshot: Snapshot, publisherId: Bytes, now: Time)
    | SweepStep(agent: nat, now: Time)

  /** No attestation carries a verifying signature of an agent that the agent did not produce. */
  ghost predicate Unforged(w: World, sys: System, r: Record)
  {
    forall t, k | t in r.attestations && k in sys.agents ::
      w.verify(sys.agents[k].identity, AttestationDomain, AttestationBytes(t), t.signature) ==>
        (sys.agents[k].identity, AttestationBytes(t)) in sys.issued
  }

  /** What one agent signs does not pass as the signature of another. */
  ghost predicate OwnSignature(w: World, sys: System, g: AgentState, t: Attestation)
  {
    forall k | k in sys.agents && sys.agents[k].identity != g.identity ::
      w.verify(sys.agents[k].identity, AttestationDomain, AttestationBytes(t), t.signature) ==>
        (sys.agents[k].identity, AttestationBytes(t)) in sys.issued
  }

  /** An agent of that identity signed these very bytes. */
  ghost predicate WasSigned(sys: System, a: Announcement)
  {
    exists b :: b in sys.leases && b.identity == a.identity && AnnouncementBytes(b) == AnnouncementBytes(a)
  }

  /** No announcement carries a verifying signature of an agent that the agent did not produce. */
  ghost predicate UnforgedLease(w: World, sys: System, a: Announcement)
  {
    forall k | k in sys.agents && sys.agents[k].identity == a.identity ::
      w.verify(a.identity, AnnouncementDomain, AnnouncementBytes(a), a.signature) ==> WasSigned(sys, a)
  }

  ghost predicate Acceptable(w: World, sys: System, r: Record)
  {
    Unforged(w, sys, r) && UnforgedLease(w, sys, r.announcement) && (forall t :: t in r.attestations ==> BoundedAttestation(t)) && BoundedAnnouncement(r.announcement)
  }

  /** What the network may put into a step. */
  ghost predicate Deliverable(w: World, sys: System, step: Step)
  {
    match step
    case RegisterStep(k, _, r, now, _, _, s) =>
      Acceptable(w, sys, r) && Representable(now) && BoundedSignature(s) &&
      (k in sys.agents ==> OwnSignature(w, sys, sys.agents[k], AttestationFor(w, sys.agents[k].identity, r.announcement, now, s)))
    case AdoptStep(_, r, _) => Acceptable(w, sys, r)
    case PullStep(_, s, _, _) => forall i :: 0 <= i < |s.records| ==> Acceptable(w, sys, s.records[i])
    case RenewStep(_, now, s) => BoundedSignature(s) && Representable(now) && Representable(now + MAX_LEASE)
    case _ => true
  }

  /** The announcement an agent signs when it renews. */
  function Renewal(g: AgentState, now: Time, s: Signature): Announcement
    requires NextSequence(g, now) < TWO64 && 0 < Millis(now)
  {
    LeaseFor(g.identity, g.endpoint, NextSequence(g, now), now, g.lease, s)
  }

  ghost function Next(w: World, addressOf: AddressOf, sys: System, step: Step): System
  {
    if step.agent !in sys.agents then sys else
      var g := sys.agents[step.agent];
      match step
      case RenewStep(k, now, s) =>
        sys.(agents := sys.agents[k := Renewed(w, g, now, s)],
             leases := sys.leases + if NeedsRenewal(g, now) && MayRenew(w, g, now) then {Renewal(g, now, s)} else {})
      case RegisterStep(k, remote, r, now, probed, signs, s) =>
        if !MayAttest(w, addressOf, g, remote, r, now, probed, signs) then sys else
          var t := AttestationFor(w, g.identity, r.announcement, now, s);
          System(sys.agents[k := g.(records := AfterRegistration(w, g, r, now, s))],
                 sys.issued + {(g.identity, AttestationBytes(t))},
                 sys.log + {Testimony(g.identity, r.announcement, t, remote, probed)}, sys.leases)
      case AdoptStep(k, r, now) => sys.(agents := sys.agents[k := Adopted(w, g, r, now)])
      case PublishStep(k, now) =>
        var m := if g.self.Some? then Merged(w, g.policy, g.records, g.self.value, now) else Ok(g.records);
        sys.(agents := sys.agents[k := g.(records := if m.Ok? then m.value else g.records)])
      case PullStep(k, s, publisherId, now) =>
        var m := SnapshotMerged(w, g.policy, g.records, s, publisherId, now);
        sys.(agents := sys.agents[k := g.(records := if m.Ok? then m.value else g.records)])
      case SweepStep(k, now) => sys.(agents := sys.agents[k := g.(records := Unexpired(g.records, now))])
  }

  ghost predicate Initial(sys: System)
  {
    && sys.issued == {} && sys.log == {} && sys.leases == {}
    && forall k :: k in sys.agents ==>
      && sys.agents[k].records == map[] && sys.agents[k].self == None
      && WellFormedPolicy(sys.agents[k].policy)
      && BoundedIdentity(sys.agents[k].identity)
      && Short(sys.agents[k].endpoint.scheme) && Short(sys.agents[k].endpoint.ip)
  }

  /** `steps` is a run of the network from `first`. */
  ghost predicate IsRun(w: World, addressOf: AddressOf, first: System, steps: seq<Step>)
  {
    steps == [] ||
    (IsRun(w, addressOf, first, steps[..|steps| - 1]) &&
     Deliverable(w, After(w, addressOf, first, steps[..|steps| - 1]), steps[|steps| - 1]))
  }

  ghost function After(w: World, addressOf: AddressOf, first: System, steps: seq<Step>): System
  {
    if steps == [] then first
    else Next(w, addressOf, After(w, addressOf, first, steps[..|steps| - 1]), steps[|steps| - 1])
  }

  // ---------- the invariant ----------

  /** The part of a verified record that does not depend on the clock. */
  ghost predicate Backed(w: World, p: Policy, r: Record)
  {
    && w.verify(r.announcement.identity, AnnouncementDomain, AnnouncementBytes(r.announcement), r.announcement.signature)
    && DistinctAuthorities(r.attestations)
    && (forall t :: t in r.attestations ==>
      && t.authorityId in Authorities(p.seeds)
      && t.announcementHash == AnnouncementHash(w.sha256, r.announcement)
      && w.verify(Authorities(p.seeds)[t.authorityId], AttestationDomain, AttestationBytes(t), t.signature))
    && (IsPinned(p, r.announcement) || |r.attestations| >= p.quorum)
  }

  ghost predicate AllBacked(w: World, sys: System, g: AgentState)
  {
    forall id :: id in g.records ==> Backed(w, g.policy, g.records[id]) && Acceptable(w, sys, g.records[id])
  }

  ghost predicate Explained(w: World, addressOf: AddressOf, sys: System, i: Identity, message: Bytes)
  {
    exists d :: d in sys.log && d.authority == i && AttestationBytes(d.attestation) == message &&
      d.attestation.announcementHash == AnnouncementHash(w.sha256, d.announcement) &&
      BoundedAttestation(d.attestation) && BoundedAnnouncement(d.announcement) && Witnessed(addressOf, d)
  }

  ghost predicate AgentSafe(w: World, sys: System, g: AgentState)
  {
    && AllBacked(w, sys, g)
    && (g.self.Some? ==> Acceptable(w, sys, g.self.value) && DistinctAuthorities(g.self.value.attestations))
    && BoundedIdentity(g.identity) && Short(g.endpoint.scheme) && Short(g.endpoint.ip)
  }

  ghost predicate Safe(w: World, addressOf: AddressOf, sys: System)
  {
    && (forall k :: k in sys.agents ==> AgentSafe(w, sys, sys.agents[k]))
    && (forall m :: m in sys.issued ==> Explained(w, addressOf, sys, m.0, m.1))
    && (forall b :: b in sys.leases ==> BoundedAnnouncement(b))
  }

  /** A system that only learned more keeps what was true of its records. */
  ghost predicate Grown(sys: System, later: System)
  {
    && sys.agents.Keys == later.agents.Keys
    && (forall k :: k in sys.agents ==> sys.agents[k].identity == later.agents[k].identity)
    && sys.issued <= later.issued && sys.log <= later.log && sys.leases <= later.leases
  }

  lemma AcceptableGrows(w: World, sys: System, later: System, r: Record)
    requires Grown(sys, later) && Acceptable(w, sys, r)
    ensures Acceptable(w, later, r)
  {
    forall t, k | t in r.attestations && k in later.agents
      ensures w.verify(later.agents[k].identity, AttestationDomain, AttestationBytes(t), t.signature) ==>
        (later.agents[k].identity, AttestationBytes(t)) in later.issued
    {
      assert k in sys.agents;
    }
    LeaseGrows(w, sys, later, r.announcement);
  }

  lemma LeaseGrows(w: World, sys: System, later: System, a: Announcement)
    requires Grown(sys, later) && UnforgedLease(w, sys, a)
    ensures UnforgedLease(w, later, a)
  {
    forall k | k in later.agents && later.agents[k].identity == a.identity &&
      w.verify(a.identity, AnnouncementDomain, AnnouncementBytes(a), a.signature) ensures WasSigned(later, a)
    {
      assert k in sys.agents && WasSigned(sys, a);
    }
  }

  lemma AgentGrows(w: World, sys: System, later: System, g: AgentState)
    requires Grown(sys, later) && AgentSafe(w, sys, g)
    ensures AgentSafe(w, later, g)
  {
    forall id | id in g.records ensures Acceptable(w, later, g.records[id]) {
      AcceptableGrows(w, sys, later, g.records[id]);
    }
    if g.self.Some? {
      AcceptableGrows(w, sys, later, g.self.value);
    }
  }

  lemma NextGrows(w: World, addressOf: AddressOf, sys: System, step: Step)
    ensures Grown(sys, Next(w, addressOf, sys, step))
  {
  }

  lemma ValidIsBacked(w: World, p: Policy, r: Record, now: Time)
    requires ValidRecord(w, p, r, now)
    ensures Backed(w, p, r)
  {
    forall t | t in r.attestations
      ensures t.authorityId in Authorities(p.seeds)
      ensures t.announcementHash == AnnouncementHash(w.sha256, r.announcement)
      ensures w.verify(Authorities(p.seeds)[t.authorityId], AttestationDomain, AttestationBytes(t), t.signature)
    {
      assert ValidAttestation(w, p, r.announcement, t, now);
    }
  }

  lemma CombinedBacked(w: World, p: Policy, existing: Record, r: Record)
    requires Backed(w, p, existing) && Backed(w, p, r)
    requires AnnouncementHash(w.sha256, existing.announcement) == AnnouncementHash(w.sha256, r.announcement)
    ensures Backed(w, p, Combined(existing, r))
  {
    UnionIs(r.attestations, existing.attestations);
  }

  lemma CombinedAcceptable(w: World, sys: System, existing: Record, r: Record)
    requires Acceptable(w, sys, existing) && Acceptable(w, sys, r)
    requires DistinctAuthorities(existing.attestations) && DistinctAuthorities(r.attestations)
    ensures Acceptable(w, sys, Combined(existing, r))
  {
    UnionIs(r.attestations, existing.attestations);
  }

  lemma MergeSafe(w: World, sys: System, p: Policy, records: Records, r: Record, now: Time)
    requires forall id :: id in records ==> Backed(w, p, records[id]) && Acceptable(w, sys, records[id])
    requires ValidRecord(w, p, r, now) && Acceptable(w, sys, r)
    requires MergeVerified(w, p.maxNodes, records, r).Ok?
    ensures var m := MergeVerified(w, p.maxNodes, records, r).value;
      forall id :: id in m ==> Backed(w, p, m[id]) && Acceptable(w, sys, m[id])
  {
    ValidIsBacked(w, p, r, now);
    var id := NodeId(r);
    if id in records && r.announcement.sequence == records[id].announcement.sequence {
      CombinedBacked(w, p, records[id], r);
      CombinedAcceptable(w, sys, records[id], r);
    }
  }

  lemma {:induction false} MergeAllSafe(w: World, sys: System, p: Policy, records: Records, rs: seq<Record>, now: Time)
    requires forall id :: id in records ==> Backed(w, p, records[id]) && Acceptable(w, sys, records[id])
    requires AllValid(w, p, rs, now) && forall i :: 0 <= i < |rs| ==> Acceptable(w, sys, rs[i])
    requires MergeAll(w, p.maxNodes, records, rs).Ok?
    ensures var m := MergeAll(w, p.maxNodes, records, rs).value;
      forall id :: id in m ==> Backed(w, p, m[id]) && Acceptable(w, sys, m[id])
  {
    if rs != [] {
      var front := rs[..|rs| - 1];
      MergeAllSafe(w, sys, p, records, front, now);
      MergeSafe(w, sys, p, MergeAll(w, p.maxNodes, records, front).value, rs[|rs| - 1], now);
    }
  }

  lemma TruncationRepresentable(t: Time)
    requires Representable(t)
    ensures Representable(TruncatedMillis(t)) && Millis(TruncatedMillis(t)) == Millis(t)
  {
  }

  lemma RenewalBounded(w: World, g: AgentState, now: Time, s: Signature)
    requires BoundedIdentity(g.identity) && Short(g.endpoint.scheme) && Short(g.endpoint.ip)
    requires BoundedSignature(s) && Representable(now) && Representable(now + MAX_LEASE) && MayRenew(w, g, now)
    ensures BoundedAnnouncement(Renewal(g, now, s))
  {
    assert Millis(now) <= Millis(now + g.lease) <= Millis(now + MAX_LEASE);
    TruncationRepresentable(now);
    TruncationRepresentable(now + g.lease);
  }

  lemma RenewSafe(w: World, sys: System, g: AgentState, now: Time, s: Signature)
    requires AgentSafe(w, sys, g) && BoundedSignature(s) && Representable(now) && Representable(now + MAX_LEASE)
    requires NeedsRenewal(g, now) && MayRenew(w, g, now) ==> Renewal(g, now, s) in sys.leases
    ensures AgentSafe(w, sys, Renewed(w, g, now, s))
  {
    if NeedsRenewal(g, now) && MayRenew(w, g, now) {
      var r := Record(Renewal(g, now, s), []);
      RenewalBounded(w, g, now, s);
      assert WasSigned(sys, r.announcement);
      assert Acceptable(w, sys, r);
      if IsPinned(g.policy, r.announcement) && Merged(w, g.policy, g.records, r, now).Ok? {
        MergeSafe(w, sys, g.policy, g.records, r, now);
      }
    }
  }

  lemma AttestationBounded(w: World, g: AgentState, r: Record, now: Time, s: Signature)
    requires forall x :: |w.sha256(x)| == 32
    requires BoundedIdentity(g.identity) && BoundedAnnouncement(r.announcement) && Representable(now) && BoundedSignature(s)
    ensures BoundedAttestation(AttestationFor(w, g.identity, r.announcement, now, s))
  {
    TruncationRepresentable(now);
    TruncationRepresentable(r.announcement.expiresAt);
    assert |w.sha256(AnnouncementPreimage(r.announcement))| == 32;
  }

  /** The attestation a seed adds is one it just signed, so the extended record stays unforged. */
  lemma AttestedAcceptable(w: World, sys: System, later: System, g: AgentState, r: Record, now: Time, s: Signature)
    requires Acceptable(w, sys, r) && DistinctAuthorities(r.attestations) && Grown(sys, later)
    requires BoundedAttestation(AttestationFor(w, g.identity, r.announcement, now, s))
    requires OwnSignature(w, sys, g, AttestationFor(w, g.identity, r.announcement, now, s))
    requires (g.identity, AttestationBytes(AttestationFor(w, g.identity, r.announcement, now, s))) in later.issued
    ensures Acceptable(w, later, Attested(w, g, r, now, s))
  {
    var own := AttestationFor(w, g.identity, r.announcement, now, s);
    AppendIs(r.attestations, own);
    AcceptableGrows(w, sys, later, r);
    forall t, k | t in Attested(w, g, r, now, s).attestations && k in later.agents
      ensures w.verify(later.agents[k].identity, AttestationDomain, AttestationBytes(t), t.signature) ==>
        (later.agents[k].identity, AttestationBytes(t)) in later.issued
    {
      assert k in sys.agents;
      assert t == own || t in r.attestations;
    }
  }

  lemma RegisterSafe(w: World, later: System, g: AgentState, r: Record, now: Time, s: Signature)
    requires AgentSafe(w, later, g) && Acceptable(w, later, Attested(w, g, r, now, s))
    ensures AgentSafe(w, later, g.(records := AfterRegistration(w, g, r, now, s)))
  {
    var result := Attested(w, g, r, now, s);
    if Merged(w, g.policy, g.records, result, now).Ok? {
      MergeSafe(w, later, g.policy, g.records, result, now);
    }
  }

  lemma AdoptSafe(w: World, sys: System, g: AgentState, r: Record, now: Time)
    requires AgentSafe(w, sys, g) && Acceptable(w, sys, r)
    ensures AgentSafe(w, sys, Adopted(w, g, r, now))
  {
    if g.self.Some? && Adoptable(w, g, r, now) {
      UnionIs(g.self.value.attestations, r.attestations);
    }
  }

  /** The acting agent is safe again after its own step, judged in the system after the step. */
  lemma ActorSafe(w: World, addressOf: AddressOf, sys: System, step: Step)
    requires forall x :: |w.sha256(x)| == 32
    requires Safe(w, addressOf, sys) && Deliverable(w, sys, step) && step.agent in sys.agents
    ensures var later := Next(w, addressOf, sys, step); AgentSafe(w, later, later.agents[step.agent])
  {
    var later := Next(w, addressOf, sys, step);
    var g := sys.agents[step.agent];
    NextGrows(w, addressOf, sys, step);
    AgentGrows(w, sys, later, g);
    match step
    case RenewStep(k, now, s) => RenewSafe(w, later, g, now, s);
    case RegisterStep(k, remote, r, now, probed, signs, s) =>
      if MayAttest(w, addressOf, g, remote, r, now, probed, signs) {
        AttestationBounded(w, g, r, now, s);
        AttestedAcceptable(w, sys, later, g, r, now, s);
        RegisterSafe(w, later, g, r, now, s);
      }
    case AdoptStep(k, r, now) =>
      AcceptableGrows(w, sys, later, r);
      AdoptSafe(w, later, g, r, now);
    case PublishStep(k, now) =>
      if g.self.Some? && Merged(w, g.policy, g.records, g.self.value, now).Ok? {
        MergeSafe(w, later, g.policy, g.records, g.self.value, now);
      }
    case PullStep(k, s, publisherId, now) =>
      if SnapshotMerged(w, g.policy, g.records, s, publisherId, now).Ok? {
        forall i | 0 <= i < |s.records| ensures Acceptable(w, later, s.records[i]) {
          AcceptableGrows(w, sys, later, s.records[i]);
        }
        MergeAllSafe(w, later, g.policy, g.records, s.records, now);
      }
    case SweepStep(k, now) =>
  }

  lemma IssuedExplained(w: World, addressOf: AddressOf, sys: System, step: Step)
    requires forall x :: |w.sha256(x)| == 32
    requires Safe(w, addressOf, sys) && Deliverable(w, sys, step) && step.agent in sys.agents
    ensures var later := Next(w, addressOf, sys, step);
      forall m :: m in later.issued ==> Explained(w, addressOf, later, m.0, m.1)
  {
    var later := Next(w, addressOf, sys, step);
    NextGrows(w, addressOf, sys, step);
    forall m | m in later.issued ensures Explained(w, addressOf, later, m.0, m.1) {
      if m in sys.issued {
        var d :| d in sys.log && d.authority == m.0 && AttestationBytes(d.attestation) == m.1 &&
          d.attestation.announcementHash == AnnouncementHash(w.sha256, d.announcement) &&
          BoundedAttestation(d.attestation) && BoundedAnnouncement(d.announcement) && Witnessed(addressOf, d);
        assert d in later.log;
      } else {
        var g := sys.agents[step.agent];
        AttestationBounded(w, g, step.record, step.now, step.s);
        var d := Testimony(g.identity, step.record.announcement,
                           AttestationFor(w, g.identity, step.record.announcement, step.now, step.s), step.remote, step.probed);
        assert d in later.log && Witnessed(addressOf, d);
      }
    }
  }

  lemma LeasesBounded(w: World, addressOf: AddressOf, sys: System, step: Step)
    requires Safe(w, addressOf, sys) && Deliverable(w, sys, step) && step.agent in sys.agents
    ensures forall b :: b in Next(w, addressOf, sys, step).leases ==> BoundedAnnouncement(b)
  {
    if step.RenewStep? && NeedsRenewal(sys.agents[step.agent], step.now) && MayRenew(w, sys.agents[step.agent], step.now) {
      RenewalBounded(w, sys.agents[step.agent], step.now, step.s);
    }
  }

  lemma StepSafe(w: World, addressOf: AddressOf, sys: System, step: Step)
    requires forall x :: |w.sha256(x)| == 32
    requires Safe(w, addressOf, sys) && Deliverable(w, sys, step)
    ensures Safe(w, addressOf, Next(w, addressOf, sys, step))
  {
    if step.agent in sys.agents {
      var later := Next(w, addressOf, sys, step);
      NextGrows(w, addressOf, sys, step);
      ActorSafe(w, addressOf, sys, step);
      IssuedExplained(w, addressOf, sys, step);
      LeasesBounded(w, addressOf, sys, step);
      forall k | k in later.agents ensures AgentSafe(w, later, later.agents[k]) {
        if k != step.agent {
          assert later.agents[k] == sys.agents[k];
          AgentGrows(w, sys, later, sys.agents[k]);
        }
      }
    }
  }

  lemma {:induction false} RunSafe(w: World, addressOf: AddressOf, first: System, steps: seq<Step>)
    requires forall x :: |w.sha256(x)| == 32
    requires Initial(first) && IsRun(w, addressOf, first, steps)
    ensures Safe(w, addressOf, After(w, addressOf, first, steps))
  {
    if steps != [] {
      RunSafe(w, addressOf, first, steps[..|steps| - 1]);
      StepSafe(w, addressOf, After(w, addressOf, first, steps[..|steps| - 1]), steps[|steps| - 1]);
    }
  }

  /** A seed that runs this code stands behind exactly this lease, and saw its source and its answer. */
  ghost predicate VouchedFor(w: World, addressOf: AddressOf, sys: System, i: Identity, a: Announcement)
  {
    exists d :: d in sys.log && d.authority == i && addressOf(d.announcement.endpoint.ip) == Some(d.remote) && d.probed &&
      AnnouncementHash(w.sha256, d.announcement) == AnnouncementHash(w.sha256, a) &&
      (NoCollision(w.sha256, AnnouncementPreimage(d.announcement), AnnouncementPreimage(a)) ==>
        SameSignedAnnouncement(d.announcement, a))
  }

  lemma AttestationVouches(w: World, addressOf: AddressOf, sys: System, p: Policy, r: Record, t: Attestation, j: nat)
    requires Safe(w, addressOf, sys) && Backed(w, p, r) && Acceptable(w, sys, r) && t in r.attestations
    requires j in sys.agents && sys.agents[j].identity == Authorities(p.seeds)[t.authorityId]
    ensures VouchedFor(w, addressOf, sys, sys.agents[j].identity, r.announcement)
  {
    var i := sys.agents[j].identity;
    assert (i, AttestationBytes(t)) in sys.issued;
    var d :| d in sys.log && d.authority == i && AttestationBytes(d.attestation) == AttestationBytes(t) &&
      d.attestation.announcementHash == AnnouncementHash(w.sha256, d.announcement) &&
      BoundedAttestation(d.attestation) && BoundedAnnouncement(d.announcement) && Witnessed(addressOf, d);
    AttestationInjective(d.attestation, t);
    PreimageInjective(d.announcement, r.announcement);
  }

  /** After any run of any number of agents: an unpinned record in an agent's registry carries
      attestations of at least a quorum of distinct pinned seeds, and every one of those seeds that is
      itself an agent vouched for exactly that announcement. */
  lemma QuorumStandsBehindEveryRecord(w: World, addressOf: AddressOf, first: System, steps: seq<Step>, k: nat, id: Bytes)
    requires forall x :: |w.sha256(x)| == 32
    requires Initial(first) && IsRun(w, addressOf, first, steps)
    requires k in After(w, addressOf, first, steps).agents
    requires id in After(w, addressOf, first, steps).agents[k].records
    ensures var sys := After(w, addressOf, first, steps); var g := sys.agents[k]; var r := g.records[id];
      && AuthorityIds(r.attestations) <= Authorities(g.policy.seeds).Keys
      && (IsPinned(g.policy, r.announcement) || |AuthorityIds(r.attestations)| >= g.policy.quorum)
      && forall a, j | a in AuthorityIds(r.attestations) && j in sys.agents && sys.agents[j].identity == Authorities(g.policy.seeds)[a] ::
           VouchedFor(w, addressOf, sys, sys.agents[j].identity, r.announcement)
  {
    RunSafe(w, addressOf, first, steps);
    var sys := After(w, addressOf, first, steps);
    var g := sys.agents[k];
    var r := g.records[id];
    assert AgentSafe(w, sys, g);
    DistinctAuthorityCount(r.attestations);
    forall a, j | a in AuthorityIds(r.attestations) && j in sys.agents && sys.agents[j].identity == Authorities(g.policy.seeds)[a]
      ensures VouchedFor(w, addressOf, sys, sys.agents[j].identity, r.announcement)
    {
      var t :| t in r.attestations && t.authorityId == a;
      AttestationVouches(w, addressOf, sys, g.policy, r, t, j);
    }
  }

  // ---------- where leases come from ----------

  /** Step `i` is a renewal, due by then, of an agent with this identity, after which it holds exactly this fresh
      announcement: a new sequence number, its own endpoint, the time of the step and its lease from then on. */
  ghost predicate RenewedAt(w: World, addressOf: AddressOf, first: System, steps: seq<Step>, i: nat, b: Announcement)
  {
    i < |steps| && steps[i].RenewStep? &&
    var before, after := After(w, addressOf, first, steps[..i]), After(w, addressOf, first, steps[..i + 1]);
    var k := steps[i].agent;
    && k in before.agents && k in after.agents && before.agents[k].identity == b.identity
    && after.agents[k].self == Some(Record(b, []))
    && b.endpoint == before.agents[k].endpoint && b.signature == steps[i].s
    && b.issuedAt == TruncatedMillis(steps[i].now) && b.expiresAt == TruncatedMillis(steps[i].now + before.agents[k].lease)
    && before.agents[k].sequence < b.sequence
    && (before.agents[k].self.Some? ==> before.agents[k].self.value.announcement.expiresAt <= steps[i].now + before.agents[k].lease / 2)
  }

  lemma {:induction false} LeaseWasRenewed(w: World, addressOf: AddressOf, first: System, steps: seq<Step>, n: nat, b: Announcement)
    requires first.leases == {} && n <= |steps| && b in After(w, addressOf, first, steps[..n]).leases
    ensures exists i: nat :: i < n && RenewedAt(w, addressOf, first, steps, i, b)
  {
    if n > 0 {
      assert steps[..n][..n - 1] == steps[..n - 1] && steps[..n][n - 1] == steps[n - 1];
      var sys := After(w, addressOf, first, steps[..n - 1]);
      if b in sys.leases {
        LeaseWasRenewed(w, addressOf, first, steps, n - 1, b);
      } else {
        RenewalAdds(w, addressOf, sys, steps[n - 1], b);
        assert RenewedAt(w, addressOf, first, steps, n - 1, b);
      }
    }
  }

  lemma RenewalAdds(w: World, addressOf: AddressOf, sys: System, step: Step, b: Announcement)
    requires b in Next(w, addressOf, sys, step).leases && b !in sys.leases
    ensures step.RenewStep? && step.agent in sys.agents
    ensures var g := sys.agents[step.agent];
      && b.identity == g.identity && b.endpoint == g.endpoint && b.signature == step.s && g.sequence < b.sequence
      && b.issuedAt == TruncatedMillis(step.now) && b.expiresAt == TruncatedMillis(step.now + g.lease)
      && (g.self.Some? ==> g.self.value.announcement.expiresAt <= step.now + g.lease / 2)
      && Next(w, addressOf, sys, step).agents[step.agent].self == Some(Record(b, []))
  {
  }

  /** After any run of any number of agents: a lease in any agent's registry carries a verifying signature of the
      identity it names, and if that identity runs this code, one of its own renewals signed that lease, up to the
      millisecond. */
  lemma LeasesComeFromTheirHolders(w: World, addressOf: AddressOf, first: System, steps: seq<Step>, k: nat, id: Bytes, j: nat)
    requires forall x :: |w.sha256(x)| == 32
    requires Initial(first) && IsRun(w, addressOf, first, steps)
    requires k in After(w, addressOf, first, steps).agents && j in After(w, addressOf, first, steps).agents
    requires id in After(w, addressOf, first, steps).agents[k].records
    requires After(w, addressOf, first, steps).agents[j].identity ==
      After(w, addressOf, first, steps).agents[k].records[id].announcement.identity
    ensures var a := After(w, addressOf, first, steps).agents[k].records[id].announcement;
      && w.verify(a.identity, AnnouncementDomain, AnnouncementBytes(a), a.signature)
      && exists i: nat, b :: RenewedAt(w, addressOf, first, steps, i, b) && SameAnnouncement(b, a)
  {
    RunSafe(w, addressOf, first, steps);
    var sys := After(w, addressOf, first, steps);
    var r := sys.agents[k].records[id];
    assert AgentSafe(w, sys, sys.agents[k]);
    var b :| b in sys.leases && b.identity == r.announcement.identity && AnnouncementBytes(b) == AnnouncementBytes(r.announcement);
    AnnouncementInjective(b, r.announcement);
    assert steps[..|steps|] == steps;
    LeaseWasRenewed(w, addressOf, first, steps, |steps|, b);
  }
}
