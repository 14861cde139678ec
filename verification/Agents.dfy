/** Directory agents: lease renewal and attested registration (nodedir/agent.go). */
module Agents {
  import opened Bytes
  import opened Identities
  import opened Directory
  import opened Admission
  import opened Registry

  /** Parses a literal IP and unmaps it, as `netip` does. */
  type AddressOf = Bytes -> Option<Bytes>

  function TruncatedMillis(t: Time): Time
  {
    Millis(t) * MILLISECOND
  }

  /** The announcement that a renewal at `now` puts its signature under. */
  function LeaseFor(identity: Identity, endpoint: Endpoint, sequence: U64, now: Time, lease: int, s: Signature): Announcement
  {
    Announcement(PROTOCOL_VERSION, identity, endpoint, sequence, TruncatedMillis(now), TruncatedMillis(now + lease), s)
  }

  /** Every lease an agent signs verifies from a clock skew before its issue until it expires. */
  lemma RenewedLeaseVerifies(w: World, identity: Identity, endpoint: Endpoint, sequence: U64, now: Time, lease: int,
                             s: Signature, at: Time, allowPrivate: bool)
    requires MIN_LEASE <= lease <= MAX_LEASE && Millis(now) > 0 && sequence > 0
    requires w.validIdentity(identity) && w.canonical(endpoint, allowPrivate) == Some(endpoint)
    requires var a := LeaseFor(identity, endpoint, sequence, now, lease, s);
      w.verify(identity, AnnouncementDomain, AnnouncementBytes(a), s) && now - MAX_CLOCK_SKEW <= at < a.expiresAt
    ensures VerifyAnnouncement(w, LeaseFor(identity, endpoint, sequence, now, lease, s), at, allowPrivate)
  {
    TruncationKeepsLease(now, lease);
  }

  lemma TruncationKeepsLease(now: Time, lease: int)
    requires MIN_LEASE <= lease <= MAX_LEASE
    ensures MIN_LEASE <= TruncatedMillis(now + lease) - TruncatedMillis(now) <= MAX_LEASE
  {
    assert MIN_LEASE == (MIN_LEASE / MILLISECOND) * MILLISECOND && MAX_LEASE == (MAX_LEASE / MILLISECOND) * MILLISECOND;
    assert Millis(now) + MIN_LEASE / MILLISECOND <= Millis(now + lease) <= Millis(now) + MAX_LEASE / MILLISECOND;
  }

  function AttestationFor(w: World, identity: Identity, a: Announcement, now: Time, s: Signature): Attestation
  {
    Attestation(PROTOCOL_VERSION, identity.nodeId, AnnouncementHash(w.sha256, a),
                TruncatedMillis(now), TruncatedMillis(a.expiresAt), s)
  }

  /** A seed's own attestation passes verification exactly when the lease it attests expires on a whole
      millisecond and was not issued too far ahead of the truncated clock. */
  lemma AttestationVerifiesIff(w: World, p: Policy, identity: Identity, a: Announcement, now: Time, s: Signature)
    requires identity.nodeId in Authorities(p.seeds) && Authorities(p.seeds)[identity.nodeId] == identity
    requires |AnnouncementHash(w.sha256, a)| == 32 && Millis(now) > 0
    requires w.verify(identity, AttestationDomain, AttestationBytes(AttestationFor(w, identity, a, now, s)), s)
    ensures ValidAttestation(w, p, a, AttestationFor(w, identity, a, now, s), now) <==>
      Aligned(a.expiresAt) && a.issuedAt - MAX_CLOCK_SKEW <= TruncatedMillis(now)
  {
  }

  datatype AgentState = AgentState(identity: Identity, policy: Policy, endpoint: Endpoint, lease: int,
                                   self: Option<Record>, sequence: U64, records: Records)

  predicate NeedsRenewal(g: AgentState, now: Time)
  {
    g.self.None? || g.self.value.announcement.expiresAt <= now + g.lease / 2
  }

  /** The wall clock in milliseconds, or the next number after the last one used. */
  function NextSequence(g: AgentState, now: Time): int
  {
    if Millis(now) <= g.sequence then g.sequence + 1 else Millis(now)
  }

  predicate MayRenew(w: World, g: AgentState, now: Time)
  {
    && 0 < Millis(now) && NextSequence(g, now) < TWO64
    && MIN_LEASE <= g.lease <= MAX_LEASE && w.validIdentity(g.identity)
    && w.canonical(g.endpoint, g.policy.allowPrivate) == Some(g.endpoint)
  }

  /** Merging the own record of a pinned agent; other agents have nothing to merge yet. */
  ghost function RenewalMerge(w: World, g: AgentState, now: Time, s: Signature): Result<Records>
    requires MayRenew(w, g, now)
  {
    var a := LeaseFor(g.identity, g.endpoint, NextSequence(g, now), now, g.lease, s);
    if IsPinned(g.policy, a) then Merged(w, g.policy, g.records, Record(a, []), now) else Ok(g.records)
  }

  ghost function Renewed(w: World, g: AgentState, now: Time, s: Signature): AgentState
  {
    if !NeedsRenewal(g, now) || !MayRenew(w, g, now) then g
    else
      var a := LeaseFor(g.identity, g.endpoint, NextSequence(g, now), now, g.lease, s);
      var r := Record(a, []);
      var m := RenewalMerge(w, g, now, s);
      g.(self := Some(r), sequence := a.sequence, records := if m.Ok? then m.value else g.records)
  }

  /** The facts a seed observed when it put its name under a lease. */
  datatype Testimony = Testimony(authority: Identity, announcement: Announcement, attestation: Attestation,
                                 remote: Bytes, probed: bool)

  /** The request came from the advertised address and the advertised endpoint answered the challenge. */
  predicate Witnessed(addressOf: AddressOf, d: Testimony)
  {
    addressOf(d.announcement.endpoint.ip) == Some(d.remote) && d.probed
  }

  ghost predicate MayAttest(w: World, addressOf: AddressOf, g: AgentState, remote: Bytes, r: Record, now: Time, probed: bool, signs: bool)
  {
    && IsAuthority(g.policy, g.identity)
    && PartiallyValid(w, g.policy, r, now)
    && addressOf(r.announcement.endpoint.ip) == Some(remote)
    && probed && now != ZERO_TIME && signs
  }

  /** Where a seed's own attestation fails: a valid announcement that expires on a whole millisecond has a copy that
      expires less than a millisecond later, verifies as well, is attested by the seed, and gets an attestation that does
      not verify. */
  lemma UnalignedAttestationFails(w: World, addressOf: AddressOf, g: AgentState, remote: Bytes, a: Announcement, now: Time, s: Signature, delta: int)
    requires WellFormedPolicy(g.policy) && IsAuthority(g.policy, g.identity)
    requires VerifyAnnouncement(w, a, now, g.policy.allowPrivate) && Aligned(a.expiresAt)
    requires addressOf(a.endpoint.ip) == Some(remote) && now != ZERO_TIME
    requires 0 < delta < MILLISECOND && a.expiresAt + delta - a.issuedAt <= MAX_LEASE
    ensures var b := a.(expiresAt := a.expiresAt + delta);
      && MayAttest(w, addressOf, g, remote, Record(b, []), now, true, true)
      && !ValidAttestation(w, g.policy, b, AttestationFor(w, g.identity, b, now, s), now)
  {
    var b := a.(expiresAt := a.expiresAt + delta);
    assert Millis(b.expiresAt) == Millis(a.expiresAt);
    assert AnnouncementFields(b) == AnnouncementFields(a);
    assert ZERO_TIME % MILLISECOND == 0;
    assert !Aligned(b.expiresAt);
  }

  function Attested(w: World, g: AgentState, r: Record, now: Time, s: Signature): Record
  {
    r.(attestations := AppendAttestation(r.attestations, AttestationFor(w, g.identity, r.announcement, now, s)))
  }

  /** The registry after an attested registration; an error of the final merge leaves it unchanged. */
  ghost function AfterRegistration(w: World, g: AgentState, r: Record, now: Time, s: Signature): Records
  {
    var m := Merged(w, g.policy, g.records, Attested(w, g, r, now, s), now);
    if m.Ok? then m.value else g.records
  }

  /** The mutable agent. Signatures, the prober's verdict and the peers' answers are parameters. */
  class DirectoryAgent {
    const w: World
    const addressOf: AddressOf
    const identity: Identity
    const policy: Policy
    const endpoint: Endpoint
    const lease: int
    const registry: NodeRegistry
    var self: Option<Record>
    var sequence: U64

    ghost function State(): AgentState
      reads this, registry
    {
      AgentState(identity, policy, endpoint, lease, self, sequence, registry.records)
    }

    ghost predicate Valid()
      reads this, registry
    {
      registry.w == w && registry.policy == policy
    }

    constructor (w: World, addressOf: AddressOf, identity: Identity, policy: Policy, endpoint: Endpoint, lease: int)
      ensures Valid() && fresh(registry)
      ensures State() == AgentState(identity, policy, endpoint, lease, None, 0, map[])
    {
      this.w := w;
      this.addressOf := addressOf;
      this.identity := identity;
      this.policy := policy;
      this.endpoint := endpoint;
      this.lease := lease;
      registry := new NodeRegistry(w, policy);
      self := None;
      sequence := 0;
    }

    /** `s` is the signature produced if the signer can sign; otherwise nothing changes. */
    method Renew(now: Time, signs: bool, s: Signature) returns (ok: bool)
      requires Valid()
      modifies this, registry
      ensures Valid() && State() == if signs then Renewed(w, old(State()), now, s) else old(State())
      ensures var g := old(State());
        ok <==> !NeedsRenewal(g, now) || (MayRenew(w, g, now) && signs && RenewalMerge(w, g, now, s).Ok?)
      ensures ok ==> self.Some? && self.value.announcement.expiresAt > now + lease / 2
      ensures old(self).Some? && old(self).value.announcement.expiresAt > now + lease / 2 ==> ok && State() == old(State())
    {
      if self.Some? && self.value.announcement.expiresAt > now + lease / 2 {
        return true;
      }
      if Millis(now) <= 0 {
        return false;
      }
      var next: int := Millis(now);
      if next <= sequence {
        next := sequence + 1;
      }
      if next >= TWO64 || lease < MIN_LEASE || lease > MAX_LEASE || !w.validIdentity(identity) ||
         w.canonical(endpoint, policy.allowPrivate) != Some(endpoint) || !signs {
        return false;
      }
      var a := LeaseFor(identity, endpoint, next, now, lease, s);
      sequence := next;
      self := Some(Record(a, []));
      ok := true;
      if IsPinned(policy, a) {
        var merged := registry.Merge(Record(a, []), now);
        ok := merged.Ok?;
      }
    }

    /** `s` is the signature produced if the signer can sign. */
    method AcceptRegistration(remote: Bytes, r: Record, now: Time, probed: bool, signs: bool, s: Signature)
      returns (answer: Option<Record>, ghost issued: Option<Testimony>)
      requires Valid()
      modifies registry
      ensures Valid()
      ensures issued.Some? <==> MayAttest(w, addressOf, old(State()), remote, r, now, probed, signs)
      ensures issued.Some? ==>
        && issued.value == Testimony(identity, r.announcement, AttestationFor(w, identity, r.announcement, now, s), remote, probed)
        && Witnessed(addressOf, issued.value)
      ensures answer.Some? <==>
        && issued.Some?
        && var result := Attested(w, old(State()), r, now, s);
           ValidRecord(w, policy, result, now) ==> Merged(w, policy, old(State()).records, result, now).Ok?
      ensures answer.Some? ==> answer.value == Attested(w, old(State()), r, now, s)
      ensures State() == if issued.Some? then old(State()).(records := AfterRegistration(w, old(State()), r, now, s)) else old(State())
    {
      issued := None;
      if !IsAuthority(policy, identity) {
        return None, None;
      }
      var partial := VerifyRecordAttestations(w, policy, r, now);
      if partial.None? {
        return None, None;
      }
      if addressOf(r.announcement.endpoint.ip) != Some(remote) {
        return None, None;
      }
      if !probed {
        return None, None;
      }
      if now == ZERO_TIME || now > r.announcement.expiresAt || !signs {
        return None, None;
      }
      var attestation := AttestationFor(w, identity, r.announcement, now, s);
      issued := Some(Testimony(identity, r.announcement, attestation, remote, probed));
      var result := r.(attestations := AppendAttestation(r.attestations, attestation));
      var complete := VerifyRecord(w, policy, result, now);
      if complete {
        var merged := registry.Merge(result, now);
        if merged.Err? {
          return None, issued;
        }
      }
      return Some(result), issued;
    }

    /** One answer of `SyncOnce`'s registration loop: folds a seed's attestations into the own record. */
    method Adopt(result: Record, now: Time) returns (ok: bool)
      requires Valid() && self.Some?
      modifies this
      ensures Valid() && State() == Adopted(w, old(State()), result, now)
      ensures ok <==> Adoptable(w, old(State()), result, now)
    {
      var own := self.value;
      if AnnouncementHash(w.sha256, result.announcement) != AnnouncementHash(w.sha256, own.announcement) {
        return false;
      }
      var partial := VerifyRecordAttestations(w, policy, result, now);
      if partial.None? {
        return false;
      }
      var ts, es := own.attestations, result.attestations;
      for i := 0 to |es|
        invariant ts == Union(own.attestations, es[..i])
        invariant unchanged(this)
      {
        assert es[..i + 1][..i] == es[..i];
        ts := AppendAttestation(ts, es[i]);
      }
      assert es[..|es|] == es;
      self := Some(own.(attestations := ts));
      return true;
    }
  }

  ghost predicate Adoptable(w: World, g: AgentState, result: Record, now: Time)
    requires g.self.Some?
  {
    && AnnouncementHash(w.sha256, result.announcement) == AnnouncementHash(w.sha256, g.self.value.announcement)
    && PartiallyValid(w, g.policy, result, now)
  }

  ghost function Adopted(w: World, g: AgentState, result: Record, now: Time): AgentState
  {
    if g.self.Some? && Adoptable(w, g, result, now) then
      var own := g.self.value;
      g.(self := Some(own.(attestations := Union(own.attestations, result.attestations))))
    else g
  }

  /** An agent never signs two leases with one sequence number: each renewal moves strictly upwards,
      to the wall clock in milliseconds or past it. */
  lemma RenewalSequence(w: World, g: AgentState, now: Time, s: Signature)
    ensures Renewed(w, g, now, s).sequence >= g.sequence
    ensures Renewed(w, g, now, s).self != g.self ==>
      && Renewed(w, g, now, s).sequence > g.sequence && Renewed(w, g, now, s).sequence >= Millis(now)
      && Renewed(w, g, now, s).self.Some?
      && Renewed(w, g, now, s).self.value.announcement.sequence == Renewed(w, g, now, s).sequence
  {
  }
}
