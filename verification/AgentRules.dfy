/** When a directory agent renews, attests and adopts, condition by condition. */
module AgentRules {
  import opened Bytes
  import opened Identities
  import opened Directory
  import opened Admission
  import opened Registry
  import opened Agents
  import opened RegistryProvenance

  /** An identity is an authority exactly if it is that of a seed. */
  lemma AuthorityIff(p: Policy, i: Identity)
    requires DistinctSeeds(p.seeds)
    ensures IsAuthority(p, i) <==> exists k :: 0 <= k < |p.seeds| && p.seeds[k].identity == i
  {
    PinnedFrom(p.seeds, i.nodeId);
    if k :| 0 <= k < |p.seeds| && p.seeds[k].identity == i {
      PinnedSeed(p.seeds, k);
    }
  }

  /** A seed attests exactly a running lease that its holder signed, with attestations of seeds only, which was handed in from
      the address it announces and whose endpoint answered the challenge. */
  lemma AttestsIff(w: World, addressOf: AddressOf, g: AgentState, remote: Bytes, r: Record, now: Time, probed: bool, signs: bool)
    requires DistinctSeeds(g.policy.seeds)
    ensures MayAttest(w, addressOf, g, remote, r, now, probed, signs) <==>
      && (exists k :: 0 <= k < |g.policy.seeds| && g.policy.seeds[k].identity == g.identity)
      && UsablePolicy(g.policy) && SignedLease(w, g.policy.allowPrivate, r.announcement) && Running(r.announcement, now)
      && AllAttested(w, g.policy.seeds, r, now)
      && addressOf(r.announcement.endpoint.ip) == Some(remote) && probed && now != ZERO_TIME && signs
  {
    AuthorityIff(g.policy, g.identity);
    PartialIff(w, g.policy, r, now);
  }

  lemma PartialIff(w: World, p: Policy, r: Record, now: Time)
    requires DistinctSeeds(p.seeds)
    ensures PartiallyValid(w, p, r, now) <==>
      UsablePolicy(p) && SignedLease(w, p.allowPrivate, r.announcement) && Running(r.announcement, now) && AllAttested(w, p.seeds, r, now)
  {
    AllAttestedIff(w, p, r, now);
    if AllAttested(w, p.seeds, r, now) && UsablePolicy(p) {
      TrustedBounded(p, r.attestations);
    }
  }

  /** The lease ends more than half its length after `now`. */
  predicate Fresh(g: AgentState, now: Time)
  {
    g.self.Some? && g.self.value.announcement.expiresAt > now + g.lease / 2
  }

  /** An agent can renew exactly with a clock after 1970, a sequence number left, a lease of 10 minutes to 2 hours, a valid
      identity and a canonical endpoint. It leaves a fresh lease alone, and after a renewal its lease is fresh, starts at
      the clock, runs for its length, and carries no attestation yet. */
  lemma RenewsIff(w: World, g: AgentState, now: Time, s: Signature)
    ensures MayRenew(w, g, now) <==>
      && now >= MILLISECOND && g.sequence + 1 < TWO64 && now / MILLISECOND < TWO64
      && 10 * MINUTE <= g.lease <= 120 * MINUTE && w.validIdentity(g.identity)
      && w.canonical(g.endpoint, g.policy.allowPrivate) == Some(g.endpoint)
    ensures Fresh(g, now) ==> Renewed(w, g, now, s) == g
    ensures !Fresh(g, now) && MayRenew(w, g, now) ==>
      var n := Renewed(w, g, now, s);
      && Fresh(n, now) && n.self.value.attestations == [] && n.self.value.announcement.identity == g.identity
      && n.self.value.announcement.endpoint == g.endpoint && n.self.value.announcement.signature == s
      && n.self.value.announcement.sequence == n.sequence > g.sequence
  {
  }

  /** A pinned agent that renews also has its new lease in its own registry, unless that merge fails; another agent's
      registry is not touched. */
  lemma RenewalRegisters(w: World, g: AgentState, now: Time, s: Signature)
    requires DistinctSeeds(g.policy.seeds) && !Fresh(g, now) && MayRenew(w, g, now)
    ensures var n := Renewed(w, g, now, s);
      if PinnedNode(g.identity, g.endpoint) in g.policy.seeds && Merged(w, g.policy, g.records, n.self.value, now).Ok?
      then n.records == Merged(w, g.policy, g.records, n.self.value, now).value else n.records == g.records
  {
    IsSeedIff(g.policy, Renewed(w, g, now, s).self.value.announcement);
  }

  /** A seed's answer is taken exactly if it is for the own announcement, by its hash, and itself in order; then the own
      record holds, besides its attestations of other authorities, exactly those of the answer. */
  lemma AdoptsIff(w: World, g: AgentState, result: Record, now: Time, t: Attestation)
    requires DistinctSeeds(g.policy.seeds) && g.self.Some? && DistinctAuthorities(g.self.value.attestations)
    ensures var n, own := Adopted(w, g, result, now), g.self.value;
      if && w.sha256(AnnouncementPreimage(result.announcement)) == w.sha256(AnnouncementPreimage(own.announcement))
         && UsablePolicy(g.policy) && SignedLease(w, g.policy.allowPrivate, result.announcement) && Running(result.announcement, now)
         && AllAttested(w, g.policy.seeds, result, now)
      then
        && n == g.(self := n.self) && n.self.Some? && n.self.value.announcement == own.announcement
        && (t in n.self.value.attestations <==>
             t in result.attestations || (t in own.attestations && t.authorityId !in AuthorityIds(result.attestations)))
      else n == g
  {
    PartialIff(w, g.policy, result, now);
    if PartiallyValid(w, g.policy, result, now) {
      UnionIs(g.self.value.attestations, result.attestations);
    }
  }
}
