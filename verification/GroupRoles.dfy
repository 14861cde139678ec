/** Who may do what to whom in a group, and what it does: the rules in terms of roles alone. */
module GroupRoles {
  import opened Bytes
  import opened Identities
  import opened Group
  import opened GroupRuns

  /** The role an ID holds, or nothing if the group does not know it. */
  function RoleOf(ms: Members, id: Bytes): Option<Role>
  {
    if id in ms then Some(ms[id].role) else None
  }

  /** Above a stranger stand banned and plain members alike, above them the admins, above all the owner. */
  function Rank(r: Option<Role>): nat
  {
    match r
    case Some(Owner) => 3
    case Some(Admin) => 2
    case Some(_) => 1
    case None => 0
  }

  /** One more entry fits. */
  predicate HasRoom(ms: Members)
  {
    |ms| < MAX_GROUP_MEMBERS
  }

  /** The rule of each kind of action. Removing and banning only ever go down the ranks. */
  predicate Permitted(ms: Members, delegates: bool, kind: Kind, actor: Option<Role>, subject: Option<Role>)
  {
    Rank(actor) >= 2 &&
    match kind
    case Add => HasRoom(ms) && (subject.None? || subject.value.Banned?)
    case Remove => 0 < Rank(subject) < Rank(actor)
    case Ban => Rank(subject) < Rank(actor) && (subject.Some? || HasRoom(ms))
    case GrantAdmin => (Rank(actor) == 3 || delegates) && subject == Some(Member)
    case RevokeAdmin => Rank(actor) == 3 && Rank(subject) == 2
    case TransferOwner => Rank(actor) == 3 && subject.Some? && !subject.value.Banned?
    case UnknownKind => false
  }

  /** The action continues this very state and is signed by the member it names as its actor. */
  ghost predicate Continues(w: World, s: State, a: Action, now: Time)
  {
    && a.groupId == s.groupId && a.epoch == s.epoch + 1 && a.previous == s.hash
    && a.createdAt != ZERO_TIME && a.createdAt <= now + 5 * MINUTE
    && a.actorId in s.members && w.authentic(s.members[a.actorId].identity, a) && w.validIdentity(a.subject)
  }

  /** In a valid state an action is accepted exactly if it continues the state, is authentic, and its rule permits it. */
  lemma AcceptedIff(w: World, s: State, a: Action, now: Time)
    requires ValidState(w, s)
    ensures Accepts(w, s, Attempt(a, now)) <==>
      Continues(w, s, a, now) && Permitted(s.members, s.delegates, a.kind, RoleOf(s.members, a.actorId), RoleOf(s.members, a.subject.nodeId))
  {
    assert a.actorId in s.members ==> s.members[a.actorId].role != UnknownRole by {
      assert a.actorId in s.members ==> MemberOk(w, a.actorId, s.members[a.actorId]);
    }
    SubjectKnown(w, s, a.subject.nodeId);
    if IsNext(s, a, now) && Authorised(w, s, a) {
      RuleIs(s.members, s.delegates, a);
    }
  }

  lemma SubjectKnown(w: World, s: State, id: Bytes)
    requires ValidState(w, s)
    ensures RoleOf(s.members, id) != Some(UnknownRole)
  {
    assert id in s.members ==> MemberOk(w, id, s.members[id]);
  }

  lemma RuleIs(ms: Members, delegates: bool, a: Action)
    requires a.actorId in ms && (ms[a.actorId].role == Owner || ms[a.actorId].role == Admin)
    requires RoleOf(ms, a.subject.nodeId) != Some(UnknownRole)
    ensures Edited(ms, delegates, a).Some? <==>
      Permitted(ms, delegates, a.kind, RoleOf(ms, a.actorId), RoleOf(ms, a.subject.nodeId))
  {
  }

  /** Members outside `changed` are the same before and after. */
  ghost predicate OthersKept(before: Members, after: Members, changed: set<Bytes>)
  {
    forall id :: id !in changed ==> (id in after <==> id in before) && (id in before ==> after[id] == before[id])
  }

  /** What an accepted action makes of its subject. */
  ghost predicate SubjectBecomes(before: Members, after: Members, a: Action)
  {
    var id := a.subject.nodeId;
    match a.kind
    case Add => id in after && after[id] == Membership(a.subject, Member)
    case Remove => id !in after
    case Ban => id in after && after[id] == Membership(a.subject, Banned)
    case GrantAdmin => KeepsIdentity(before, after, id, Admin)
    case RevokeAdmin => KeepsIdentity(before, after, id, Member)
    case TransferOwner =>
      KeepsIdentity(before, after, id, Owner) && (a.actorId != id ==> KeepsIdentity(before, after, a.actorId, Admin))
    case UnknownKind => false
  }

  ghost predicate KeepsIdentity(before: Members, after: Members, id: Bytes, role: Role)
  {
    id in before && id in after && after[id] == Membership(before[id].identity, role)
  }

  /** An accepted action does to its subject what its kind says, and to nobody else anything; the old owner of a
      transfer becomes an admin. */
  lemma SubjectAfter(w: World, s: State, a: Action, now: Time)
    requires Transition(w, s, a, now).Some?
    ensures var n := Transition(w, s, a, now).value;
      && SubjectBecomes(s.members, n.members, a)
      && OthersKept(s.members, n.members, if a.kind == TransferOwner then {a.subject.nodeId, a.actorId} else {a.subject.nodeId})
      && n == s.(members := n.members, epoch := a.epoch, hash := n.hash) && n.hash == w.digest(n.(hash := []))
  {
    assert Transition(w, s, a, now).value.(hash := []) == s.(members := Transition(w, s, a, now).value.members, epoch := a.epoch).(hash := []);
  }

  /** Neither an owner nor an admin nor a member. */
  predicate Outside(ms: Members, id: Bytes)
  {
    id !in ms || ms[id].role == Banned
  }

  /** The accepted attempt at position `i` adds `id`. */
  ghost predicate AddsAt(w: World, first: State, xs: seq<Attempt>, i: nat, id: Bytes)
  {
    i < |xs| && Accepts(w, Run(w, first, xs[..i]), xs[i]) && xs[i].action.kind == Add && xs[i].action.subject.nodeId == id
  }

  /** Only adding lets somebody in. */
  lemma StaysOutside(w: World, s: State, x: Attempt, id: Bytes)
    requires Outside(s.members, id) && !Outside(Step(w, s, x).members, id)
    ensures Accepts(w, s, x) && x.action.kind == Add && x.action.subject.nodeId == id
  {
    SubjectAfter(w, s, x.action, x.now);
  }

  lemma {:induction false} OutsideUntilAdded(w: World, first: State, xs: seq<Attempt>, id: Bytes, j: nat, k: nat)
    requires j <= k <= |xs| && Outside(Run(w, first, xs[..j]).members, id)
    requires forall i: nat | j <= i < k :: !AddsAt(w, first, xs, i, id)
    ensures Outside(Run(w, first, xs[..k]).members, id)
  {
    if j < k {
      OutsideUntilAdded(w, first, xs, id, j, k - 1);
      assert xs[..k][..k - 1] == xs[..k - 1] && xs[..k][k - 1] == xs[k - 1];
      assert !AddsAt(w, first, xs, k - 1, id);
      if !Outside(Run(w, first, xs[..k]).members, id) {
        StaysOutside(w, Run(w, first, xs[..k - 1]), xs[k - 1], id);
      }
    }
  }

  /** Whoever was banned, removed or never in acts again only after an accepted action has added them anew. */
  lemma BannedNeverActs(w: World, first: State, xs: seq<Attempt>, id: Bytes, j: nat, k: nat)
    requires j <= k < |xs| && Outside(Run(w, first, xs[..j]).members, id)
    requires Accepts(w, Run(w, first, xs[..k]), xs[k]) && xs[k].action.actorId == id
    ensures exists i: nat :: j <= i < k && AddsAt(w, first, xs, i, id)
  {
    AcceptedIff(w, Run(w, first, xs[..k]), xs[k].action, xs[k].now);
    if forall i: nat | j <= i < k :: !AddsAt(w, first, xs, i, id) {
      OutsideUntilAdded(w, first, xs, id, j, k);
    }
  }

  // ---------- what a valid state says ----------

  /** A state is valid exactly if its hash and its address commit to it, it has 1 to 1000 members, each filed under the ID
      of a valid identity with a known role, just one of them owns it, and at epoch 0 that one is its creator alone. */
  lemma ValidIff(w: World, s: State)
    ensures ValidState(w, s) <==>
      && s.hash == w.digest(s.(hash := [])) && |s.hash| == 32 && |s.nonce| == 32
      && s.groupId == w.groupId(s.creator, s.nonce, s.delegates) && w.validGroupId(s.groupId) && w.validIdentity(s.creator)
      && 1 <= |s.members| <= 1000
      && (forall id :: id in s.members ==>
           s.members[id].identity.nodeId == id && w.validIdentity(s.members[id].identity) && s.members[id].role in {Owner, Admin, Member, Banned})
      && (exists owner :: owner in s.members && forall id :: id in s.members ==> (s.members[id].role == Owner <==> id == owner))
      && (s.epoch == 0 ==> exists version: Byte :: s.members == map[s.creator.nodeId := Membership(s.creator.(version := version), Owner)])
  {
    OneOwnerIff(s.members);
    if ValidState(w, s) && s.epoch == 0 {
      EpochZeroIsFounding(w, s);
    }
  }

  lemma OneOwnerIff(ms: Members)
    ensures |Owners(ms)| == 1 <==> exists owner :: owner in ms && forall id :: id in ms ==> (ms[id].role == Owner <==> id == owner)
  {
    if |Owners(ms)| == 1 {
      var owner :| owner in Owners(ms);
      SoleOwner(ms, owner);
      forall id | id in ms ensures ms[id].role == Owner <==> id == owner {
        assert ms[id].role == Owner <==> id in Owners(ms);
      }
    }
    if owner :| owner in ms && forall id :: id in ms ==> (ms[id].role == Owner <==> id == owner) {
      assert Owners(ms) == {owner};
    }
  }

  /** A valid state of epoch 0 is the founding of its creator, who is its only member and owner under the same keys. */
  lemma EpochZeroIsFounding(w: World, s: State)
    requires ValidState(w, s) && s.epoch == 0
    ensures exists version: Byte ::
      s.members == map[s.creator.nodeId := Membership(s.creator.(version := version), Owner)]
    ensures s.groupId == w.groupId(s.creator, s.nonce, s.delegates) && s.hash == w.digest(s.(hash := []))
  {
    var id := s.creator.nodeId;
    assert MemberOk(w, id, s.members[id]);
    var rest := s.members.Keys - {id};
    assert |rest| == 0;
    assert s.members.Keys == {id};
    var m := s.members[id];
    assert m == Membership(s.creator.(version := m.identity.version), Owner);
    assert s.members == map[id := Membership(s.creator.(version := m.identity.version), Owner)];
  }
}
