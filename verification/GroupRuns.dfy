/** What every run of group actions keeps. */
module GroupRuns {
  import opened Bytes
  import opened Identities
  import opened Group
  import opened Sorting

  /** An action together with the clock it was applied at. */
  datatype Attempt = Attempt(action: Action, now: Time)

  ghost function Step(w: World, s: State, x: Attempt): State
  {
    var t := Transition(w, s, x.action, x.now);
    if t.Some? then t.value else s
  }

  ghost function Run(w: World, first: State, xs: seq<Attempt>): State
  {
    if xs == [] then first else Step(w, Run(w, first, xs[..|xs| - 1]), xs[|xs| - 1])
  }

  ghost predicate Accepts(w: World, s: State, x: Attempt)
  {
    Transition(w, s, x.action, x.now).Some?
  }

  ghost function AcceptedCount(w: World, first: State, xs: seq<Attempt>): nat
  {
    if xs == [] then 0
    else AcceptedCount(w, first, xs[..|xs| - 1]) + if Accepts(w, Run(w, first, xs[..|xs| - 1]), xs[|xs| - 1]) then 1 else 0
  }

  /** What a fresh group needs to be valid. */
  ghost predicate Founded(w: World, owner: Identity, nonce: Bytes, delegates: bool)
  {
    && w.validIdentity(owner) && |nonce| == GENESIS_NONCE_BYTES && w.validGroupId(w.groupId(owner, nonce, delegates))
    && forall s :: |w.digest(s)| == DIGEST_BYTES
  }

  lemma GenesisValid(w: World, owner: Identity, nonce: Bytes, delegates: bool)
    requires Founded(w, owner, nonce, delegates)
    ensures ValidState(w, Genesis(w, owner, nonce, delegates))
  {
    var s := Genesis(w, owner, nonce, delegates);
    assert Owners(s.members) == {owner.nodeId};
    assert s.(hash := []) == s.(hash := []);
  }

  // ---------- one action ----------

  lemma SoleOwner(ms: Members, id: Bytes)
    requires |Owners(ms)| == 1 && id in ms && ms[id].role == Owner
    ensures Owners(ms) == {id}
  {
    var rest := Owners(ms) - {id};
    assert id in Owners(ms);
    assert |rest| == 0;
  }

  /** Removing or overwriting a member that is not the owner, with a role that is not the owner's. */
  lemma OwnersUnchanged(ms: Members, id: Bytes, m: Membership)
    requires m.role != Owner && (id in ms ==> ms[id].role != Owner)
    ensures Owners(ms[id := m]) == Owners(ms) && Owners(ms - {id}) == Owners(ms)
  {
  }

  lemma OwnersTransferred(ms: Members, owner: Bytes, id: Bytes)
    requires |Owners(ms)| == 1 && owner in ms && ms[owner].role == Owner && id in ms
    ensures Owners(ms[owner := ms[owner].(role := Admin)][id := ms[id].(role := Owner)]) == {id}
  {
    SoleOwner(ms, owner);
    forall k | k in ms && k != owner ensures ms[k].role != Owner {
      assert k !in Owners(ms);
    }
    assert id in ms[owner := ms[owner].(role := Admin)][id := ms[id].(role := Owner)];
  }

  /** Ownership after an accepted edit: the subject of a transfer, or whoever had it. */
  lemma OwnersAfter(ms: Members, delegates: bool, a: Action)
    requires a.actorId in ms && |Owners(ms)| == 1 && Edited(ms, delegates, a).Some?
    ensures Owners(Edited(ms, delegates, a).value) == if a.kind == TransferOwner then {a.subject.nodeId} else Owners(ms)
  {
    var id := a.subject.nodeId;
    match a.kind
    case Add => OwnersUnchanged(ms, id, Membership(a.subject, Member));
    case Remove => OwnersUnchanged(ms, id, Membership(a.subject, Member));
    case Ban => OwnersUnchanged(ms, id, Membership(a.subject, Banned));
    case GrantAdmin => OwnersUnchanged(ms, id, ms[id].(role := Admin));
    case RevokeAdmin => OwnersUnchanged(ms, id, ms[id].(role := Member));
    case TransferOwner => OwnersTransferred(ms, a.actorId, id);
  }

  lemma SizeAfter(ms: Members, delegates: bool, a: Action)
    requires a.actorId in ms && |ms| <= MAX_GROUP_MEMBERS && Edited(ms, delegates, a).Some?
    ensures |Edited(ms, delegates, a).value| <= MAX_GROUP_MEMBERS
  {
    var id := a.subject.nodeId;
    match a.kind
    case Add => MapUpdateSize(ms, id, Membership(a.subject, Member));
    case Remove => assert (ms - {id}).Keys <= ms.Keys; SubsetSize((ms - {id}).Keys, ms.Keys);
    case Ban => MapUpdateSize(ms, id, Membership(a.subject, Banned));
    case GrantAdmin => MapUpdateSize(ms, id, ms[id].(role := Admin));
    case RevokeAdmin => MapUpdateSize(ms, id, ms[id].(role := Member));
    case TransferOwner =>
      var half := ms[a.actorId := ms[a.actorId].(role := Admin)];
      MapUpdateSize(ms, a.actorId, ms[a.actorId].(role := Admin));
      MapUpdateSize(half, id, ms[id].(role := Owner));
  }

  lemma MembersAfter(w: World, ms: Members, delegates: bool, a: Action)
    requires a.actorId in ms && Edited(ms, delegates, a).Some? && w.validIdentity(a.subject)
    requires forall id :: id in ms ==> MemberOk(w, id, ms[id])
    ensures forall id :: id in Edited(ms, delegates, a).value ==> MemberOk(w, id, Edited(ms, delegates, a).value[id])
  {
  }

  /** An accepted action leads from a valid state to a valid state, one epoch later. */
  lemma TransitionValid(w: World, s: State, a: Action, now: Time)
    requires (forall t :: |w.digest(t)| == DIGEST_BYTES) && Transition(w, s, a, now).Some?
    ensures var n := Transition(w, s, a, now).value;
      ValidState(w, n) && n.epoch == s.epoch + 1 && n.groupId == s.groupId && n.delegates == s.delegates
  {
    var ms := Edited(s.members, s.delegates, a).value;
    OwnersAfter(s.members, s.delegates, a);
    SizeAfter(s.members, s.delegates, a);
    MembersAfter(w, s.members, s.delegates, a);
    assert |Owners(ms)| == 1;
    assert ms != map[] by {
      var id :| id in Owners(ms);
      assert id in ms;
    }
    SealedHash(w, s, ms, a.epoch);
  }

  lemma SealedHash(w: World, s: State, ms: Members, epoch: U64)
    ensures Sealed(w, s, ms, epoch).hash == StateHash(w, Sealed(w, s, ms, epoch))
  {
    var next := s.(members := ms, epoch := epoch);
    assert Sealed(w, s, ms, epoch).(hash := []) == next.(hash := []);
  }

  // ---------- runs ----------

  /** Every reachable state is valid again: one owner, at most 1000 members, and an epoch that counts the
      accepted actions. */
  lemma {:induction false} RunValid(w: World, owner: Identity, nonce: Bytes, delegates: bool, xs: seq<Attempt>)
    requires Founded(w, owner, nonce, delegates)
    ensures var s := Run(w, Genesis(w, owner, nonce, delegates), xs);
      && ValidState(w, s) && |Owners(s.members)| == 1 && |s.members| <= MAX_GROUP_MEMBERS
      && s.epoch == AcceptedCount(w, Genesis(w, owner, nonce, delegates), xs)
      && s.delegates == delegates && s.groupId == w.groupId(owner, nonce, delegates)
  {
    var first := Genesis(w, owner, nonce, delegates);
    if xs == [] {
      GenesisValid(w, owner, nonce, delegates);
    } else {
      var front, last := xs[..|xs| - 1], xs[|xs| - 1];
      RunValid(w, owner, nonce, delegates, front);
      var s := Run(w, first, front);
      if Accepts(w, s, last) {
        TransitionValid(w, s, last.action, last.now);
      }
    }
  }

  /** Ownership moves only by an authentic transfer of the owner of that moment, to an active member; a
      transfer to oneself keeps the owner and every role. */
  lemma OwnershipMoves(w: World, s: State, a: Action, now: Time)
    requires Transition(w, s, a, now).Some?
    ensures var n := Transition(w, s, a, now).value;
      && (Owners(n.members) != Owners(s.members) ==>
           && a.kind == TransferOwner && Owners(s.members) == {a.actorId} && Owners(n.members) == {a.subject.nodeId}
           && w.authentic(s.members[a.actorId].identity, a)
           && a.subject.nodeId in s.members && s.members[a.subject.nodeId].role != Banned)
      && (a.kind == TransferOwner && a.subject.nodeId == a.actorId ==> n.members == s.members)
  {
    OwnersAfter(s.members, s.delegates, a);
    if a.kind == TransferOwner {
      SoleOwner(s.members, a.actorId);
    }
  }

  ghost predicate IsAdmin(s: State, id: Bytes)
  {
    id in s.members && s.members[id].role == Admin
  }

  /** The action by which `id` becomes an admin: an owner's grant to it, or its own handing over of ownership. */
  ghost predicate MakesAdmin(w: World, s: State, a: Action, id: Bytes)
  {
    && Owners(s.members) == {a.actorId} && w.authentic(s.members[a.actorId].identity, a)
    && ((a.kind == GrantAdmin && a.subject.nodeId == id) || (a.kind == TransferOwner && a.actorId == id && a.subject.nodeId != id))
  }

  lemma AdminGained(w: World, s: State, a: Action, now: Time, id: Bytes)
    requires Transition(w, s, a, now).Some? && !s.delegates
    requires IsAdmin(Transition(w, s, a, now).value, id) && !IsAdmin(s, id)
    ensures MakesAdmin(w, s, a, id)
  {
    SoleOwner(s.members, a.actorId);
  }

  /** The moment from which on `id` has been an admin. */
  ghost predicate AdminSince(w: World, first: State, xs: seq<Attempt>, id: Bytes, j: nat)
  {
    && j < |xs| && Accepts(w, Run(w, first, xs[..j]), xs[j]) && MakesAdmin(w, Run(w, first, xs[..j]), xs[j].action, id)
    && forall k | j < k <= |xs| :: IsAdmin(Run(w, first, xs[..k]), id)
  }

  /** Where admins may not delegate, every admin got the role by an owner's grant or by handing ownership
      over, and has kept it since. */
  lemma {:induction false} AdminsComeFromOwners(w: World, owner: Identity, nonce: Bytes, xs: seq<Attempt>, id: Bytes)
    requires Founded(w, owner, nonce, false) && IsAdmin(Run(w, Genesis(w, owner, nonce, false), xs), id)
    ensures exists j: nat :: AdminSince(w, Genesis(w, owner, nonce, false), xs, id, j)
  {
    var first := Genesis(w, owner, nonce, false);
    if xs != [] {
      var n := |xs| - 1;
      var front, last := xs[..n], xs[n];
      var s := Run(w, first, front);
      RunValid(w, owner, nonce, false, front);
      assert xs[..|xs|] == xs;
      if IsAdmin(s, id) {
        AdminsComeFromOwners(w, owner, nonce, front, id);
        var j: nat :| AdminSince(w, first, front, id, j);
        SincePersists(w, first, xs, id, j);
      } else {
        AdminGained(w, s, last.action, last.now, id);
        assert AdminSince(w, first, xs, id, n);
      }
    }
  }

  lemma SincePersists(w: World, first: State, xs: seq<Attempt>, id: Bytes, j: nat)
    requires xs != [] && AdminSince(w, first, xs[..|xs| - 1], id, j) && IsAdmin(Run(w, first, xs), id)
    ensures AdminSince(w, first, xs, id, j)
  {
    var front := xs[..|xs| - 1];
    assert front[..j] == xs[..j] && front[j] == xs[j];
    forall k | j < k <= |xs| ensures IsAdmin(Run(w, first, xs[..k]), id) {
      if k < |xs| {
        assert front[..k] == xs[..k];
      } else {
        assert xs[..k] == xs;
      }
    }
  }

  // ---------- the hash chain ----------

  /** The two states do not form a collision of the state digest. */
  predicate DigestsDiffer(w: World, s: State, t: State)
  {
    StateHash(w, s) == StateHash(w, t) ==> s.(hash := []) == t.(hash := [])
  }

  /** One action fits one state only: replicas that accept it were in the same state and end in the same one. */
  lemma ActionFitsOneState(w: World, s: State, t: State, a: Action, now: Time, later: Time)
    requires Transition(w, s, a, now).Some? && Transition(w, t, a, later).Some? && DigestsDiffer(w, s, t)
    ensures s == t && Transition(w, s, a, now) == Transition(w, t, a, later)
  {
    assert s.hash == t.hash == a.previous;
    assert s == s.(hash := []).(hash := a.previous) && t == t.(hash := []).(hash := a.previous);
  }

  lemma {:induction false} EpochNeverFalls(w: World, first: State, xs: seq<Attempt>, k: nat)
    requires (forall t :: |w.digest(t)| == DIGEST_BYTES) && k <= |xs|
    ensures Run(w, first, xs[..k]).epoch <= Run(w, first, xs).epoch
    decreases |xs|
  {
    if k == |xs| {
      assert xs[..k] == xs;
    } else {
      var front, last := xs[..|xs| - 1], xs[|xs| - 1];
      EpochNeverFalls(w, first, front, k);
      assert front[..k] == xs[..k];
      if Accepts(w, Run(w, first, front), last) {
        TransitionValid(w, Run(w, first, front), last.action, last.now);
      }
    }
  }

  /** An action accepted once is refused for ever after. */
  lemma NoReplay(w: World, first: State, xs: seq<Attempt>, k: nat, later: Time)
    requires (forall t :: |w.digest(t)| == DIGEST_BYTES) && k < |xs| && Accepts(w, Run(w, first, xs[..k]), xs[k])
    ensures !Accepts(w, Run(w, first, xs), Attempt(xs[k].action, later))
  {
    var s := Run(w, first, xs[..k]);
    assert xs[..k + 1][..k] == xs[..k] && xs[..k + 1][k] == xs[k];
    TransitionValid(w, s, xs[k].action, xs[k].now);
    EpochNeverFalls(w, first, xs, k + 1);
    StaleRefused(w, Run(w, first, xs), xs[k].action, later);
  }

  lemma StaleRefused(w: World, s: State, a: Action, now: Time)
    requires a.epoch <= s.epoch
    ensures !Accepts(w, s, Attempt(a, now))
  {
  }
}
