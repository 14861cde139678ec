/** The group state machine (group/state.go). */
module Group {
  import opened Bytes
  import opened Identities

  const MAX_GROUP_MEMBERS := 1000
  const GENESIS_NONCE_BYTES := 32
  const DIGEST_BYTES := 32

  datatype Role = Owner | Admin | Member | Banned | UnknownRole

  datatype Kind = Add | Remove | Ban | GrantAdmin | RevokeAdmin | TransferOwner | UnknownKind

  datatype Membership = Membership(identity: Identity, role: Role)

  type Members = map<Bytes, Membership>

  datatype Action = Action(groupId: Bytes, epoch: U64, previous: Bytes, kind: Kind, actorId: Bytes,
                           subject: Identity, createdAt: Time, signature: Signature)

  datatype State = State(groupId: Bytes, creator: Identity, nonce: Bytes, epoch: U64, delegates: bool,
                         members: Members, hash: Bytes)

  /** Identity checks, signatures, group addresses and the state digest, taken as given. */
  datatype World = World(
    validIdentity: Identity -> bool,
    authentic: (Identity, Action) -> bool,
    groupId: (Identity, Bytes, bool) -> Bytes,
    validGroupId: Bytes -> bool,
    digest: State -> Bytes)

  /** The digest covers everything but the hash field itself. */
  function StateHash(w: World, s: State): Bytes
  {
    w.digest(s.(hash := []))
  }

  function Owners(ms: Members): set<Bytes>
  {
    set id | id in ms && ms[id].role == Owner
  }

  predicate MemberOk(w: World, id: Bytes, m: Membership)
  {
    id == m.identity.nodeId && w.validIdentity(m.identity) && m.role != UnknownRole
  }

  predicate HeaderOk(w: World, s: State)
  {
    && 0 < |s.members| <= MAX_GROUP_MEMBERS
    && |s.hash| == DIGEST_BYTES && s.hash == StateHash(w, s)
    && w.validGroupId(s.groupId) && w.validIdentity(s.creator) && |s.nonce| == GENESIS_NONCE_BYTES
    && s.groupId == w.groupId(s.creator, s.nonce, s.delegates)
    && (s.epoch == 0 ==> IsFounding(s))
  }

  /** The creator is the only member, as its owner and under its own keys. */
  predicate IsFounding(s: State)
  {
    && s.creator.nodeId in s.members && |s.members| == 1 && s.members[s.creator.nodeId].role == Owner
    && s.members[s.creator.nodeId].identity.ed25519 == s.creator.ed25519
    && s.members[s.creator.nodeId].identity.mldsa65 == s.creator.mldsa65
  }

  ghost predicate ValidState(w: World, s: State)
  {
    && HeaderOk(w, s)
    && (forall id :: id in s.members ==> MemberOk(w, id, s.members[id]))
    && |Owners(s.members)| == 1
  }

  method CheckHeader(w: World, s: State) returns (ok: bool)
    ensures ok <==> HeaderOk(w, s)
  {
    if |s.members| == 0 || |s.members| > MAX_GROUP_MEMBERS || |s.hash| != DIGEST_BYTES || s.hash != StateHash(w, s) {
      return false;
    }
    if !w.validGroupId(s.groupId) || !w.validIdentity(s.creator) || |s.nonce| != GENESIS_NONCE_BYTES ||
       s.groupId != w.groupId(s.creator, s.nonce, s.delegates) {
      return false;
    }
    if s.epoch == 0 && !IsFounding(s) {
      return false;
    }
    return true;
  }

  method CheckMember(w: World, id: Bytes, m: Membership) returns (ok: bool)
    ensures ok <==> MemberOk(w, id, m)
  {
    if id != m.identity.nodeId || !w.validIdentity(m.identity) {
      return false;
    }
    return m.role != UnknownRole;
  }

  /** The members outside `rest` are in order, and `count` of them are owners. */
  ghost predicate Walked(w: World, ms: Members, rest: set<Bytes>, count: nat)
  {
    && rest <= ms.Keys && count == |Owners(ms) - rest|
    && forall id :: id in ms && id !in rest ==> MemberOk(w, id, ms[id])
  }

  lemma WalkedNext(w: World, ms: Members, rest: set<Bytes>, count: nat, id: Bytes)
    requires Walked(w, ms, rest, count) && id in rest && MemberOk(w, id, ms[id])
    ensures Walked(w, ms, rest - {id}, if ms[id].role == Owner then count + 1 else count)
  {
    assert Owners(ms) - (rest - {id}) == (Owners(ms) - rest) + (if ms[id].role == Owner then {id} else {});
  }

  lemma WalkedAll(w: World, ms: Members, count: nat)
    requires Walked(w, ms, {}, count)
    ensures count == |Owners(ms)| && forall id :: id in ms ==> MemberOk(w, id, ms[id])
  {
    assert Owners(ms) - {} == Owners(ms);
  }

  lemma WalkedNone(w: World, ms: Members)
    ensures Walked(w, ms, ms.Keys, 0)
  {
    assert Owners(ms) - ms.Keys == {};
  }

  /** Walks the members in an arbitrary order, counting owners; nothing if one of them is not in order. */
  method CountOwners(w: World, ms: Members) returns (owners: Option<nat>)
    ensures owners.Some? <==> forall id :: id in ms ==> MemberOk(w, id, ms[id])
    ensures owners.Some? ==> owners.value == |Owners(ms)|
  {
    var count, rest := 0, ms.Keys;
    WalkedNone(w, ms);
    while rest != {}
      invariant Walked(w, ms, rest, count)
      decreases rest
    {
      var id :| id in rest;
      var known := CheckMember(w, id, ms[id]);
      if !known {
        return None;
      }
      WalkedNext(w, ms, rest, count, id);
      rest := rest - {id};
      if ms[id].role == Owner {
        count := count + 1;
      }
    }
    WalkedAll(w, ms, count);
    return Some(count);
  }

  method CheckState(w: World, s: State) returns (ok: bool)
    ensures ok <==> ValidState(w, s)
  {
    var header := CheckHeader(w, s);
    if !header {
      return false;
    }
    var owners := CountOwners(w, s.members);
    return owners == Some(1);
  }

  // ---------- transitions ----------

  predicate IsNext(s: State, a: Action, now: Time)
  {
    && a.groupId == s.groupId && a.epoch != 0 && a.epoch == (s.epoch + 1) % TWO64
    && |a.previous| == DIGEST_BYTES && a.previous == s.hash
    && a.createdAt != ZERO_TIME && a.createdAt <= now + 5 * MINUTE
  }

  /** What an authorised action does to the members, or nothing if its rule forbids it. */
  function Edited(ms: Members, delegates: bool, a: Action): Option<Members>
    requires a.actorId in ms
  {
    var actor := ms[a.actorId];
    var id := a.subject.nodeId;
    match a.kind
    case Add =>
      if |ms| >= MAX_GROUP_MEMBERS || (id in ms && ms[id].role != Banned) then None
      else Some(ms[id := Membership(a.subject, Member)])
    case Remove =>
      if id !in ms || ms[id].role == Owner || (actor.role == Admin && ms[id].role == Admin) then None
      else Some(ms - {id})
    case Ban =>
      if (id !in ms && |ms| >= MAX_GROUP_MEMBERS) || (id in ms && ms[id].role == Owner) ||
         (id in ms && actor.role == Admin && ms[id].role == Admin) then None
      else Some(ms[id := Membership(a.subject, Banned)])
    case GrantAdmin =>
      if (actor.role != Owner && !delegates) || id !in ms || ms[id].role != Member then None
      else Some(ms[id := ms[id].(role := Admin)])
    case RevokeAdmin =>
      if actor.role != Owner || id !in ms || ms[id].role != Admin then None
      else Some(ms[id := ms[id].(role := Member)])
    case TransferOwner =>
      if actor.role != Owner || id !in ms || ms[id].role == Banned then None
      else Some(ms[a.actorId := actor.(role := Admin)][id := ms[id].(role := Owner)])
    case UnknownKind => None
  }

  predicate Authorised(w: World, s: State, a: Action)
  {
    && a.actorId in s.members && (s.members[a.actorId].role == Owner || s.members[a.actorId].role == Admin)
    && w.authentic(s.members[a.actorId].identity, a)
    && w.validIdentity(a.subject)
  }

  function Sealed(w: World, s: State, ms: Members, epoch: U64): State
  {
    var next := s.(members := ms, epoch := epoch);
    next.(hash := StateHash(w, next))
  }

  ghost function Transition(w: World, s: State, a: Action, now: Time): Option<State>
  {
    if !ValidState(w, s) || !IsNext(s, a, now) || !Authorised(w, s, a) then None
    else
      var ms := Edited(s.members, s.delegates, a);
      if ms.None? then None else Some(Sealed(w, s, ms.value, a.epoch))
  }

  /** The group as a client holds it. */
  class GroupHandle {
    const w: World
    var state: State

    constructor Founded(w: World, owner: Identity, nonce: Bytes, delegates: bool)
      ensures this.w == w && state == Genesis(w, owner, nonce, delegates)
    {
      this.w := w;
      state := Genesis(w, owner, nonce, delegates);
    }

    /** A group is founded exactly by a valid identity with a working random source. */
    static method New(w: World, owner: Identity, nonce: Option<Bytes>, delegates: bool) returns (r: Option<GroupHandle>)
      ensures r.Some? <==> w.validIdentity(owner) && nonce.Some?
      ensures r.Some? ==> fresh(r.value) && r.value.w == w && r.value.state == Genesis(w, owner, nonce.value, delegates)
    {
      if !w.validIdentity(owner) || nonce.None? {
        return None;
      }
      var g := new GroupHandle.Founded(w, owner, nonce.value, delegates);
      return Some(g);
    }

    method Apply(a: Action, now: Time) returns (ok: bool)
      modifies this
      ensures var next := Transition(w, old(state), a, now);
        if next.Some? then ok && state == next.value else !ok && state == old(state)
    {
      var valid := CheckState(w, state);
      if !valid {
        return false;
      }
      if !IsNext(state, a, now) || !Authorised(w, state, a) {
        return false;
      }
      var edited := Edited(state.members, state.delegates, a);
      if edited.None? {
        return false;
      }
      state := Sealed(w, state, edited.value, a.epoch);
      return true;
    }
  }

  function Genesis(w: World, owner: Identity, nonce: Bytes, delegates: bool): State
  {
    var s := State(w.groupId(owner, nonce, delegates), owner, nonce, 0, delegates, map[owner.nodeId := Membership(owner, Owner)], []);
    s.(hash := StateHash(w, s))
  }
}
