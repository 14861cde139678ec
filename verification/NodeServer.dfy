/** The store effects of the node's request handlers, interleaved (node/server.go). */
module NodeServer {
  import opened Bytes
  import opened Identities
  import opened Items
  import opened NodeStore

  /** A delete request between its lookup and its removal: the item it found and the token it presented. */
  datatype PendingDelete = PendingDelete(item: StoredItem, token: Bytes)

  datatype Server = Server(items: Contents, pending: map<nat, PendingDelete>)

  /** Handlers run concurrently: a delete request looks an item up in one critical section and removes it
      in another, and anything may happen in between. */
  datatype Step =
    | StoreStep(item: StoredItem, now: Time)
    | SweepStep(now: Time)
    | LookupStep(request: nat, id: Bytes, token: Bytes, now: Time)
    | RemoveStep(request: nat)

  predicate TokenMatches(w: Protocol, hash: Bytes, token: Bytes)
  {
    w.sha256(token) == hash
  }

  predicate LookupSucceeds(w: Protocol, s: Server, id: Bytes, token: Bytes, now: Time)
  {
    |token| == CAPABILITY_BYTES && id in s.items && now < s.items[id].expiresAt && TokenMatches(w, s.items[id].deleteTokenHash, token)
  }

  /** `admitted` stands for the quota and write outcome of a store request. */
  function Next(w: Protocol, s: Server, step: Step, admitted: bool): Server
  {
    match step
    case StoreStep(i, now) =>
      if ValidItem(w, i, now, DEFAULT_MAX_ITEM_BYTES) && i.itemId !in s.items && admitted then s.(items := s.items[i.itemId := i]) else s
    case SweepStep(now) =>
      s.(items := map id | id in s.items && now < s.items[id].expiresAt :: s.items[id])
    case LookupStep(request, id, token, now) =>
      if LookupSucceeds(w, s, id, token, now) then s.(pending := s.pending[request := PendingDelete(s.items[id], token)]) else s
    case RemoveStep(request) =>
      if request in s.pending then Server(s.items - {s.pending[request].item.itemId}, s.pending - {request}) else s
  }

  ghost function Run(w: Protocol, steps: seq<(Step, bool)>): Server
  {
    if steps == [] then Server(map[], map[])
    else
      var last := steps[|steps| - 1];
      Next(w, Run(w, steps[..|steps| - 1]), last.0, last.1)
  }

  /** The item is named by its own commitment and its fields can be encoded without loss. */
  predicate Named(w: Protocol, i: StoredItem)
  {
    i.itemId == ComputeItemId(w.sha256, i) && BoundedItem(w.sha256, i)
  }

  ghost predicate Sound(w: Protocol, s: Server, universe: set<StoredItem>)
  {
    && (forall id :: id in s.items ==> s.items[id].itemId == id && Named(w, s.items[id]) && s.items[id] in universe)
    && (forall r :: r in s.pending ==>
         Named(w, s.pending[r].item) && s.pending[r].item in universe &&
         w.sha256(s.pending[r].token) == s.pending[r].item.deleteTokenHash && |s.pending[r].token| == 32)
  }

  lemma StepSound(w: Protocol, s: Server, step: Step, admitted: bool, universe: set<StoredItem>)
    requires Sound(w, s, universe)
    requires step.StoreStep? ==> step.item in universe && BoundedItem(w.sha256, step.item)
    ensures Sound(w, Next(w, s, step, admitted), universe)
  {
  }

  lemma {:induction false} RunSound(w: Protocol, steps: seq<(Step, bool)>, universe: set<StoredItem>)
    requires forall k | 0 <= k < |steps| && steps[k].0.StoreStep? ::
      steps[k].0.item in universe && BoundedItem(w.sha256, steps[k].0.item)
    ensures Sound(w, Run(w, steps), universe)
  {
    if steps != [] {
      RunSound(w, steps[..|steps| - 1], universe);
      StepSound(w, Run(w, steps[..|steps| - 1]), steps[|steps| - 1].0, steps[|steps| - 1].1, universe);
    }
  }

  /** Within any run, an accepted item leaves before it expires only through a delete request whose token
      hashes to the item's own delete-token hash, even if the item was replaced between the request's lookup
      and its removal. */
  lemma LeavesOnlyByCapability(w: Protocol, steps: seq<(Step, bool)>, universe: set<StoredItem>, step: Step, admitted: bool, id: Bytes)
    requires forall k | 0 <= k < |steps| && steps[k].0.StoreStep? ::
      steps[k].0.item in universe && BoundedItem(w.sha256, steps[k].0.item)
    requires forall a, b | a in universe && b in universe ::
      NoCollision(w.sha256, Commitment(w.sha256, a), Commitment(w.sha256, b))
    requires id in Run(w, steps).items && id !in Next(w, Run(w, steps), step, admitted).items
    ensures var s := Run(w, steps);
      || (step.SweepStep? && s.items[id].expiresAt <= step.now)
      || (step.RemoveStep? && step.request in s.pending && |s.pending[step.request].token| == 32 &&
          w.sha256(s.pending[step.request].token) == s.items[id].deleteTokenHash)
  {
    RunSound(w, steps, universe);
    var s := Run(w, steps);
    if step.RemoveStep? {
      var p := s.pending[step.request];
      assert p.item.itemId == id == s.items[id].itemId;
      ItemIdCommits(w.sha256, p.item, s.items[id]);
    }
  }

  /** Whoever holds the token can delete: a request for an unexpired item finds it and its removal takes exactly that item. */
  lemma HolderDeletes(w: Protocol, steps: seq<(Step, bool)>, universe: set<StoredItem>, request: nat, id: Bytes, token: Bytes, now: Time,
                      a: bool, b: bool)
    requires forall k | 0 <= k < |steps| && steps[k].0.StoreStep? ::
      steps[k].0.item in universe && BoundedItem(w.sha256, steps[k].0.item)
    requires id in Run(w, steps).items && now < Run(w, steps).items[id].expiresAt
    requires |token| == 32 && w.sha256(token) == Run(w, steps).items[id].deleteTokenHash
    ensures Run(w, steps + [(LookupStep(request, id, token, now), a), (RemoveStep(request), b)]).items == Run(w, steps).items - {id}
  {
    RunSound(w, steps, universe);
    var x, y := (LookupStep(request, id, token, now), a), (RemoveStep(request), b);
    var longer := steps + [x, y];
    assert longer[..|longer| - 1] == steps + [x] && (steps + [x])[..|steps|] == steps;
  }

  /** Nobody else gets that far: without the token of an unexpired item a request changes nothing. */
  lemma OthersDoNot(w: Protocol, s: Server, request: nat, id: Bytes, token: Bytes, now: Time, admitted: bool)
    requires id !in s.items || s.items[id].expiresAt <= now || |token| != 32 || w.sha256(token) != s.items[id].deleteTokenHash
    ensures Next(w, s, LookupStep(request, id, token, now), admitted) == s
  {
  }

  /** The other handlers: a valid new item that is admitted is stored and nothing else changes; a second item of the same
      ID never replaces the first; a sweep leaves exactly the unexpired items. */
  lemma StoreAndSweep(w: Protocol, s: Server, i: StoredItem, now: Time, admitted: bool, id: Bytes)
    ensures var n := Next(w, s, StoreStep(i, now), admitted);
      && n.pending == s.pending && (id in s.items ==> id in n.items && n.items[id] == s.items[id])
      && (id !in s.items ==> (id in n.items <==> id == i.itemId && admitted && ValidItem(w, i, now, DEFAULT_MAX_ITEM_BYTES)))
      && (id in n.items && id !in s.items ==> n.items[id] == i)
    ensures var n := Next(w, s, SweepStep(now), admitted);
      && n.pending == s.pending && (id in n.items <==> id in s.items && s.items[id].expiresAt > now)
      && (id in n.items ==> n.items[id] == s.items[id])
  {
  }
}
