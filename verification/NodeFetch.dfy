/** Bounded fetches over the route index (node/store.go, FetchLimited). */
module NodeFetch {
  import opened Bytes
  import opened Identities
  import opened Items
  import opened NodeStore
  import opened Sorting
  import opened Totals

  /** The unexpired items under any of the requested tags. */
  function Matching(m: Contents, tags: seq<Bytes>, now: Time): set<Bytes>
  {
    set id | id in m && m[id].routeTag in tags && now < m[id].expiresAt
  }

  function PayloadSizes(m: Contents, ids: set<Bytes>): map<Bytes, nat>
  {
    map id | id in ids && id in m :: |m[id].payload|
  }

  ghost function PayloadBytes(m: Contents, ids: set<Bytes>): nat
  {
    Total(PayloadSizes(m, ids))
  }

  lemma PayloadAdded(m: Contents, ids: set<Bytes>, id: Bytes)
    requires id in m && id !in ids
    ensures PayloadBytes(m, ids + {id}) == PayloadBytes(m, ids) + |m[id].payload|
  {
    assert PayloadSizes(m, ids + {id}) == PayloadSizes(m, ids)[id := |m[id].payload|];
    TotalWith(PayloadSizes(m, ids), id, |m[id].payload|);
  }

  lemma PayloadMonotone(m: Contents, a: set<Bytes>, b: set<Bytes>)
    requires a <= b
    ensures PayloadBytes(m, a) <= PayloadBytes(m, b)
  {
    TotalMonotone(PayloadSizes(m, a), PayloadSizes(m, b));
  }

  /** The answer being collected: which items were seen, their copies, and their payload bytes. */
  datatype Answer = Answer(seen: set<Bytes>, items: seq<StoredItem>, bytes: int)

  ghost predicate Collects(a: Answer, m: Contents)
  {
    && a.seen <= m.Keys && |a.items| == |a.seen| && NoDuplicates(a.items)
    && (forall i :: i in a.items <==> i.itemId in a.seen && m[i.itemId] == i)
    && a.bytes == PayloadBytes(m, a.seen)
  }

  ghost predicate WithinAnswer(a: Answer, maxItems: int, maxBytes: int)
  {
    |a.items| <= maxItems && a.bytes <= maxBytes
  }

  /** The item that did not fit any more. */
  ghost predicate Overflows(a: Answer, m: Contents, id: Bytes, maxItems: int, maxBytes: int)
  {
    id in m && id !in a.seen && (|a.items| >= maxItems || a.bytes + |m[id].payload| > maxBytes)
  }

  lemma CollectsNext(a: Answer, m: Contents, id: Bytes)
    requires Keyed(m) && Collects(a, m) && id in m && id !in a.seen
    ensures Collects(Answer(a.seen + {id}, a.items + [m[id]], a.bytes + |m[id].payload|), m)
  {
    PayloadAdded(m, a.seen, id);
    AddedSize(a.seen, id);
    assert m[id] !in a.items;
  }

  /** The inner loop: the items of one route, in an arbitrary order, until one does not fit. */
  method CollectRoute(m: Contents, ids: set<Bytes>, start: Answer, now: Time, maxItems: int, maxBytes: int)
    returns (a: Answer, truncated: bool, ghost left: Bytes)
    requires Keyed(m) && ids <= m.Keys && Collects(start, m) && WithinAnswer(start, maxItems, maxBytes)
    ensures Collects(a, m) && WithinAnswer(a, maxItems, maxBytes) && start.seen <= a.seen
    ensures forall id :: id in a.seen && id !in start.seen ==> id in ids && now < m[id].expiresAt
    ensures !truncated ==> forall id :: id in ids && now < m[id].expiresAt ==> id in a.seen
    ensures truncated ==> left in ids && now < m[left].expiresAt && Overflows(a, m, left, maxItems, maxBytes)
  {
    a, truncated, left := start, false, [];
    var rest := ids;
    while rest != {}
      invariant rest <= ids && Collects(a, m) && WithinAnswer(a, maxItems, maxBytes) && start.seen <= a.seen
      invariant forall id :: id in a.seen && id !in start.seen ==> id in ids && now < m[id].expiresAt
      invariant forall id :: id in ids && id !in rest && now < m[id].expiresAt ==> id in a.seen
      decreases rest
    {
      var id :| id in rest;
      rest := rest - {id};
      if now < m[id].expiresAt && id !in a.seen {
        if |a.items| >= maxItems || a.bytes + |m[id].payload| > maxBytes {
          return a, true, id;
        }
        CollectsNext(a, m, id);
        a := Answer(a.seen + {id}, a.items + [m[id]], a.bytes + |m[id].payload|);
      }
    }
  }

  predicate CreatedBefore(i: StoredItem, j: StoredItem)
  {
    i.createdAt < j.createdAt
  }

  /** An item beyond a collected part shows that everything together exceeds a limit. */
  lemma OverflowExceeds(a: Answer, m: Contents, id: Bytes, all: set<Bytes>, maxItems: int, maxBytes: int)
    requires Collects(a, m) && Overflows(a, m, id, maxItems, maxBytes) && a.seen + {id} <= all
    ensures |all| > maxItems || PayloadBytes(m, all) > maxBytes
  {
    AddedSize(a.seen, id);
    SubsetSize(a.seen + {id}, all);
    PayloadAdded(m, a.seen, id);
    PayloadMonotone(m, a.seen + {id}, all);
  }

  ghost predicate Exceeds(m: Contents, ids: set<Bytes>, maxItems: int, maxBytes: int)
  {
    |ids| > maxItems || PayloadBytes(m, ids) > maxBytes
  }

  lemma RouteSetIs(index: Index, m: Contents, tag: Bytes)
    requires index.byRoute == RouteIndex(m)
    ensures RouteSet(index, tag) == RouteIds(m, tag)
  {
    if tag !in Tags(m) {
      forall id | id in m ensures m[id].routeTag != tag {
        assert m[id].routeTag in Tags(m);
      }
    }
  }

  lemma MatchingNext(m: Contents, tags: seq<Bytes>, k: nat, now: Time, before: set<Bytes>, after: set<Bytes>)
    requires k < |tags| && before == Matching(m, tags[..k], now) && before <= after
    requires forall id :: id in after && id !in before ==> id in RouteIds(m, tags[k]) && now < m[id].expiresAt
    ensures after <= Matching(m, tags, now)
    ensures (forall id :: id in RouteIds(m, tags[k]) && now < m[id].expiresAt ==> id in after) ==> after == Matching(m, tags[..k + 1], now)
  {
    assert tags[..k + 1] == tags[..k] + [tags[k]];
  }

  /** The outer loop over the requested tags. */
  method CollectAll(m: Contents, index: Index, tags: seq<Bytes>, now: Time, maxItems: int, maxBytes: int)
    returns (a: Answer, truncated: bool)
    requires Keyed(m) && index.byRoute == RouteIndex(m) && maxItems > 0 && maxBytes > 0
    ensures Collects(a, m)
    ensures truncated <==> Exceeds(m, Matching(m, tags, now), maxItems, maxBytes)
    ensures !truncated ==> a.seen == Matching(m, tags, now)
  {
    a := Answer({}, [], 0);
    assert PayloadSizes(m, {}).Keys == {};
    for k := 0 to |tags|
      invariant Collects(a, m) && WithinAnswer(a, maxItems, maxBytes)
      invariant a.seen == Matching(m, tags[..k], now)
    {
      ghost var left;
      ghost var before := a.seen;
      RouteSetIs(index, m, tags[k]);
      a, truncated, left := CollectRoute(m, RouteSet(index, tags[k]), a, now, maxItems, maxBytes);
      MatchingNext(m, tags, k, now, before, a.seen);
      if truncated {
        OverflowExceeds(a, m, left, Matching(m, tags, now), maxItems, maxBytes);
        return;
      }
    }
    assert tags[..|tags|] == tags;
    truncated := false;
  }

  /** Truncation is reported exactly when the matching items exceed a limit together, whatever the order
      and however often a tag is repeated; otherwise each is returned once, oldest first. */
  method FetchLimited(m: Contents, index: Index, closed: bool, tags: seq<Bytes>, now: Time, maxItems: int, maxBytes: int)
    returns (items: seq<StoredItem>, truncated: bool)
    requires Keyed(m) && index.byRoute == RouteIndex(m)
    ensures truncated <==>
      || closed || !(1 <= |tags| <= 256) || maxItems < 1 || maxBytes < 1
      || |Matching(m, tags, now)| > maxItems || PayloadBytes(m, Matching(m, tags, now)) > maxBytes
    ensures !truncated ==> NoDuplicates(items) && forall i, j :: 0 <= i < j < |items| ==> items[i].createdAt <= items[j].createdAt
    ensures !truncated ==> forall i :: i in items <==>
      i.itemId in m && m[i.itemId] == i && i.routeTag in tags && now < i.expiresAt
  {
    if closed {
      return [], true;
    }
    if |tags| == 0 || |tags| > MAX_TAGS_PER_FETCH || maxItems <= 0 || maxBytes <= 0 {
      return [], true;
    }
    var a;
    a, truncated := CollectAll(m, index, tags, now, maxItems, maxBytes);
    items := SortSlice(a.items, CreatedBefore);
    assert forall i, j :: 0 <= i < j < |items| ==> !CreatedBefore(items[j], items[i]);
    SameElements(a.items, items);
    PermutationDistinct(a.items, items);
  }
}
