/** Fetching from all allowed nodes and combining what they return (client/core.go, `Fetch`). */
module ClientFetch {
  import opened Bytes
  import opened Identities
  import opened Items
  import opened Sorting
  import opened Totals

  const MAX_FETCH_ITEMS := 512
  const MAX_FETCH_BYTES := 8 * 1024 * 1024

  /** What one node returns; nothing if the request fails. */
  type Answer = Option<seq<StoredItem>>

  // ---------- the arguments ----------

  ghost predicate Admits(validTag: Bytes -> bool, tags: seq<Bytes>)
  {
    0 < |tags| <= MAX_TAGS_PER_FETCH && NoDuplicates(tags) && forall x :: x in tags ==> validTag(x)
  }

  method CheckTags(validTag: Bytes -> bool, tags: seq<Bytes>) returns (ok: bool)
    ensures ok <==> Admits(validTag, tags)
  {
    if |tags| == 0 || |tags| > MAX_TAGS_PER_FETCH {
      return false;
    }
    var requested: set<Bytes> := {};
    for i := 0 to |tags|
      invariant NoDuplicates(tags[..i]) && requested == Elements(tags[..i])
      invariant forall x :: x in tags[..i] ==> validTag(x)
    {
      if !validTag(tags[i]) || tags[i] in requested {
        assert tags[i] in tags;
        return false;
      }
      assert tags[..i + 1] == tags[..i] + [tags[i]];
      requested := requested + {tags[i]};
    }
    assert tags[..|tags|] == tags;
    return true;
  }

  // ---------- the answers ----------

  predicate Wanted(tags: seq<Bytes>, valid: StoredItem -> bool, i: StoredItem)
  {
    i.routeTag in tags && valid(i)
  }

  function WantedOf(tags: seq<Bytes>, valid: StoredItem -> bool, items: seq<StoredItem>): seq<StoredItem>
  {
    if items == [] then []
    else
      var front, last := WantedOf(tags, valid, items[..|items| - 1]), items[|items| - 1];
      if Wanted(tags, valid, last) then front + [last] else front
  }

  /** An answer with too many items is ignored. */
  function Counted(a: Answer): seq<StoredItem>
  {
    if a.Some? && |a.value| <= MAX_FETCH_ITEMS then a.value else []
  }

  predicate AllWanted(tags: seq<Bytes>, valid: StoredItem -> bool, items: seq<StoredItem>)
  {
    forall i :: 0 <= i < |items| ==> Wanted(tags, valid, items[i])
  }

  predicate Clean(tags: seq<Bytes>, valid: StoredItem -> bool, a: Answer)
  {
    a.Some? && |a.value| <= MAX_FETCH_ITEMS && AllWanted(tags, valid, a.value)
  }

  /** Everything usable that the nodes returned, in the order in which it arrived. */
  function Offers(tags: seq<Bytes>, valid: StoredItem -> bool, answers: seq<Answer>): seq<StoredItem>
  {
    if answers == [] then []
    else Offers(tags, valid, answers[..|answers| - 1]) + WantedOf(tags, valid, Counted(answers[|answers| - 1]))
  }

  /** Of several items with one ID the first is kept. */
  function FirstWins(items: seq<StoredItem>): map<Bytes, StoredItem>
  {
    if items == [] then map[]
    else
      var m, last := FirstWins(items[..|items| - 1]), items[|items| - 1];
      if last.itemId in m then m else m[last.itemId := last]
  }

  function Sizes(m: map<Bytes, StoredItem>): map<Bytes, nat>
  {
    map id | id in m :: |m[id].payload|
  }

  ghost predicate Excessive(m: map<Bytes, StoredItem>)
  {
    |m| > MAX_FETCH_ITEMS || Total(Sizes(m)) > MAX_FETCH_BYTES
  }

  predicate CreatedBefore(i: StoredItem, j: StoredItem)
  {
    i.createdAt < j.createdAt
  }

  ghost predicate Lists(s: seq<StoredItem>, m: map<Bytes, StoredItem>)
  {
    NoDuplicates(s) && forall i :: i in s <==> i.itemId in m && m[i.itemId] == i
  }

  ghost predicate SomeClean(tags: seq<Bytes>, valid: StoredItem -> bool, answers: seq<Answer>)
  {
    exists k :: 0 <= k < |answers| && Clean(tags, valid, answers[k])
  }

  /** What a fetch returns: nothing for refused arguments, for more than the combined limits, or if every node
      failed or sent something unwanted; otherwise every usable item once, oldest first. */
  ghost predicate Fetched(validTag: Bytes -> bool, valid: StoredItem -> bool, tags: seq<Bytes>, answers: seq<Answer>, r: Answer)
  {
    var m := FirstWins(Offers(tags, valid, answers));
    if !Admits(validTag, tags) || Excessive(m) || (answers != [] && !SomeClean(tags, valid, answers)) then r.None?
    else r.Some? && Lists(r.value, m) && Ordered(r.value, CreatedBefore)
  }

  lemma {:induction false} FirstWinsKeyed(items: seq<StoredItem>)
    ensures forall id :: id in FirstWins(items) ==> FirstWins(items)[id].itemId == id && FirstWins(items)[id] in items
    ensures forall i :: i in items ==> i.itemId in FirstWins(items)
  {
    if items != [] {
      FirstWinsKeyed(items[..|items| - 1]);
      assert items == items[..|items| - 1] + [items[|items| - 1]];
    }
  }

  lemma FirstWinsNext(items: seq<StoredItem>, i: StoredItem)
    ensures FirstWins(items + [i]) == if i.itemId in FirstWins(items) then FirstWins(items) else FirstWins(items)[i.itemId := i]
  {
    assert (items + [i])[..|items|] == items;
  }

  lemma {:induction false} FirstWinsGrows(a: seq<StoredItem>, b: seq<StoredItem>)
    ensures SubMap(FirstWins(a), FirstWins(a + b))
  {
    if b == [] {
      assert a + b == a;
    } else {
      var front, last := b[..|b| - 1], b[|b| - 1];
      FirstWinsGrows(a, front);
      assert a + b == a + front + [last];
      FirstWinsNext(a + front, last);
    }
  }

  lemma ExcessiveGrows(m: map<Bytes, StoredItem>, n: map<Bytes, StoredItem>)
    requires SubMap(m, n) && Excessive(m)
    ensures Excessive(n)
  {
    SubMapSize(m, n);
    TotalMonotone(Sizes(m), Sizes(n));
  }

  lemma WantedNext(tags: seq<Bytes>, valid: StoredItem -> bool, items: seq<StoredItem>, i: nat)
    requires i < |items|
    ensures WantedOf(tags, valid, items[..i + 1]) ==
      WantedOf(tags, valid, items[..i]) + if Wanted(tags, valid, items[i]) then [items[i]] else []
  {
    assert items[..i + 1][..i] == items[..i];
  }

  lemma {:induction false} WantedGrows(tags: seq<Bytes>, valid: StoredItem -> bool, items: seq<StoredItem>, i: nat)
    requires i <= |items|
    ensures WantedOf(tags, valid, items[..i]) <= WantedOf(tags, valid, items)
    decreases |items| - i
  {
    if i == |items| {
      assert items[..i] == items;
    } else {
      WantedGrows(tags, valid, items, i + 1);
      WantedNext(tags, valid, items, i);
    }
  }

  lemma OffersNext(tags: seq<Bytes>, valid: StoredItem -> bool, answers: seq<Answer>, k: nat)
    requires k < |answers|
    ensures Offers(tags, valid, answers[..k + 1]) == Offers(tags, valid, answers[..k]) + WantedOf(tags, valid, Counted(answers[k]))
  {
    assert answers[..k + 1][..k] == answers[..k];
  }

  lemma {:induction false} OffersGrow(tags: seq<Bytes>, valid: StoredItem -> bool, answers: seq<Answer>, k: nat)
    requires k <= |answers|
    ensures Offers(tags, valid, answers[..k]) <= Offers(tags, valid, answers)
    decreases |answers| - k
  {
    if k == |answers| {
      assert answers[..k] == answers;
    } else {
      OffersGrow(tags, valid, answers, k + 1);
      OffersNext(tags, valid, answers, k);
    }
  }

  lemma PrefixExcessive(a: seq<StoredItem>, b: seq<StoredItem>)
    requires a <= b && Excessive(FirstWins(a))
    ensures Excessive(FirstWins(b))
  {
    FirstWinsGrows(a, b[|a|..]);
    assert a + b[|a|..] == b;
    ExcessiveGrows(FirstWins(a), FirstWins(b));
  }

  // ---------- the loops ----------

  /** The items kept so far and their payload bytes. */
  datatype Pool = Pool(seen: map<Bytes, StoredItem>, bytes: int)

  ghost predicate Holds(p: Pool, offers: seq<StoredItem>)
  {
    p.seen == FirstWins(offers) && p.bytes == Total(Sizes(p.seen)) && !Excessive(p.seen)
  }

  predicate Overflows(p: Pool, i: StoredItem)
  {
    i.itemId !in p.seen && (|p.seen| >= MAX_FETCH_ITEMS || p.bytes + |i.payload| > MAX_FETCH_BYTES)
  }

  function Kept(p: Pool, i: StoredItem): Pool
  {
    if i.itemId in p.seen then p else Pool(p.seen[i.itemId := i], p.bytes + |i.payload|)
  }

  lemma OneItemMore(m: map<Bytes, StoredItem>, i: StoredItem)
    requires i.itemId !in m
    ensures var n := m[i.itemId := i]; |n| == |m| + 1 && Total(Sizes(n)) == Total(Sizes(m)) + |i.payload|
  {
    MapUpdateSize(m, i.itemId, i);
    assert Sizes(m[i.itemId := i]) == Sizes(m)[i.itemId := |i.payload|];
    TotalWith(Sizes(m), i.itemId, |i.payload|);
  }

  lemma KeptHolds(p: Pool, offers: seq<StoredItem>, i: StoredItem)
    requires Holds(p, offers)
    ensures if Overflows(p, i) then Excessive(FirstWins(offers + [i])) else Holds(Kept(p, i), offers + [i])
  {
    FirstWinsNext(offers, i);
    if i.itemId !in p.seen {
      OneItemMore(p.seen, i);
    }
  }

  lemma TakeStep(tags: seq<Bytes>, valid: StoredItem -> bool, items: seq<StoredItem>, i: nat, p: Pool, before: seq<StoredItem>)
    requires i < |items| && Holds(p, before + WantedOf(tags, valid, items[..i]))
    ensures if !Wanted(tags, valid, items[i]) then Holds(p, before + WantedOf(tags, valid, items[..i + 1]))
      else if Overflows(p, items[i]) then Excessive(FirstWins(before + WantedOf(tags, valid, items)))
      else Holds(Kept(p, items[i]), before + WantedOf(tags, valid, items[..i + 1]))
  {
    var offers := before + WantedOf(tags, valid, items[..i]);
    WantedNext(tags, valid, items, i);
    if !Wanted(tags, valid, items[i]) {
      assert before + WantedOf(tags, valid, items[..i + 1]) == offers;
    } else {
      assert before + WantedOf(tags, valid, items[..i + 1]) == offers + [items[i]];
      KeptHolds(p, offers, items[i]);
      if Overflows(p, items[i]) {
        WantedGrows(tags, valid, items, i + 1);
        PrefixExcessive(offers + [items[i]], before + WantedOf(tags, valid, items));
      }
    }
  }

  lemma AllWantedNext(tags: seq<Bytes>, valid: StoredItem -> bool, items: seq<StoredItem>, i: nat)
    requires i < |items|
    ensures AllWanted(tags, valid, items[..i + 1]) <==> AllWanted(tags, valid, items[..i]) && Wanted(tags, valid, items[i])
  {
    assert items[..i + 1] == items[..i] + [items[i]];
  }

  /** One node's items. Nothing is returned once the combined limits are exceeded. */
  method TakeItems(tags: seq<Bytes>, valid: StoredItem -> bool, items: seq<StoredItem>, start: Pool, ghost before: seq<StoredItem>)
    returns (r: Option<Pool>, clean: bool)
    requires Holds(start, before)
    ensures r.None? ==> Excessive(FirstWins(before + WantedOf(tags, valid, items)))
    ensures r.Some? ==> Holds(r.value, before + WantedOf(tags, valid, items)) && (clean <==> AllWanted(tags, valid, items))
  {
    var p := start;
    clean := true;
    ghost var offers := before;
    for i := 0 to |items|
      invariant offers == before + WantedOf(tags, valid, items[..i]) && Holds(p, offers)
      invariant clean <==> AllWanted(tags, valid, items[..i])
    {
      TakeStep(tags, valid, items, i, p, before);
      offers := before + WantedOf(tags, valid, items[..i + 1]);
      AllWantedNext(tags, valid, items, i);
      if !Wanted(tags, valid, items[i]) {
        clean := false;
      } else if Overflows(p, items[i]) {
        return None, clean;
      } else {
        p := Kept(p, items[i]);
      }
    }
    assert items[..|items|] == items;
    r := Some(p);
  }

  /** One node's answer: a failure or an answer with too many items brings nothing. */
  method TakeAnswer(tags: seq<Bytes>, valid: StoredItem -> bool, a: Answer, start: Pool, ghost before: seq<StoredItem>)
    returns (r: Option<Pool>, clean: bool)
    requires Holds(start, before)
    ensures r.None? ==> Excessive(FirstWins(before + WantedOf(tags, valid, Counted(a))))
    ensures r.Some? ==> Holds(r.value, before + WantedOf(tags, valid, Counted(a))) && (clean <==> Clean(tags, valid, a))
  {
    if a.Some? && |a.value| <= MAX_FETCH_ITEMS {
      r, clean := TakeItems(tags, valid, a.value, start, before);
    } else {
      assert before + WantedOf(tags, valid, []) == before;
      r, clean := Some(start), false;
    }
  }

  lemma OffersUpTo(tags: seq<Bytes>, valid: StoredItem -> bool, answers: seq<Answer>, k: nat)
    requires k < |answers|
    requires Excessive(FirstWins(Offers(tags, valid, answers[..k]) + WantedOf(tags, valid, Counted(answers[k]))))
    ensures Excessive(FirstWins(Offers(tags, valid, answers)))
  {
    OffersNext(tags, valid, answers, k);
    OffersGrow(tags, valid, answers, k + 1);
    PrefixExcessive(Offers(tags, valid, answers[..k + 1]), Offers(tags, valid, answers));
  }

  /** The loop over the nodes. */
  method Combine(tags: seq<Bytes>, valid: StoredItem -> bool, answers: seq<Answer>) returns (r: Option<Pool>, clean: bool)
    ensures r.None? ==> Excessive(FirstWins(Offers(tags, valid, answers)))
    ensures r.Some? ==> Holds(r.value, Offers(tags, valid, answers)) && (clean <==> SomeClean(tags, valid, answers))
  {
    var p := Pool(map[], 0);
    assert Sizes(map[]) == map[];
    clean := false;
    for k := 0 to |answers|
      invariant Holds(p, Offers(tags, valid, answers[..k])) && (clean <==> SomeClean(tags, valid, answers[..k]))
    {
      var next, wanted := TakeAnswer(tags, valid, answers[k], p, Offers(tags, valid, answers[..k]));
      if next.None? {
        OffersUpTo(tags, valid, answers, k);
        return None, clean;
      }
      OffersNext(tags, valid, answers, k);
      SomeCleanNext(tags, valid, answers, k);
      p, clean := next.value, clean || wanted;
    }
    assert answers[..|answers|] == answers;
    r := Some(p);
  }

  lemma SomeCleanNext(tags: seq<Bytes>, valid: StoredItem -> bool, answers: seq<Answer>, k: nat)
    requires k < |answers|
    ensures SomeClean(tags, valid, answers[..k + 1]) <==> SomeClean(tags, valid, answers[..k]) || Clean(tags, valid, answers[k])
  {
    if Clean(tags, valid, answers[k]) {
      assert answers[..k + 1][k] == answers[k];
    }
    if SomeClean(tags, valid, answers[..k]) {
      var i :| 0 <= i < k && Clean(tags, valid, answers[..k][i]);
      assert answers[..k + 1][i] == answers[..k][i];
    }
    if SomeClean(tags, valid, answers[..k + 1]) {
      var i :| 0 <= i < k + 1 && Clean(tags, valid, answers[..k + 1][i]);
      assert i < k ==> answers[..k][i] == answers[..k + 1][i];
    }
  }

  /** Walks the kept items in an arbitrary order. */
  method ListAll(m: map<Bytes, StoredItem>) returns (s: seq<StoredItem>)
    requires forall id :: id in m ==> m[id].itemId == id
    ensures Lists(s, m)
  {
    s := [];
    var ids := m.Keys;
    while ids != {}
      invariant ids <= m.Keys && NoDuplicates(s)
      invariant forall i :: i in s <==> i.itemId in m && i.itemId !in ids && m[i.itemId] == i
      decreases ids
    {
      var id :| id in ids;
      ids := ids - {id};
      assert m[id] !in s;
      s := s + [m[id]];
    }
  }

  lemma CreationOrder()
    ensures StrictWeakOrder(CreatedBefore)
  {
  }

  /** Asks every allowed node and combines the answers. */
  method Fetch(validTag: Bytes -> bool, valid: StoredItem -> bool, tags: seq<Bytes>, answers: seq<Answer>) returns (r: Answer)
    ensures Fetched(validTag, valid, tags, answers, r)
  {
    var ok := CheckTags(validTag, tags);
    if !ok {
      return None;
    }
    var pool, clean := Combine(tags, valid, answers);
    if pool.None? {
      return None;
    }
    FirstWinsKeyed(Offers(tags, valid, answers));
    var listed := ListAll(pool.value.seen);
    CreationOrder();
    var sorted := SortSlice(listed, CreatedBefore);
    PermutationDistinct(listed, sorted);
    SameElements(listed, sorted);
    if !clean && answers != [] {
      return None;
    }
    return Some(sorted);
  }
}
