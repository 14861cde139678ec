/** Replicated writes: epoch grouping, the quorum threshold, primary and fallback stores (client/core.go). */
module Replication {
  import opened Bytes
  import opened Identities
  import opened Items
  import opened Sorting
  import opened Totals
  import opened Work

  const MAX_CLIENT_NODES := 64

  /** A node that answered, with the parameters the choice depends on. */
  datatype Node = Node(id: Bytes, epochSeconds: int, difficulty: Byte, maxItemBytes: int)

  // ---------- configuration ----------

  /** Defaults of the replica count and the write quorum; nothing if they contradict each other. */
  method Configure(nodes: seq<Bytes>, described: Bytes -> bool, replicas: int, writeQuorum: int) returns (r: Option<(nat, nat)>)
    ensures r.Some? ==> 1 <= r.value.1 <= r.value.0 <= |nodes| <= MAX_CLIENT_NODES && NoDuplicates(nodes)
    ensures r.Some? && 0 < replicas <= |nodes| ==> r.value.0 == replicas
    ensures r.Some? && !(0 < replicas <= |nodes|) ==> r.value.0 == |nodes|
    ensures r.Some? ==> r.value.1 == if writeQuorum > 0 then writeQuorum else r.value.0 / 2 + 1
    ensures r.None? <==>
      (|nodes| == 0 || |nodes| > MAX_CLIENT_NODES || !NoDuplicates(nodes) || (exists n :: n in nodes && !described(n)) ||
       writeQuorum > (if 0 < replicas <= |nodes| then replicas else |nodes|))
  {
    if |nodes| == 0 || |nodes| > MAX_CLIENT_NODES {
      return None;
    }
    var seen: set<Bytes> := {};
    for k := 0 to |nodes|
      invariant seen == set j | 0 <= j < k :: nodes[j]
      invariant NoDuplicates(nodes[..k]) && forall j :: 0 <= j < k ==> described(nodes[j])
    {
      if !described(nodes[k]) || nodes[k] in seen {
        return None;
      }
      seen := seen + {nodes[k]};
    }
    assert nodes[..|nodes|] == nodes;
    var count := if replicas <= 0 || replicas > |nodes| then |nodes| else replicas;
    var quorum := if writeQuorum <= 0 then count / 2 + 1 else writeQuorum;
    if quorum > count {
      return None;
    }
    return Some((count, quorum));
  }

  // ---------- grouping ----------

  type Groups = map<int, seq<Node>>

  ghost predicate DistinctNodes(ns: seq<Node>)
  {
    forall i, j :: 0 <= i < j < |ns| ==> ns[i].id != ns[j].id
  }

  predicate Suits(n: Node, payloadBytes: nat)
  {
    payloadBytes <= n.maxItemBytes
  }

  /** The suitable answers of one epoch length, in the order in which they arrived. */
  function WithEpoch(ns: seq<Node>, payloadBytes: nat, epoch: int): seq<Node>
  {
    if ns == [] then []
    else
      var front, last := WithEpoch(ns[..|ns| - 1], payloadBytes, epoch), ns[|ns| - 1];
      if Suits(last, payloadBytes) && last.epochSeconds == epoch then front + [last] else front
  }

  ghost predicate IsGrouping(g: Groups, ns: seq<Node>, payloadBytes: nat)
  {
    forall e :: (if e in g then g[e] else []) == WithEpoch(ns, payloadBytes, e)
  }

  /** The nodes of one epoch length whose item limit the payload keeps. */
  function Fitting(ns: seq<Node>, payloadBytes: nat, epoch: int): set<Node>
  {
    set n | n in ns && n.epochSeconds == epoch && payloadBytes <= n.maxItemBytes
  }

  /** Those of them that ask for at most `d`. */
  function FittingBelow(ns: seq<Node>, payloadBytes: nat, epoch: int, d: int): set<Node>
  {
    set n | n in ns && n.epochSeconds == epoch && payloadBytes <= n.maxItemBytes && n.difficulty <= d
  }

  /** Grouping loses no fitting node and counts none twice. */
  lemma {:induction false} GroupCounts(ns: seq<Node>, payloadBytes: nat, epoch: int, d: int)
    requires DistinctNodes(ns)
    ensures |WithEpoch(ns, payloadBytes, epoch)| == |Fitting(ns, payloadBytes, epoch)|
    ensures AtMost(WithEpoch(ns, payloadBytes, epoch), d) == |FittingBelow(ns, payloadBytes, epoch, d)|
  {
    if ns != [] {
      var k := |ns| - 1;
      DistinctPrefix(ns, k);
      GroupCounts(ns[..k], payloadBytes, epoch, d);
      EarlierDiffer(ns, k);
      assert ns == ns[..k] + [ns[k]];
      OneNodeMore(ns[..k], ns[k], payloadBytes, epoch, d);
      OneAnswerMore(ns[..k], ns[k], payloadBytes, epoch, d);
    }
  }

  lemma OneAnswerMore(ns: seq<Node>, n: Node, payloadBytes: nat, epoch: int, d: int)
    ensures var fits := n.epochSeconds == epoch && payloadBytes <= n.maxItemBytes; var g := WithEpoch(ns, payloadBytes, epoch);
      && |WithEpoch(ns + [n], payloadBytes, epoch)| == |g| + (if fits then 1 else 0)
      && AtMost(WithEpoch(ns + [n], payloadBytes, epoch), d) == AtMost(g, d) + (if fits && n.difficulty <= d then 1 else 0)
  {
    assert (ns + [n])[..|ns|] == ns;
    AtMostSnoc(WithEpoch(ns, payloadBytes, epoch), n, d);
  }

  lemma OneNodeMore(ns: seq<Node>, n: Node, payloadBytes: nat, epoch: int, d: int)
    requires n !in ns
    ensures var fits := n.epochSeconds == epoch && payloadBytes <= n.maxItemBytes;
      && |Fitting(ns + [n], payloadBytes, epoch)| == |Fitting(ns, payloadBytes, epoch)| + (if fits then 1 else 0)
      && |FittingBelow(ns + [n], payloadBytes, epoch, d)| ==
           |FittingBelow(ns, payloadBytes, epoch, d)| + (if fits && n.difficulty <= d then 1 else 0)
  {
    var fits := n.epochSeconds == epoch && payloadBytes <= n.maxItemBytes;
    var f, b := Fitting(ns, payloadBytes, epoch), FittingBelow(ns, payloadBytes, epoch, d);
    OneElementMore(f, Fitting(ns + [n], payloadBytes, epoch), n, fits);
    OneElementMore(b, FittingBelow(ns + [n], payloadBytes, epoch, d), n, fits && n.difficulty <= d);
  }

  lemma OneElementMore<T>(s: set<T>, t: set<T>, x: T, added: bool)
    requires x !in s && forall y :: y in t <==> y in s || (added && y == x)
    ensures |t| == |s| + if added then 1 else 0
  {
    assert t == if added then s + {x} else s;
  }

  method GroupByEpoch(ns: seq<Node>, payloadBytes: nat) returns (g: Groups)
    ensures IsGrouping(g, ns, payloadBytes)
  {
    g := map[];
    for k := 0 to |ns|
      invariant IsGrouping(g, ns[..k], payloadBytes)
    {
      var n := ns[k];
      assert ns[..k + 1][..k] == ns[..k];
      if Suits(n, payloadBytes) {
        g := g[n.epochSeconds := (if n.epochSeconds in g then g[n.epochSeconds] else []) + [n]];
      }
    }
    assert ns[..|ns|] == ns;
  }

  // ---------- thresholds ----------

  /** How many nodes ask for at most `d`. */
  function AtMost(ns: seq<Node>, d: int): nat
  {
    if ns == [] then 0 else AtMost(ns[..|ns| - 1], d) + if ns[|ns| - 1].difficulty <= d then 1 else 0
  }

  /** The quorum-th lowest difficulty: enough nodes ask for at most that, and fewer for any less. */
  ghost predicate IsThreshold(ns: seq<Node>, quorum: nat, d: int)
  {
    AtMost(ns, d) >= quorum && AtMost(ns, d - 1) < quorum
  }

  lemma {:induction false} AtMostMonotone(ns: seq<Node>, c: int, d: int)
    requires c <= d
    ensures AtMost(ns, c) <= AtMost(ns, d)
  {
    if ns != [] {
      AtMostMonotone(ns[..|ns| - 1], c, d);
    }
  }

  lemma ThresholdUnique(ns: seq<Node>, quorum: nat, c: int, d: int)
    requires IsThreshold(ns, quorum, c) && IsThreshold(ns, quorum, d)
    ensures c == d
  {
    if c < d {
      AtMostMonotone(ns, c, d - 1);
    } else if d < c {
      AtMostMonotone(ns, d, c - 1);
    }
  }

  lemma {:induction false} AtMostAdded(ns: seq<Node>, ms: seq<Node>, d: int)
    ensures AtMost(ns + ms, d) == AtMost(ns, d) + AtMost(ms, d)
  {
    if ms == [] {
      assert ns + ms == ns;
    } else {
      assert (ns + ms)[..|ns + ms| - 1] == ns + ms[..|ms| - 1];
      AtMostAdded(ns, ms[..|ms| - 1], d);
    }
  }

  lemma AtMostSnoc(ns: seq<Node>, n: Node, d: int)
    ensures AtMost(ns + [n], d) == AtMost(ns, d) + if n.difficulty <= d then 1 else 0
  {
    assert (ns + [n])[..|ns|] == ns;
  }

  lemma AtMostInsert(front: seq<Node>, n: Node, back: seq<Node>, d: int)
    ensures AtMost(front + [n] + back, d) == AtMost(front + back, d) + if n.difficulty <= d then 1 else 0
  {
    AtMostAdded(front, back, d);
    AtMostSnoc(front, n, d);
    AtMostAdded(front + [n], back, d);
  }

  /** The count does not depend on the order of the answers. */
  lemma {:induction false} AtMostPermuted(ns: seq<Node>, ms: seq<Node>, d: int)
    requires multiset(ns) == multiset(ms)
    ensures AtMost(ns, d) == AtMost(ms, d)
  {
    SameElements(ns, ms);
    if ns != [] {
      var last := ns[|ns| - 1];
      assert last in ms;
      var j :| 0 <= j < |ms| && ms[j] == last;
      var front, back := ms[..j], ms[j + 1..];
      PermutationWithout(ns, ms, j);
      AtMostPermuted(ns[..|ns| - 1], front + back, d);
      AtMostInsert(front, last, back, d);
      assert ms == front + [last] + back;
    }
  }

  predicate CheaperFirst(m: Node, n: Node)
  {
    if m.difficulty == n.difficulty then Less(m.id, n.id) else m.difficulty < n.difficulty
  }

  lemma CheaperOrder()
    ensures StrictWeakOrder(CheaperFirst)
  {
    forall x: Node, y: Node | CheaperFirst(x, y) ensures !CheaperFirst(y, x) {
      LessTotal(x.id, y.id);
    }
    forall x: Node, y: Node, z: Node | !CheaperFirst(x, y) && !CheaperFirst(y, z) ensures !CheaperFirst(x, z) {
      LessTotal(x.id, y.id);
      LessTotal(y.id, z.id);
      LessTotal(x.id, z.id);
      if Less(y.id, x.id) && Less(z.id, y.id) {
        LessTransitive(z.id, y.id, x.id);
      }
    }
  }

  lemma {:induction false} CountAll(ns: seq<Node>, d: int)
    requires forall i :: 0 <= i < |ns| ==> ns[i].difficulty <= d
    ensures AtMost(ns, d) == |ns|
  {
    if ns != [] {
      CountAll(ns[..|ns| - 1], d);
    }
  }

  lemma {:induction false} CountNone(ns: seq<Node>, d: int)
    requires forall i :: 0 <= i < |ns| ==> ns[i].difficulty > d
    ensures AtMost(ns, d) == 0
  {
    if ns != [] {
      CountNone(ns[..|ns| - 1], d);
    }
  }

  ghost predicate NonDecreasing(ns: seq<Node>)
  {
    forall i, j :: 0 <= i < j < |ns| ==> ns[i].difficulty <= ns[j].difficulty
  }

  lemma SortedNonDecreasing(ns: seq<Node>)
    requires Ordered(ns, CheaperFirst)
    ensures NonDecreasing(ns)
  {
    forall i, j | 0 <= i < j < |ns| ensures ns[i].difficulty <= ns[j].difficulty {
      assert !CheaperFirst(ns[j], ns[i]);
    }
  }

  lemma EnoughFront(front: seq<Node>, back: seq<Node>, d: int)
    requires forall i :: 0 <= i < |front| ==> front[i].difficulty <= d
    ensures AtMost(front + back, d) >= |front|
  {
    CountAll(front, d);
    AtMostAdded(front, back, d);
  }

  lemma EnoughBelow(ns: seq<Node>, quorum: nat)
    requires NonDecreasing(ns) && 0 < quorum <= |ns|
    ensures AtMost(ns, ns[quorum - 1].difficulty) >= quorum
  {
    EnoughFront(ns[..quorum], ns[quorum..], ns[quorum - 1].difficulty);
    assert ns[..quorum] + ns[quorum..] == ns;
  }

  lemma FewFront(front: seq<Node>, back: seq<Node>, d: int)
    requires forall i :: 0 <= i < |back| ==> back[i].difficulty > d
    ensures AtMost(front + back, d) <= |front|
  {
    CountNone(back, d);
    AtMostAdded(front, back, d);
    AtMostBounded(front, d);
  }

  lemma TooFewBelow(ns: seq<Node>, quorum: nat)
    requires NonDecreasing(ns) && 0 < quorum <= |ns|
    ensures AtMost(ns, ns[quorum - 1].difficulty - 1) < quorum
  {
    FewFront(ns[..quorum - 1], ns[quorum - 1..], ns[quorum - 1].difficulty - 1);
    assert ns[..quorum - 1] + ns[quorum - 1..] == ns;
  }

  /** In a sorted group the node at the quorum's position sets the threshold. */
  lemma SortedThreshold(ns: seq<Node>, quorum: nat)
    requires Ordered(ns, CheaperFirst) && 0 < quorum <= |ns|
    ensures IsThreshold(ns, quorum, ns[quorum - 1].difficulty)
  {
    SortedNonDecreasing(ns);
    EnoughBelow(ns, quorum);
    TooFewBelow(ns, quorum);
  }

  lemma {:induction false} AtMostBounded(ns: seq<Node>, d: int)
    ensures AtMost(ns, d) <= |ns|
  {
    if ns != [] {
      AtMostBounded(ns[..|ns| - 1], d);
    }
  }

  // ---------- choosing the group ----------

  /** The largest group that reaches the quorum, and among those of that size one with the lowest threshold. */
  ghost predicate IsBest(g: Groups, quorum: nat, epoch: int, threshold: int)
  {
    && epoch in g && |g[epoch]| >= quorum && IsThreshold(g[epoch], quorum, threshold)
    && forall e, t | e in g && |g[e]| >= quorum && IsThreshold(g[e], quorum, t) :: NotBetter(|g[e]|, t, |g[epoch]|, threshold)
  }

  predicate NotBetter(size: nat, threshold: int, bestSize: nat, bestThreshold: int)
  {
    size < bestSize || (size == bestSize && bestThreshold <= threshold)
  }

  /** Whatever the order of the map, the chosen size and threshold are the same. */
  lemma BestUnique(g: Groups, quorum: nat, e: int, s: int, f: int, t: int)
    requires IsBest(g, quorum, e, s) && IsBest(g, quorum, f, t)
    ensures |g[e]| == |g[f]| && s == t
  {
    assert NotBetter(|g[e]|, s, |g[f]|, t) && NotBetter(|g[f]|, t, |g[e]|, s);
  }

  datatype Selection = Selection(epoch: int, nodes: seq<Node>, threshold: Byte)

  ghost predicate BestAmong(g: Groups, quorum: nat, sel: Option<Selection>, rest: set<int>)
  {
    match sel
    case None => forall e :: e in g && e !in rest ==> |g[e]| < quorum
    case Some(c) =>
      && c.epoch in g && |g[c.epoch]| >= quorum && IsThreshold(g[c.epoch], quorum, c.threshold)
      && Ordered(c.nodes, CheaperFirst) && multiset(c.nodes) == multiset(g[c.epoch]) && |c.nodes| == |g[c.epoch]|
      && forall e, t | e in g && e !in rest && |g[e]| >= quorum && IsThreshold(g[e], quorum, t) :: NotBetter(|g[e]|, t, |g[c.epoch]|, c.threshold)
  }

  lemma ThresholdOfSorted(ns: seq<Node>, sorted: seq<Node>, quorum: nat)
    requires Ordered(sorted, CheaperFirst) && multiset(sorted) == multiset(ns) && 0 < quorum <= |sorted|
    ensures IsThreshold(ns, quorum, sorted[quorum - 1].difficulty)
  {
    SortedThreshold(sorted, quorum);
    AtMostPermuted(ns, sorted, sorted[quorum - 1].difficulty);
    AtMostPermuted(ns, sorted, sorted[quorum - 1].difficulty - 1);
  }

  /** One group of the selection loop compared with the best so far. */
  lemma CompareGroup(g: Groups, quorum: nat, sel: Option<Selection>, rest: set<int>, epoch: int, sorted: seq<Node>)
    requires 0 < quorum && epoch in rest && epoch in g && BestAmong(g, quorum, sel, rest) && |g[epoch]| >= quorum
    requires Ordered(sorted, CheaperFirst) && multiset(sorted) == multiset(g[epoch]) && |sorted| == |g[epoch]|
    ensures var t := sorted[quorum - 1].difficulty;
      BestAmong(g, quorum,
                if sel.None? || |sorted| > |sel.value.nodes| || (|sorted| == |sel.value.nodes| && t < sel.value.threshold)
                then Some(Selection(epoch, sorted, t)) else sel, rest - {epoch})
  {
    ThresholdOfSorted(g[epoch], sorted, quorum);
    forall t | IsThreshold(g[epoch], quorum, t) ensures t == sorted[quorum - 1].difficulty {
      ThresholdUnique(g[epoch], quorum, t, sorted[quorum - 1].difficulty);
    }
  }

  method SelectGroup(g: Groups, quorum: nat) returns (sel: Option<Selection>)
    requires quorum > 0
    ensures sel.None? <==> forall e :: e in g ==> |g[e]| < quorum
    ensures sel.Some? ==> IsBest(g, quorum, sel.value.epoch, sel.value.threshold)
    ensures sel.Some? ==> Ordered(sel.value.nodes, CheaperFirst) && multiset(sel.value.nodes) == multiset(g[sel.value.epoch])
  {
    sel := None;
    var rest := g.Keys;
    while rest != {}
      invariant rest <= g.Keys && BestAmong(g, quorum, sel, rest)
      decreases rest
    {
      ghost var some := Pick(rest);
      assert some in rest;
      var epoch :| epoch in rest;
      if |g[epoch]| >= quorum {
        CheaperOrder();
        var sorted := SortSlice(g[epoch], CheaperFirst);
        CompareGroup(g, quorum, sel, rest, epoch, sorted);
        var t := sorted[quorum - 1].difficulty;
        if sel.None? || |sorted| > |sel.value.nodes| || (|sorted| == |sel.value.nodes| && t < sel.value.threshold) {
          sel := Some(Selection(epoch, sorted, t));
        }
      }
      rest := rest - {epoch};
    }
  }

  // ---------- writing ----------

  /** The nodes the solved work is good for, in their order. */
  function Affordable(nodes: seq<Node>, threshold: int): seq<Node>
  {
    if nodes == [] then []
    else
      var front, last := Affordable(nodes[..|nodes| - 1], threshold), nodes[|nodes| - 1];
      if last.difficulty <= threshold then front + [last] else front
  }

  /** As many as ask for no more, each once, and still in the order of cost and ID. */
  lemma {:induction false} AffordableIs(nodes: seq<Node>, threshold: int)
    requires DistinctNodes(nodes) && Ordered(nodes, CheaperFirst)
    ensures var usable := Affordable(nodes, threshold);
      && |usable| == AtMost(nodes, threshold) && DistinctNodes(usable) && Ordered(usable, CheaperFirst)
      && forall n :: n in usable <==> n in nodes && n.difficulty <= threshold
  {
    if nodes != [] {
      var k := |nodes| - 1;
      DistinctPrefix(nodes, k);
      AffordableIs(nodes[..k], threshold);
      assert nodes == nodes[..k] + [nodes[k]];
      EarlierDiffer(nodes, k);
      forall n | n in nodes[..k] ensures !CheaperFirst(nodes[k], n) {
        var i :| 0 <= i < k && nodes[i] == n;
      }
    }
  }

  method UsableNodes(nodes: seq<Node>, threshold: int) returns (usable: seq<Node>)
    ensures usable == Affordable(nodes, threshold)
  {
    usable := [];
    for k := 0 to |nodes|
      invariant usable == Affordable(nodes[..k], threshold)
    {
      assert nodes[..k + 1][..k] == nodes[..k];
      if nodes[k].difficulty <= threshold {
        usable := usable + [nodes[k]];
      }
    }
    assert nodes[..|nodes|] == nodes;
  }

  lemma EarlierDiffer(nodes: seq<Node>, k: nat)
    requires DistinctNodes(nodes) && k < |nodes|
    ensures forall n :: n in nodes[..k] ==> n.id != nodes[k].id
  {
  }

  /** The nodes of a list that take the item. */
  function Storing(ns: seq<Node>, stores: Bytes -> bool): set<Bytes>
  {
    set n | n in ns && stores(n.id) :: n.id
  }

  function Smaller(a: int, b: int): int
  {
    if a < b then a else b
  }

  /** Sends to all nodes of a list at once and collects the receipts as they arrive. */
  method StoreAll(ns: seq<Node>, stores: Bytes -> bool) returns (receipts: seq<Bytes>)
    requires DistinctNodes(ns)
    ensures NoDuplicates(receipts) && Elements(receipts) == Storing(ns, stores)
  {
    receipts := [];
    var rest := Elements(ns);
    while rest != {}
      invariant rest <= Elements(ns) && NoDuplicates(receipts)
      invariant Elements(receipts) == set n | n in ns && n !in rest && stores(n.id) :: n.id
      decreases rest
    {
      var n :| n in rest;
      if stores(n.id) {
        assert n.id !in receipts by {
          assert n.id in receipts ==> n.id in Elements(receipts);
          DistinctIds(ns);
        }
        receipts := receipts + [n.id];
        assert Elements(receipts) == Elements(receipts[..|receipts| - 1]) + {n.id};
      }
      rest := rest - {n};
    }
  }

  lemma DistinctIds(ns: seq<Node>)
    requires DistinctNodes(ns)
    ensures forall m, n :: m in ns && n in ns && m.id == n.id ==> m == n
  {
  }

  /** One receipt, in some order, from every one of these nodes that stores the item. */
  ghost predicate AllReceipts(receipts: seq<Bytes>, ns: seq<Node>, stores: Bytes -> bool)
  {
    NoDuplicates(receipts) && Elements(receipts) == Storing(ns, stores)
  }

  lemma OneMoreTried(receipts: seq<Bytes>, ns: seq<Node>, k: nat, stores: Bytes -> bool)
    requires DistinctNodes(ns) && k < |ns| && AllReceipts(receipts, ns[..k], stores)
    ensures AllReceipts(if stores(ns[k].id) then receipts + [ns[k].id] else receipts, ns[..k + 1], stores)
  {
    StoringNext(ns, k, stores);
    if stores(ns[k].id) {
      var id := ns[k].id;
      assert id !in Elements(receipts);
      assert Elements(receipts + [id]) == Elements(receipts) + {id};
    }
  }

  /** The fallback loop: one further node at a time, as long as receipts are missing. */
  method Fallback(usable: seq<Node>, primary: nat, replicas: nat, stores: Bytes -> bool, first: seq<Bytes>)
    returns (receipts: seq<Bytes>, ghost tried: nat)
    requires DistinctNodes(usable) && primary <= |usable| && AllReceipts(first, usable[..primary], stores) && |first| <= replicas
    ensures tried <= |usable| && AllReceipts(receipts, usable[..tried], stores) && |receipts| <= replicas
    ensures |receipts| < replicas ==> tried == |usable|
    ensures primary <= tried && (tried > primary ==> |Storing(usable[..tried - 1], stores)| < replicas)
  {
    receipts := first;
    var k := primary;
    while k < |usable| && |receipts| < replicas
      invariant primary <= k <= |usable| && AllReceipts(receipts, usable[..k], stores) && |receipts| <= replicas
      invariant k > primary ==> |Storing(usable[..k - 1], stores)| < replicas
    {
      OneMoreTried(receipts, usable, k, stores);
      DistinctPrefix(usable, k);
      ReceiptCount(usable[..k], stores, receipts);
      if stores(usable[k].id) {
        receipts := receipts + [usable[k].id];
      }
      k := k + 1;
    }
    tried := k;
  }

  /** The receipts are those of the nodes up to some position of the list; a node beyond the first `replicas` was only
      tried while receipts were missing. */
  ghost predicate TriedInOrder(usable: seq<Node>, replicas: nat, stores: Bytes -> bool, receipts: seq<Bytes>)
  {
    exists t: nat :: Smaller(replicas, |usable|) <= t <= |usable| && Elements(receipts) == Storing(usable[..t], stores) &&
      (t > replicas ==> |Storing(usable[..t - 1], stores)| < replicas)
  }

  /** Failed primary nodes are replaced by later candidates, one at a time, until enough receipts are in. */
  method WriteReplicas(usable: seq<Node>, replicas: nat, stores: Bytes -> bool) returns (receipts: seq<Bytes>)
    requires DistinctNodes(usable)
    ensures NoDuplicates(receipts) && Elements(receipts) <= Storing(usable, stores)
    ensures |receipts| == Smaller(replicas, |Storing(usable, stores)|)
    ensures |receipts| < replicas ==> Elements(receipts) == Storing(usable, stores)
    ensures TriedInOrder(usable, replicas, stores, receipts)
  {
    var primary := Smaller(replicas, |usable|);
    DistinctPrefix(usable, primary);
    var first := StoreAll(usable[..primary], stores);
    ReceiptCount(usable[..primary], stores, first);
    ghost var tried;
    receipts, tried := Fallback(usable, primary, replicas, stores, first);
    DistinctPrefix(usable, tried);
    ReceiptCount(usable[..tried], stores, receipts);
    StoringGrows(usable, tried, stores);
    assert usable[..|usable|] == usable;
  }

  lemma DistinctPrefix(ns: seq<Node>, k: nat)
    requires DistinctNodes(ns) && k <= |ns|
    ensures DistinctNodes(ns[..k])
  {
  }

  lemma StoringNext(ns: seq<Node>, k: nat, stores: Bytes -> bool)
    requires DistinctNodes(ns) && k < |ns|
    ensures ns[k].id !in Storing(ns[..k], stores)
    ensures Storing(ns[..k + 1], stores) == Storing(ns[..k], stores) + if stores(ns[k].id) then {ns[k].id} else {}
  {
    assert ns[..k + 1] == ns[..k] + [ns[k]];
    EarlierDiffer(ns, k);
  }

  lemma StoringGrows(ns: seq<Node>, k: nat, stores: Bytes -> bool)
    requires k <= |ns|
    ensures Storing(ns[..k], stores) <= Storing(ns, stores) && |Storing(ns[..k], stores)| <= |Storing(ns, stores)|
  {
    SubsetSize(Storing(ns[..k], stores), Storing(ns, stores));
  }

  lemma {:induction false} StoringBounded(ns: seq<Node>, stores: Bytes -> bool)
    requires DistinctNodes(ns)
    ensures |Storing(ns, stores)| <= |ns|
  {
    if ns == [] {
      assert Storing(ns, stores) == {};
    } else {
      var k := |ns| - 1;
      DistinctPrefix(ns, k);
      StoringBounded(ns[..k], stores);
      StoringNext(ns, k, stores);
      assert ns[..k + 1] == ns;
    }
  }

  lemma ReceiptCount(ns: seq<Node>, stores: Bytes -> bool, receipts: seq<Bytes>)
    requires DistinctNodes(ns) && NoDuplicates(receipts) && Elements(receipts) == Storing(ns, stores)
    ensures |receipts| == |Storing(ns, stores)| <= |ns|
  {
    DistinctSize(receipts);
    StoringBounded(ns, stores);
  }

  // ---------- the whole write ----------

  datatype Outcome =
    | Refused
    | TooFewNodes
    | NoGroup
    | WorkFailed
    | QuorumMissed(receipts: seq<Bytes>, saved: bool)
    | Delivered(receipts: seq<Bytes>)
    | PersistFailed(receipts: seq<Bytes>)

  /** The item is valid and the token is its delete capability. */
  predicate Storable(w: Protocol, i: StoredItem, token: Bytes, now: Time)
  {
    ValidItem(w, i, now, DEFAULT_MAX_ITEM_BYTES) && |token| == CAPABILITY_BYTES && i.deleteTokenHash == w.sha256(token)
  }

  /** The group that is written to: its epoch length, the difficulty of the work, and the nodes it is good for. */
  datatype Choice = Choice(epoch: int, threshold: Byte, usable: seq<Node>)

  ghost predicate BestChoice(g: Groups, quorum: nat, c: Choice)
  {
    && IsBest(g, quorum, c.epoch, c.threshold)
    && |c.usable| >= quorum && Ordered(c.usable, CheaperFirst) && DistinctNodes(c.usable)
    && forall n :: n in c.usable <==> n in g[c.epoch] && n.difficulty <= c.threshold
  }

  /** The choice in terms of the answers alone: a largest set of nodes of one epoch length with room for the payload; the
      quorum-th lowest difficulty in it, which no other set of that size undercuts; and every node of it that asks for
      no more. */
  ghost predicate ChosenFrom(answers: seq<Node>, payloadBytes: nat, quorum: nat, c: Choice)
  {
    && |Fitting(answers, payloadBytes, c.epoch)| >= quorum
    && (forall e :: |Fitting(answers, payloadBytes, e)| <= |Fitting(answers, payloadBytes, c.epoch)|)
    && |FittingBelow(answers, payloadBytes, c.epoch, c.threshold)| >= quorum
    && (forall e :: |Fitting(answers, payloadBytes, e)| == |Fitting(answers, payloadBytes, c.epoch)| ==>
         |FittingBelow(answers, payloadBytes, e, c.threshold - 1)| < quorum)
    && (forall n :: n in c.usable <==> n in FittingBelow(answers, payloadBytes, c.epoch, c.threshold))
  }

  lemma ChoiceMeans(g: Groups, answers: seq<Node>, payloadBytes: nat, quorum: nat, c: Choice)
    requires quorum > 0 && DistinctNodes(answers) && IsGrouping(g, answers, payloadBytes) && BestChoice(g, quorum, c)
    ensures ChosenFrom(answers, payloadBytes, quorum, c)
  {
    assert g[c.epoch] == WithEpoch(answers, payloadBytes, c.epoch);
    GroupCounts(answers, payloadBytes, c.epoch, c.threshold);
    WithEpochDistinct(answers, payloadBytes, c.epoch);
    forall e
      ensures |Fitting(answers, payloadBytes, e)| <= |Fitting(answers, payloadBytes, c.epoch)|
      ensures |Fitting(answers, payloadBytes, e)| == |Fitting(answers, payloadBytes, c.epoch)| ==>
        |FittingBelow(answers, payloadBytes, e, c.threshold - 1)| < quorum
    {
      GroupCounts(answers, payloadBytes, e, c.threshold - 1);
      NoneBetter(g, quorum, c, e);
    }
  }

  /** Every group has a threshold, so the best one is compared with all of them. */
  lemma NoneBetter(g: Groups, quorum: nat, c: Choice, e: int)
    requires quorum > 0 && BestChoice(g, quorum, c)
    ensures e in g ==> |g[e]| <= |g[c.epoch]| && (|g[e]| == |g[c.epoch]| ==> AtMost(g[e], c.threshold - 1) < quorum)
    ensures e !in g ==> 0 < |g[c.epoch]|
  {
    if e in g && |g[e]| >= quorum {
      var t := ThresholdOf(g[e], quorum);
      assert NotBetter(|g[e]|, t, |g[c.epoch]|, c.threshold);
      if |g[e]| == |g[c.epoch]| {
        AtMostMonotone(g[e], c.threshold - 1, t - 1);
      }
    }
  }

  lemma ThresholdOf(ns: seq<Node>, quorum: nat) returns (t: int)
    requires 0 < quorum <= |ns|
    ensures IsThreshold(ns, quorum, t)
  {
    CheaperOrder();
    var sorted := Sort(ns, CheaperFirst);
    SortCorrect(ns, CheaperFirst);
    assert |sorted| == |multiset(sorted)| == |multiset(ns)| == |ns|;
    ThresholdOfSorted(ns, sorted, quorum);
    t := sorted[quorum - 1].difficulty;
  }

  /** No group reaches the quorum exactly if no epoch length has that many fitting nodes. */
  lemma NoGroupMeans(g: Groups, answers: seq<Node>, payloadBytes: nat, quorum: nat)
    requires quorum > 0 && DistinctNodes(answers) && IsGrouping(g, answers, payloadBytes)
    ensures (forall e :: e in g ==> |g[e]| < quorum) <==> forall e :: |Fitting(answers, payloadBytes, e)| < quorum
  {
    forall e ensures |Fitting(answers, payloadBytes, e)| == if e in g then |g[e]| else 0 {
      GroupCounts(answers, payloadBytes, e, 0);
      assert (if e in g then g[e] else []) == WithEpoch(answers, payloadBytes, e);
    }
  }

  method ChooseNodes(g: Groups, answers: seq<Node>, payloadBytes: nat, quorum: nat) returns (c: Option<Choice>)
    requires quorum > 0 && DistinctNodes(answers) && IsGrouping(g, answers, payloadBytes)
    ensures c.None? <==> forall e :: e in g ==> |g[e]| < quorum
    ensures c.Some? ==> BestChoice(g, quorum, c.value) && ChosenFrom(answers, payloadBytes, quorum, c.value)
    ensures c.None? <==> forall e :: |Fitting(answers, payloadBytes, e)| < quorum
  {
    NoGroupMeans(g, answers, payloadBytes, quorum);
    var sel := SelectGroup(g, quorum);
    if sel.None? {
      return None;
    }
    SelectionDistinct(g, answers, payloadBytes, sel.value.epoch, sel.value.nodes);
    AtMostPermuted(g[sel.value.epoch], sel.value.nodes, sel.value.threshold);
    SameElements(g[sel.value.epoch], sel.value.nodes);
    var usable := UsableNodes(sel.value.nodes, sel.value.threshold);
    AffordableIs(sel.value.nodes, sel.value.threshold);
    ChoiceMeans(g, answers, payloadBytes, quorum, Choice(sel.value.epoch, sel.value.threshold, usable));
    return Some(Choice(sel.value.epoch, sel.value.threshold, usable));
  }

  /** The work is solved for the chosen epoch length and difficulty. */
  predicate SolvedFor(sha256: Bytes -> Bytes, i: StoredItem, work: WorkProof, c: Choice, started: Time)
  {
    && Solvable(c.epoch, c.threshold) && work.epoch == EpochAt(started, c.epoch) && work.difficulty == c.threshold
    && LeadingZeros(WorkDigest(sha256, i, work), c.threshold)
  }

  /** Every node written to accepts the work as long as its epoch number is at most one off. */
  ghost predicate AcceptedBy(sha256: Bytes -> Bytes, i: StoredItem, c: Choice, started: Time)
    requires c.epoch > 0
  {
    forall n, at: Time :: n in c.usable && -1 <= EpochAt(started, c.epoch) - EpochAt(at, c.epoch) <= 1 ==>
      VerifyWork(sha256, i, at, n.epochSeconds, n.difficulty)
  }

  lemma WorkAccepted(sha256: Bytes -> Bytes, i: StoredItem, work: WorkProof, g: Groups, answers: seq<Node>, payloadBytes: nat,
                     quorum: nat, c: Choice, started: Time)
    requires DistinctNodes(answers) && IsGrouping(g, answers, payloadBytes) && BestChoice(g, quorum, c)
    requires SolvedFor(sha256, i, work, c, started)
    ensures AcceptedBy(sha256, i.(work := work), c, started)
  {
    WithEpochDistinct(answers, payloadBytes, c.epoch);
    assert g[c.epoch] == WithEpoch(answers, payloadBytes, c.epoch);
    forall n, at: Time | n in c.usable && -1 <= EpochAt(started, c.epoch) - EpochAt(at, c.epoch) <= 1
      ensures VerifyWork(sha256, i.(work := work), at, n.epochSeconds, n.difficulty)
    {
      SolvedWorkVerifies(sha256, i, work, at, c.epoch, n.difficulty);
    }
  }

  /** `answers` are the allowed nodes that returned valid parameters, as they arrived; `allowed` is how many
      were asked; `patience` is how long the search for work goes on. What reached some nodes is saved even if the
      quorum was missed. */
  method StoreReplicated(w: Protocol, item: StoredItem, token: Bytes, now: Time, allowed: nat, answers: seq<Node>, replicas: nat, quorum: nat,
                         started: Time, patience: nat, stores: Bytes -> bool, persisted: bool)
    returns (r: Outcome, work: WorkProof, ghost g: Groups, ghost c: Choice)
    requires 0 < quorum <= replicas && DistinctNodes(answers)
    ensures r.Refused? <==> !ValidItem(w, item, now, 327_680) || |token| != 32 || w.sha256(token) != item.deleteTokenHash
    ensures IsGrouping(g, answers, |item.payload|)
    ensures !r.Refused? ==> (r.TooFewNodes? <==> allowed < quorum)
    ensures !r.Refused? ==> (r.NoGroup? <==> quorum <= allowed && forall e :: e in g ==> |g[e]| < quorum)
    ensures Chosen(r) || r.WorkFailed? ==> BestChoice(g, quorum, c)
    ensures r.WorkFailed? && Solvable(c.epoch, c.threshold) ==>
      NoneBelow(w.sha256, item, EpochAt(started, c.epoch), c.threshold, patience * POLL_MASK)
    ensures Chosen(r) ==> SolvedFor(w.sha256, item, work, c, started) && AcceptedBy(w.sha256, item.(work := work), c, started)
    ensures Chosen(r) ==> WroteTo(c.usable, replicas, quorum, stores, persisted, r)
    ensures !r.Refused? ==> (r.NoGroup? <==> quorum <= allowed && forall e :: |Fitting(answers, |item.payload|, e)| < quorum)
    ensures Chosen(r) || r.WorkFailed? ==> ChosenFrom(answers, |item.payload|, quorum, c)
    ensures Chosen(r) ==> forall id :: id in r.receipts ==> HoldsReplica(answers, item, work, stores, id)
  {
    work, c := NO_WORK, Choice(0, 0, []);
    var groups := GroupByEpoch(answers, |item.payload|);
    g := groups;
    if !Storable(w, item, token, now) {
      return Refused, work, g, c;
    }
    if allowed < quorum {
      return TooFewNodes, work, g, c;
    }
    var choice := ChooseNodes(groups, answers, |item.payload|, quorum);
    if choice.None? {
      return NoGroup, work, g, c;
    }
    c := choice.value;
    var solved := SolveWork(w.sha256, item, started, choice.value.epoch, choice.value.threshold, patience);
    if solved.None? {
      return WorkFailed, work, g, c;
    }
    work := solved.value;
    WorkAccepted(w.sha256, item, work, g, answers, |item.payload|, quorum, c, started);
    r := WriteOut(choice.value.usable, replicas, quorum, stores, persisted);
    ReplicasFit(answers, item, work, stores, c, quorum, r.receipts);
  }

  /** A node that answered, has room for the payload, asks for no more work than was done, and took the item. */
  ghost predicate HoldsReplica(answers: seq<Node>, item: StoredItem, work: WorkProof, stores: Bytes -> bool, id: Bytes)
  {
    exists n :: n in answers && n.id == id && |item.payload| <= n.maxItemBytes && n.difficulty <= work.difficulty && stores(id)
  }

  lemma ReplicasFit(answers: seq<Node>, item: StoredItem, work: WorkProof, stores: Bytes -> bool, c: Choice, quorum: nat, receipts: seq<Bytes>)
    requires ChosenFrom(answers, |item.payload|, quorum, c) && work.difficulty == c.threshold
    requires Elements(receipts) <= Storing(c.usable, stores)
    ensures forall id :: id in receipts ==> HoldsReplica(answers, item, work, stores, id)
  {
    forall id | id in receipts ensures HoldsReplica(answers, item, work, stores, id) {
      assert id in Elements(receipts);
      var n :| n in c.usable && stores(n.id) && n.id == id;
      assert n in FittingBelow(answers, |item.payload|, c.epoch, c.threshold);
    }
  }

  const NO_WORK := WorkProof(0, 0, 0)

  /** Nodes were chosen and written to. */
  predicate Chosen(r: Outcome)
  {
    r.QuorumMissed? || r.Delivered? || r.PersistFailed?
  }

  /** What the writes to these nodes come to. The quorum is missed exactly when fewer of them store, and then every one
      was tried; otherwise there are between quorum and replica-count receipts. */
  ghost predicate WroteTo(usable: seq<Node>, replicas: nat, quorum: nat, stores: Bytes -> bool, persisted: bool, r: Outcome)
    requires Chosen(r)
  {
    && (r.QuorumMissed? <==> |Storing(usable, stores)| < quorum)
    && NoDuplicates(r.receipts) && Elements(r.receipts) <= Storing(usable, stores) && TriedInOrder(usable, replicas, stores, r.receipts)
    && (r.QuorumMissed? ==> Elements(r.receipts) == Storing(usable, stores) && r.saved == (r.receipts != [] && persisted))
    && (!r.QuorumMissed? ==> quorum <= |r.receipts| <= replicas && r.Delivered? == persisted)
  }

  /** The writes and what is saved of them. */
  method WriteOut(usable: seq<Node>, replicas: nat, quorum: nat, stores: Bytes -> bool, persisted: bool) returns (r: Outcome)
    requires quorum <= replicas && DistinctNodes(usable)
    ensures Chosen(r) && WroteTo(usable, replicas, quorum, stores, persisted, r)
  {
    var receipts := WriteReplicas(usable, replicas, stores);
    if |receipts| < quorum {
      return QuorumMissed(receipts, receipts != [] && persisted);
    }
    if !persisted {
      return PersistFailed(receipts);
    }
    return Delivered(receipts);
  }

  lemma {:induction false} WithEpochDistinct(ns: seq<Node>, payloadBytes: nat, e: int)
    requires DistinctNodes(ns)
    ensures DistinctNodes(WithEpoch(ns, payloadBytes, e))
    ensures forall n :: n in WithEpoch(ns, payloadBytes, e) <==> n in ns && Suits(n, payloadBytes) && n.epochSeconds == e
  {
    if ns != [] {
      var k := |ns| - 1;
      DistinctPrefix(ns, k);
      WithEpochDistinct(ns[..k], payloadBytes, e);
      EarlierDiffer(ns, k);
      assert ns == ns[..k] + [ns[k]];
    }
  }

  lemma SelectionDistinct(g: Groups, ns: seq<Node>, payloadBytes: nat, e: int, sorted: seq<Node>)
    requires DistinctNodes(ns) && IsGrouping(g, ns, payloadBytes) && e in g && multiset(sorted) == multiset(g[e])
    ensures DistinctNodes(sorted)
  {
    WithEpochDistinct(ns, payloadBytes, e);
    assert g[e] == WithEpoch(ns, payloadBytes, e);
    SameElements(g[e], sorted);
    PermutationDistinct(g[e], sorted);
    DistinctIds(g[e]);
    forall i, j | 0 <= i < j < |sorted| ensures sorted[i].id != sorted[j].id {
      assert sorted[i] in g[e] && sorted[j] in g[e];
    }
  }
}
