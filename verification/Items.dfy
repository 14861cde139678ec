/** Stored items, receipts and proofs with their signing encodings (protocol/canonical.go). */
module Items {
  import opened Bytes
  import opened Wire
  import opened Identities

  const PROTOCOL_VERSION: Byte := 1
  const FIXED_RETENTION := 60 * 24 * HOUR
  const DEFAULT_MAX_ITEM_BYTES := 320 * 1024
  const CAPABILITY_BYTES := 32
  const MAX_TAGS_PER_FETCH := 256

  datatype WorkProof = WorkProof(epoch: int, nonce: U64, difficulty: Byte)

  datatype StoredItem = StoredItem(
    version: Byte, itemId: Bytes, routeTag: Bytes, createdAt: Time, expiresAt: Time,
    deleteTokenHash: Bytes, payload: Bytes, work: WorkProof)

  datatype StorageReceipt = StorageReceipt(nodeId: Bytes, itemId: Bytes, payloadHash: Bytes, storedAt: Time, expiresAt: Time)

  datatype DeleteReceipt = DeleteReceipt(nodeId: Bytes, itemId: Bytes, deletedAt: Time)

  datatype StorageProof = StorageProof(
    nodeId: Bytes, itemId: Bytes, nonce: Bytes, offset: int, sample: Bytes, payloadHash: Bytes, provedAt: Time)

  /** SHA-256 and the route-tag syntax check, taken as given. */
  datatype Protocol = Protocol(sha256: Bytes -> Bytes, validRouteTag: Bytes -> bool)

  // ---------- encoders ----------

  function CommitmentFields(sha256: Bytes -> Bytes, i: StoredItem): seq<Field>
  {
    [U8(i.version), Var(i.routeTag), I64(Millis(i.createdAt)), I64(Millis(i.expiresAt)),
     Var(i.deleteTokenHash), Var(sha256(i.payload))]
  }

  function Commitment(sha256: Bytes -> Bytes, i: StoredItem): Bytes
  {
    WriteAll(CommitmentFields(sha256, i))
  }

  function ReceiptFields(r: StorageReceipt): seq<Field>
  {
    [Var(r.nodeId), Var(r.itemId), Var(r.payloadHash), I64(Millis(r.storedAt)), I64(Millis(r.expiresAt))]
  }

  function DeleteReceiptFields(r: DeleteReceipt): seq<Field>
  {
    [Var(r.nodeId), Var(r.itemId), I64(Millis(r.deletedAt))]
  }

  function ProofFields(p: StorageProof): seq<Field>
  {
    [Var(p.nodeId), Var(p.itemId), Var(p.nonce), I64(p.offset), Var(p.sample), Var(p.payloadHash), I64(Millis(p.provedAt))]
  }

  // ---------- injectivity ----------

  predicate Short(b: Bytes)
  {
    |b| < TWO32
  }

  predicate BoundedItem(sha256: Bytes -> Bytes, i: StoredItem)
  {
    && Short(i.routeTag) && Short(i.deleteTokenHash) && Short(sha256(i.payload))
    && Representable(i.createdAt) && Representable(i.expiresAt)
  }

  /** Everything an item ID commits to. */
  predicate SameCommitment(sha256: Bytes -> Bytes, a: StoredItem, b: StoredItem)
  {
    && a.version == b.version && a.routeTag == b.routeTag && a.deleteTokenHash == b.deleteTokenHash
    && Millis(a.createdAt) == Millis(b.createdAt) && Millis(a.expiresAt) == Millis(b.expiresAt)
    && sha256(a.payload) == sha256(b.payload)
  }

  lemma CommitmentInjective(sha256: Bytes -> Bytes, a: StoredItem, b: StoredItem)
    requires BoundedItem(sha256, a) && BoundedItem(sha256, b)
    ensures Commitment(sha256, a) == Commitment(sha256, b) <==> SameCommitment(sha256, a, b)
  {
    var fs, gs := CommitmentFields(sha256, a), CommitmentFields(sha256, b);
    if Commitment(sha256, a) == Commitment(sha256, b) {
      Injective(fs, gs);
      assert fs[0] == gs[0] && fs[1] == gs[1] && fs[2] == gs[2] && fs[3] == gs[3] && fs[4] == gs[4] && fs[5] == gs[5];
    }
  }

  lemma ReceiptInjective(r: StorageReceipt, q: StorageReceipt)
    requires AllFit(ReceiptFields(r)) && AllFit(ReceiptFields(q))
    ensures WriteAll(ReceiptFields(r)) == WriteAll(ReceiptFields(q)) <==>
      && r.nodeId == q.nodeId && r.itemId == q.itemId && r.payloadHash == q.payloadHash
      && Millis(r.storedAt) == Millis(q.storedAt) && Millis(r.expiresAt) == Millis(q.expiresAt)
  {
    var fs, gs := ReceiptFields(r), ReceiptFields(q);
    if WriteAll(fs) == WriteAll(gs) {
      Injective(fs, gs);
      assert fs[0] == gs[0] && fs[1] == gs[1] && fs[2] == gs[2] && fs[3] == gs[3] && fs[4] == gs[4];
    }
  }

  lemma DeleteReceiptInjective(r: DeleteReceipt, q: DeleteReceipt)
    requires AllFit(DeleteReceiptFields(r)) && AllFit(DeleteReceiptFields(q))
    ensures WriteAll(DeleteReceiptFields(r)) == WriteAll(DeleteReceiptFields(q)) <==>
      r.nodeId == q.nodeId && r.itemId == q.itemId && Millis(r.deletedAt) == Millis(q.deletedAt)
  {
    var fs, gs := DeleteReceiptFields(r), DeleteReceiptFields(q);
    if WriteAll(fs) == WriteAll(gs) {
      Injective(fs, gs);
      assert fs[0] == gs[0] && fs[1] == gs[1] && fs[2] == gs[2];
    }
  }

  lemma ProofInjective(p: StorageProof, q: StorageProof)
    requires AllFit(ProofFields(p)) && AllFit(ProofFields(q))
    ensures WriteAll(ProofFields(p)) == WriteAll(ProofFields(q)) <==>
      && p.nodeId == q.nodeId && p.itemId == q.itemId && p.nonce == q.nonce && p.offset == q.offset
      && p.sample == q.sample && p.payloadHash == q.payloadHash && Millis(p.provedAt) == Millis(q.provedAt)
  {
    var fs, gs := ProofFields(p), ProofFields(q);
    if WriteAll(fs) == WriteAll(gs) {
      Injective(fs, gs);
      assert fs[0] == gs[0] && fs[1] == gs[1] && fs[2] == gs[2] && fs[3] == gs[3];
      assert fs[4] == gs[4] && fs[5] == gs[5] && fs[6] == gs[6];
    }
  }

  // ---------- item IDs ----------

  function HexDigit(n: int): Byte
    requires 0 <= n < 16
  {
    if n < 10 then '0' as int + n else 'a' as int + n - 10
  }

  /** Lower-case hexadecimal text. */
  function Hex(b: Bytes): (r: Bytes)
    ensures |r| == 2 * |b|
  {
    if b == [] then [] else [HexDigit(b[0] / 16), HexDigit(b[0] % 16)] + Hex(b[1..])
  }

  lemma {:induction false} HexInjective(a: Bytes, b: Bytes)
    requires Hex(a) == Hex(b)
    ensures a == b
  {
    if a != [] {
      assert |a| == |b|;
      var x, y := Hex(a), Hex(b);
      assert x[0] == y[0] && x[1] == y[1];
      assert x[2..] == Hex(a[1..]) && y[2..] == Hex(b[1..]);
      HexInjective(a[1..], b[1..]);
      assert a == [a[0]] + a[1..] && b == [b[0]] + b[1..];
    }
  }

  function ComputeItemId(sha256: Bytes -> Bytes, i: StoredItem): Bytes
  {
    Hex(sha256(Commitment(sha256, i)))
  }

  /** Items with one ID agree in everything the ID commits to, the delete capability included, unless
      their commitments are a SHA-256 collision. */
  lemma ItemIdCommits(sha256: Bytes -> Bytes, a: StoredItem, b: StoredItem)
    requires BoundedItem(sha256, a) && BoundedItem(sha256, b)
    requires ComputeItemId(sha256, a) == ComputeItemId(sha256, b)
    requires NoCollision(sha256, Commitment(sha256, a), Commitment(sha256, b))
    ensures SameCommitment(sha256, a, b)
  {
    HexInjective(sha256(Commitment(sha256, a)), sha256(Commitment(sha256, b)));
    CommitmentInjective(sha256, a, b);
  }

  predicate ValidItem(w: Protocol, i: StoredItem, now: Time, maxBytes: int)
  {
    && 0 < maxBytes <= DEFAULT_MAX_ITEM_BYTES
    && i.version == PROTOCOL_VERSION && w.validRouteTag(i.routeTag) && |i.deleteTokenHash| == 32
    && 0 < |i.payload| <= maxBytes
    && i.createdAt <= now + 5 * MINUTE && now < i.expiresAt
    && i.expiresAt == i.createdAt + FIXED_RETENTION
    && i.itemId == ComputeItemId(w.sha256, i)
  }

  /** An item once accepted stays acceptable exactly until it expires. */
  lemma ValidUntilExpiry(w: Protocol, i: StoredItem, accepted: Time, now: Time, maxBytes: int)
    requires ValidItem(w, i, accepted, maxBytes) && accepted <= now
    ensures ValidItem(w, i, now, maxBytes) <==> now < i.expiresAt
  {
  }
}
