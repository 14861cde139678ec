/** Proof of work (protocol/pow.go). */
module Work {
  import opened Bytes
  import opened Wire
  import opened Identities
  import opened Items

  const MIN_EPOCH_SECONDS := 60
  const MAX_EPOCH_SECONDS := 24 * 60 * 60
  const MAX_DIFFICULTY := 24
  const POLL_MASK := 0x4000

  // ---------- leading zero bits ----------

  /** The big-endian number the bytes denote is below 2^(8n - d). */
  predicate LeadingZeros(sum: Bytes, difficulty: nat)
  {
    difficulty <= 8 * |sum| && Value(sum) < Pow2(8 * |sum| - difficulty)
  }

  lemma {:induction false} ValueBounded(b: Bytes)
    ensures Value(b) < Pow2(8 * |b|)
  {
    if b != [] {
      ValueBounded(b[..|b| - 1]);
      Pow2Step8(8 * (|b| - 1));
    }
  }

  lemma {:induction false} ValueOfHead(b: Bytes)
    requires b != []
    ensures Value(b) == b[0] * Pow2(8 * (|b| - 1)) + Value(b[1..])
  {
    if |b| == 1 {
      assert b[..0] == [] && b[1..] == [];
    } else {
      var front, last := b[..|b| - 1], b[|b| - 1];
      ValueOfHead(front);
      assert b[1..][..|b| - 2] == front[1..];
      assert b[1..][|b| - 2] == last;
      Pow2Step8(8 * (|b| - 2));
      var p := Pow2(8 * (|b| - 2));
      assert 256 * (b[0] * p) == b[0] * (256 * p);
    }
  }

  lemma {:induction false} Pow2Monotone(m: nat, n: nat)
    requires m <= n
    ensures Pow2(m) <= Pow2(n)
    decreases n
  {
    if m < n {
      Pow2Monotone(m, n - 1);
    }
  }

  lemma NonzeroTooLarge(b: nat, p: nat, r: nat, q: nat)
    requires b >= 1 && p >= q
    ensures b * p + r >= q
  {
    assert b * p >= p;
  }

  /** A whole byte of zeros is required. */
  lemma ZeroByteNeeded(sum: Bytes, d: nat)
    requires sum != [] && d >= 8
    ensures LeadingZeros(sum, d) <==> sum[0] == 0 && LeadingZeros(sum[1..], d - 8)
  {
    ValueOfHead(sum);
    var n := 8 * (|sum| - 1);
    assert 8 * |sum[1..]| - (d - 8) == 8 * |sum| - d;
    if d <= 8 * |sum| && sum[0] >= 1 {
      Pow2Monotone(8 * |sum| - d, n);
      NonzeroTooLarge(sum[0], Pow2(n), Value(sum[1..]), Pow2(8 * |sum| - d));
    }
  }

  /** The last bits are decided by one byte alone. */
  lemma PartialByteDecides(sum: Bytes, d: nat)
    requires sum != [] && d < 8
    ensures LeadingZeros(sum, d) <==> sum[0] / Pow2(8 - d) == 0
  {
    ValueOfHead(sum);
    ValueBounded(sum[1..]);
    var n := 8 * (|sum| - 1);
    Pow2Add(8 - d, n);
    HeadDecides(sum[0], Pow2(8 - d), Pow2(n), Value(sum[1..]));
  }

  lemma HeadDecides(b: nat, q: nat, p: nat, r: nat)
    requires q > 0 && r < p
    ensures b * p + r < q * p <==> b / q == 0
  {
    if b < q {
      assert (b + 1) * p <= q * p;
      assert (b + 1) * p == b * p + p;
    } else {
      assert b * p >= q * p;
      assert b / q >= 1;
    }
  }

  method HasLeadingZeroBits(sum: Bytes, difficulty: Byte) returns (ok: bool)
    ensures ok <==> LeadingZeros(sum, difficulty)
  {
    var remaining: nat := difficulty;
    for k := 0 to |sum|
      invariant LeadingZeros(sum, difficulty) <==> LeadingZeros(sum[k..], remaining)
    {
      assert sum[k..][0] == sum[k] && sum[k..][1..] == sum[k + 1..];
      if remaining >= 8 {
        ZeroByteNeeded(sum[k..], remaining);
        if sum[k] != 0 {
          return false;
        }
        remaining := remaining - 8;
      } else {
        PartialByteDecides(sum[k..], remaining);
        if remaining == 0 {
          assert sum[k] / Pow2(8) == 0 by {
            PowersOfTwo();
          }
          return true;
        }
        return sum[k] / Pow2(8 - remaining) == 0;
      }
    }
    assert sum[|sum|..] == [];
    return remaining == 0;
  }

  // ---------- solving and verifying ----------

  const WORK_DOMAIN: Bytes := [101, 110, 105, 103, 47, 112, 111, 115, 116, 97, 103, 101, 47, 118, 49]

  function WorkDigest(sha256: Bytes -> Bytes, i: StoredItem, p: WorkProof): Bytes
  {
    sha256(WriteAll([Var(WORK_DOMAIN), I64(p.epoch), Var(i.itemId), U64(p.nonce)]))
  }

  /** Go's integer division truncates towards zero. */
  function Quotient(a: int, b: int): int
    requires b > 0
  {
    if a >= 0 then a / b else -((-a) / b)
  }

  function EpochAt(now: Time, epochSeconds: int): int
    requires epochSeconds > 0
  {
    Quotient(now / SECOND, epochSeconds)
  }

  /** The epoch number is the number of whole epochs between the Unix epoch and `now`, negative before it. */
  lemma EpochIs(now: Time, epochSeconds: int)
    requires epochSeconds > 0
    ensures var e, s := EpochAt(now, epochSeconds), now / SECOND;
      if s >= 0 then e * epochSeconds <= s < (e + 1) * epochSeconds else (e - 1) * epochSeconds < s <= e * epochSeconds
  {
    var e, s := EpochAt(now, epochSeconds), now / SECOND;
    if s >= 0 {
      assert s == epochSeconds * e + s % epochSeconds;
      assert (e + 1) * epochSeconds == epochSeconds * e + epochSeconds;
    } else {
      assert -s == epochSeconds * (-e) + (-s) % epochSeconds;
      assert (e - 1) * epochSeconds == epochSeconds * e - epochSeconds;
    }
  }

  predicate VerifyWork(sha256: Bytes -> Bytes, i: StoredItem, now: Time, epochSeconds: int, minimum: Byte)
  {
    && MIN_EPOCH_SECONDS <= epochSeconds <= MAX_EPOCH_SECONDS
    && minimum <= MAX_DIFFICULTY && minimum <= i.work.difficulty <= MAX_DIFFICULTY
    && EpochAt(now, epochSeconds) - 1 <= i.work.epoch <= EpochAt(now, epochSeconds) + 1
    && LeadingZeros(WorkDigest(sha256, i, i.work), i.work.difficulty)
  }

  /** A node accepts work exactly if its own parameters are sane, the difficulty lies between its minimum and 24, the
      epoch is the current one or a neighbour, and the digest, read as a number, is below 2^(256 - difficulty). */
  lemma WorkVerifiesIff(sha256: Bytes -> Bytes, i: StoredItem, now: Time, epochSeconds: int, minimum: Byte)
    requires |WorkDigest(sha256, i, i.work)| == 32
    ensures VerifyWork(sha256, i, now, epochSeconds, minimum) <==>
      && 60 <= epochSeconds <= 86_400 && minimum <= i.work.difficulty <= 24
      && (i.work.epoch == EpochAt(now, epochSeconds) || i.work.epoch == EpochAt(now, epochSeconds) + 1 || i.work.epoch == EpochAt(now, epochSeconds) - 1)
      && Value(WorkDigest(sha256, i, i.work)) < Pow2(256 - i.work.difficulty)
  {
  }

  predicate Solvable(epochSeconds: int, difficulty: Byte)
  {
    MIN_EPOCH_SECONDS <= epochSeconds <= MAX_EPOCH_SECONDS && difficulty <= MAX_DIFFICULTY
  }

  /** No 64-bit nonce below the bound solves the work. */
  ghost predicate NoneBelow(sha256: Bytes -> Bytes, i: StoredItem, epoch: int, difficulty: Byte, bound: int)
  {
    forall n: U64 :: n < bound ==> !LeadingZeros(WorkDigest(sha256, i, WorkProof(epoch, n, difficulty)), difficulty)
  }

  lemma NoneBelowStep(sha256: Bytes -> Bytes, i: StoredItem, epoch: int, difficulty: Byte, tried: nat)
    requires NoneBelow(sha256, i, epoch, difficulty, tried)
    requires !LeadingZeros(WorkDigest(sha256, i, WorkProof(epoch, tried % TWO64, difficulty)), difficulty)
    ensures NoneBelow(sha256, i, epoch, difficulty, tried + 1)
  {
    assert tried < TWO64 ==> tried % TWO64 == tried;
  }

  lemma FoundIsLeast(sha256: Bytes -> Bytes, i: StoredItem, epoch: int, difficulty: Byte, tried: nat)
    requires NoneBelow(sha256, i, epoch, difficulty, tried)
    requires LeadingZeros(WorkDigest(sha256, i, WorkProof(epoch, tried % TWO64, difficulty)), difficulty)
    ensures tried % TWO64 == tried
  {
    var n: U64 := tried % TWO64;
    assert !(n < tried);
  }

  lemma NonceSteps(n: nat)
    ensures (n % TWO64 + 1) % TWO64 == (n + 1) % TWO64
  {
  }

  /** The wrap-around of the nonce keeps the rhythm of the looks. */
  lemma PollsAgree(n: nat)
    ensures (n % TWO64) % POLL_MASK == n % POLL_MASK
  {
    var q := n / TWO64;
    assert n == POLL_MASK * (0x4_0000_0000_0000 * q) + n % TWO64;
  }

  /** One look has been spent for every started run of 16384 nonces. */
  predicate Paced(patience: nat, looks: nat, tried: nat)
  {
    looks <= patience && (patience - looks) * POLL_MASK - POLL_MASK < tried <= (patience - looks) * POLL_MASK
  }

  lemma PacedStep(patience: nat, looks: nat, tried: nat)
    requires Paced(patience, looks, tried)
    ensures if (tried % TWO64) % POLL_MASK == 0 then
        tried == (patience - looks) * POLL_MASK && (looks > 0 ==> Paced(patience, looks - 1, tried + 1))
      else tried < patience * POLL_MASK && Paced(patience, looks, tried + 1)
  {
    PollsAgree(tried);
  }

  /** Searches nonces upwards, looking at the context every 16384 of them; `patience` is how many of those
      looks find it alive. The nonce is a 64-bit counter. The least solution is found if there is one among
      the nonces tried, and nothing otherwise. */
  method SolveWork(sha256: Bytes -> Bytes, i: StoredItem, started: Time, epochSeconds: int, difficulty: Byte, patience: nat)
    returns (r: Option<WorkProof>)
    ensures r.Some? ==> Solvable(epochSeconds, difficulty)
    ensures r.Some? ==> r.value.epoch == EpochAt(started, epochSeconds) && r.value.difficulty == difficulty
    ensures r.Some? ==> r.value.nonce < patience * POLL_MASK && LeadingZeros(WorkDigest(sha256, i, r.value), difficulty)
    ensures r.Some? ==> NoneBelow(sha256, i, r.value.epoch, difficulty, r.value.nonce)
    ensures r.None? && Solvable(epochSeconds, difficulty) ==>
      NoneBelow(sha256, i, EpochAt(started, epochSeconds), difficulty, patience * POLL_MASK)
  {
    if !Solvable(epochSeconds, difficulty) {
      return None;
    }
    var proof := WorkProof(EpochAt(started, epochSeconds), 0, difficulty);
    var looks := patience;
    ghost var tried := 0;
    while true
      invariant 0 <= tried && Paced(patience, looks, tried)
      invariant proof == WorkProof(EpochAt(started, epochSeconds), tried % TWO64, difficulty)
      invariant NoneBelow(sha256, i, proof.epoch, difficulty, tried)
      decreases patience * POLL_MASK - tried
    {
      PacedStep(patience, looks, tried);
      if proof.nonce % POLL_MASK == 0 {
        if looks == 0 {
          return None;
        }
        looks := looks - 1;
      }
      var found := HasLeadingZeroBits(WorkDigest(sha256, i, proof), difficulty);
      if found {
        FoundIsLeast(sha256, i, proof.epoch, difficulty, tried);
        return Some(proof);
      }
      NoneBelowStep(sha256, i, proof.epoch, difficulty, tried);
      NonceSteps(tried);
      proof, tried := proof.(nonce := (proof.nonce + 1) % TWO64), tried + 1;
    }
  }

  /** Work that was solved passes at every node that asks for no more, whose epoch number is at most one off. */
  lemma SolvedWorkVerifies(sha256: Bytes -> Bytes, i: StoredItem, proof: WorkProof, now: Time, epochSeconds: int, minimum: Byte)
    requires LeadingZeros(WorkDigest(sha256, i, proof), proof.difficulty) && proof.difficulty <= MAX_DIFFICULTY
    requires MIN_EPOCH_SECONDS <= epochSeconds <= MAX_EPOCH_SECONDS
    ensures VerifyWork(sha256, i.(work := proof), now, epochSeconds, minimum) <==>
      minimum <= proof.difficulty && -1 <= proof.epoch - EpochAt(now, epochSeconds) <= 1
  {
    assert WorkDigest(sha256, i.(work := proof), proof) == WorkDigest(sha256, i, proof);
  }

  /** The ID of an item does not depend on the work attached to it. */
  lemma WorkKeepsItemId(sha256: Bytes -> Bytes, i: StoredItem, proof: WorkProof)
    ensures ComputeItemId(sha256, i.(work := proof)) == ComputeItemId(sha256, i)
  {
  }
}
