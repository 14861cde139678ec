/** Hybrid identities, signatures and the cryptographic operations the model takes as given. */
module Identities {
  import opened Bytes

  type U16 = n: int | 0 <= n < TWO16
  type U64 = n: int | 0 <= n < TWO64

  /** An instant in nanoseconds since the Unix epoch. */
  type Time = int

  const MILLISECOND := 1_000_000
  const SECOND := 1000 * MILLISECOND
  const MINUTE := 60 * SECOND
  const HOUR := 60 * MINUTE

  /** Go's zero time, the first instant of year 1. */
  const ZERO_TIME: Time := -62_135_596_800 * SECOND

  datatype Option<+T> = None | Some(value: T)

  datatype Identity = Identity(nodeId: Bytes, ed25519: Bytes, mldsa65: Bytes, version: Byte)

  datatype Signature = Signature(ed25519: Bytes, mldsa65: Bytes)

  /** The purpose a signature is bound to. */
  datatype Domain =
    | AnnouncementDomain | AttestationDomain | SnapshotDomain | ChallengeDomain

  /** Distinct inputs of this pair keep distinct digests. */
  predicate NoCollision(sha256: Bytes -> Bytes, a: Bytes, b: Bytes)
  {
    sha256(a) == sha256(b) ==> a == b
  }

  /** Go's `UnixMilli`: whole milliseconds, rounded down. */
  function Millis(t: Time): int
  {
    t / MILLISECOND
  }

  /** The instants whose millisecond count fits a signed 64-bit integer. */
  predicate Representable(t: Time)
  {
    -TWO63 <= Millis(t) < TWO63
  }

  /** Instants without digits below the millisecond, as every signer in this code produces them. */
  predicate Aligned(t: Time)
  {
    t % MILLISECOND == 0
  }

  lemma AlignedDetermined(s: Time, t: Time)
    requires Aligned(s) && Aligned(t) && Millis(s) == Millis(t)
    ensures s == t
  {
  }
}
