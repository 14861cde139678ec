/** The write primitives of the signing encoders, as lists of fields. */
module Wire {
  import opened Bytes

  /** One write to the buffer: a byte, a fixed-width integer, or a length-prefixed byte string. */
  datatype Field =
    | U8(b: Byte)
    | U16(n16: int)
    | U32(n32: int)
    | U64(n64: int)
    | I64(i: int)
    | Var(v: Bytes)

  /** Go's conversions to fixed-width unsigned integers drop the high bits. */
  function Truncated(n: int, modulus: int): (r: nat)
    requires modulus > 0
    ensures 0 <= n < modulus ==> r == n
  {
    n % modulus
  }

  function Write(f: Field): Bytes
  {
    match f
    case U8(b) => [b]
    case U16(n) => BigEndian(Truncated(n, TWO16), 2)
    case U32(n) => BigEndian(Truncated(n, TWO32), 4)
    case U64(n) => BigEndian(Truncated(n, TWO64), 8)
    case I64(i) => BigEndian(Truncated(i, TWO64), 8)
    case Var(v) => BigEndian(Truncated(|v|, TWO32), 4) + v
  }

  function WriteAll(fs: seq<Field>): Bytes
  {
    if fs == [] then [] else Write(fs[0]) + WriteAll(fs[1..])
  }

  /** The value survives its conversion to the field's width. */
  predicate Fits(f: Field)
  {
    match f
    case U8(_) => true
    case U16(n) => 0 <= n < TWO16
    case U32(n) => 0 <= n < TWO32
    case U64(n) => 0 <= n < TWO64
    case I64(i) => -TWO63 <= i < TWO63
    case Var(v) => |v| < TWO32
  }

  predicate SameKind(f: Field, g: Field)
  {
    match f
    case U8(_) => g.U8?
    case U16(_) => g.U16?
    case U32(_) => g.U32?
    case U64(_) => g.U64?
    case I64(_) => g.I64?
    case Var(_) => g.Var?
  }

  predicate AllFit(fs: seq<Field>)
  {
    forall i :: 0 <= i < |fs| ==> Fits(fs[i])
  }

  /** Two encoders that perform the same kinds of writes in the same order. */
  predicate SameShape(fs: seq<Field>, gs: seq<Field>)
  {
    |fs| == |gs| && forall i :: 0 <= i < |fs| ==> SameKind(fs[i], gs[i])
  }

  lemma Associative(a: Bytes, b: Bytes, c: Bytes)
    ensures (a + b) + c == a + (b + c)
  {
  }

  lemma SplitFixed(a: Bytes, b: Bytes, ra: Bytes, rb: Bytes)
    requires |a| == |b| && a + ra == b + rb
    ensures a == b && ra == rb
  {
    assert a == (a + ra)[..|a|] && b == (b + rb)[..|b|];
    assert ra == (a + ra)[|a|..] && rb == (b + rb)[|b|..];
  }

  /** The number of values that `width` bytes can hold. */
  function Modulus(width: nat): nat
    requires width == 2 || width == 4 || width == 8
  {
    if width == 2 then TWO16 else if width == 4 then TWO32 else TWO64
  }

  lemma FixedWidthInjective(v: nat, w: nat, width: nat, rv: Bytes, rw: Bytes)
    requires width == 2 || width == 4 || width == 8
    requires v < Modulus(width) && w < Modulus(width)
    requires BigEndian(v, width) + rv == BigEndian(w, width) + rw
    ensures v == w && rv == rw
  {
    PowersOfTwo();
    SplitFixed(BigEndian(v, width), BigEndian(w, width), rv, rw);
    BigEndianInjective(v, w, width);
  }

  lemma SignedInjective(i: int, j: int)
    requires -TWO63 <= i < TWO63 && -TWO63 <= j < TWO63
    requires Truncated(i, TWO64) == Truncated(j, TWO64)
    ensures i == j
  {
  }

  lemma VarPrefixInjective(v: Bytes, w: Bytes, rv: Bytes, rw: Bytes)
    requires |v| < TWO32 && |w| < TWO32
    requires BigEndian(|v|, 4) + v + rv == BigEndian(|w|, 4) + w + rw
    ensures v == w && rv == rw
  {
    Associative(BigEndian(|v|, 4), v, rv);
    Associative(BigEndian(|w|, 4), w, rw);
    FixedWidthInjective(|v|, |w|, 4, v + rv, w + rw);
    SplitFixed(v, w, rv, rw);
  }

  /** A single write can be read back from the front of any longer buffer. */
  lemma FieldPrefixInjective(f: Field, g: Field, rf: Bytes, rg: Bytes)
    requires SameKind(f, g) && Fits(f) && Fits(g)
    requires Write(f) + rf == Write(g) + rg
    ensures f == g && rf == rg
  {
    match f
    case U8(_) => SplitFixed(Write(f), Write(g), rf, rg);
    case U16(n) => FixedWidthInjective(n, g.n16, 2, rf, rg);
    case U32(n) => FixedWidthInjective(n, g.n32, 4, rf, rg);
    case U64(n) => FixedWidthInjective(n, g.n64, 8, rf, rg);
    case I64(i) =>
      FixedWidthInjective(Truncated(i, TWO64), Truncated(g.i, TWO64), 8, rf, rg);
      SignedInjective(i, g.i);
    case Var(v) => VarPrefixInjective(v, g.v, rf, rg);
  }

  lemma WriteAllStep(fs: seq<Field>, rf: Bytes)
    requires fs != []
    ensures WriteAll(fs) + rf == Write(fs[0]) + (WriteAll(fs[1..]) + rf)
  {
    Associative(Write(fs[0]), WriteAll(fs[1..]), rf);
  }

  /** Writes of one shape determine both their fields and whatever follows them. */
  lemma {:induction false} PrefixInjective(fs: seq<Field>, gs: seq<Field>, rf: Bytes, rg: Bytes)
    requires SameShape(fs, gs) && AllFit(fs) && AllFit(gs)
    requires WriteAll(fs) + rf == WriteAll(gs) + rg
    ensures fs == gs && rf == rg
  {
    if fs == [] {
      SplitFixed(WriteAll(fs), WriteAll(gs), rf, rg);
    } else {
      WriteAllStep(fs, rf);
      WriteAllStep(gs, rg);
      FieldPrefixInjective(fs[0], gs[0], WriteAll(fs[1..]) + rf, WriteAll(gs[1..]) + rg);
      PrefixInjective(fs[1..], gs[1..], rf, rg);
      assert fs == [fs[0]] + fs[1..] && gs == [gs[0]] + gs[1..];
    }
  }

  lemma Injective(fs: seq<Field>, gs: seq<Field>)
    requires SameShape(fs, gs) && AllFit(fs) && AllFit(gs)
    requires WriteAll(fs) == WriteAll(gs)
    ensures fs == gs
  {
    assert WriteAll(fs) + [] == WriteAll(gs) + [];
    PrefixInjective(fs, gs, [], []);
  }
}
