/**
 JavaScript's 32-bit integer operators, written out on unbounded integers: every result of
 `<<` and `|` is wrapped to a signed 32-bit value, `|` goes bit by bit over both operands'
 thirty-two bits in two's complement, and `>>>` reads its operand as unsigned. The
 lemmas say what becomes of the low bits of a value that is shifted again and again without
 ever being masked: they are never disturbed by what has overflowed above them.
 */
module Int32 {
  import opened Bits

  const TWO_32: nat := 0x1_0000_0000
  const TWO_31: nat := 0x8000_0000

  type int32 = n: int | -0x8000_0000 <= n < 0x8000_0000

  function ToInt32(n: int): int32 {
    (n + TWO_31) % TWO_32 - TWO_31
  }

  function ToUint32(n: int): nat {
    n % TWO_32
  }

  function Shl(n: int32, k: nat): int32 {
    ToInt32(Double(n, k))
  }

  function Ushr(n: int32, k: nat): nat {
    Halve(ToUint32(n), k)
  }

  function OrBits(a: seq<bool>, b: seq<bool>): (r: seq<bool>)
    requires |a| == |b|
    ensures |r| == |a|
  {
    seq(|a|, i requires 0 <= i < |a| => a[i] || b[i])
  }

  /** `a | b` */
  function Or(a: int32, b: int32): int32 {
    ToInt32(FromBits(OrBits(ToBits(32, a), ToBits(32, b))))
  }

  /** The wrap to 32 bits is invisible to any reading of at most 32 low bits. */
  lemma WrapKeepsLowBits(w: nat, n: int)
    requires w <= 32
    ensures ToBits(w, ToInt32(n)) == ToBits(w, n)
    ensures ToBits(w, ToUint32(n)) == ToBits(w, n)
  {
    var q := (n + TWO_31) / TWO_32;
    DoubleValues(-q);
    ToBitsOfMultiple(w, 32, n, -q);
    var u := n / TWO_32;
    DoubleValues(-u);
    ToBitsOfMultiple(w, 32, n, -u);
  }

  lemma OrReadsBitwise(a: int32, b: int32)
    ensures ToBits(32, Or(a, b)) == OrBits(ToBits(32, a), ToBits(32, b))
  {
    var bits := OrBits(ToBits(32, a), ToBits(32, b));
    WrapKeepsLowBits(32, FromBits(bits));
    ToFromBits(bits);
  }

  /** A shift leaves zeros in the low bits, wrapped or not. */
  lemma ShlLeavesZeros(n: int32, k: nat)
    requires k <= 32
    ensures ToBits(32, Shl(n, k)) == ToBits(32 - k, n) + Zeros(k)
  {
    WrapKeepsLowBits(32, Double(n, k));
    ToBitsAppend(32 - k, k, n, 0);
    ZeroBits(k);
  }

  /** A small number has zeros in the high bits. */
  lemma SmallHasZeros(d: int32, k: nat)
    requires k <= 32 && 0 <= d < Pow2(k)
    ensures ToBits(32, d) == Zeros(32 - k) + ToBits(k, d)
  {
    ToBitsAppend(32 - k, k, 0, d);
    DoubleZero(k);
    ZeroBits(32 - k);
  }

  lemma OrFillsZeros(high: seq<bool>, low: seq<bool>)
    ensures OrBits(high + Zeros(|low|), Zeros(|high|) + low) == high + low
  {
  }

  /** Or-ing a small number into a shifted one is adding it, as far as any of the 32 bits can tell. */
  lemma OrIsPlus(n: int32, d: int32, k: nat)
    requires k <= 32 && 0 <= d < Pow2(k)
    ensures ToBits(32, Or(Shl(n, k), d)) == ToBits(32, Double(n, k) + d)
  {
    OrReadsBitwise(Shl(n, k), d);
    ShlLeavesZeros(n, k);
    SmallHasZeros(d, k);
    OrFillsZeros(ToBits(32 - k, n), ToBits(k, d));
    ToBitsAppend(32 - k, k, n, d);
  }

  lemma {:induction false} SameLowBits(word: nat, w: nat, m: int, n: int)
    requires w <= word && ToBits(word, m) == ToBits(word, n)
    ensures ToBits(w, m) == ToBits(w, n)
  {
    ToBitsPrefix(word - w, w, m);
    ToBitsPrefix(word - w, w, n);
  }

  lemma OrIsPlusBelow(w: nat, n: int32, d: int32, k: nat)
    requires w <= 32 && k <= 32 && 0 <= d < Pow2(k)
    ensures ToBits(w, Or(Shl(n, k), d)) == ToBits(w, Double(n, k) + d)
  {
    OrIsPlus(n, d, k);
    SameLowBits(32, w, Or(Shl(n, k), d), Double(n, k) + d);
  }

  /** One `value = (value << k) | d` step appends the `k` bits of `d` to any low reading. */
  lemma ShiftInAppends(w: nat, n: int32, d: int32, k: nat)
    requires w + k <= 32 && 0 <= d < Pow2(k)
    ensures ToBits(w + k, Or(Shl(n, k), d)) == ToBits(w, n) + ToBits(k, d)
  {
    OrIsPlusBelow(w + k, n, d, k);
    ToBitsAppend(w, k, n, d);
  }

  /** `(value >>> k) & 31` and `(value >>> k) & 255` read the leading bits of the low `w + k`. */
  lemma ShiftOutReads(w: nat, k: nat, n: int32)
    requires w + k <= 32
    ensures w == 5 ==> FromBits(ToBits(w + k, n)[..w]) == Ushr(n, k) % 32
    ensures w == 8 ==> FromBits(ToBits(w + k, n)[..w]) == Ushr(n, k) % 256
    ensures ToBits(w + k, n)[w..] == ToBits(k, n)
  {
    WrapKeepsLowBits(w + k, n);
    WrapKeepsLowBits(k, n);
    ToBitsPrefix(w, k, ToUint32(n));
    LowBitsRead(Ushr(n, k));
  }

  lemma LowBitsRead(n: int)
    ensures FromBits(ToBits(5, n)) == n % 32
    ensures FromBits(ToBits(8, n)) == n % 256
  {
    LowBitsReadAs(5, n, n / 32, n % 32);
    LowBitsReadAs(8, n, n / 256, n % 256);
  }

  lemma LowBitsReadAs(w: nat, n: int, q: int, r: nat)
    requires (w == 5 && n == 32 * q + r && r < 32) || (w == 8 && n == 256 * q + r && r < 256)
    ensures FromBits(ToBits(w, n)) == r
  {
    Pow2Values();
    DoubleValues(q);
    ToBitsOfMultiple(w, w, r, q);
    FromToBits(w, r);
  }
}
