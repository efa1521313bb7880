/**
 Big-endian bit strings: the common ground on which the base32 loops and the RFC's grouping
 rule are compared. Shifts are repeated doubling and halving, so every step is linear.

 `Expand` writes numbers out as bits of one width, `Chunk` cuts bits into numbers of one
 width, and the lemmas relate the two: cutting what was written out gives the numbers back.
 */
module Bits {

  function Pow2(k: nat): (r: nat)
    ensures r >= 1
  {
    if k == 0 then 1 else 2 * Pow2(k - 1)
  }

  /** `n * 2^k` */
  function Double(n: int, k: nat): int {
    if k == 0 then n else 2 * Double(n, k - 1)
  }

  /** `floor(n / 2^k)` */
  function Halve(n: int, k: nat): (r: int)
    ensures n >= 0 ==> r >= 0
    decreases k
  {
    if k == 0 then n else Halve(n / 2, k - 1)
  }

  /** The low `w` bits of `n`, most significant first (two's complement for a negative `n`). */
  function ToBits(w: nat, n: int): (r: seq<bool>)
    ensures |r| == w
  {
    if w == 0 then [] else ToBits(w - 1, n / 2) + [n % 2 == 1]
  }

  function FromBits(b: seq<bool>): (r: nat)
    ensures r < Pow2(|b|)
  {
    if b == [] then 0 else 2 * FromBits(b[..|b| - 1]) + (if b[|b| - 1] then 1 else 0)
  }

  /** The bits of every digit of `xs`, each written with width `w`. */
  function Expand(w: nat, xs: seq<nat>): seq<bool> {
    if xs == [] then [] else ToBits(w, xs[0]) + Expand(w, xs[1..])
  }

  /** Cuts into whole groups of `w` bits and reads each as a number; a shorter tail is dropped. */
  function Chunk(w: nat, b: seq<bool>): seq<nat>
    requires w > 0
    decreases |b|
  {
    if |b| < w then [] else [FromBits(b[..w])] + Chunk(w, b[w..])
  }

  /** What `Chunk` drops. */
  function Leftover(w: nat, b: seq<bool>): (rest: seq<bool>)
    requires w > 0
    ensures |rest| < w
    decreases |b|
  {
    if |b| < w then b else Leftover(w, b[w..])
  }

  function Zeros(n: nat): (r: seq<bool>)
    ensures |r| == n
  {
    seq(n, _ => false)
  }

  lemma {:induction false} ZeroBits(w: nat)
    ensures ToBits(w, 0) == Zeros(w)
  {
    if w > 0 {
      ZeroBits(w - 1);
      assert Zeros(w) == Zeros(w - 1) + [false];
    }
  }

  lemma {:induction false} DoubleZero(k: nat)
    ensures Double(0, k) == 0
  {
    if k > 0 {
      DoubleZero(k - 1);
    }
  }

  lemma {:induction false} FromToBits(w: nat, n: nat)
    requires n < Pow2(w)
    ensures FromBits(ToBits(w, n)) == n
  {
    if w > 0 {
      FromToBits(w - 1, n / 2);
      var b := ToBits(w, n);
      assert b[..|b| - 1] == ToBits(w - 1, n / 2);
    }
  }

  lemma {:induction false} ToFromBits(b: seq<bool>)
    ensures ToBits(|b|, FromBits(b)) == b
  {
    if b != [] {
      ToFromBits(b[..|b| - 1]);
      assert b == b[..|b| - 1] + [b[|b| - 1]];
    }
  }

  /** Only the low `w` bits of a number reach its `w`-bit reading. */
  lemma {:induction false} ToBitsOfMultiple(w: nat, k: nat, n: int, q: int)
    requires w <= k
    ensures ToBits(w, n + Double(q, k)) == ToBits(w, n)
  {
    if w > 0 {
      ToBitsOfMultiple(w - 1, k - 1, n / 2, q);
      assert (n + Double(q, k)) / 2 == n / 2 + Double(q, k - 1);
    }
  }

  lemma {:induction false} ToBitsAppend(w: nat, v: nat, n: int, d: nat)
    requires d < Pow2(v)
    ensures ToBits(w, n) + ToBits(v, d) == ToBits(w + v, Double(n, v) + d)
  {
    if v == 0 {
      assert ToBits(w, n) + [] == ToBits(w, n);
    } else {
      ToBitsAppend(w, v - 1, n, d / 2);
      var m := Double(n, v - 1);
      assert (2 * m + d) / 2 == m + d / 2 && (2 * m + d) % 2 == d % 2;
      var a, b := ToBits(w, n), ToBits(v - 1, d / 2);
      assert a + (b + [d % 2 == 1]) == (a + b) + [d % 2 == 1];
    }
  }

  /** The leading bits of a reading are the reading of the number shifted right. */
  lemma {:induction false} ToBitsPrefix(w: nat, v: nat, n: int)
    ensures ToBits(w + v, n)[..w] == ToBits(w, Halve(n, v))
    ensures ToBits(w + v, n)[w..] == ToBits(v, n)
  {
    if v > 0 {
      ToBitsPrefix(w, v - 1, n / 2);
      SplitSnoc(ToBits(w + v - 1, n / 2), n % 2 == 1, w);
    }
  }

  lemma SplitSnoc(init: seq<bool>, last: bool, w: nat)
    requires w <= |init|
    ensures (init + [last])[..w] == init[..w]
    ensures (init + [last])[w..] == init[w..] + [last]
  {
  }

  lemma {:induction false} DoubleAgain(n: int, a: nat, b: nat)
    ensures Double(Double(n, a), b) == Double(n, a + b)
  {
    if b > 0 {
      DoubleAgain(n, a, b - 1);
    }
  }

  lemma DoubleValues(n: int)
    ensures Double(n, 5) == 32 * n
    ensures Double(n, 8) == 256 * n
    ensures Double(n, 32) == 0x1_0000_0000 * n
  {
    Double4(n);
    Double4(16 * n);
    DoubleAgain(n, 4, 1);
    DoubleAgain(n, 4, 4);
    Double8(256 * n);
    DoubleAgain(n, 8, 8);
    Double8(65536 * n);
    DoubleAgain(n, 16, 8);
    Double8(16777216 * n);
    DoubleAgain(n, 24, 8);
  }

  lemma Double4(n: int)
    ensures Double(n, 4) == 16 * n && Double(n, 1) == 2 * n
  {
    assert Double(n, 1) == 2 * n;
    assert Double(n, 2) == 4 * n;
    assert Double(n, 3) == 8 * n;
  }

  lemma Double8(n: int)
    ensures Double(n, 8) == 256 * n
  {
    Double4(n);
    Double4(16 * n);
    DoubleAgain(n, 4, 4);
  }

  lemma Pow2Values()
    ensures Pow2(5) == 32 && Pow2(8) == 256
  {
    assert Pow2(3) == 8;
    assert Pow2(6) == 64;
  }

  lemma {:induction false} ChunkExpand(w: nat, xs: seq<nat>, rest: seq<bool>)
    requires 0 < w && |rest| < w
    requires forall i :: 0 <= i < |xs| ==> xs[i] < Pow2(w)
    ensures Chunk(w, Expand(w, xs) + rest) == xs
  {
    if xs != [] {
      var all := Expand(w, xs) + rest;
      var head := ToBits(w, xs[0]);
      var tail := Expand(w, xs[1..]) + rest;
      assert all == head + tail;
      assert all[..w] == head && all[w..] == tail;
      FromToBits(w, xs[0]);
      assert Chunk(w, tail) == xs[1..] by {
        ChunkExpand(w, xs[1..], rest);
      }
      assert Chunk(w, all) == [xs[0]] + xs[1..];
    } else {
      assert Expand(w, xs) + rest == rest;
    }
  }

  lemma {:induction false} ExpandChunk(w: nat, b: seq<bool>)
    requires w > 0
    ensures Expand(w, Chunk(w, b)) + Leftover(w, b) == b
    decreases |b|
  {
    if |b| >= w {
      var head, tail := b[..w], b[w..];
      var digits := Chunk(w, tail);
      ExpandChunk(w, tail);
      ToFromBits(head);
      ExpandCons(w, FromBits(head), digits);
      Associative(head, Expand(w, digits), Leftover(w, tail));
      assert b == head + tail;
    }
  }

  lemma ExpandCons(w: nat, x: nat, xs: seq<nat>)
    ensures Expand(w, [x] + xs) == ToBits(w, x) + Expand(w, xs)
  {
    assert ([x] + xs)[1..] == xs;
  }

  lemma Associative<T>(a: seq<T>, b: seq<T>, c: seq<T>)
    ensures (a + b) + c == a + (b + c)
  {
  }

  lemma {:induction false} ChunkBound(w: nat, b: seq<bool>)
    requires w > 0
    ensures forall i :: 0 <= i < |Chunk(w, b)| ==> Chunk(w, b)[i] < Pow2(w)
    decreases |b|
  {
    if |b| >= w {
      ChunkBound(w, b[w..]);
      var rest := Chunk(w, b[w..]);
      assert Chunk(w, b) == [FromBits(b[..w])] + rest;
      forall i | 0 <= i < |Chunk(w, b)|
        ensures Chunk(w, b)[i] < Pow2(w)
      {
        if i > 0 {
          assert Chunk(w, b)[i] == rest[i - 1];
        }
      }
    }
  }
}
