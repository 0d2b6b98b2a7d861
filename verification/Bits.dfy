/** Unsigned words seen bit by bit.

The firmware builds and takes apart its 32-bit words with shifts, masks and `|=`.
A word is a `nat` here, so that a table index can also be added to an address;
this module says what those operations do to each bit. */
module Bits {
  import opened Words

  function Pow2(n: nat): (p: nat)
    ensures p >= 1
  {
    if n == 0 then 1 else 2 * Pow2(n - 1)
  }

  /** `(w >> k) & 1` */
  predicate Bit(w: nat, k: nat) {
    if k == 0 then w % 2 == 1 else Bit(w / 2, k - 1)
  }

  /** `w | (1 << k)` */
  function OrBit(w: nat, k: nat): nat {
    if Bit(w, k) then w else w + Pow2(k)
  }

  lemma {:induction false} Pow2Add(m: nat, n: nat)
    ensures Pow2(m + n) == Pow2(m) * Pow2(n)
  {
    if m != 0 {
      Pow2Add(m - 1, n);
      DoubledProduct(Pow2(m - 1), Pow2(n));
    }
  }

  lemma DoubledProduct(a: nat, b: nat)
    ensures (2 * a) * b == 2 * (a * b)
  {
  }

  lemma Pow2Monotone(m: nat, n: nat)
    requires m <= n
    ensures Pow2(m) <= Pow2(n)
  {
    if m != 0 {
      Pow2Monotone(m - 1, n - 1);
    }
  }

  lemma Pow2Values()
    ensures Pow2(8) == 0x100 && Pow2(16) == 0x1_0000 && Pow2(24) == 0x100_0000
    ensures Pow2(28) == 0x1000_0000 && Pow2(29) == 0x2000_0000 && Pow2(32) == WORD
  {
    assert Pow2(4) == 16;
    Pow2Add(4, 4);
    Pow2Add(8, 8);
    Pow2Add(16, 8);
    Pow2Add(24, 4);
    Pow2Add(24, 8);
  }

  lemma ZeroHasNoBits(k: nat)
    ensures !Bit(0, k)
  {
  }

  lemma {:induction false} OrBitBits(w: nat, k: nat, j: nat)
    ensures Bit(OrBit(w, k), j) == (j == k || Bit(w, j))
    decreases k
  {
    if k == 0 {
      assert !Bit(w, 0) ==> (w + 1) / 2 == w / 2;
    } else {
      assert !Bit(w, k) ==> (w + Pow2(k)) / 2 == w / 2 + Pow2(k - 1);
      assert !Bit(w, k) ==> (w + Pow2(k)) % 2 == w % 2;
      if j != 0 {
        OrBitBits(w / 2, k - 1, j - 1);
      }
    }
  }

  /** A word is determined by its bits. */
  lemma {:induction false} SameBits(a: nat, b: nat)
    requires forall k: nat :: Bit(a, k) == Bit(b, k)
    ensures a == b
    decreases a + b
  {
    if a != 0 || b != 0 {
      assert Bit(a, 0) == Bit(b, 0);
      forall k: nat ensures Bit(a / 2, k) == Bit(b / 2, k) {
        assert Bit(a, k + 1) == Bit(b, k + 1);
      }
      SameBits(a / 2, b / 2);
    }
  }

  lemma {:induction false} BitsBelow(w: nat, n: nat)
    requires w < Pow2(n)
    ensures forall k: nat :: n <= k ==> !Bit(w, k)
  {
    forall k: nat | n <= k ensures !Bit(w, k) {
      if n == 0 {
        ZeroHasNoBits(k);
      } else {
        BitsBelow(w / 2, n - 1);
      }
    }
  }

  lemma {:induction false} BelowFromBits(w: nat, n: nat)
    requires forall k: nat :: n <= k ==> !Bit(w, k)
    ensures w < Pow2(n)
  {
    if n == 0 {
      forall k: nat ensures Bit(w, k) == Bit(0, k) {
        ZeroHasNoBits(k);
      }
      SameBits(w, 0);
    } else {
      forall k: nat | n - 1 <= k ensures !Bit(w / 2, k) {
        assert !Bit(w, k + 1);
      }
      BelowFromBits(w / 2, n - 1);
    }
  }

  /** `(hi << n) | lo` for an `lo` that fits in n bits. */
  lemma {:induction false} ConcatBits(hi: nat, lo: nat, n: nat, k: nat)
    requires lo < Pow2(n)
    ensures Bit(hi * Pow2(n) + lo, k) == if k < n then Bit(lo, k) else Bit(hi, k - n)
  {
    if n != 0 {
      var w := hi * Pow2(n) + lo;
      assert hi * Pow2(n) == 2 * (hi * Pow2(n - 1));
      assert w / 2 == hi * Pow2(n - 1) + lo / 2 && w % 2 == lo % 2;
      if k != 0 {
        ConcatBits(hi, lo / 2, n - 1, k - 1);
      }
    }
  }

  lemma DivModParts(w: nat, m: nat)
    requires m > 0
    ensures w == (w / m) * m + w % m && w % m < m && w / m >= 0
  {
  }

  /** Masking to the low n bits: `w & ((1 << n) - 1)`. */
  function LowBits(w: nat, n: nat): nat {
    if n == 0 then 0 else w % 2 + 2 * LowBits(w / 2, n - 1)
  }

  /** `w >> n` */
  function HighBits(w: nat, n: nat): nat {
    if n == 0 then w else HighBits(w / 2, n - 1)
  }

  /** `(hi << n) | lo` comes apart again. */
  lemma {:induction false} ConcatParts(hi: nat, lo: nat, n: nat)
    requires lo < Pow2(n)
    ensures HighBits(hi * Pow2(n) + lo, n) == hi
    ensures LowBits(hi * Pow2(n) + lo, n) == lo
  {
    if n != 0 {
      var w := hi * Pow2(n) + lo;
      assert hi * Pow2(n) == 2 * (hi * Pow2(n - 1));
      assert w / 2 == hi * Pow2(n - 1) + lo / 2 && w % 2 == lo % 2;
      ConcatParts(hi, lo / 2, n - 1);
    }
  }

  lemma {:induction false} LowBitsBits(w: nat, n: nat, k: nat)
    ensures Bit(LowBits(w, n), k) == (k < n && Bit(w, k))
  {
    if n == 0 {
      ZeroHasNoBits(k);
    } else if k != 0 {
      LowBitsBits(w / 2, n - 1, k - 1);
    }
  }

  lemma {:induction false} LowBitsBelow(w: nat, n: nat)
    ensures LowBits(w, n) < Pow2(n)
  {
    if n != 0 {
      LowBitsBelow(w / 2, n - 1);
    }
  }

  lemma {:induction false} LowBitsOfSmall(w: nat, n: nat)
    requires w < Pow2(n)
    ensures LowBits(w, n) == w
  {
    if n != 0 {
      LowBitsOfSmall(w / 2, n - 1);
    }
  }

  lemma {:induction false} LowBitsIsMod(w: nat, n: nat)
    ensures LowBits(w, n) == w % Pow2(n)
  {
    if n != 0 {
      LowBitsIsMod(w / 2, n - 1);
      HalfMod(w, Pow2(n - 1));
    }
  }

  lemma MulDiffer(m: nat, hi: nat, lo: nat)
    requires hi > lo
    ensures m * hi >= m * lo + m
  {
    assert m * hi == m * (hi - 1) + m;
    if lo < hi - 1 {
      MulDiffer(m, hi - 1, lo);
    }
  }

  lemma SmallMod(x: nat, m: nat)
    requires x < m
    ensures x % m == x
  {
  }

  /** Quotient and remainder are determined by x == m * q + r. */
  lemma ModUnique(x: nat, m: nat, q: nat, r: nat)
    requires m > 0 && r < m && x == m * q + r
    ensures x % m == r && x / m == q
  {
    DivModParts(x, m);
    var q', r' := x / m, x % m;
    if q' < q {
      MulDiffer(m, q, q');
      assert false;
    } else if q < q' {
      MulDiffer(m, q', q);
      assert false;
    }
  }

  lemma HalfMod(x: nat, m: nat)
    requires m > 0
    ensures x % (2 * m) == 2 * ((x / 2) % m) + x % 2
  {
    var h := x / 2;
    var q, r := h / m, h % m;
    DivModParts(h, m);
    assert (2 * m) * q == 2 * (q * m);
    ModUnique(x, 2 * m, q, 2 * r + x % 2);
  }

  /** `a & b` */
  function And(a: nat, b: nat): nat {
    if a == 0 || b == 0 then 0
    else (if a % 2 == 1 && b % 2 == 1 then 1 else 0) + 2 * And(a / 2, b / 2)
  }

  lemma {:induction false} AndBits(a: nat, b: nat, k: nat)
    ensures Bit(And(a, b), k) == (Bit(a, k) && Bit(b, k))
    decreases k
  {
    if a == 0 || b == 0 {
      ZeroHasNoBits(k);
    } else if k != 0 {
      AndBits(a / 2, b / 2, k - 1);
    }
  }
}
