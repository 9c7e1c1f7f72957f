/** Power-of-two geometry: block sizes, alignment, and what the bitwise exclusive-or
    of an address with a block size means for addresses that are block starts. */
module Dyadic {
  const MIN_BLOCK := 128

  function Pow2(n: nat): (p: nat)
    ensures p > 0
  {
    if n == 0 then 1 else 2 * Pow2(n - 1)
  }

  /** Bytes of a whole block of the given order, header included. */
  function BlockSize(order: nat): (s: nat)
    ensures s >= MIN_BLOCK
  {
    if order == 0 then MIN_BLOCK else 2 * BlockSize(order - 1)
  }

  /** Block starts of this order are the multiples of the block size. */
  predicate Aligned(a: nat, order: nat) {
    if order == 0 then a % MIN_BLOCK == 0 else a % 2 == 0 && Aligned(a / 2, order - 1)
  }

  /** Bitwise exclusive-or of two unsigned numbers, least significant bit first. */
  function Xor(a: nat, b: nat): nat
    decreases a + b
  {
    if a == 0 && b == 0 then 0
    else 2 * Xor(a / 2, b / 2) + (a % 2 + b % 2) % 2
  }

  /** The other half of the block twice as large that a block of this order lies in. */
  function Buddy(a: nat, order: nat): nat {
    if Aligned(a, order + 1) then a + BlockSize(order)
    else if a < BlockSize(order) then a
    else a - BlockSize(order)
  }

  lemma {:induction false} BlockSizeIsPow2(order: nat)
    ensures BlockSize(order) == Pow2(order + 7)
  {
    if order == 0 {
      assert Pow2(3) == 2 * Pow2(2) && Pow2(2) == 2 * Pow2(1) && Pow2(1) == 2;
      assert Pow2(5) == 2 * Pow2(4) && Pow2(4) == 2 * Pow2(3);
      assert Pow2(7) == 2 * Pow2(6) && Pow2(6) == 2 * Pow2(5);
    } else {
      BlockSizeIsPow2(order - 1);
    }
  }

  lemma {:induction false} BlockSizeMonotone(j: nat, k: nat)
    requires j < k
    ensures 2 * BlockSize(j) <= BlockSize(k)
    decreases k
  {
    if j < k - 1 {
      BlockSizeMonotone(j, k - 1);
    }
  }

  // ---- Multiples ----

  lemma Scaled(x: int, s: int)
    requires s > 0
    ensures x >= 1 ==> x * s >= s
    ensures x == 0 ==> x * s == 0
    ensures x <= -1 ==> x * s <= -s
  {
  }

  lemma MultipleGap(a: nat, b: nat, s: nat)
    requires s > 0 && a % s == 0 && b % s == 0 && a < b
    ensures a + s <= b
  {
    var p, q := a / s, b / s;
    assert a == p * s && b == q * s;
    assert (q - p) * s == b - a;
    Scaled(q - p, s);
  }

  lemma ModOfProduct(q: nat, s: nat)
    requires s > 0
    ensures (q * s) % s == 0 && (q * s) / s == q
  {
    var d, m := (q * s) / s, (q * s) % s;
    assert q * s == d * s + m;
    assert (q - d) * s == m;
    Scaled(q - d, s);
  }

  lemma MultipleShift(a: nat, s: nat)
    requires s > 0 && a % s == 0
    ensures (a + s) % s == 0
    ensures a >= s ==> (a - s) % s == 0
    ensures a > 0 ==> a >= s
  {
    var q := a / s;
    assert a == q * s;
    assert a + s == (q + 1) * s;
    ModOfProduct(q + 1, s);
    if a > 0 {
      Scaled(q, s);
      assert a - s == (q - 1) * s;
      ModOfProduct(q - 1, s);
    }
  }

  lemma ModUnique(a: nat, s: nat, q: nat, r: nat)
    requires s > 0 && r < s && a == s * q + r
    ensures a % s == r && a / s == q
  {
    var d, m := a / s, a % s;
    assert a == d * s + m;
    assert (q - d) * s == m - r;
    Scaled(q - d, s);
  }

  lemma ModHalf(a: nat, s: nat)
    requires s > 0 && a % (2 * s) == 0
    ensures a % s == 0
    ensures (a + s) % (2 * s) != 0
    ensures (a + s) % s == 0
  {
    var q := a / (2 * s);
    assert a == q * (2 * s) == (2 * q) * s;
    ModOfProduct(2 * q, s);
    MultipleShift(a, s);
    assert a + s == (2 * s) * q + s;
    assert (a + s) % (2 * s) == s by { ModUnique(a + s, 2 * s, q, s); }
  }

  /** A multiple of s that is not a multiple of 2s is s above a multiple of 2s. */
  lemma OddMultiple(a: nat, s: nat)
    requires s > 0 && a % s == 0 && a % (2 * s) != 0
    ensures a >= s && (a - s) % (2 * s) == 0
  {
    var q := a / s;
    assert a == q * s;
    var h := q / 2;
    assert q == 2 * h + 1 by {
      assert h * (2 * s) == (2 * h) * s;
      ModOfProduct(h, 2 * s);
    }
    assert a == (2 * h + 1) * s == h * (2 * s) + s by {
      assert (2 * h + 1) * s == 2 * h * s + s;
    }
    assert h * (2 * s) >= 0;
    ModOfProduct(h, 2 * s);
  }

  // ---- Alignment ----

  lemma DivTwice(a: nat, m: nat)
    requires m > 0
    ensures a / (2 * m) == (a / 2) / m
    ensures a % (2 * m) == 2 * ((a / 2) % m) + a % 2
  {
    var h := a / 2;
    var q, r := h / m, h % m;
    assert h == q * m + r;
    assert a == 2 * h + a % 2;
    assert (2 * m) * q == 2 * (q * m);
    ModUnique(a, 2 * m, q, 2 * r + a % 2);
  }

  lemma {:induction false} AlignedIsMultiple(a: nat, k: nat)
    ensures Aligned(a, k) <==> a % BlockSize(k) == 0
  {
    if k > 0 {
      AlignedIsMultiple(a / 2, k - 1);
      DivTwice(a, BlockSize(k - 1));
    }
  }

  lemma AlignedGap(a: nat, b: nat, k: nat)
    requires Aligned(a, k) && Aligned(b, k) && a < b
    ensures a + BlockSize(k) <= b
  {
    AlignedIsMultiple(a, k);
    AlignedIsMultiple(b, k);
    MultipleGap(a, b, BlockSize(k));
  }

  /** Both halves of a block of order k + 1 are aligned to order k; only the left one to k + 1. */
  lemma AlignedHalves(a: nat, k: nat)
    requires Aligned(a, k + 1)
    ensures Aligned(a, k) && Aligned(a + BlockSize(k), k) && !Aligned(a + BlockSize(k), k + 1)
    ensures Buddy(a, k) == a + BlockSize(k) && Buddy(a + BlockSize(k), k) == a
  {
    var r := a + BlockSize(k);
    AlignedIsMultiple(a, k + 1);
    AlignedIsMultiple(a, k);
    AlignedIsMultiple(r, k + 1);
    AlignedIsMultiple(r, k);
    ModHalf(a, BlockSize(k));
  }

  lemma {:induction false} AlignedSmaller(a: nat, j: nat, k: nat)
    requires j <= k && Aligned(a, k)
    ensures Aligned(a, j)
    decreases k
  {
    if j < k {
      AlignedHalves(a, k - 1);
      AlignedSmaller(a, j, k - 1);
    }
  }

  lemma AlignedNext(a: nat, k: nat)
    requires Aligned(a, k)
    ensures Aligned(a + BlockSize(k), k)
  {
    AlignedIsMultiple(a, k);
    AlignedIsMultiple(a + BlockSize(k), k);
    MultipleShift(a, BlockSize(k));
  }

  lemma RightHalf(a: nat, k: nat)
    requires Aligned(a, k) && !Aligned(a, k + 1)
    ensures a >= BlockSize(k) && Aligned(a - BlockSize(k), k + 1)
  {
    AlignedIsMultiple(a, k);
    AlignedIsMultiple(a, k + 1);
    OddMultiple(a, BlockSize(k));
    AlignedIsMultiple(a - BlockSize(k), k + 1);
  }

  /** Two dyadic intervals are nested or disjoint. */
  lemma DyadicNesting(a: nat, j: nat, b: nat, k: nat)
    requires j <= k && Aligned(a, j) && Aligned(b, k)
    ensures a + BlockSize(j) <= b
         || b + BlockSize(k) <= a
         || (b <= a && a + BlockSize(j) <= b + BlockSize(k))
  {
    AlignedSmaller(b, j, k);
    AlignedNext(b, k);
    AlignedSmaller(b + BlockSize(k), j, k);
    if a < b {
      AlignedGap(a, b, j);
    } else if a < b + BlockSize(k) {
      AlignedGap(a, b + BlockSize(k), j);
    }
  }

  /** The buddy is aligned like the block, has the block as its own buddy, and the lower of
      the two is aligned to the next order. */
  lemma BuddyGeometry(a: nat, k: nat)
    requires Aligned(a, k)
    ensures var b := Buddy(a, k);
            && b != a && Aligned(b, k) && Buddy(b, k) == a
            && Aligned(if a < b then a else b, k + 1)
            && (a < b <==> Aligned(a, k + 1))
            && (a < b ==> b == a + BlockSize(k)) && (b < a ==> a == b + BlockSize(k))
  {
    if Aligned(a, k + 1) {
      AlignedHalves(a, k);
    } else {
      RightHalf(a, k);
      AlignedHalves(a - BlockSize(k), k);
    }
  }

  /** A block that covers the start of another one's buddy, and is clear of that one, is the buddy or
      starts where the buddy starts. */
  lemma CoversBuddy(a: nat, k: nat, c: nat, kc: nat)
    requires Aligned(a, k) && Aligned(c, kc) && c <= Buddy(a, k) < c + BlockSize(kc)
    requires (c < a ==> c + BlockSize(kc) <= a) && (a < c ==> a + BlockSize(k) <= c) && (a == c ==> k == kc)
    ensures c == Buddy(a, k) && kc <= k
  {
    var b := Buddy(a, k);
    BuddyGeometry(a, k);
    if kc > k {
      // c would contain the parent of a and b, hence a itself
      DyadicNesting(if a < b then a else b, k + 1, c, kc);
    } else {
      AlignedSmaller(b, kc, k);
      if c < b {
        AlignedGap(c, b, kc);
      }
    }
  }

  // ---- Exclusive-or ----

  lemma {:induction false} XorZero(a: nat)
    ensures Xor(a, 0) == a
  {
    if a > 0 {
      XorZero(a / 2);
    }
  }

  lemma XorEvenRight(a: nat, m: nat)
    ensures Xor(a, 2 * m) == 2 * Xor(a / 2, m) + a % 2
  {
    assert (2 * m) / 2 == m && (2 * m) % 2 == 0;
  }

  /** Flipping one bit moves a number down or up by that bit's weight. */
  lemma {:induction false} XorBit(a: nat, n: nat)
    ensures Xor(a, Pow2(n)) == if (a / Pow2(n)) % 2 == 0 then a + Pow2(n) else a - Pow2(n)
  {
    if n == 0 {
      XorZero(a / 2);
    } else {
      var m := Pow2(n - 1);
      XorBit(a / 2, n - 1);
      DivTwice(a, m);
      XorEvenRight(a, m);
    }
  }

  lemma EvenQuotient(a: nat, s: nat)
    requires s > 0 && a % s == 0
    ensures (a / s) % 2 == 0 <==> a % (2 * s) == 0
  {
    var q := a / s;
    assert a == q * s;
    if q % 2 == 0 {
      assert a == (2 * (q / 2)) * s == (q / 2) * (2 * s);
      ModOfProduct(q / 2, 2 * s);
    } else {
      var h := q / 2;
      assert (2 * h + 1) * s == (2 * s) * h + s;
      ModUnique(a, 2 * s, h, s);
    }
  }

  /** For a block start, address xor block size is the buddy's address. */
  lemma XorIsBuddy(a: nat, k: nat)
    requires Aligned(a, k)
    ensures Xor(a, BlockSize(k)) == Buddy(a, k)
  {
    AlignedIsMultiple(a, k);
    AlignedIsMultiple(a, k + 1);
    BlockSizeIsPow2(k);
    XorBit(a, k + 7);
    EvenQuotient(a, BlockSize(k));
  }

  lemma XorStep(a: nat, b: nat)
    ensures Xor(a, b) == 2 * Xor(a / 2, b / 2) + (a % 2 + b % 2) % 2
  {
  }

  lemma XorDoubled(h: nat, b: nat)
    ensures Xor(2 * h, b) == 2 * Xor(h, b / 2) + b % 2
  {
    XorStep(2 * h, b);
    assert (2 * h) / 2 == h && (2 * h) % 2 == 0;
  }

  lemma DoubleProduct(q: nat, m: nat)
    ensures q * (2 * m) == 2 * (q * m) && q * m >= 0
  {
  }

  lemma {:induction false} XorLowOf(t: nat, q: nat, b: nat, n: nat)
    requires t == q * Pow2(n) && b < Pow2(n)
    ensures Xor(t, b) == t + b
  {
    if n == 0 {
      XorZero(t);
    } else {
      DoubleProduct(q, Pow2(n - 1));
      var u := q * Pow2(n - 1);
      XorLowOf(u, q, b / 2, n - 1);
      XorDoubled(u, b);
    }
  }

  /** Xor with a number below an address's alignment just adds it. */
  lemma XorLow(a: nat, b: nat, n: nat)
    requires a % Pow2(n) == 0 && b < Pow2(n)
    ensures Xor(a, b) == a + b
  {
    var q := a / Pow2(n);
    assert a == q * Pow2(n);
    XorLowOf(a, q, b, n);
  }
}
