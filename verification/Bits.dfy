/** Bitwise operators on non-negative C integers, and the facts about single-bit masks on which
    the tree reduction rests. Everything is by recursion on the bits, so all reasoning is linear. */
module Bits {

  /** 1 << k */
  function Pow2(k: nat): (p: nat)
    ensures p >= 1
  {
    if k == 0 then 1 else 2 * Pow2(k - 1)
  }

  /** a & b */
  function And(a: nat, b: nat): nat {
    if a == 0 || b == 0 then 0 else (a % 2) * (b % 2) + 2 * And(a / 2, b / 2)
  }

  /** a | b */
  function Or(a: nat, b: nat): nat {
    if a == 0 then b
    else if b == 0 then a
    else (if a % 2 == 1 || b % 2 == 1 then 1 else 0) + 2 * Or(a / 2, b / 2)
  }

  /** a & ~b */
  function AndNot(a: nat, b: nat): nat {
    if a == 0 then 0
    else (if a % 2 == 1 && b % 2 == 0 then 1 else 0) + 2 * AndNot(a / 2, b / 2)
  }

  /** Bit k of w. */
  predicate Bit(w: nat, k: nat) {
    if k == 0 then w % 2 == 1 else Bit(w / 2, k - 1)
  }

  /** w is a multiple of 1 << k, that is, its k lowest bits are clear. */
  predicate Aligned(w: nat, k: nat) {
    k == 0 || (w % 2 == 0 && Aligned(w / 2, k - 1))
  }

  lemma {:induction false} Pow2Monotone(j: nat, k: nat)
    requires j <= k
    ensures Pow2(j) <= Pow2(k)
  {
    if j < k {
      Pow2Monotone(j, k - 1);
    }
  }

  /** The index of the lowest set bit. */
  function LowIndex(w: nat): (k: nat)
    requires w > 0
  {
    if w % 2 == 1 then 0 else 1 + LowIndex(w / 2)
  }

  /** The rank that receives from wrapped rank w in the binomial tree: w without its lowest set bit. */
  function Parent(w: nat): (p: nat)
    requires w > 0
    ensures p < w
  {
    LowBitBound(w);
    w - Pow2(LowIndex(w))
  }

  /** The least k with n <= 1 << k. */
  function CeilLog2(n: nat): nat {
    if n <= 1 then 0 else 1 + CeilLog2((n + 1) / 2)
  }

  lemma {:induction false} CeilLog2Least(n: nat, k: nat)
    ensures n <= Pow2(CeilLog2(n))
    ensures k < CeilLog2(n) ==> Pow2(k) < n
  {
    if n > 1 {
      CeilLog2Least((n + 1) / 2, if k == 0 then 0 else k - 1);
    }
  }

  lemma {:induction false} LowBitBound(w: nat)
    requires w > 0
    ensures Pow2(LowIndex(w)) <= w
  {
    if w % 2 == 0 {
      LowBitBound(w / 2);
    }
  }

  lemma {:induction false} TestMask(w: nat, k: nat)
    ensures And(w, Pow2(k)) != 0 <==> Bit(w, k)
  {
    if w == 0 {
      ZeroBits(k);
    } else if k > 0 {
      TestMask(w / 2, k - 1);
    } else {
      AndZero(w / 2);
    }
  }

  lemma {:induction false} AndZero(w: nat)
    ensures And(w, 0) == 0 && Or(w, 0) == w
  {
  }

  lemma {:induction false} ZeroBits(k: nat)
    ensures !Bit(0, k) && Aligned(0, k)
  {
    if k > 0 {
      ZeroBits(k - 1);
    }
  }

  lemma {:induction false} ClearMask(w: nat, k: nat)
    requires Bit(w, k)
    ensures AndNot(w, Pow2(k)) + Pow2(k) == w
  {
    if w == 0 {
      ZeroBits(k);
    } else if k > 0 {
      ClearMask(w / 2, k - 1);
    } else {
      AndNotZero(w / 2);
    }
  }

  lemma {:induction false} AndNotBelow(w: nat, m: nat)
    ensures AndNot(w, m) <= w
  {
    if w > 0 {
      AndNotBelow(w / 2, m / 2);
    }
  }

  lemma {:induction false} AndNotZero(w: nat)
    ensures AndNot(w, 0) == w
  {
    if w > 0 {
      AndNotZero(w / 2);
    }
  }

  lemma {:induction false} SetMask(w: nat, k: nat)
    requires !Bit(w, k)
    ensures Or(w, Pow2(k)) == w + Pow2(k)
  {
    if w > 0 {
      if k > 0 {
        SetMask(w / 2, k - 1);
      } else {
        AndZero(w / 2);
      }
    }
  }

  /** One more clear bit: alignment doubles. */
  lemma {:induction false} AlignNext(w: nat, k: nat)
    requires Aligned(w, k)
    ensures Aligned(w, k + 1) <==> !Bit(w, k)
  {
    if k > 0 {
      AlignNext(w / 2, k - 1);
    }
  }

  /** At its own lowest set bit a rank is a sender, and only there. */
  lemma {:induction false} LowBitIs(w: nat, k: nat)
    requires w > 0 && Aligned(w, k)
    ensures k <= LowIndex(w)
    ensures Bit(w, k) <==> k == LowIndex(w)
  {
    if k > 0 {
      LowBitIs(w / 2, k - 1);
    }
  }

  /** A child's parent is aligned one bit further than the child. */
  lemma {:induction false} ParentAligned(w: nat)
    requires w > 0
    ensures Aligned(Parent(w), LowIndex(w) + 1)
  {
    LowBitBound(w);
    if w % 2 == 0 {
      LowBitBound(w / 2);
      ParentAligned(w / 2);
    }
  }

  /** Adding a mask below the alignment makes a child of w at that bit. */
  lemma {:induction false} ChildOf(w: nat, k: nat)
    requires Aligned(w, k + 1)
    ensures LowIndex(w + Pow2(k)) == k && Parent(w + Pow2(k)) == w
  {
    if k > 0 {
      ChildOf(w / 2, k - 1);
      assert (w + Pow2(k)) / 2 == w / 2 + Pow2(k - 1);
    }
  }
}
