/**
 The 64-bit words of the page bitmap. A word is a natural number below 2^64; bit `i` of a word is
 defined by repeated halving, so every word operation is plain integer arithmetic. Setting and
 clearing a bit change that bit alone and keep the word in range, masking keeps the low bits, and
 the number of trailing zeros is the place of the lowest bit that is set.
 */
module Words {

  const WORD_LIMIT: nat := 0x1_0000_0000_0000_0000

  type Word = w: nat | w < WORD_LIMIT

  const ALL_ONES: Word := WORD_LIMIT - 1

  function Pow2(n: nat): (p: nat)
    ensures p >= 1
  {
    if n == 0 then 1 else 2 * Pow2(n - 1)
  }

  predicate Bit(w: nat, i: nat) {
    if i == 0 then w % 2 == 1 else Bit(w / 2, i - 1)
  }

  /** `w | (1 << i)` */
  function SetBit(w: nat, i: nat): (r: nat)
    ensures r == if Bit(w, i) then w else w + Pow2(i)
  {
    if i == 0 then w / 2 * 2 + 1 else 2 * SetBit(w / 2, i - 1) + w % 2
  }

  /** `w & !(1 << i)` */
  function ClearBit(w: nat, i: nat): (r: nat)
    ensures r == if Bit(w, i) then w - Pow2(i) else w
  {
    if i == 0 then w / 2 * 2 else 2 * ClearBit(w / 2, i - 1) + w % 2
  }

  lemma {:induction false} SetBitBits(w: nat, i: nat, j: nat)
    ensures Bit(SetBit(w, i), j) == (i == j || Bit(w, j))
  {
    if i > 0 && j > 0 {
      SetBitBits(w / 2, i - 1, j - 1);
    }
  }

  lemma {:induction false} ClearBitBits(w: nat, i: nat, j: nat)
    ensures Bit(ClearBit(w, i), j) == (i != j && Bit(w, j))
  {
    if i > 0 && j > 0 {
      ClearBitBits(w / 2, i - 1, j - 1);
    }
  }

  /** A set bit contributes its power of two. */
  lemma {:induction false} BitBounds(w: nat, i: nat)
    requires Bit(w, i)
    ensures Pow2(i) <= w
  {
    if i > 0 {
      BitBounds(w / 2, i - 1);
    }
  }

  /** Setting a bit below position n keeps a word below 2^n. */
  lemma {:induction false} SetBitBounded(w: nat, i: nat, n: nat)
    requires w < Pow2(n) && i < n
    ensures SetBit(w, i) < Pow2(n)
  {
    var half := Pow2(n - 1);
    assert Pow2(n) == 2 * half;
    HalfBelow(w, half);
    if i == 0 {
      TwiceBelow(w / 2, 1, half);
    } else {
      SetBitBounded(w / 2, i - 1, n - 1);
      TwiceBelow(SetBit(w / 2, i - 1), w % 2, half);
    }
  }

  lemma HalfBelow(w: nat, half: nat)
    requires w < 2 * half
    ensures w / 2 < half
  {
  }

  lemma TwiceBelow(w: nat, bit: nat, half: nat)
    requires w < half && bit < 2
    ensures 2 * w + bit < 2 * half
  {
  }

  /** Bits at or past position n are clear in a word below 2^n. */
  lemma {:induction false} HighBitsClear(w: nat, n: nat, i: nat)
    requires w < Pow2(n) && n <= i
    ensures !Bit(w, i)
  {
    if n > 0 {
      HighBitsClear(w / 2, n - 1, i - 1);
    } else {
      ZeroBits(i);
    }
  }

  lemma {:induction false} ZeroBits(i: nat)
    ensures !Bit(0, i)
  {
    if i > 0 {
      ZeroBits(i - 1);
    }
  }

  /** All bits below position n are set in 2^n - 1. */
  lemma {:induction false} OnesBits(n: nat, i: nat)
    ensures Bit(Pow2(n) - 1, i) == (i < n)
  {
    if n == 0 {
      ZeroBits(i);
    } else if i > 0 {
      OnesBits(n - 1, i - 1);
    }
  }

  /** `w & ((1 << n) - 1)` */
  function LowBits(w: nat, n: nat): (r: nat)
    ensures r <= w
  {
    if n == 0 then 0 else 2 * LowBits(w / 2, n - 1) + w % 2
  }

  lemma {:induction false} LowBitsBits(w: nat, n: nat, i: nat)
    ensures Bit(LowBits(w, n), i) == (i < n && Bit(w, i))
  {
    if n == 0 {
      ZeroBits(i);
    } else if i > 0 {
      LowBitsBits(w / 2, n - 1, i - 1);
    }
  }

  /** Position of the lowest set bit of a non-zero word. */
  function TrailingZeros(w: nat): (i: nat)
    requires w != 0
    ensures Bit(w, i)
    ensures forall j: nat :: j < i ==> !Bit(w, j)
  {
    if w % 2 == 1 then 0 else 1 + TrailingZeros(w / 2)
  }

  lemma {:induction false} Pow2Sum(a: nat, b: nat)
    ensures Pow2(a + b) == Pow2(a) * Pow2(b)
  {
    if a > 0 {
      Pow2Sum(a - 1, b);
    }
  }

  lemma Pow2At64()
    ensures Pow2(64) == WORD_LIMIT
  {
    assert Pow2(4) == 16;
    Pow2Square(4, 16);
    Pow2Square(8, 0x100);
    Pow2Square(16, 0x1_0000);
    Pow2Square(32, 0x1_0000_0000);
  }

  lemma Pow2Square(n: nat, p: nat)
    requires Pow2(n) == p
    ensures Pow2(2 * n) == p * p
  {
    Pow2Sum(n, n);
  }
}
