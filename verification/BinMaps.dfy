/** The bitmaps that tell which bins hold chunks, scanned with word arithmetic. */
module BinMaps {
  import opened Bits
  import opened Division
  import opened PopCounts
  import opened TreeIndexes

  /** Unsigned negation of a 32-bit word. */
  function Negate(x: nat): nat
    requires x <= WORD
  {
    (WORD - x) % WORD
  }

  /** `x & -x`. */
  function LeastBit(x: nat): nat
    requires x <= WORD
  {
    And(x, Negate(x))
  }

  /** `(x << 1) | -(x << 1)`. */
  function LeftBits(x: nat): nat {
    Or(2 * x % WORD, Negate(2 * x % WORD))
  }

  /** `compute_bit2idx`: the number of trailing zeroes. */
  function BitToIdx(x: nat): nat
    requires x > 0
  {
    Lowest(x)
  }

  predicate Marked(binmap: nat, i: nat) {
    And(binmap, Pow2(i)) != 0
  }

  lemma {:induction false} LowestOfPow2(k: nat)
    ensures Lowest(Pow2(k)) == k
  {
    if k > 0 {
      assert Pow2(k) / 2 == Pow2(k - 1) && Pow2(k) % 2 == 0;
      LowestOfPow2(k - 1);
    }
  }

  /** The least bit of a binmap is its first nonempty bin. */
  lemma FirstMarked(x: nat)
    requires 0 < x < WORD
    ensures LeastBit(x) > 0 && BitToIdx(LeastBit(x)) == Lowest(x) < 32
    ensures BitAt(x, Lowest(x)) && forall j: nat :: j < Lowest(x) ==> !BitAt(x, j)
  {
    hide And, Pow2, Lowest, BitAt, Rank;
    WordWidth();
    IsolateLowest(x, 32);
    LowestOfPow2(Lowest(x));
    LowestInWord(x, 32);
    LowestBit(x);
    forall j: nat | j < Lowest(x)
      ensures !BitAt(x, j)
    {
      RankGrows(x, j, Lowest(x));
    }
  }

  lemma {:induction false} HighMask(k: nat, n: nat, j: nat)
    requires k <= n
    ensures Pow2(k) <= Pow2(n) && (BitAt(Pow2(n) - Pow2(k), j) <==> k <= j < n)
  {
    Pow2Increases(k, n);
    if k == 0 {
      BitOfLowMask(n, j);
    } else {
      Pow2Increases(k - 1, n - 1);
      assert (Pow2(n) - Pow2(k)) / 2 == Pow2(n - 1) - Pow2(k - 1);
      if j > 0 {
        HighMask(k - 1, n - 1, j - 1);
      }
    }
  }

  /** `left_bits` of one bit: the bits above it. */
  lemma BitsAbove(i: nat, j: nat)
    requires i < 32
    ensures LeftBits(Pow2(i)) < WORD
    ensures BitAt(LeftBits(Pow2(i)), j) <==> i < j < 32
  {
    hide BitAt, Or, Pow2;
    WordWidth();
    assert Pow2(i + 1) == 2 * Pow2(i) by {
      Doubling(i);
    }
    if i == 31 {
      OrZero();
      BitOfZero(j);
    } else {
      Pow2Increases(i + 1, 32);
      var x := Pow2(i + 1);
      assert 2 * Pow2(i) % WORD == x && Negate(x) == WORD - x;
      BitOfOr(x, WORD - x, j);
      BitOfPow2(i + 1, j);
      HighMask(i + 1, 32, j);
      WordBounds(x, WORD - x, 32);
    }
  }

  lemma OrZero()
    ensures Or(0, 0) == 0
  {
  }

  lemma Doubling(i: nat)
    ensures Pow2(i + 1) == 2 * Pow2(i)
  {
  }

  /** The next nonempty bin above i: none, or the least one. */
  lemma NextMarked(binmap: nat, i: nat)
    requires i < 32 && binmap < WORD
    ensures var left := And(LeftBits(Pow2(i)), binmap);
            && left < WORD
            && (left == 0 <==> forall j: nat :: i < j ==> !BitAt(binmap, j))
            && (left != 0 ==> var n := BitToIdxOfLeast(left); i < n < 32 && BitAt(binmap, n) && forall j: nat :: i < j < n ==> !BitAt(binmap, j))
  {
    hide And, LeftBits, Pow2, BitAt, LeastBit, BitToIdx, Lowest;
    WordWidth();
    var mask := LeftBits(Pow2(i));
    var left := And(mask, binmap);
    BitsAbove(i, 0);
    WordBounds(mask, binmap, 32);
    forall j: nat
      ensures BitAt(left, j) <==> i < j && BitAt(binmap, j)
    {
      BitOfAnd(mask, binmap, j);
      BitsAbove(i, j);
      if j >= 32 {
        HighBitsClear(binmap, 32, j);
      }
    }
    if left != 0 {
      FirstMarked(left);
      assert BitAt(binmap, Lowest(left));
    } else {
      forall j: nat | i < j
        ensures !BitAt(binmap, j)
      {
        BitOfZero(j);
      }
    }
  }

  /** The index of the least bit of a nonzero word. */
  function BitToIdxOfLeast(x: nat): nat
    requires 0 < x < WORD
  {
    FirstMarked(x);
    BitToIdx(LeastBit(x))
  }

  lemma MarkedIff(x: nat, i: nat)
    ensures Marked(x, i) <==> BitAt(x, i)
  {
    TestBit(x, i);
  }

  /** Marking and clearing a bin keep the word width and the other bins. */
  lemma MarkChanges(x: nat, i: nat)
    requires x < WORD && i < 32
    ensures Or(x, Pow2(i)) < WORD && AndNot(x, Pow2(i)) < WORD
    ensures forall j: nat :: BitAt(Or(x, Pow2(i)), j) <==> j == i || BitAt(x, j)
    ensures forall j: nat :: BitAt(AndNot(x, Pow2(i)), j) <==> j != i && BitAt(x, j)
  {
    hide Or, AndNot, Pow2, BitAt;
    WordWidth();
    Pow2Increases(i, 32);
    WordBounds(x, Pow2(i), 32);
    forall j: nat
      ensures BitAt(Or(x, Pow2(i)), j) <==> j == i || BitAt(x, j)
      ensures BitAt(AndNot(x, Pow2(i)), j) <==> j != i && BitAt(x, j)
    {
      SetBit(x, i, j);
    }
  }

  /** The shifts `x >> i` and `x << i`. */
  function ShiftRight(x: nat, i: nat): nat {
    if i == 0 then x else ShiftRight(x / 2, i - 1)
  }

  function ShiftLeft(x: nat, i: nat): nat {
    if i == 0 then x else 2 * ShiftLeft(x, i - 1)
  }

  lemma {:induction false} ShiftedBit(x: nat, i: nat, j: nat)
    ensures BitAt(ShiftRight(x, i), j) <==> BitAt(x, i + j)
  {
    if i > 0 {
      ShiftedBit(x / 2, i - 1, j);
    }
  }

  /** `smallbits & 3`: whether a bin or the next one is marked. */
  lemma LowTwoBits(y: nat)
    ensures And(y, 3) != 0 <==> BitAt(y, 0) || BitAt(y, 1)
  {
    assert And(y, 3) == if y == 0 then 0 else 2 * And(y / 2, 1) + (if y % 2 == 1 then 1 else 0);
    assert And(y / 2, 1) == if y / 2 == 0 then 0 else 2 * And(y / 2 / 2, 0) + (if y / 2 % 2 == 1 then 1 else 0);
    assert BitAt(y, 1) == BitAt(y / 2, 0);
  }

  /** Shifting right and back clears the bits below i. */
  lemma {:induction false} ShiftBack(x: nat, i: nat, j: nat)
    ensures BitAt(ShiftLeft(ShiftRight(x, i), i), j) <==> i <= j && BitAt(x, j)
    ensures ShiftLeft(ShiftRight(x, i), i) <= x
  {
    if i > 0 {
      ShiftBack(x / 2, i - 1, if j > 0 then j - 1 else 0);
      assert ShiftLeft(ShiftRight(x, i), i) / 2 == ShiftLeft(ShiftRight(x / 2, i - 1), i - 1);
    }
  }

  /** `(smallbits << idx) & left_bits(idx2bit(idx))` and its least bit: the next marked bin. */
  lemma NextSmall(binmap: nat, idx: nat)
    requires binmap < WORD && idx < 32 && !BitAt(binmap, idx) && ShiftRight(binmap, idx) != 0
    ensures var left := And(ShiftLeft(ShiftRight(binmap, idx), idx), LeftBits(Pow2(idx)));
            0 < left < WORD && var n := BitToIdxOfLeast(left); idx < n < 32 && BitAt(binmap, n) && forall j: nat :: idx < j < n ==> !BitAt(binmap, j)
  {
    hide And, LeftBits, Pow2, BitAt, LeastBit, BitToIdx, Lowest, ShiftLeft, ShiftRight;
    WordWidth();
    var mask := LeftBits(Pow2(idx));
    var x := ShiftLeft(ShiftRight(binmap, idx), idx);
    var left := And(x, mask);
    BitsAbove(idx, 0);
    ShiftBack(binmap, idx, 0);
    WordBounds(x, mask, 32);
    forall j: nat
      ensures BitAt(left, j) <==> idx < j && BitAt(binmap, j)
    {
      BitOfAnd(x, mask, j);
      BitsAbove(idx, j);
      ShiftBack(binmap, idx, j);
      if j >= 32 {
        HighBitsClear(binmap, 32, j);
      }
    }
    LowestBit(ShiftRight(binmap, idx));
    var k := Lowest(ShiftRight(binmap, idx));
    ShiftedBit(binmap, idx, k);
    if left == 0 {
      BitOfZero(idx + k);
    }
    FirstMarked(left);
  }
}
