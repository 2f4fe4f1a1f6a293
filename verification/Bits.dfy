/** Machine words as natural numbers: bitwise operators, single bits, ranks and population counts. */
module Bits {
  const WORD: nat := 0x1_0000_0000

  // The unsigned bitwise operators, one binary digit at a time.

  function And(x: nat, y: nat): nat {
    if x == 0 || y == 0 then 0 else 2 * And(x / 2, y / 2) + (if x % 2 == 1 && y % 2 == 1 then 1 else 0)
  }

  function Or(x: nat, y: nat): nat
    decreases x + y
  {
    if x == 0 then y else if y == 0 then x
    else 2 * Or(x / 2, y / 2) + (if x % 2 == 1 || y % 2 == 1 then 1 else 0)
  }

  /** `x & ~y`. */
  function AndNot(x: nat, y: nat): nat {
    if x == 0 then 0 else 2 * AndNot(x / 2, y / 2) + (if x % 2 == 1 && y % 2 == 0 then 1 else 0)
  }

  /** `1 << i`. */
  function Pow2(i: nat): (p: nat)
    ensures p > 0
  {
    if i == 0 then 1 else 2 * Pow2(i - 1)
  }

  predicate BitAt(x: nat, i: nat) {
    if i == 0 then x % 2 == 1 else BitAt(x / 2, i - 1)
  }

  /** How many of the positions below pos are set. */
  function Rank(x: nat, pos: nat): (r: nat)
    ensures r <= pos
  {
    if pos == 0 then 0 else x % 2 + Rank(x / 2, pos - 1)
  }

  /** How many bits are set. */
  function Ones(x: nat): nat {
    if x == 0 then 0 else x % 2 + Ones(x / 2)
  }

  // ----- bits of the operators

  lemma {:induction false} BitOfZero(i: nat)
    ensures !BitAt(0, i)
  {
    if i > 0 {
      BitOfZero(i - 1);
    }
  }

  lemma {:induction false} BitOfAnd(x: nat, y: nat, i: nat)
    ensures BitAt(And(x, y), i) <==> BitAt(x, i) && BitAt(y, i)
  {
    if x == 0 || y == 0 {
      BitOfZero(i);
    } else if i > 0 {
      BitOfAnd(x / 2, y / 2, i - 1);
    }
  }

  lemma {:induction false} BitOfOr(x: nat, y: nat, i: nat)
    ensures BitAt(Or(x, y), i) <==> BitAt(x, i) || BitAt(y, i)
  {
    if x == 0 || y == 0 {
      BitOfZero(i);
    } else if i > 0 {
      BitOfOr(x / 2, y / 2, i - 1);
    }
  }

  lemma {:induction false} BitOfAndNot(x: nat, y: nat, i: nat)
    ensures BitAt(AndNot(x, y), i) <==> BitAt(x, i) && !BitAt(y, i)
  {
    if x == 0 {
      BitOfZero(i);
    } else if i > 0 {
      BitOfAndNot(x / 2, y / 2, i - 1);
    }
  }

  lemma {:induction false} BitOfPow2(k: nat, i: nat)
    ensures BitAt(Pow2(k), i) <==> i == k
  {
    if k == 0 && i > 0 {
      BitOfZero(i - 1);
    } else if k > 0 && i > 0 {
      BitOfPow2(k - 1, i - 1);
    }
  }

  lemma {:induction false} BitOfLowMask(k: nat, i: nat)
    ensures BitAt(Pow2(k) - 1, i) <==> i < k
  {
    if k == 0 {
      BitOfZero(i);
    } else {
      assert (Pow2(k) - 1) / 2 == Pow2(k - 1) - 1;
      if i > 0 {
        BitOfLowMask(k - 1, i - 1);
      }
    }
  }

  /** The source's bit test, `!!(x & (1 << i))`. */
  lemma {:induction false} TestBit(x: nat, i: nat)
    ensures BitAt(x, i) <==> And(x, Pow2(i)) != 0
  {
    if x == 0 {
      BitOfZero(i);
    } else if i > 0 {
      TestBit(x / 2, i - 1);
    } else {
      assert Pow2(0) == 1;
    }
  }

  /** Setting (`x | 1 << i`) and clearing (`x & ~(1 << i)`) a bit change no other bit. */
  lemma SetBit(x: nat, i: nat, j: nat)
    ensures BitAt(Or(x, Pow2(i)), j) <==> j == i || BitAt(x, j)
    ensures BitAt(AndNot(x, Pow2(i)), j) <==> j != i && BitAt(x, j)
  {
    BitOfOr(x, Pow2(i), j);
    BitOfAndNot(x, Pow2(i), j);
    BitOfPow2(i, j);
  }

  lemma {:induction false} WordBounds(x: nat, y: nat, k: nat)
    requires x < Pow2(k) && y < Pow2(k)
    ensures Or(x, y) < Pow2(k) && AndNot(x, y) <= x && And(x, y) <= x && And(x, y) <= y
  {
    if k > 0 {
      WordBounds(x / 2, y / 2, k - 1);
    }
  }

  lemma {:induction false} Pow2Increases(i: nat, j: nat)
    requires i <= j
    ensures Pow2(i) <= Pow2(j)
    ensures i < j ==> Pow2(i) < Pow2(j)
    decreases j
  {
    if i < j {
      Pow2Increases(i, j - 1);
    }
  }

  // ----- ranks

  lemma {:induction false} RankGrows(x: nat, i: nat, j: nat)
    requires i <= j
    ensures Rank(x, i) <= Rank(x, j) <= Rank(x, i) + (j - i)
    ensures i < j && BitAt(x, i) ==> Rank(x, i) < Rank(x, j)
    decreases j
  {
    if i > 0 {
      RankGrows(x / 2, i - 1, j - 1);
    }
  }

  /** Setting the clear bit i moves every position above i up by one. */
  lemma {:induction false} RankAfterSet(x: nat, i: nat, pos: nat)
    requires !BitAt(x, i)
    ensures Rank(Or(x, Pow2(i)), pos) == Rank(x, pos) + (if i < pos then 1 else 0)
  {
    var y := Or(x, Pow2(i));
    if pos > 0 {
      if i > 0 {
        assert y / 2 == Or(x / 2, Pow2(i - 1)) && y % 2 == x % 2;
        RankAfterSet(x / 2, i - 1, pos - 1);
      } else {
        assert Pow2(0) == 1;
        assert Or(x / 2, 0) == x / 2;
      }
    }
  }

  lemma {:induction false} RankAfterClear(x: nat, i: nat, pos: nat)
    requires BitAt(x, i)
    ensures Rank(x, pos) == Rank(AndNot(x, Pow2(i)), pos) + (if i < pos then 1 else 0)
  {
    var y := AndNot(x, Pow2(i));
    if pos > 0 {
      if x == 0 {
        BitOfZero(i);
      } else if i > 0 {
        assert y / 2 == AndNot(x / 2, Pow2(i - 1)) && y % 2 == x % 2;
        RankAfterClear(x / 2, i - 1, pos - 1);
      } else {
        assert Pow2(0) == 1;
        AndNotZero(x / 2);
        assert y / 2 == x / 2 && y % 2 == 0;
      }
    }
  }

  lemma {:induction false} AndNotZero(x: nat)
    ensures AndNot(x, 0) == x
  {
    if x > 0 {
      AndNotZero(x / 2);
    }
  }

  lemma {:induction false} RankOfZero(pos: nat)
    ensures Rank(0, pos) == 0
  {
    if pos > 0 {
      RankOfZero(pos - 1);
    }
  }

  /** Masking off the high positions and counting what is left, as the source computes a rank. */
  lemma {:induction false} RankIsOnesBelow(x: nat, pos: nat)
    ensures Rank(x, pos) == Ones(And(x, Pow2(pos) - 1))
  {
    if pos > 0 && x > 0 {
      assert (Pow2(pos) - 1) / 2 == Pow2(pos - 1) - 1;
      RankIsOnesBelow(x / 2, pos - 1);
      var m := And(x, Pow2(pos) - 1);
      assert m / 2 == And(x / 2, Pow2(pos - 1) - 1) && m % 2 == x % 2;
    } else {
      RankOfZero(pos);
    }
  }

  lemma {:induction false} OnesIsRank(x: nat, width: nat)
    requires x < Pow2(width)
    ensures Ones(x) == Rank(x, width)
  {
    if width > 0 {
      OnesIsRank(x / 2, width - 1);
      if x == 0 {
        RankOfZero(width);
      }
    }
  }

  /** The rank of a set position identifies it. */
  lemma RankInjective(x: nat, i: nat, j: nat)
    requires BitAt(x, i) && BitAt(x, j) && Rank(x, i) == Rank(x, j)
    ensures i == j
  {
    if i < j {
      RankGrows(x, i, j);
    } else if j < i {
      RankGrows(x, j, i);
    }
  }
}
