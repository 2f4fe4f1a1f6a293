/** Which tree bin holds a chunk size, and which bits of the size steer the descent in that bin. */
module TreeIndexes {
  import opened Bits
  import opened Division

  const TREE_BINS: nat := 32
  const MIN_LARGE_SIZE: nat := 256
  const WORD_LIMIT: nat := 0x1_0000_0000_0000_0000

  function Log2(x: nat): nat {
    if x <= 1 then 0 else 1 + Log2(x / 2)
  }

  /** `compute_tree_index`: two bins for each power of two from 256 on, the last one open-ended. */
  function TreeIndex(size: nat): (i: nat)
  {
    var x := size / 256;
    if x == 0 then 0
    else if x > 0xFFFF then TREE_BINS - 1
    else 2 * Log2(x) + (if BitAt(size, Log2(x) + 7) then 1 else 0)
  }

  /** `minsize_for_tree_index`. */
  function MinSize(i: nat): nat {
    Pow2(i / 2 + 8) + (if i % 2 == 1 then Pow2(i / 2 + 7) else 0)
  }

  /** `leftshift_for_tree_index`. */
  function LeftShift(i: nat): nat
    requires i < TREE_BINS
  {
    if i == TREE_BINS - 1 then 0 else 63 - (i / 2 + 8 - 2)
  }

  /** How many low bits of a size may differ within bin i. */
  function BinWidth(i: nat): nat {
    if i == TREE_BINS - 1 then 64 else i / 2 + 7
  }

  function BinLow(i: nat): nat {
    if i == TREE_BINS - 1 then 0 else MinSize(i)
  }

  lemma {:induction false} Log2Brackets(x: nat)
    requires x > 0
    ensures Pow2(Log2(x)) <= x < 2 * Pow2(Log2(x))
  {
    if x > 1 {
      Log2Brackets(x / 2);
    }
  }

  lemma {:induction false} Pow2Split(i: nat, j: nat)
    ensures Pow2(i + j) == Pow2(i) * Pow2(j)
  {
    if i > 0 {
      Pow2Split(i - 1, j);
    }
  }

  /** A number in an aligned interval of length 2 to the w: bit w - 1 tells the half it is in. */
  lemma {:induction false} HalfBit(s: nat, q: nat, w: nat)
    requires q * Pow2(w) <= s < q * Pow2(w) + Pow2(w) && w > 0
    ensures BitAt(s, w - 1) <==> s >= q * Pow2(w) + Pow2(w - 1)
  {
    if w == 1 {
      assert Pow2(1) == 2 && Pow2(0) == 1;
    } else {
      var m := q * Pow2(w - 1);
      assert q * Pow2(w) == 2 * m;
      assert Pow2(w) == 2 * Pow2(w - 1) && Pow2(w - 1) == 2 * Pow2(w - 2);
      assert m <= s / 2 < m + Pow2(w - 1);
      HalfBit(s / 2, q, w - 1);
    }
  }

  lemma {:induction false} MinSizeStep(i: nat)
    ensures MinSize(i + 1) == MinSize(i) + Pow2(i / 2 + 7)
  {
    if i % 2 == 0 {
      assert (i + 1) / 2 == i / 2;
    } else {
      assert (i + 1) / 2 == i / 2 + 1;
      assert Pow2(i / 2 + 9) == 2 * Pow2(i / 2 + 8) && Pow2(i / 2 + 8) == 2 * Pow2(i / 2 + 7);
    }
  }

  lemma {:induction false} MinSizeGrows(i: nat, j: nat)
    requires i <= j
    ensures MinSize(i) <= MinSize(j)
    decreases j
  {
    if i < j {
      MinSizeGrows(i, j - 1);
      MinSizeStep(j - 1);
    }
  }

  /** The bin of a size in the k-th power-of-two range is told by the bit below the leading one. */
  lemma RangeBrackets(size: nat, k: nat)
    requires Pow2(k + 8) <= size < 2 * Pow2(k + 8)
    ensures BitAt(size, k + 7) ==> MinSize(2 * k + 1) <= size < MinSize(2 * k + 2)
    ensures !BitAt(size, k + 7) ==> MinSize(2 * k) <= size < MinSize(2 * k + 1)
  {
    hide BitAt;
    assert Pow2(k + 8) == 2 * Pow2(k + 7);
    HalfBit(size - Pow2(k + 8), 0, k + 8);
    TopBitOff(size, k + 8);
    MinSizeStep(2 * k);
    MinSizeStep(2 * k + 1);
  }

  lemma SizeRange(size: nat, k: nat)
    requires size >= MIN_LARGE_SIZE && k == Log2(size / 256)
    ensures Pow2(k + 8) <= size < 2 * Pow2(k + 8)
  {
    hide Log2, Pow2;
    Log2Brackets(size / 256);
    Pow2Split(k, 8);
    EightBits();
  }

  lemma EightBits()
    ensures Pow2(8) == 256
  {
  }

  /** Every large size lies between the minimum of its bin and that of the next. */
  lemma IndexBrackets(size: nat)
    requires size >= MIN_LARGE_SIZE
    ensures TreeIndex(size) < TREE_BINS && MinSize(TreeIndex(size)) <= size
    ensures TreeIndex(size) < TREE_BINS - 1 ==> size < MinSize(TreeIndex(size) + 1)
  {
    hide BitAt, Pow2, Log2, MinSize;
    if size / 256 > 0xFFFF {
      LastBinStarts();
    } else {
      var k := Log2(size / 256);
      Log2Small(size / 256);
      SizeRange(size, k);
      RangeBrackets(size, k);
    }
  }

  lemma LastBinStarts()
    ensures MinSize(31) == 0xC0_0000
  {
    assert Pow2(8) == 256 && Pow2(16) == 0x1_0000;
    assert Pow2(22) == 0x40_0000 && Pow2(23) == 0x80_0000;
  }

  lemma {:induction false} Log2Small(x: nat)
    requires 0 < x <= 0xFFFF
    ensures Log2(x) <= 15
  {
    Log2Brackets(x);
    if Log2(x) > 15 {
      assert Pow2(8) == 256 && Pow2(16) == 0x1_0000;
      Pow2Increases(16, Log2(x));
    }
  }

  /** Below its leading bit a number has the bits of the rest. */
  lemma {:induction false} TopBitOff(s: nat, n: nat)
    requires Pow2(n) <= s && n > 0
    ensures BitAt(s - Pow2(n), n - 1) <==> BitAt(s, n - 1)
  {
    if n == 1 {
      assert Pow2(1) == 2;
    } else {
      assert Pow2(n) == 2 * Pow2(n - 1);
      assert (s - Pow2(n)) / 2 == s / 2 - Pow2(n - 1);
      TopBitOff(s / 2, n - 1);
    }
  }

  /** Bins are ordered: a size in a later bin is larger than every size of an earlier one. */
  lemma IndexMonotone(s: nat, t: nat)
    requires MIN_LARGE_SIZE <= s && MIN_LARGE_SIZE <= t && TreeIndex(s) < TreeIndex(t)
    ensures s < t
  {
    IndexBrackets(s);
    IndexBrackets(t);
    MinSizeGrows(TreeIndex(s) + 1, TreeIndex(t));
  }

  /** The sizes of a bin form an interval aligned to its width. */
  lemma BinInterval(size: nat)
    requires MIN_LARGE_SIZE <= size < WORD_LIMIT
    ensures var i := TreeIndex(size); i < TREE_BINS && BinLow(i) <= size < BinLow(i) + Pow2(BinWidth(i))
  {
    IndexBrackets(size);
    var i := TreeIndex(size);
    if i < TREE_BINS - 1 {
      MinSizeStep(i);
    } else {
      WordLimitIsPow2();
    }
  }

  lemma WordLimitIsPow2()
    ensures Pow2(64) == WORD_LIMIT && Pow2(63) == 0x8000_0000_0000_0000
  {
    assert Pow2(8) == 256 && Pow2(16) == 0x1_0000 && Pow2(24) == 0x100_0000 && Pow2(32) == 0x1_0000_0000;
    assert Pow2(40) == 0x100_0000_0000 && Pow2(48) == 0x1_0000_0000_0000 && Pow2(56) == 0x100_0000_0000_0000;
  }

  /** The quotient by which the low end of a bin is aligned. */
  function BinBase(i: nat): nat {
    if i == TREE_BINS - 1 then 0 else if i % 2 == 0 then 2 else 3
  }

  lemma BinAligned(i: nat)
    ensures BinLow(i) == BinBase(i) * Pow2(BinWidth(i))
  {
  }

  // ----- the shifted key

  /** `(size << leftshift) << depth`, cut to 64 bits. */
  function ShiftedKey(size: nat, shift: nat): nat {
    size * Pow2(shift) % WORD_LIMIT
  }

  /** The top bit of the shifted key. */
  predicate TopBit(key: nat) {
    key / 0x8000_0000_0000_0000 % 2 == 1
  }

  lemma KeyShifts(size: nat, shift: nat)
    ensures ShiftedKey(size, shift) * 2 % WORD_LIMIT == ShiftedKey(size, shift + 1)
  {
    var x := size * Pow2(shift);
    assert size * Pow2(shift + 1) == 2 * x;
    DoubleMod(x);
  }

  lemma DoubleMod(x: nat)
    ensures x % WORD_LIMIT * 2 % WORD_LIMIT == 2 * x % WORD_LIMIT
  {
  }

  /** At depth d of bin i the top bit of the shifted key is the bit of the size that splits the current interval. */
  lemma KeyBit(size: nat, shift: nat)
    requires shift < 64
    ensures TopBit(ShiftedKey(size, shift)) <==> BitAt(size, 63 - shift)
  {
    WordLimitIsPow2();
    ModKeepsTopBit(size * Pow2(shift));
    BitOfProduct(size, shift, 63);
    BitIsQuotient(size * Pow2(shift), 63);
  }

  lemma ModKeepsTopBit(x: nat)
    ensures x % WORD_LIMIT / 0x8000_0000_0000_0000 % 2 == x / 0x8000_0000_0000_0000 % 2
  {
  }

  lemma {:induction false} BitOfProduct(x: nat, shift: nat, i: nat)
    requires shift <= i
    ensures BitAt(x * Pow2(shift), i) <==> BitAt(x, i - shift)
  {
    if shift > 0 {
      assert x * Pow2(shift) == 2 * (x * Pow2(shift - 1));
      assert x * Pow2(shift) / 2 == x * Pow2(shift - 1);
      BitOfProduct(x, shift - 1, i - 1);
    } else {
      assert x * Pow2(0) == x;
    }
  }

  lemma {:induction false} BitIsQuotient(x: nat, i: nat)
    ensures BitAt(x, i) <==> x / Pow2(i) % 2 == 1
  {
    if i > 0 {
      BitIsQuotient(x / 2, i - 1);
      DivTwice(x, Pow2(i - 1));
    } else {
      assert x / Pow2(0) == x;
    }
  }

  lemma DivTwice(x: nat, m: nat)
    requires m > 0
    ensures x / 2 / m == x / (2 * m)
  {
    var q, r := x / 2 / m, x / 2 % m;
    assert x / 2 == m * q + r;
    assert 2 * (m * q) == 2 * m * q;
    DivModUnique(x, 2 * m, q, 2 * r + x % 2);
  }
}
