/** The parallel population counts of 32-bit and 64-bit words, and the bit-twiddling inverse of a rank. */
module PopCounts {
  import opened Bits

  const PAIR_MASK: nat := 0x5555_5555
  const NIBBLE_MASK: nat := 0x3333_3333
  const BYTE_MASK: nat := 0x0F0F_0F0F

  // The three folding stages and the final multiplication, on unsigned 32-bit words.

  function PairSums(x: nat): nat
  {
    (x + WORD - And(x / 2, PAIR_MASK)) % WORD
  }

  function NibbleSums(a: nat): nat {
    (And(a, NIBBLE_MASK) + And(a / 4, NIBBLE_MASK)) % WORD
  }

  function ByteSums(b: nat): nat {
    And((b + b / 16) % WORD, BYTE_MASK)
  }

  function PopCount(x: nat): nat {
    ByteSums(NibbleSums(PairSums(x))) * 0x0101_0101 % WORD / 0x100_0000
  }

  // The same stages on 64-bit words.

  const WIDE: nat := 0x1_0000_0000_0000_0000

  function WidePairSums(x: nat): nat {
    (x + WIDE - And(x / 2, 0x5555_5555_5555_5555)) % WIDE
  }

  function WideNibbleSums(a: nat): nat {
    (And(a, 0x3333_3333_3333_3333) + And(a / 4, 0x3333_3333_3333_3333)) % WIDE
  }

  function WideByteSums(b: nat): nat {
    And((b + b / 16) % WIDE, 0x0F0F_0F0F_0F0F_0F0F)
  }

  function WidePopCount(x: nat): nat {
    WideByteSums(WideNibbleSums(WidePairSums(x))) * 0x0101_0101_0101_0101 % WIDE / 0x100_0000_0000_0000
  }

  // What each stage computes: the digits of the next larger base, each the sum of two digits of the smaller one.

  function FoldBits(x: nat): nat {
    if x == 0 then 0 else 4 * FoldBits(x / 4) + (x % 4 / 2 + x % 2)
  }

  function FoldPairs(a: nat): nat {
    if a == 0 then 0 else 16 * FoldPairs(a / 16) + (a % 16 / 4 + a % 4)
  }

  function FoldNibbles(b: nat): nat {
    if b == 0 then 0 else 256 * FoldNibbles(b / 256) + (b % 256 / 16 + b % 16)
  }

  function Sum4(a: nat): nat {
    if a == 0 then 0 else a % 4 + Sum4(a / 4)
  }

  function Sum16(b: nat): nat {
    if b == 0 then 0 else b % 16 + Sum16(b / 16)
  }

  function Sum256(c: nat): nat {
    if c == 0 then 0 else c % 256 + Sum256(c / 256)
  }

  /** 4 to the n, 16 to the n and 256 to the n. */
  function Four(n: nat): nat { if n == 0 then 1 else 4 * Four(n - 1) }
  function Sixteen(n: nat): nat { if n == 0 then 1 else 16 * Sixteen(n - 1) }
  function Byte(n: nat): nat { if n == 0 then 1 else 256 * Byte(n - 1) }

  // The constants 0x55..5, 0x33..3 and 0x0F..F with n digits.
  function Fives(n: nat): nat { if n == 0 then 0 else 4 * Fives(n - 1) + 1 }
  function Threes(n: nat): nat { if n == 0 then 0 else 16 * Threes(n - 1) + 3 }
  function LowNibbles(n: nat): nat { if n == 0 then 0 else 256 * LowNibbles(n - 1) + 15 }

  lemma PairConstants()
    ensures Four(16) == WORD && Fives(16) == PAIR_MASK
  {
    assert Four(4) == 256 && Four(8) == 0x1_0000 && Four(12) == 0x100_0000;
    assert Fives(4) == 0x55 && Fives(8) == 0x5555 && Fives(12) == 0x55_5555;
  }

  lemma NibbleConstants()
    ensures Sixteen(8) == WORD && Threes(8) == NIBBLE_MASK
  {
    assert Sixteen(4) == 0x1_0000 && Threes(4) == 0x3333;
  }

  lemma ByteConstants()
    ensures Byte(4) == WORD && LowNibbles(4) == BYTE_MASK
  {
  }

  lemma Halves(a: nat)
    ensures a / 2 / 2 == a / 4 && a % 4 == 2 * (a / 2 % 2) + a % 2
  {
  }

  lemma Quarters(a: nat)
    ensures a / 4 / 4 == a / 16 && a % 16 == 4 * (a / 4 % 4) + a % 4 && a % 16 / 4 == a / 4 % 4 && a % 16 % 4 == a % 4
  {
  }

  lemma Sixteenths(a: nat)
    ensures a / 16 / 16 == a / 256 && a % 256 == 16 * (a / 16 % 16) + a % 16
    ensures a % 256 / 16 == a / 16 % 16 && a % 256 % 16 == a % 16
  {
  }

  lemma AndDouble(a: nat, t: nat)
    ensures And(a, 2 * t) == 2 * And(a / 2, t)
    ensures And(a, 2 * t + 1) == 2 * And(a / 2, t) + a % 2
  {
    assert 2 * t / 2 == t && (2 * t + 1) / 2 == t;
  }

  lemma AndQuad(a: nat, t: nat)
    ensures And(a, 4 * t) == 4 * And(a / 4, t)
    ensures And(a, 4 * t + 3) == 4 * And(a / 4, t) + a % 4
  {
    hide And;
    Halves(a);
    AndDouble(a / 2, t);
    AndDouble(a, 2 * t);
    AndDouble(a, 2 * t + 1);
  }

  lemma LowBit(a: nat, t: nat)
    ensures And(a, 4 * t + 1) == 4 * And(a / 4, t) + a % 2
  {
    hide And;
    Halves(a);
    AndDouble(a / 2, t);
    AndDouble(a, 2 * t);
  }

  lemma LowPair(a: nat, t: nat)
    ensures And(a, 16 * t) == 16 * And(a / 16, t)
    ensures And(a, 16 * t + 3) == 16 * And(a / 16, t) + a % 4
    ensures And(a, 16 * t + 15) == 16 * And(a / 16, t) + a % 16
  {
    hide And;
    Quarters(a);
    AndQuad(a / 4, t);
    AndQuad(a, 4 * t);
    AndQuad(a, 4 * t + 3);
  }

  /** The two low bits of x and what one step of each recursion does with them. */
  lemma PairDigits(x: nat, t: nat) returns (q: nat, h: nat, l: nat)
    ensures x == 4 * q + 2 * h + l && h < 2 && l < 2
    ensures FoldBits(x) == 4 * FoldBits(q) + (h + l)
    ensures Ones(x) == h + l + Ones(q)
    ensures And(x / 2, 4 * t + 1) == 4 * And(q / 2, t) + h
  {
    q, h, l := x / 4, x % 4 / 2, x % 2;
    OnesOfPair(x);
    LowBit(x / 2, t);
    HalfQuarters(x);
  }

  lemma {:induction false} PairStage(x: nat, n: nat)
    requires x < Four(n)
    ensures And(x / 2, Fives(n)) + FoldBits(x) == x
  {
    hide And, FoldBits, Ones;
    if n == 0 {
      ZeroWords();
    } else {
      var q, h, l := PairDigits(x, Fives(n - 1));
      PairStage(q, n - 1);
    }
  }

  lemma HalfQuarters(x: nat)
    ensures x / 2 / 4 == x / 4 / 2 && x / 2 % 2 == x % 4 / 2 && x == 4 * (x / 4) + 2 * (x % 4 / 2) + x % 2
  {
    Halves(x);
    Halves(x / 2);
    var h := x / 2;
    assert x == 2 * h + x % 2 && h == 2 * (h / 2) + h % 2;
    assert x / 4 == h / 2;
  }

  lemma ZeroWords()
    ensures And(0, 0) == FoldBits(0) == FoldPairs(0) == FoldNibbles(0) == 0
    ensures Sum4(0) == Sum16(0) == Sum256(0) == Ones(0) == 0 && SmallPairs(0) && SmallNibbles(0)
  {
  }

  lemma NibbleDigits(a: nat, t: nat) returns (q: nat, h: nat, l: nat)
    ensures a == 16 * q + 4 * h + l && h < 4 && l < 4
    ensures FoldPairs(a) == 16 * FoldPairs(q) + (h + l)
    ensures Sum4(a) == h + l + Sum4(q)
    ensures SmallPairs(a) ==> SmallPairs(q) && h <= 2 && l <= 2
    ensures And(a, 16 * t + 3) == 16 * And(q, t) + l && And(a / 4, 16 * t + 3) == 16 * And(q / 4, t) + h
  {
    q, h, l := a / 16, a % 16 / 4, a % 4;
    Quarters(a);
    SumOfNibble(a);
    LowPair(a, t);
    LowPair(a / 4, t);
    assert a / 4 / 16 == a / 16 / 4;
  }

  lemma {:induction false} NibbleStage(a: nat, n: nat)
    requires a < Sixteen(n)
    ensures And(a, Threes(n)) + And(a / 4, Threes(n)) == FoldPairs(a)
  {
    hide And, FoldPairs, Sum4, SmallPairs;
    if n == 0 {
      ZeroWords();
    } else {
      var q, h, l := NibbleDigits(a, Threes(n - 1));
      NibbleStage(q, n - 1);
    }
  }

  predicate SmallNibbles(b: nat) {
    b == 0 || (b % 16 <= 4 && SmallNibbles(b / 16))
  }

  lemma LowNibble(a: nat, t: nat)
    ensures And(a, 256 * t + 15) == 256 * And(a / 256, t) + a % 16
  {
    hide And;
    Sixteenths(a);
    LowPair(a / 16, t);
    LowPair(a, 16 * t);
  }

  lemma SplitBytes(b: nat)
    requires b % 16 <= 4 && b / 16 % 16 <= 4 && b / 256 % 16 <= 4
    ensures (b + b / 16) / 256 == b / 256 + b / 256 / 16
    ensures (b + b / 16) % 16 == b % 256 / 16 + b % 16
  {
    Sixteenths(b);
    var q, v, u := b / 256, b / 16 % 16, b % 16;
    assert b == 256 * q + 16 * v + u && b / 16 == 16 * q + v && q == 16 * (q / 16) + q % 16;
    assert b + b / 16 == 256 * (q + q / 16) + 16 * (v + q % 16) + (u + v);
  }

  lemma ByteDigits(b: nat, t: nat) returns (q: nat, h: nat, l: nat)
    requires SmallNibbles(b)
    ensures b == 256 * q + 16 * h + l && h <= 4 && l <= 4 && SmallNibbles(q)
    ensures FoldNibbles(b) == 256 * FoldNibbles(q) + (h + l)
    ensures Sum16(b) == h + l + Sum16(q)
    ensures And(b + b / 16, 256 * t + 15) == 256 * And(q + q / 16, t) + (h + l)
  {
    q, h, l := b / 256, b % 256 / 16, b % 16;
    SumOfByte(b);
    Sixteenths(b);
    assert q > 0 ==> q % 16 <= 4;
    SplitBytes(b);
    LowNibble(b + b / 16, t);
  }

  lemma {:induction false} ByteStage(b: nat, n: nat)
    requires b < Byte(n) && SmallNibbles(b)
    ensures And(b + b / 16, LowNibbles(n)) == FoldNibbles(b)
  {
    hide And, FoldNibbles, Sum16, SmallNibbles;
    if n == 0 {
      ZeroWords();
    } else {
      var q, h, l := ByteDigits(b, LowNibbles(n - 1));
      ByteStage(q, n - 1);
    }
  }

  // ----- the digit sums are the number of bits

  predicate SmallPairs(a: nat) {
    a == 0 || (a % 4 <= 2 && SmallPairs(a / 4))
  }

  lemma Push4(f: nat, d: nat)
    requires d < 4
    ensures Sum4(4 * f + d) == d + Sum4(f)
    ensures d <= 2 && SmallPairs(f) ==> SmallPairs(4 * f + d)
  {
    assert (4 * f + d) / 4 == f;
  }

  lemma OnesOfPair(x: nat)
    ensures Ones(x) == x % 4 / 2 + x % 2 + Ones(x / 4)
  {
    Halves(x);
    assert x > 0 ==> Ones(x) == x % 2 + Ones(x / 2);
    assert x / 2 > 0 ==> Ones(x / 2) == x / 2 % 2 + Ones(x / 2 / 2);
  }

  lemma {:induction false} BitsToPairs(x: nat)
    ensures Sum4(FoldBits(x)) == Ones(x) && SmallPairs(FoldBits(x)) && FoldBits(x) <= x
  {
    hide Sum4, Ones, SmallPairs, FoldBits, And;
    if x == 0 {
      ZeroWords();
    } else {
      var q, h, l := PairDigits(x, 0);
      BitsToPairs(q);
      Push4(FoldBits(q), h + l);
    }
  }

  lemma Push16(f: nat, d: nat)
    requires d < 16
    ensures Sum16(16 * f + d) == d + Sum16(f)
    ensures d <= 4 && SmallNibbles(f) ==> SmallNibbles(16 * f + d)
  {
    assert (16 * f + d) / 16 == f;
  }

  lemma SumOfNibble(a: nat)
    ensures Sum4(a) == a % 4 + a % 16 / 4 + Sum4(a / 16)
    ensures SmallPairs(a) ==> SmallPairs(a / 16) && a % 4 <= 2 && a % 16 / 4 <= 2
  {
    Quarters(a);
    assert a > 0 ==> Sum4(a) == a % 4 + Sum4(a / 4);
    assert a / 4 > 0 ==> Sum4(a / 4) == a / 4 % 4 + Sum4(a / 4 / 4);
    if SmallPairs(a) {
      assert SmallPairs(a / 4) && SmallPairs(a / 4 / 4);
    }
  }

  lemma {:induction false} PairsToNibbles(a: nat)
    requires SmallPairs(a)
    ensures Sum16(FoldPairs(a)) == Sum4(a) && SmallNibbles(FoldPairs(a)) && FoldPairs(a) <= a
  {
    hide Sum4, Sum16, SmallPairs, SmallNibbles, FoldPairs, And;
    if a == 0 {
      ZeroWords();
    } else {
      var q, h, l := NibbleDigits(a, 0);
      PairsToNibbles(q);
      Push16(FoldPairs(q), h + l);
    }
  }

  lemma Push256(f: nat, d: nat)
    requires d < 256
    ensures Sum256(256 * f + d) == d + Sum256(f)
  {
    assert (256 * f + d) / 256 == f;
  }

  lemma SumOfByte(b: nat)
    requires SmallNibbles(b)
    ensures Sum16(b) == b % 16 + b % 256 / 16 + Sum16(b / 256) && SmallNibbles(b / 256)
    ensures b % 16 <= 4 && b % 256 / 16 <= 4
  {
    Sixteenths(b);
    assert b > 0 ==> Sum16(b) == b % 16 + Sum16(b / 16) && SmallNibbles(b / 16);
    assert b / 16 > 0 ==> Sum16(b / 16) == b / 16 % 16 + Sum16(b / 16 / 16) && SmallNibbles(b / 16 / 16);
  }

  lemma {:induction false} NibblesToBytes(b: nat)
    requires SmallNibbles(b)
    ensures Sum256(FoldNibbles(b)) == Sum16(b) && FoldNibbles(b) <= b
  {
    hide Sum16, Sum256, SmallNibbles, FoldNibbles, And;
    if b == 0 {
      ZeroWords();
    } else {
      var q, h, l := ByteDigits(b, 0);
      NibblesToBytes(q);
      Push256(FoldNibbles(q), h + l);
    }
  }

  lemma HighBitsDrop(h: nat, s: nat, r: nat)
    requires s < 256 && r < 0x100_0000
    ensures (0x1_0000_0000 * h + 0x100_0000 * s + r) % 0x1_0000_0000 == 0x100_0000 * s + r
    ensures (0x100_0000 * s + r) / 0x100_0000 == s
  {
  }

  lemma MultiplyAddsBytes(c0: nat, c1: nat, c2: nat, c3: nat)
    requires c0 + c1 + c2 + c3 < 256
    ensures (c0 + 256 * c1 + 0x1_0000 * c2 + 0x100_0000 * c3) * 0x0101_0101 % WORD / 0x100_0000 == c0 + c1 + c2 + c3
  {
    var s := c0 + c1 + c2 + c3;
    var r := c0 + 256 * (c0 + c1) + 0x1_0000 * (c0 + c1 + c2);
    var h := c1 + c2 + c3 + 256 * (c2 + c3) + 0x1_0000 * c3;
    HighBitsDrop(h, s, r);
    assert (c0 + 256 * c1 + 0x1_0000 * c2 + 0x100_0000 * c3) * 0x0101_0101 == 0x1_0000_0000 * h + 0x100_0000 * s + r;
  }

  lemma SumOfFourBytes(c: nat) returns (c0: nat, c1: nat, c2: nat, c3: nat)
    requires c < WORD
    ensures c == c0 + 256 * c1 + 0x1_0000 * c2 + 0x100_0000 * c3 && Sum256(c) == c0 + c1 + c2 + c3
  {
    var d1 := c / 256;
    var d2 := d1 / 256;
    c0, c1, c2, c3 := c % 256, d1 % 256, d2 % 256, d2 / 256;
    Push256(0, c3);
    Push256(c3, c2);
    Push256(d2, c1);
    Push256(d1, c0);
  }

  lemma WrapsOnce(x: nat, d: nat)
    requires d <= x
    ensures x < WORD ==> (x + WORD - d) % WORD == x - d
    ensures x < WIDE ==> (x + WIDE - d) % WIDE == x - d
  {
  }

  lemma NibbleSumsFold(a: nat, n: nat, m: nat, word: nat)
    requires a < Sixteen(n) == word && m == Threes(n) && SmallPairs(a)
    ensures (And(a, m) + And(a / 4, m)) % word == FoldPairs(a)
  {
    hide And, FoldPairs, Sixteen, Threes, SmallPairs, Sum4, Sum16, SmallNibbles;
    NibbleStage(a, n);
    PairsToNibbles(a);
  }

  lemma ByteSumsFold(b: nat, n: nat, k: nat, m: nat, word: nat)
    requires b < Byte(n) == Sixteen(k) == word && m == LowNibbles(n) && SmallNibbles(b)
    ensures And((b + b / 16) % word, m) == FoldNibbles(b)
  {
    hide And, FoldNibbles, Byte, LowNibbles, SmallNibbles, Sixteen;
    ByteStage(b, n);
    NoCarry(b, k);
  }

  lemma StagesFold(x: nat)
    requires x < WORD
    ensures ByteSums(NibbleSums(PairSums(x))) == FoldNibbles(FoldPairs(FoldBits(x)))
  {
    hide And, FoldBits, FoldPairs, FoldNibbles, Four, Sixteen, Byte, Fives, Threes, LowNibbles;
    hide SmallPairs, SmallNibbles, Sum4, Sum16;
    BitsToPairs(x);
    PairsToNibbles(FoldBits(x));
    PairConstants();
    PairStage(x, 16);
    WrapsOnce(x, And(x / 2, PAIR_MASK));
    NibbleConstants();
    NibbleSumsFold(FoldBits(x), 8, NIBBLE_MASK, WORD);
    ByteConstants();
    ByteSumsFold(FoldPairs(FoldBits(x)), 4, 8, BYTE_MASK, WORD);
  }

  lemma WordOnes(x: nat)
    requires x < WORD
    ensures Ones(x) == Rank(x, 32)
  {
    WordWidth();
    OnesIsRank(x, 32);
  }

  lemma {:induction false} SmallNibblesBound(b: nat, n: nat)
    requires b < Sixteen(n) && SmallNibbles(b)
    ensures 15 * b <= 4 * (Sixteen(n) - 1)
  {
    if n > 0 && b > 0 {
      SmallNibblesBound(b / 16, n - 1);
    }
  }

  /** With nibbles of at most 4 the byte stage's addition stays within the word. */
  lemma NoCarry(b: nat, n: nat)
    requires b < Sixteen(n) && SmallNibbles(b)
    ensures b + b / 16 < Sixteen(n)
  {
    hide SmallNibbles, Sixteen;
    SmallNibblesBound(b, n);
  }

  /** The parallel count of a 32-bit word is the number of its set bits. */
  lemma PopCountIsOnes(x: nat)
    requires x < WORD
    ensures PopCount(x) == Ones(x) == Rank(x, 32)
  {
    hide And, FoldBits, FoldPairs, FoldNibbles, Ones, Rank, SmallPairs, SmallNibbles, Sum4, Sum16, Sum256;
    hide ByteSums, NibbleSums, PairSums;
    WordOnes(x);
    BitsToPairs(x);
    PairsToNibbles(FoldBits(x));
    NibblesToBytes(FoldPairs(FoldBits(x)));
    StagesFold(x);
    var c0, c1, c2, c3 := SumOfFourBytes(FoldNibbles(FoldPairs(FoldBits(x))));
    MultiplyAddsBytes(c0, c1, c2, c3);
  }

  // ----- 64-bit words

  lemma WidePairConstants()
    ensures Four(32) == WIDE && Fives(32) == 0x5555_5555_5555_5555
  {
    PairConstants();
    assert Four(20) == 0x100_0000_0000 && Four(24) == 0x1_0000_0000_0000 && Four(28) == 0x100_0000_0000_0000;
    assert Fives(20) == 0x55_5555_5555 && Fives(24) == 0x5555_5555_5555 && Fives(28) == 0x55_5555_5555_5555;
  }

  lemma WideNibbleConstants()
    ensures Sixteen(16) == WIDE && Threes(16) == 0x3333_3333_3333_3333
  {
    NibbleConstants();
    assert Sixteen(12) == 0x1_0000_0000_0000 && Threes(12) == 0x3333_3333_3333;
  }

  lemma WideByteConstants()
    ensures Byte(8) == WIDE && LowNibbles(8) == 0x0F0F_0F0F_0F0F_0F0F
  {
    ByteConstants();
  }

  lemma WideWidth()
    ensures Pow2(64) == WIDE
  {
    WordWidth();
    assert Pow2(40) == 0x100_0000_0000 && Pow2(48) == 0x1_0000_0000_0000 && Pow2(56) == 0x100_0000_0000_0000;
  }

  lemma WideStagesFold(x: nat)
    requires x < WIDE
    ensures WideByteSums(WideNibbleSums(WidePairSums(x))) == FoldNibbles(FoldPairs(FoldBits(x)))
  {
    hide And, FoldBits, FoldPairs, FoldNibbles, Four, Sixteen, Byte, Fives, Threes, LowNibbles;
    hide SmallPairs, SmallNibbles, Sum4, Sum16, Pow2;
    WidePairConstants();
    WideNibbleConstants();
    WideByteConstants();
    BitsToPairs(x);
    PairsToNibbles(FoldBits(x));
    PairStage(x, 32);
    WrapsOnce(x, And(x / 2, 0x5555_5555_5555_5555));
    NibbleSumsFold(FoldBits(x), 16, 0x3333_3333_3333_3333, WIDE);
    ByteSumsFold(FoldPairs(FoldBits(x)), 8, 16, 0x0F0F_0F0F_0F0F_0F0F, WIDE);
  }

  lemma WideHighBitsDrop(h: nat, s: nat, r: nat)
    requires s < 256 && r < 0x100_0000_0000_0000
    ensures (0x1_0000_0000_0000_0000 * h + 0x100_0000_0000_0000 * s + r) % 0x1_0000_0000_0000_0000 == 0x100_0000_0000_0000 * s + r
    ensures (0x100_0000_0000_0000 * s + r) / 0x100_0000_0000_0000 == s
  {
  }

  lemma MultiplyAddsEightBytes(c0: nat, c1: nat, c2: nat, c3: nat, c4: nat, c5: nat, c6: nat, c7: nat)
    requires c0 + c1 + c2 + c3 + c4 + c5 + c6 + c7 < 256
    ensures (c0 + 256 * c1 + 0x1_0000 * c2 + 0x100_0000 * c3 + 0x1_0000_0000 * c4 + 0x100_0000_0000 * c5 + 0x1_0000_0000_0000 * c6 + 0x100_0000_0000_0000 * c7)
            * 0x0101_0101_0101_0101 % WIDE / 0x100_0000_0000_0000 == c0 + c1 + c2 + c3 + c4 + c5 + c6 + c7
  {
    var s := c0 + c1 + c2 + c3 + c4 + c5 + c6 + c7;
    var r := c0 + 256 * (c0 + c1) + 0x1_0000 * (c0 + c1 + c2) + 0x100_0000 * (c0 + c1 + c2 + c3) + 0x1_0000_0000 * (c0 + c1 + c2 + c3 + c4) + 0x100_0000_0000 * (c0 + c1 + c2 + c3 + c4 + c5) + 0x1_0000_0000_0000 * (c0 + c1 + c2 + c3 + c4 + c5 + c6);
    var h := c1 + c2 + c3 + c4 + c5 + c6 + c7 + 256 * (c2 + c3 + c4 + c5 + c6 + c7) + 0x1_0000 * (c3 + c4 + c5 + c6 + c7) + 0x100_0000 * (c4 + c5 + c6 + c7) + 0x1_0000_0000 * (c5 + c6 + c7) + 0x100_0000_0000 * (c6 + c7) + 0x1_0000_0000_0000 * (c7);
    WideHighBitsDrop(h, s, r);
    assert (c0 + 256 * c1 + 0x1_0000 * c2 + 0x100_0000 * c3 + 0x1_0000_0000 * c4 + 0x100_0000_0000 * c5 + 0x1_0000_0000_0000 * c6 + 0x100_0000_0000_0000 * c7)
            * 0x0101_0101_0101_0101 == 0x1_0000_0000_0000_0000 * h + 0x100_0000_0000_0000 * s + r;
  }

  lemma SumOfEightBytes(c: nat) returns (c0: nat, c1: nat, c2: nat, c3: nat, c4: nat, c5: nat, c6: nat, c7: nat)
    requires c < WIDE
    ensures c == c0 + 256 * c1 + 0x1_0000 * c2 + 0x100_0000 * c3 + 0x1_0000_0000 * c4 + 0x100_0000_0000 * c5 + 0x1_0000_0000_0000 * c6 + 0x100_0000_0000_0000 * c7
    ensures Sum256(c) == c0 + c1 + c2 + c3 + c4 + c5 + c6 + c7
  {
    hide Sum256;
    var d1 := c / 256;
    var d2 := d1 / 256;
    var d3 := d2 / 256;
    var d4 := d3 / 256;
    c0, c1, c2, c3 := c % 256, d1 % 256, d2 % 256, d3 % 256;
    Push256(d4, c3);
    Push256(d3, c2);
    Push256(d2, c1);
    Push256(d1, c0);
    c4, c5, c6, c7 := SumOfFourBytes(d4);
  }

  /** The parallel count of a 64-bit word is the number of its set bits. */
  lemma WidePopCountIsOnes(x: nat)
    requires x < WIDE
    ensures WidePopCount(x) == Ones(x) == Rank(x, 64)
  {
    hide And, FoldBits, FoldPairs, FoldNibbles, Ones, Rank, SmallPairs, SmallNibbles, Sum4, Sum16, Sum256;
    hide WideByteSums, WideNibbleSums, WidePairSums, Pow2;
    WideWidth();
    OnesIsRank(x, 64);
    BitsToPairs(x);
    PairsToNibbles(FoldBits(x));
    NibblesToBytes(FoldPairs(FoldBits(x)));
    WideStagesFold(x);
    var c0, c1, c2, c3, c4, c5, c6, c7 := SumOfEightBytes(FoldNibbles(FoldPairs(FoldBits(x))));
    MultiplyAddsEightBytes(c0, c1, c2, c3, c4, c5, c6, c7);
  }

  // ----- scanning for set bits

  /** The position of the lowest set bit. */
  function Lowest(x: nat): nat
    requires x > 0
  {
    if x % 2 == 1 then 0 else 1 + Lowest(x / 2)
  }

  lemma {:induction false} LowestBit(x: nat)
    requires x > 0
    ensures BitAt(x, Lowest(x)) && Rank(x, Lowest(x)) == 0
  {
    if x % 2 == 0 {
      LowestBit(x / 2);
    }
  }

  lemma {:induction false} AndSelf(x: nat)
    ensures And(x, x) == x
  {
    if x > 0 {
      AndSelf(x / 2);
    }
  }

  /** `x & (x - 1)` removes the lowest set bit, so every rank that can drops by one. */
  lemma {:induction false} DropLowest(x: nat, pos: nat)
    requires x > 0
    ensures Rank(And(x, x - 1), pos) == if Rank(x, pos) > 0 then Rank(x, pos) - 1 else 0
  {
    var y := And(x, x - 1);
    if x % 2 == 1 {
      assert (x - 1) / 2 == x / 2;
      AndSelf(x / 2);
      assert y == x - 1;
    } else {
      assert (x - 1) / 2 == x / 2 - 1;
      assert y == 2 * And(x / 2, x / 2 - 1);
      if pos > 0 {
        DropLowest(x / 2, pos - 1);
      }
    }
  }

  lemma {:induction false} AndComplement(x: nat, n: nat)
    requires x < Pow2(n)
    ensures And(x, Pow2(n) - 1 - x) == 0
  {
    if n > 0 && x > 0 {
      AndComplement(x / 2, n - 1);
      assert (Pow2(n) - 1 - x) / 2 == Pow2(n - 1) - 1 - x / 2;
    }
  }

  /** `x & -x` isolates the lowest set bit. */
  lemma {:induction false} IsolateLowest(x: nat, n: nat)
    requires 0 < x < Pow2(n)
    ensures And(x, Pow2(n) - x) == Pow2(Lowest(x))
  {
    if x % 2 == 1 {
      assert (Pow2(n) - x) / 2 == Pow2(n - 1) - 1 - x / 2;
      AndComplement(x / 2, n - 1);
    } else {
      assert (Pow2(n) - x) / 2 == Pow2(n - 1) - x / 2;
      IsolateLowest(x / 2, n - 1);
    }
  }

  lemma {:induction false} OnesOfLowMask(k: nat)
    ensures Ones(Pow2(k) - 1) == k
  {
    if k > 0 {
      OnesOfLowMask(k - 1);
      assert (Pow2(k) - 1) / 2 == Pow2(k - 1) - 1;
    }
  }

  lemma {:induction false} RankStep(x: nat, i: nat)
    ensures Rank(x, i + 1) == Rank(x, i) + (if BitAt(x, i) then 1 else 0)
  {
    if i > 0 {
      RankStep(x / 2, i - 1);
    }
  }

  lemma WordWidth()
    ensures Pow2(32) == WORD
  {
    assert Pow2(8) == 256 && Pow2(16) == 0x1_0000 && Pow2(24) == 0x100_0000;
  }

  lemma LowestInWord(x: nat, n: nat)
    requires 0 < x < Pow2(n)
    ensures Lowest(x) < n
  {
    LowestBit(x);
    if Lowest(x) >= n {
      HighBitsClear(x, n, Lowest(x));
    }
  }

  lemma {:induction false} HighBitsClear(x: nat, n: nat, i: nat)
    requires x < Pow2(n) && n <= i
    ensures !BitAt(x, i)
  {
    if n == 0 {
      BitOfZero(i);
    } else {
      HighBitsClear(x / 2, n - 1, i - 1);
    }
  }

  /** `(x & -x) - 1` counted: the number of trailing zeroes of a 32-bit word. */
  lemma LowestPosition(x: nat)
    requires 0 < x < WORD
    ensures var y := And(x, WORD - x); 0 < y <= WORD && PopCount(y - 1) == Lowest(x) < 32
  {
    hide PopCount, Ones, And, Lowest;
    WordWidth();
    IsolateLowest(x, 32);
    LowestInWord(x, 32);
    Pow2Increases(Lowest(x), 32);
    PopCountIsOnes(Pow2(Lowest(x)) - 1);
    OnesOfLowMask(Lowest(x));
  }

  /** The same of a 64-bit word. */
  lemma TrailingZeroes(x: nat)
    requires 0 < x < WIDE
    ensures var y := And(x, WIDE - x); 0 < y <= WIDE && WidePopCount(y - 1) == Lowest(x) < 64
    ensures BitAt(x, Lowest(x)) && Rank(x, Lowest(x)) == 0
  {
    hide WidePopCount, Ones, And, Lowest, BitAt, Rank;
    WideWidth();
    IsolateLowest(x, 64);
    LowestInWord(x, 64);
    LowestBit(x);
    Pow2Increases(Lowest(x), 64);
    WidePopCountIsOnes(Pow2(Lowest(x)) - 1);
    OnesOfLowMask(Lowest(x));
  }

  /** The rank of a position, as the source computes it from the masked word. */
  function PosToOffset(bm: nat, pos: nat): nat
    requires pos < 32
  {
    PopCount(And(bm, Pow2(pos) - 1))
  }

  lemma PosToOffsetIsRank(bm: nat, pos: nat)
    requires bm < WORD && pos < 32
    ensures PosToOffset(bm, pos) == Rank(bm, pos)
  {
    RankIsOnesBelow(bm, pos);
    WordWidth();
    Pow2Increases(pos, 32);
    WordBounds(bm, Pow2(pos) - 1, 32);
    PopCountIsOnes(And(bm, Pow2(pos) - 1));
  }

  /** The position of the offset-th set bit: drop offset bits from the right, then count trailing zeroes. */
  method OffsetToPos(bm: nat, offset: nat) returns (pos: nat)
    requires bm < WORD && offset < Ones(bm)
    ensures pos < 32 && BitAt(bm, pos) && Rank(bm, pos) == offset
  {
    hide And, PopCount, Pow2, Lowest, BitAt, Rank, Ones;
    WordWidth();
    OnesIsRank(bm, 32);
    var w: nat, k: nat := bm, offset;
    while k > 0
      invariant k <= offset && w < WORD
      invariant forall i :: 0 <= i <= 32 ==>
        Rank(w, i) == if Rank(bm, i) > offset - k then Rank(bm, i) - (offset - k) else 0
    {
      if w == 0 {
        RankOfZero(32);
        assert false;
      }
      forall i | 0 <= i <= 32
        ensures Rank(And(w, w - 1), i) == if Rank(w, i) > 0 then Rank(w, i) - 1 else 0
      {
        DropLowest(w, i);
      }
      WordBounds(w, w - 1, 32);
      w := And(w, w - 1);
      k := k - 1;
    }
    if w == 0 {
      RankOfZero(32);
      assert false;
    }
    LowestPosition(w);
    LowestBit(w);
    pos := PopCount(And(w, WORD - w) - 1);
    RankStep(w, pos);
    RankStep(bm, pos);
  }
}
