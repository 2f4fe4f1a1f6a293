/** Bytes and words, and the two byte orders. */
module Bytes {
  import opened Bits

  type byte = x: int | 0 <= x < 0x100
  type word = x: int | 0 <= x < WORD

  /** A word's bytes, low-order byte first. */
  function ByteOf(w: word, i: nat): byte
    requires i < 4
  {
    (if i == 0 then w else if i == 1 then w / 0x100 else if i == 2 then w / 0x1_0000 else w / 0x100_0000) % 0x100
  }

  function WordBytes(w: word): (b: seq<byte>)
    ensures |b| == 4
  {
    [ByteOf(w, 0), ByteOf(w, 1), ByteOf(w, 2), ByteOf(w, 3)]
  }

  function WordOf(b: seq<byte>): word
    requires |b| == 4
  {
    var b0: int, b1: int, b2: int, b3: int := b[0], b[1], b[2], b[3];
    b0 + 0x100 * b1 + 0x1_0000 * b2 + 0x100_0000 * b3
  }

  lemma WordRoundTrip(w: word)
    ensures WordOf(WordBytes(w)) == w
  {
    var x := w / 0x100;
    var y := x / 0x100;
    assert w == 0x100 * x + w % 0x100;
    assert x == 0x100 * y + x % 0x100;
    assert y == 0x100 * (y / 0x100) + y % 0x100;
    assert w / 0x1_0000 == y && w / 0x100_0000 == y / 0x100;
  }

  // ----- big-endian numbers

  /** What is left of v without its last k bytes. */
  function Shifted(v: nat, k: nat): nat {
    if k == 0 then v else Shifted(v, k - 1) / 0x100
  }

  /** The low-order bytes of v, highest first. */
  function Big(v: nat, length: nat): (b: seq<byte>)
    ensures |b| == length
  {
    if length == 0 then [] else Big(v / 0x100, length - 1) + [v % 0x100]
  }

  function FromBig(b: seq<byte>): nat {
    if b == [] then 0 else 0x100 * FromBig(b[..|b| - 1]) + b[|b| - 1]
  }

  lemma {:induction false} ShiftedLater(v: nat, k: nat)
    ensures Shifted(v, k + 1) == Shifted(v / 0x100, k)
  {
    if k > 0 {
      ShiftedLater(v, k - 1);
    }
  }

  /** The i-th byte is cut out by a shift. */
  lemma {:induction false} BigAt(v: nat, length: nat, i: nat)
    requires i < length
    ensures Big(v, length)[i] == Shifted(v, length - 1 - i) % 0x100
  {
    if i < length - 1 {
      BigAt(v / 0x100, length - 1, i);
      ShiftedLater(v, length - 2 - i);
    }
  }

  /** What is shifted out entirely is nothing, so that the bytes carry the whole number. */
  lemma {:induction false} BigRoundTrip(v: nat, length: nat)
    requires Shifted(v, length) == 0
    ensures FromBig(Big(v, length)) == v
  {
    if length > 0 {
      ShiftedLater(v, length - 1);
      BigRoundTrip(v / 0x100, length - 1);
      assert Big(v, length)[..length - 1] == Big(v / 0x100, length - 1);
    }
  }

  /** In a word the i-th byte is the one i places from the low end. */
  lemma WordBytesAt(w: word, i: nat)
    requires i < 4
    ensures WordBytes(w)[i] == Shifted(w, i) % 0x100
  {
    assert Shifted(w, 0) == w && Shifted(w, 1) == w / 0x100 && Shifted(w, 2) == w / 0x100 / 0x100;
    assert Shifted(w, 3) == w / 0x100 / 0x100 / 0x100;
    assert w / 0x1_0000 == w / 0x100 / 0x100 && w / 0x100_0000 == w / 0x100 / 0x100 / 0x100;
  }

  lemma {:induction false} ShiftedByte(v: nat, k: nat, m: nat)
    requires Shifted(v, k) < 0x100 * m
    ensures Shifted(v, k + 1) < m
  {
  }

  lemma FourBytes(v: nat)
    requires v < WORD
    ensures Shifted(v, 4) == 0
  {
    assert Shifted(v, 0) == v;
    hide Shifted;
    ShiftedByte(v, 0, 0x100_0000);
    ShiftedByte(v, 1, 0x1_0000);
    ShiftedByte(v, 2, 0x100);
    ShiftedByte(v, 3, 1);
  }

  lemma EightBytes(v: nat)
    requires v < WORD * WORD
    ensures Shifted(v, 8) == 0
  {
    assert Shifted(v, 0) == v;
    hide Shifted;
    ShiftedByte(v, 0, 0x100_0000_0000_0000);
    ShiftedByte(v, 1, 0x1_0000_0000_0000);
    ShiftedByte(v, 2, 0x100_0000_0000);
    ShiftedByte(v, 3, WORD);
    ShiftedByte(v, 4, 0x100_0000);
    ShiftedByte(v, 5, 0x1_0000);
    ShiftedByte(v, 6, 0x100);
    ShiftedByte(v, 7, 1);
  }
}
