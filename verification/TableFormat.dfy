/** How a sparse table is laid out in a file. */
module TableFormat {
  import opened Bits
  import opened Bytes
  import opened Division
  import opened SparseGroups
  import opened SparseTables

  const MAGIC_NUMBER := 0x24687531
  const MARKER := 0xFFFF_FFFF

  /** `write_32_or_64`: 4 bytes, or a marker and 8 bytes. */
  function Number(v: nat): seq<byte> {
    if v < MARKER then Big(v, 4) else Big(MARKER, 4) + Big(v, 8)
  }

  datatype Parsed<T> = NotThere | Parsed(value: T, rest: seq<byte>)

  function ParseNumber(b: seq<byte>): Parsed<nat> {
    if |b| < 4 then NotThere
    else if FromBig(b[..4]) < MARKER then Parsed(FromBig(b[..4]), b[4..])
    else if |b| < 12 then NotThere
    else Parsed(FromBig(b[4..12]), b[12..])
  }

  /** Every 64-bit number is read back as it was written. */
  lemma NumberRoundTrip(v: nat, rest: seq<byte>)
    requires v < WORD * WORD
    ensures ParseNumber(Number(v) + rest) == Parsed(v, rest)
  {
    hide Big, FromBig, Shifted;
    var b := Number(v) + rest;
    if v < MARKER {
      FourBytes(v);
      BigRoundTrip(v, 4);
      assert b[..4] == Big(v, 4) && b[4..] == rest;
    } else {
      FourBytes(MARKER);
      BigRoundTrip(MARKER, 4);
      EightBytes(v);
      BigRoundTrip(v, 8);
      assert b[..4] == Big(MARKER, 4) && b[4..12] == Big(v, 8) && b[12..] == rest;
    }
  }

  /** Cut short, the same number is not there. */
  lemma NumberCut(v: nat, b: seq<byte>)
    requires v < WORD * WORD && b < Number(v)
    ensures ParseNumber(b) == NotThere
  {
    hide Big, FromBig, Shifted;
    if |b| >= 4 {
      FourBytes(MARKER);
      BigRoundTrip(MARKER, 4);
      assert b[..4] == Number(v)[..4] == Big(MARKER, 4);
    }
  }

  /** The bitmap of a row. */
  function FullBits<T>(row: seq<Slot<T>>): nat {
    if row == [] then 0 else (if row[0].Full? then 1 else 0) + 2 * FullBits(row[1..])
  }

  lemma {:induction false} FullBitsAt<T>(row: seq<Slot<T>>, i: nat)
    requires i < |row|
    ensures BitAt(FullBits(row), i) <==> row[i].Full?
  {
    if i > 0 {
      FullBitsAt(row[1..], i - 1);
    }
  }

  lemma {:induction false} FullBitsBound<T>(row: seq<Slot<T>>)
    ensures FullBits(row) < Pow2(|row|)
  {
    if row != [] {
      FullBitsBound(row[1..]);
    }
  }

  /** A word is determined by its bits. */
  lemma {:induction false} BitsOfRow<T>(bm: nat, row: seq<Slot<T>>)
    requires bm < Pow2(|row|) && forall i: nat :: i < |row| ==> (BitAt(bm, i) <==> row[i].Full?)
    ensures bm == FullBits(row)
  {
    if row != [] {
      assert BitAt(bm, 0) <==> row[0].Full?;
      forall i: nat | i < |row[1..]|
        ensures BitAt(bm / 2, i) <==> row[1..][i].Full?
      {
        assert BitAt(bm, i + 1) <==> row[i + 1].Full?;
      }
      BitsOfRow(bm / 2, row[1..]);
    }
  }

  lemma FullBitsWord<T>(row: seq<Slot<T>>)
    requires |row| == 32
    ensures FullBits(row) < WORD
  {
    hide FullBits;
    FullBitsBound(row);
    assert Pow2(8) == 256 && Pow2(16) == 0x1_0000 && Pow2(24) == 0x100_0000 && Pow2(32) == WORD;
  }

  /** Row g of an index space, filled up with empty slots at the end. */
  function RowOf<T>(slots: seq<Slot<T>>, g: nat): (row: seq<Slot<T>>)
    ensures |row| == 32
  {
    seq(32, j requires 0 <= j < 32 => if 32 * g + j < |slots| then slots[32 * g + j] else Empty)
  }

  lemma RowsAre<T>(rows: seq<seq<Slot<T>>>, n: nat, g: nat)
    requires FullRows(rows) && n <= 32 * |rows| && EmptyFrom(rows, n) && g < |rows|
    ensures rows[g] == RowOf(Flat(rows, n), g)
  {
    var row := RowOf(Flat(rows, n), g);
    forall j | 0 <= j < 32
      ensures rows[g][j] == row[j]
    {
      if 32 * g + j < n {
        assert (32 * g + j) / 32 == g && (32 * g + j) % 32 == j;
      }
    }
  }

  /** The bitmaps from group g on. */
  function Bitmaps<T>(slots: seq<Slot<T>>, g: nat): seq<byte>
    decreases NumGroups(|slots|) - g
  {
    if g >= NumGroups(|slots|) then []
    else
      FullBitsWord(RowOf(slots, g));
      WordBytes(FullBits(RowOf(slots, g))) + Bitmaps(slots, g + 1)
  }

  /** The values from bucket p on. */
  function Values<T>(enc: T -> seq<byte>, slots: seq<Slot<T>>, p: nat): seq<byte>
    decreases |slots| - p
  {
    if p >= |slots| then [] else (if slots[p].Full? then enc(slots[p].value) else []) + Values(enc, slots, p + 1)
  }

  /** The file: magic number, bucket count, number of values, bitmaps, values. Tombstones leave no trace in it. */
  function Image<T>(enc: T -> seq<byte>, slots: seq<Slot<T>>): seq<byte> {
    Number(MAGIC_NUMBER) + (Number(|slots|) + (Number(CountFull(slots)) + (Bitmaps(slots, 0) + Values(enc, slots, 0))))
  }

  /** The first twelve bytes of the file of a table of less than 2^32 - 1 buckets: magic number, buckets, values, highest byte first. */
  lemma FileHeader<T>(enc: T -> seq<byte>, slots: seq<Slot<T>>)
    requires |slots| < MARKER
    ensures var b := Image(enc, slots);
            |b| >= 12 && b[..4] == [0x24, 0x68, 0x75, 0x31] && FromBig(b[4..8]) == |slots| && FromBig(b[8..12]) == CountFull(slots)
  {
    hide Bitmaps, Values, CountFull, FromBig, Big;
    MagicBytes();
    FourBytes(|slots|);
    FourBytes(CountFull(slots));
    BigRoundTrip(|slots|, 4);
    BigRoundTrip(CountFull(slots), 4);
    var b := Image(enc, slots);
    assert b[..4] == Number(MAGIC_NUMBER) && b[4..8] == Number(|slots|) && b[8..12] == Number(CountFull(slots));
  }

  /** Bit i of the bitmaps, counted from the low end of the first byte, tells whether bucket i is full. */
  lemma {:induction false} BitmapAt<T>(slots: seq<Slot<T>>, g: nat, i: nat)
    requires 32 * g <= i < |slots|
    ensures i / 8 - 4 * g < |Bitmaps(slots, g)| && (BitAt(Bitmaps(slots, g)[i / 8 - 4 * g], i % 8) <==> slots[i].Full?)
    decreases |slots| - 32 * g
  {
    hide BitAt, FullBits, WordBytes;
    var row := RowOf(slots, g);
    FullBitsWord(row);
    if i < 32 * g + 32 {
      var k, m := i / 8 - 4 * g, i % 8;
      FullBitsAt(row, 8 * k + m);
      WordBytesAt(FullBits(row), k);
      ShiftedBits(FullBits(row), k, m);
      LowBits(Shifted(FullBits(row), k), m);
    } else {
      BitmapAt(slots, g + 1, i);
    }
  }

  lemma {:induction false} ShiftedBits(w: nat, k: nat, m: nat)
    ensures BitAt(Shifted(w, k), m) <==> BitAt(w, 8 * k + m)
  {
    hide BitAt;
    if k > 0 {
      ByteUp(Shifted(w, k - 1), m);
      ShiftedBits(w, k - 1, m + 8);
    }
  }

  lemma ByteUp(x: nat, m: nat)
    ensures BitAt(x / 0x100, m) <==> BitAt(x, m + 8)
  {
    assert BitAt(x, m + 8) <==> BitAt(x / 2 / 2, m + 6);
    assert BitAt(x / 4, m + 6) <==> BitAt(x / 4 / 2 / 2, m + 4);
    assert BitAt(x / 16, m + 4) <==> BitAt(x / 16 / 2 / 2, m + 2);
    assert BitAt(x / 64, m + 2) <==> BitAt(x / 64 / 2 / 2, m);
    assert x / 2 / 2 == x / 4 && x / 4 / 2 / 2 == x / 16 && x / 16 / 2 / 2 == x / 64 && x / 64 / 2 / 2 == x / 0x100;
  }

  lemma LowBits(x: nat, m: nat)
    requires m < 8
    ensures BitAt(x % 0x100, m) <==> BitAt(x, m)
  {
    LowBitsOf(x, 8, m);
    assert Pow2(8) == 0x100;
  }

  lemma {:induction false} LowBitsOf(x: nat, n: nat, m: nat)
    requires m < n
    ensures BitAt(x % Pow2(n), m) <==> BitAt(x, m)
  {
    HalfOfRest(x, Pow2(n - 1));
    if m > 0 {
      LowBitsOf(x / 2, n - 1, m - 1);
    }
  }

  lemma HalfOfRest(x: nat, p: nat)
    requires p > 0
    ensures x % (2 * p) / 2 == x / 2 % p && x % (2 * p) % 2 == x % 2
  {
    var q := x / 2 / p;
    assert x / 2 == p * q + x / 2 % p;
    assert x == 2 * (x / 2) + x % 2;
    assert 2 * (p * q) == 2 * p * q;
    ModUnique(x, 2 * p, q, 2 * (x / 2 % p) + x % 2);
  }

  lemma MagicBytes()
    ensures Big(MAGIC_NUMBER, 4) == [0x24, 0x68, 0x75, 0x31]
  {
    assert MAGIC_NUMBER / 0x100 == 0x246875 && 0x246875 / 0x100 == 0x2468 && 0x2468 / 0x100 == 0x24;
    assert Big(0x24, 1) == Big(0, 0) + [0x24];
    assert Big(0x2468, 2) == Big(0x24, 1) + [0x68];
    assert Big(0x246875, 3) == Big(0x2468, 2) + [0x75];
  }

  /** A value serializer whose encodings are read back, and not read when cut short. */
  ghost predicate Invertible<T(!new)>(enc: T -> seq<byte>, dec: seq<byte> -> Parsed<T>) {
    && (forall v, rest :: dec(enc(v) + rest) == Parsed(v, rest))
    && (forall v, b :: b < enc(v) ==> dec(b) == NotThere)
  }

  /** Slots whose values may differ. */
  ghost predicate SameShape<T>(a: seq<Slot<T>>, b: seq<Slot<T>>) {
    |a| == |b| && forall i :: 0 <= i < |a| ==> (a[i].Full? <==> b[i].Full?) && (a[i].Erased? <==> b[i].Erased?)
  }

  lemma {:induction false} SameCounts<T>(a: seq<Slot<T>>, b: seq<Slot<T>>)
    requires SameShape(a, b)
    ensures CountFull(a) == CountFull(b)
  {
    if a != [] {
      SameCounts(a[..|a| - 1], b[..|b| - 1]);
    }
  }

  /** Rows of the same shape as those of an index space make up an index space of the same shape. */
  lemma FlatShape<T>(rows: seq<seq<Slot<T>>>, was: seq<Slot<T>>)
    requires |rows| == NumGroups(|was|) && forall g :: 0 <= g < |rows| ==> SameShape(rows[g], RowOf(was, g))
    ensures FullRows(rows) && EmptyFrom(rows, |was|) && |was| <= 32 * |rows| && SameShape(Flat(rows, |was|), was)
  {
    forall g, j | 0 <= g < |rows| && 0 <= j < 32 && |was| <= 32 * g + j
      ensures rows[g][j] == Empty
    {
      assert SameShape(rows[g], RowOf(was, g));
    }
    forall i | 0 <= i < |was|
      ensures var f := Flat(rows, |was|)[i]; (f.Full? <==> was[i].Full?) && (f.Erased? <==> was[i].Erased?)
    {
      assert SameShape(rows[i / 32], RowOf(was, i / 32));
      assert RowOf(was, i / 32)[i % 32] == was[i];
    }
  }

  lemma {:induction false} NoValues<T>(enc: T -> seq<byte>, slots: seq<Slot<T>>, p: nat, q: nat)
    requires p <= q <= |slots| && forall k :: p <= k < q ==> !slots[k].Full?
    ensures Values(enc, slots, p) == Values(enc, slots, q)
    decreases q - p
  {
    if p < q {
      NoValues(enc, slots, p + 1, q);
    }
  }

  lemma OneValue<T>(enc: T -> seq<byte>, slots: seq<Slot<T>>, p: nat)
    requires p < |slots| && slots[p].Full?
    ensures Values(enc, slots, p) == enc(slots[p].value) + Values(enc, slots, p + 1)
  {
  }
}
