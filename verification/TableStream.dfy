/** Writing a sparse table to a file and reading it back. */
module TableStreams {
  import opened Bits
  import opened Bytes
  import opened SparseGroups
  import opened SparseTables
  import opened SparseIterators
  import opened TableFormat

  /** The low k bits are clear. */
  predicate LowClear(x: nat, k: nat) {
    k == 0 || (x % 2 == 0 && LowClear(x / 2, k - 1))
  }

  /** Bits or-ed into clear places add up. */
  lemma {:induction false} OrIsSum(x: nat, b: nat, k: nat)
    requires LowClear(x, k) && b < Pow2(k)
    ensures Or(x, b) == x + b
  {
    if k > 0 {
      OrIsSum(x / 2, b / 2, k - 1);
      OrHalves(x, b);
    }
  }

  lemma OrHalves(x: nat, y: nat)
    requires x % 2 == 0
    ensures Or(x, y) == 2 * Or(x / 2, y / 2) + y % 2
  {
  }

  lemma {:induction false} ShiftedClear(a: nat, k: nat)
    ensures LowClear(a * Pow2(k), k)
  {
    if k > 0 {
      ShiftedClear(a, k - 1);
      Doubled(a, Pow2(k - 1));
    }
  }

  lemma Doubled(a: nat, p: nat)
    ensures a * (2 * p) == 2 * (a * p)
  {
  }

  lemma EightMore(k: nat)
    ensures Pow2(k + 8) == 0x100 * Pow2(k)
  {
    assert Pow2(k + 2) == 4 * Pow2(k);
    assert Pow2(k + 4) == 4 * Pow2(k + 2);
    assert Pow2(k + 6) == 4 * Pow2(k + 4);
    assert Pow2(k + 8) == 4 * Pow2(k + 6);
  }

  lemma Collect(v: nat, b: nat, p: nat)
    ensures v * (0x100 * p) + b * p == (0x100 * v + b) * p
    ensures b < 0x100 && p > 0 ==> b * p < 0x100 * p
  {
    assert v * (0x100 * p) == (0x100 * v) * p;
  }

  /** A further big-endian byte. */
  lemma NextByte(done: seq<byte>, b: byte, k: nat)
    ensures Or(FromBig(done) * Pow2(8 * (k + 1)), b * Pow2(8 * k)) == FromBig(done + [b]) * Pow2(8 * k)
  {
    hide Or, Pow2, LowClear;
    var v := FromBig(done);
    assert (done + [b])[..|done|] == done;
    EightMore(8 * k);
    Collect(v, b, Pow2(8 * k));
    ShiftedClear(v, 8 * (k + 1));
    OrIsSum(v * Pow2(8 * (k + 1)), b * Pow2(8 * k), 8 * (k + 1));
  }

  /** A file: what it still holds for reading, or has taken in, and the room left for writing. */
  class ByteFile {
    var bytes: seq<byte>
    var room: nat

    /** All of the data was written, unless there was not room for it. */
    twostate predicate Wrote(data: seq<byte>, ok: bool)
      reads this
    {
      && (ok <==> |data| <= old(room))
      && (ok ==> bytes == old(bytes) + data && room == old(room) - |data|)
    }

    method WriteData(data: seq<byte>) returns (ok: bool)
      modifies this
      ensures Wrote(data, ok)
    {
      ok := |data| <= room;
      if ok {
        bytes, room := bytes + data, room - |data|;
      }
    }

    method ReadData(length: nat) returns (ok: bool, data: seq<byte>)
      modifies this
      ensures ok <==> length <= |old(bytes)|
      ensures ok ==> data == old(bytes)[..length] && bytes == old(bytes)[length..]
    {
      ok, data := length <= |bytes|, [];
      if ok {
        data, bytes := bytes[..length], bytes[length..];
      }
    }

    method WriteBigEndianNumber(value: nat, length: nat) returns (ok: bool)
      modifies this
      ensures Wrote(Big(value, length), ok)
    {
      hide Shifted;
      for i := 0 to length
        invariant bytes == old(bytes) + Big(value, length)[..i] && room + i == old(room)
      {
        BigAt(value, length, i);
        var b: byte := Shifted(value, length - 1 - i) % 0x100;
        ok := WriteData([b]);
        if !ok {
          return;
        }
        assert Big(value, length)[..i + 1] == Big(value, length)[..i] + [b];
      }
      assert Big(value, length)[..length] == Big(value, length);
      ok := true;
    }

    method ReadBigEndianNumber(length: nat) returns (ok: bool, value: nat)
      modifies this
      ensures ok <==> length <= |old(bytes)|
      ensures ok ==> value == FromBig(old(bytes)[..length]) && bytes == old(bytes)[length..]
    {
      hide Or, Pow2, FromBig;
      value := 0;
      ghost var was := bytes;
      NothingYet(8 * length);
      for i := 0 to length
        invariant i <= |was| && bytes == was[i..]
        invariant value == FromBig(was[..i]) * Pow2(8 * (length - i))
      {
        var data: seq<byte>;
        ok, data := ReadData(1);
        if !ok {
          return false, value;
        }
        value := Or(value, data[0] * Pow2(8 * (length - 1 - i)));
        NextByte(was[..i], data[0], length - 1 - i);
        assert was[..i + 1] == was[..i] + [data[0]];
      }
      AllThere(FromBig(was[..length]));
      ok := true;
    }

    method Write32Or64(value: nat) returns (ok: bool)
      modifies this
      ensures Wrote(Number(value), ok)
    {
      hide Big;
      if value < MARKER {
        ok := WriteBigEndianNumber(value, 4);
      } else {
        ok := WriteBigEndianNumber(MARKER, 4);
        if ok {
          ok := WriteBigEndianNumber(value, 8);
        }
      }
    }

    method Read32Or64() returns (ok: bool, value: nat)
      modifies this
      ensures ok <==> ParseNumber(old(bytes)) != NotThere
      ensures ok ==> ParseNumber(old(bytes)) == Parsed(value, bytes)
    {
      hide FromBig;
      ghost var was := bytes;
      ok, value := ReadBigEndianNumber(4);
      if ok && value >= MARKER {
        ok, value := ReadBigEndianNumber(8);
        assert |was| >= 12 ==> was[4..][..8] == was[4..12] && was[4..][8..] == was[12..];
      }
    }
  }

  lemma NothingYet(k: nat)
    ensures FromBig([]) * Pow2(k) == 0
  {
  }

  lemma AllThere(v: nat)
    ensures v * Pow2(0) == v
  {
  }

  // ----- writing

  lemma GroupBitmap<T(0)>(g: SparseGroup<T>)
    requires g.Valid()
    ensures |g.slots| == 32 && g.bitmap == FullBits(g.slots) && g.bitmap < WORD
  {
    hide BitAt, Rank, And;
    ghost var items := g.group[..Rank(g.bitmap, GROUP_SIZE)];
    forall i: nat | i < 32
      ensures BitAt(g.bitmap, i) <==> g.slots[i].Full?
    {
      FullBit(g.bitmap, g.erased, items, i);
    }
    assert Pow2(8) == 256 && Pow2(16) == 0x1_0000 && Pow2(24) == 0x100_0000 && Pow2(32) == WORD;
    BitsOfRow(g.bitmap, g.slots);
  }

  method WriteBitmap<T(0)>(t: SparseTable<T>, g: nat, f: ByteFile) returns (ok: bool)
    requires t.Valid() && g < |t.groups| && f !in t.Repr
    modifies f
    ensures FullBits(RowOf(t.slots, g)) < WORD && f.Wrote(WordBytes(FullBits(RowOf(t.slots, g))), ok)
  {
    hide SparseGroup.Valid, FullBits, WordBytes, CountFull;
    RowsAre(t.rows, t.tableSize, g);
    GroupBitmap(t.groups[g]);
    ok := f.WriteData(WordBytes(t.groups[g].bitmap));
  }

  method WriteMetadata<T(0)>(t: SparseTable<T>, f: ByteFile) returns (ok: bool)
    requires t.Valid() && f !in t.Repr
    modifies f
    ensures f.Wrote(Number(MAGIC_NUMBER) + (Number(|t.slots|) + (Number(CountFull(t.slots)) + Bitmaps(t.slots, 0))), ok)
  {
    hide SparseTable.Separate, Number, Bitmaps, CountFull, Flat, EmptyFrom;
    ghost var start, slots := f.bytes, t.slots;
    ghost var done: seq<byte> := Number(MAGIC_NUMBER);
    ghost var bits := Bitmaps(slots, 0);
    ghost var all := Number(MAGIC_NUMBER) + (Number(|slots|) + (Number(CountFull(slots)) + bits));
    assert all == Number(MAGIC_NUMBER) + Number(|slots|) + Number(CountFull(slots)) + bits;
    ok := f.Write32Or64(MAGIC_NUMBER);
    if !ok {
      return;
    }
    ok := f.Write32Or64(t.tableSize);
    if !ok {
      return;
    }
    ok := f.Write32Or64(t.numBuckets);
    if !ok {
      return;
    }
    done := done + Number(|slots|) + Number(CountFull(slots));
    assert f.bytes == start + done;
    for g := 0 to |t.groups|
      invariant f.bytes == start + done && f.room + |done| == old(f.room) && t.Valid() && t.slots == slots
      invariant done + Bitmaps(slots, g) == all && |t.groups| == NumGroups(|slots|)
    {
      BitmapStep(slots, g);
      ghost var data := WordBytes(FullBits(RowOf(slots, g)));
      ghost var more := Bitmaps(slots, g + 1);
      ok := WriteBitmap(t, g, f);
      assert done + (data + more) == done + data + more;
      if !ok {
        return;
      }
      assert f.bytes == start + (done + data);
      done := done + data;
    }
    BitmapsDone(slots);
    assert done + [] == done;
    ok := true;
  }

  lemma BitmapStep<T>(slots: seq<Slot<T>>, g: nat)
    requires g < NumGroups(|slots|)
    ensures FullBits(RowOf(slots, g)) < WORD && Bitmaps(slots, g) == WordBytes(FullBits(RowOf(slots, g))) + Bitmaps(slots, g + 1)
  {
    FullBitsWord(RowOf(slots, g));
  }

  lemma BitmapsDone<T>(slots: seq<Slot<T>>)
    ensures Bitmaps(slots, NumGroups(|slots|)) == []
  {
  }

  lemma ValuesDone<T>(enc: T -> seq<byte>, slots: seq<Slot<T>>)
    ensures Values(enc, slots, |slots|) == []
  {
  }

  lemma ImageParts<T>(enc: T -> seq<byte>, slots: seq<Slot<T>>)
    ensures Image(enc, slots)
         == Number(MAGIC_NUMBER) + (Number(|slots|) + (Number(CountFull(slots)) + Bitmaps(slots, 0))) + Values(enc, slots, 0)
  {
    hide Number, Bitmaps, Values, CountFull;
  }

  /** `serialize`. */
  method Serialize<T(0)>(t: SparseTable<T>, enc: T -> seq<byte>, f: ByteFile) returns (ok: bool)
    requires t.Valid() && f !in t.Repr
    modifies f
    ensures f.Wrote(Image(enc, t.slots), ok)
  {
    hide SparseTable.Separate, SparseTable.Valid, NeIterator.Valid, Number, Bitmaps, CountFull, Flat, EmptyFrom, Values, Image;
    ghost var start, slots, all := f.bytes, t.slots, Image(enc, t.slots);
    ImageParts(enc, slots);
    ok := WriteMetadata(t, f);
    if !ok {
      return;
    }
    ghost var done := Number(MAGIC_NUMBER) + (Number(|slots|) + (Number(CountFull(slots)) + Bitmaps(slots, 0)));
    var it := new NeIterator.Begin(t);
    ItSound(it);
    NoValues(enc, slots, 0, it.pos);
    while !it.AtEnd()
      invariant it.Valid() && it.table == t && t.slots == slots && fresh(it) && it.pos <= |slots|
      invariant f.bytes == start + done && f.room + |done| == old(f.room)
      invariant done + Values(enc, slots, it.pos) == all
      decreases |slots| - it.pos
    {
      ItSound(it);
      ghost var p := it.pos;
      var v := it.Value();
      ok := f.WriteData(enc(v));
      OneValue(enc, slots, p);
      ghost var more := Values(enc, slots, p + 1);
      assert done + (enc(v) + more) == done + enc(v) + more;
      if !ok {
        return;
      }
      assert f.bytes == start + (done + enc(v));
      done := done + enc(v);
      it.Next();
      ItSound(it);
      NoValues(enc, slots, p + 1, it.pos);
    }
    ItSound(it);
    ValuesDone(enc, slots);
    assert done + [] == done;
    ok := true;
  }

  lemma ItSound<T(0)>(it: NeIterator<T>)
    requires it.Valid()
    ensures it.table.Valid() && it !in it.table.Repr && it.pos <= it.table.tableSize == |it.table.slots|
    ensures it.AtEnd() <==> it.pos == it.table.tableSize
    ensures !it.AtEnd() ==> it.table.slots[it.pos].Full?
  {
    hide SparseTable.Separate, CountFull, Flat, EmptyFrom;
  }

  // ----- reading

  /** b is what comes next in the file, possibly cut short: reading the piece succeeds if it is all there. */
  ghost predicate Reads(before: seq<byte>, after: seq<byte>, piece: seq<byte>, more: seq<byte>, ok: bool) {
    && (ok <==> |before| >= |piece|)
    && (ok ==> after <= more && |after| + |piece| == |before|)
  }

  lemma Ahead(b: seq<byte>, piece: seq<byte>, more: seq<byte>)
    requires b <= piece + more
    ensures |b| >= |piece| ==> b[..|piece|] == piece && b == piece + b[|piece|..] && b[|piece|..] <= more
    ensures |b| < |piece| ==> b < piece
  {
    if |b| >= |piece| {
      assert b[..|piece|] == (piece + more)[..|piece|];
      assert b[|piece|..] == (piece + more)[|piece|..|b|];
    } else {
      assert b == (piece + more)[..|b|] == piece[..|b|];
    }
  }

  lemma NumberAhead(b: seq<byte>, v: nat, more: seq<byte>)
    requires v < WORD * WORD && b <= Number(v) + more
    ensures |b| >= |Number(v)| ==> ParseNumber(b) == Parsed(v, b[|Number(v)|..]) && b[|Number(v)|..] <= more
    ensures |b| < |Number(v)| ==> ParseNumber(b) == NotThere
  {
    hide Number, ParseNumber;
    Ahead(b, Number(v), more);
    if |b| >= |Number(v)| {
      NumberRoundTrip(v, b[|Number(v)|..]);
    } else {
      NumberCut(v, b);
    }
  }

  method ReadNumber(f: ByteFile, ghost v: nat, ghost more: seq<byte>) returns (ok: bool, value: nat)
    requires v < WORD * WORD && f.bytes <= Number(v) + more
    modifies f
    ensures Reads(old(f.bytes), f.bytes, Number(v), more, ok) && (ok ==> value == v)
  {
    hide Number, ParseNumber;
    NumberAhead(f.bytes, v, more);
    ok, value := f.Read32Or64();
  }

  /** The bitmap of group g, and what its row then looks like. */
  method ReadBitmap<T(0)>(t: SparseTable<T>, g: nat, f: ByteFile, ghost was: seq<Slot<T>>, ghost more: seq<byte>) returns (ok: bool)
    requires t.Separate() && g < |t.groups| && f !in t.Repr && g < NumGroups(|was|)
    requires forall i :: 0 <= i < |was| ==> !was[i].Erased?
    requires FullBits(RowOf(was, g)) < WORD && f.bytes <= WordBytes(FullBits(RowOf(was, g))) + more
    modifies t.Repr, f
    ensures t.Separate() && fresh(t.Repr - old(t.Repr)) && f !in t.Repr && t.groups == old(t.groups)
    ensures t.tableSize == old(t.tableSize) && t.numBuckets == old(t.numBuckets)
    ensures Reads(old(f.bytes), f.bytes, WordBytes(FullBits(RowOf(was, g))), more, ok)
    ensures t.rows == old(t.rows)[g := t.rows[g]] && (ok ==> SameShape(t.rows[g], RowOf(was, g)))
  {
    hide SparseTable.Separate, FullBits, WordBytes, BitAt;
    ghost var bits := FullBits(RowOf(was, g));
    Ahead(f.bytes, WordBytes(bits), more);
    var data: seq<byte>;
    ok, data := f.ReadData(4);
    if !ok {
      return;
    }
    WordRoundTrip(bits);
    t.TakeBitmap(g, WordOf(data));
    forall i: nat | i < 32
      ensures (t.rows[g][i].Full? <==> RowOf(was, g)[i].Full?) && !RowOf(was, g)[i].Erased?
    {
      FullBitsAt(RowOf(was, g), i);
    }
  }

  /** The bitmaps of all groups: the table then has the shape of the one that was written. */
  method ReadBitmaps<T(0)>(t: SparseTable<T>, f: ByteFile, ghost was: seq<Slot<T>>, ghost tail: seq<byte>) returns (ok: bool)
    requires t.Separate() && f !in t.Repr && |t.groups| == NumGroups(|was|)
    requires t.tableSize == |was| && t.numBuckets == CountFull(was)
    requires forall i :: 0 <= i < |was| ==> !was[i].Erased?
    requires f.bytes <= Bitmaps(was, 0) + tail
    modifies t.Repr, f
    ensures fresh(t.Repr - old(t.Repr)) && f !in t.Repr
    ensures Reads(old(f.bytes), f.bytes, Bitmaps(was, 0), tail, ok)
    ensures ok ==> t.Valid() && SameShape(t.slots, was)
  {
    hide SparseTable.Separate, FullBits, WordBytes, Bitmaps, CountFull, Flat, EmptyFrom, SameShape, RowOf;
    ghost var all := Bitmaps(was, 0);
    ghost var slack: int := |f.bytes| - |all|;
    for g := 0 to |t.groups|
      invariant t.Separate() && fresh(t.Repr - old(t.Repr)) && f !in t.Repr && t.groups == old(t.groups)
      invariant t.tableSize == |was| && t.numBuckets == CountFull(was)
      invariant f.bytes <= Bitmaps(was, g) + tail && |f.bytes| - |Bitmaps(was, g)| == slack
      invariant forall h :: 0 <= h < g ==> SameShape(t.rows[h], RowOf(was, h))
    {
      BitmapStep(was, g);
      ghost var data := WordBytes(FullBits(RowOf(was, g)));
      ghost var more := Bitmaps(was, g + 1);
      assert data + more + tail == data + (more + tail);
      ok := ReadBitmap(t, g, f, was, more + tail);
      if !ok {
        return;
      }
    }
    BitmapsDone(was);
    assert [] + tail == tail;
    ok := true;
    FlatShape(t.rows, was);
    SameCounts(Flat(t.rows, t.tableSize), was);
    t.Settle();
  }

  ghost function Head<T>(was: seq<Slot<T>>): seq<byte> {
    Number(MAGIC_NUMBER) + (Number(|was|) + (Number(CountFull(was)) + Bitmaps(was, 0)))
  }

  /** The file starts with another number. */
  ghost predicate OtherMagic(b: seq<byte>) {
    ParseNumber(b).Parsed? && ParseNumber(b).value != MAGIC_NUMBER
  }

  /** `read_metadata`: all of it is there, or nothing is read that counts; another magic number leaves an empty table. */
  method ReadMetadata<T(0)>(t: SparseTable<T>, f: ByteFile, ghost was: seq<Slot<T>>, ghost tail: seq<byte>) returns (ok: bool)
    requires t.Valid() && t.tableSize == 0 && f !in t.Repr && |was| < WORD * WORD
    requires forall i :: 0 <= i < |was| ==> !was[i].Erased?
    requires OtherMagic(f.bytes) || f.bytes <= Head(was) + tail
    modifies t.Repr, f
    ensures fresh(t.Repr - old(t.Repr)) && f !in t.Repr
    ensures old(OtherMagic(f.bytes)) ==> !ok && t.Valid() && t.slots == []
    ensures !old(OtherMagic(f.bytes)) ==> Reads(old(f.bytes), f.bytes, Head(was), tail, ok)
    ensures ok ==> t.Valid() && SameShape(t.slots, was)
  {
    hide SparseTable.Separate, Number, ParseNumber, Bitmaps, CountFull, Flat, EmptyFrom, SameShape;
    ghost var start, other := f.bytes, OtherMagic(f.bytes);
    ghost var n, c, bits := Number(|was|), Number(CountFull(was)), Bitmaps(was, 0);
    assert CountFull(was) <= |was|;
    var magic, size, num: nat;
    if !OtherMagic(f.bytes) {
      assert Head(was) + tail == Number(MAGIC_NUMBER) + (n + (c + (bits + tail)));
      NumberAhead(f.bytes, MAGIC_NUMBER, n + (c + (bits + tail)));
    }
    ok, magic := f.Read32Or64();
    if !ok {
      return;
    }
    if magic != MAGIC_NUMBER {
      t.Clear();
      return false;
    }
    ok, size := ReadNumber(f, |was|, c + (bits + tail));
    if !ok {
      return;
    }
    ok, num := ReadNumber(f, CountFull(was), bits + tail);
    if !ok {
      return;
    }
    t.Resize(size);
    t.TakeCount(num);
    ok := ReadBitmaps(t, f, was, tail);
  }

  /** Buckets below p already have their values, the others have the right shape. */
  ghost predicate FilledBelow<T>(slots: seq<Slot<T>>, was: seq<Slot<T>>, p: nat) {
    SameShape(slots, was) && forall i :: 0 <= i < p && i < |was| ==> slots[i] == was[i]
  }

  /** Write the value at the iterator's bucket; the iterator stays where it is. */
  method Put<T(0)>(it: NeIterator<T>, v: T)
    requires it.Valid() && !it.AtEnd()
    modifies it.table.Repr
    ensures it.Valid() && !it.AtEnd() && it.table.Repr == old(it.table.Repr)
    ensures it.table.slots == old(it.table.slots)[it.pos := Full(v)]
  {
    hide SparseTable.Separate, SparseTable.Valid, CountFull, Flat, EmptyFrom;
    ghost var p := it.pos % 32;
    assert it.pos / 32 == it.row && p == it.pos - 32 * it.row;
    ghost var row := it.table.rows[it.row];
    it.table.Overwrite(it.row, it.col, v, it.pos);
    assert it.table.rows[it.row] == row[p := Full(v)];
    assert row[p := Full(v)][..p] == row[..p];
  }

  lemma ValueAhead<T(!new)>(enc: T -> seq<byte>, dec: seq<byte> -> Parsed<T>, b: seq<byte>, v: T, more: seq<byte>)
    requires Invertible(enc, dec) && b <= enc(v) + more
    ensures if |b| >= |enc(v)| then dec(b) == Parsed(v, b[|enc(v)|..]) && b[|enc(v)|..] <= more else dec(b) == NotThere
  {
    Ahead(b, enc(v), more);
  }

  /** One value after the other into the non-empty buckets. */
  method ReadValues<T(0,!new)>(t: SparseTable<T>, enc: T -> seq<byte>, dec: seq<byte> -> Parsed<T>, f: ByteFile, ghost was: seq<Slot<T>>, ghost rest: seq<byte>)
    returns (ok: bool)
    requires t.Valid() && f !in t.Repr && Invertible(enc, dec) && SameShape(t.slots, was)
    requires forall i :: 0 <= i < |was| ==> !was[i].Erased?
    requires f.bytes <= Values(enc, was, 0) + rest
    modifies t.Repr, f
    ensures t.Repr == old(t.Repr)
    ensures Reads(old(f.bytes), f.bytes, Values(enc, was, 0), rest, ok)
    ensures ok ==> t.Valid() && t.slots == was
  {
    hide SparseTable.Separate, SparseTable.Valid, NeIterator.Valid, CountFull, Flat, EmptyFrom, Values, SameShape, Invertible, FilledBelow, NoneFull;
    ghost var slack: int := |f.bytes| - |Values(enc, was, 0)|;
    ghost var repr := t.Repr;
    var it := new NeIterator.Begin(t);
    ItSound(it);
    Started(enc, t.slots, was, it.pos);
    while !it.AtEnd()
      invariant it.Valid() && it.table == t && fresh(it) && t.Repr == repr && |t.slots| == |was|
      invariant FilledBelow(t.slots, was, it.pos)
      invariant f.bytes <= Values(enc, was, it.pos) + rest && |f.bytes| - |Values(enc, was, it.pos)| == slack
      decreases |was| - it.pos
    {
      ItSound(it);
      ghost var p, before := it.pos, t.slots;
      FullToo(before, was, p);
      ghost var v, more := was[p].value, Values(enc, was, p + 1) + rest;
      OneValue(enc, was, p);
      assert Values(enc, was, p) + rest == enc(v) + more;
      ValueAhead(enc, dec, f.bytes, v, more);
      var parsed := dec(f.bytes);
      if parsed.NotThere? {
        return false;
      }
      f.bytes := parsed.rest;
      Put(it, parsed.value);
      ItSound(it);
      it.Next();
      ItSound(it);
      Passed(enc, before, was, p, it.pos);
    }
    ItSound(it);
    ValuesDone(enc, was);
    assert [] + rest == rest;
    assert t.slots == was by {
      AllFilled(t.slots, was);
    }
    ok := true;
  }

  /**
   * `unserialize`, of what `serialize` wrote for a table without tombstones: every bucket gets back its value, and the
   * file is advanced by exactly that. It fails exactly when the file is cut short or starts with another magic number.
   */
  method Unserialize<T(0,!new)>(t: SparseTable<T>, enc: T -> seq<byte>, dec: seq<byte> -> Parsed<T>, f: ByteFile, ghost was: seq<Slot<T>>, ghost rest: seq<byte>)
    returns (ok: bool)
    requires t.Valid() && f !in t.Repr && Invertible(enc, dec) && |was| < WORD * WORD
    requires forall i :: 0 <= i < |was| ==> !was[i].Erased?
    requires OtherMagic(f.bytes) || f.bytes <= Image(enc, was) + rest
    modifies t.Repr, f
    ensures fresh(t.Repr - old(t.Repr)) && f !in t.Repr
    ensures old(OtherMagic(f.bytes)) ==> !ok && t.Valid() && t.slots == []
    ensures !old(OtherMagic(f.bytes)) ==> Reads(old(f.bytes), f.bytes, Image(enc, was), rest, ok)
    ensures ok ==> t.Valid() && t.slots == was
  {
    hide SparseTable.Separate, SparseTable.Valid, Head, CountFull, Flat, EmptyFrom, Values, Image, SameShape, Invertible, OtherMagic;
    t.Clear();
    ImageIs(enc, was, rest);
    ok := ReadMetadata(t, f, was, Values(enc, was, 0) + rest);
    if ok {
      ok := ReadValues(t, enc, dec, f, was, rest);
    }
  }

  lemma ImageIs<T>(enc: T -> seq<byte>, was: seq<Slot<T>>, rest: seq<byte>)
    ensures Image(enc, was) + rest == Head(was) + (Values(enc, was, 0) + rest)
    ensures |Image(enc, was)| == |Head(was)| + |Values(enc, was, 0)|
  {
    hide Number, Bitmaps, Values, CountFull;
    ImageParts(enc, was);
  }

  lemma Started<T>(enc: T -> seq<byte>, slots: seq<Slot<T>>, was: seq<Slot<T>>, p: nat)
    requires SameShape(slots, was) && p <= |slots| && NoneFull(slots, 0, p)
    requires forall i :: 0 <= i < |was| ==> !was[i].Erased?
    ensures |slots| == |was| && FilledBelow(slots, was, p) && Values(enc, was, 0) == Values(enc, was, p)
  {
    NoValues(enc, was, 0, p);
  }

  lemma FullToo<T>(slots: seq<Slot<T>>, was: seq<Slot<T>>, p: nat)
    requires FilledBelow(slots, was, p) && p < |slots| && slots[p].Full?
    ensures |slots| == |was| && was[p].Full?
  {
  }

  lemma AllFilled<T>(slots: seq<Slot<T>>, was: seq<Slot<T>>)
    requires FilledBelow(slots, was, |was|)
    ensures slots == was
  {
  }

  lemma Passed<T>(enc: T -> seq<byte>, before: seq<Slot<T>>, was: seq<Slot<T>>, p: nat, q: nat)
    requires FilledBelow(before, was, p) && p < q <= |before| == |was| && was[p].Full? && NoneFull(before[p := was[p]], p + 1, q)
    requires forall i :: 0 <= i < |was| ==> !was[i].Erased?
    ensures FilledBelow(before[p := was[p]], was, q) && Values(enc, was, p + 1) == Values(enc, was, q)
  {
    var slots := before[p := was[p]];
    assert SameShape(slots, was);
    NoValues(enc, was, p + 1, q);
  }
}
