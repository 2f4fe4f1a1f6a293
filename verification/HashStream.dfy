/** Writing a hash table to a file and reading it back. */
module HashStreams {
  import opened Bits
  import opened Bytes
  import opened SparseGroups
  import opened SparseTables
  import opened Probing
  import opened HashSpec
  import opened HashTables
  import opened TableFormat
  import opened TableStreams

  /** `serialize`: tombstones are not squashed first. */
  method SerializeTable<K(==,0), V(==,0)>(ht: SparseHashtable<K, V>, enc: ((K, V)) -> seq<byte>, f: ByteFile) returns (ok: bool)
    requires ht.Valid() && f !in ht.table.Repr
    modifies f
    ensures f.Wrote(Image(enc, ht.table.slots), ok)
  {
    hide SparseTable.Valid, Sound, Holds, Image;
    ok := Serialize(ht.table, enc, f);
  }

  // ----- what a file keeps of a table

  /** A file does not tell tombstones from buckets that were never used. */
  function Cleared<T>(slots: seq<Slot<T>>): (r: seq<Slot<T>>)
    ensures |r| == |slots|
  {
    seq(|slots|, i requires 0 <= i < |slots| => if slots[i].Erased? then Empty else slots[i])
  }

  lemma {:induction false} ClearedCounts<T>(slots: seq<Slot<T>>)
    ensures CountFull(Cleared(slots)) == CountFull(slots) && CountErased(Cleared(slots)) == 0
  {
    if slots != [] {
      ClearedCounts(slots[..|slots| - 1]);
      assert Cleared(slots)[..|slots| - 1] == Cleared(slots[..|slots| - 1]);
    }
  }

  lemma {:induction false} ClearedBits<T>(row: seq<Slot<T>>)
    ensures FullBits(Cleared(row)) == FullBits(row)
  {
    if row != [] {
      ClearedBits(row[1..]);
      assert Cleared(row)[1..] == Cleared(row[1..]);
    }
  }

  lemma {:induction false} ClearedBitmaps<T>(slots: seq<Slot<T>>, g: nat)
    ensures Bitmaps(Cleared(slots), g) == Bitmaps(slots, g)
    decreases NumGroups(|slots|) - g
  {
    hide FullBits;
    if g < NumGroups(|slots|) {
      ClearedBitmaps(slots, g + 1);
      ClearedBits(RowOf(slots, g));
      assert RowOf(Cleared(slots), g) == Cleared(RowOf(slots, g));
    }
  }

  lemma {:induction false} ClearedValues<T>(enc: T -> seq<byte>, slots: seq<Slot<T>>, p: nat)
    ensures Values(enc, Cleared(slots), p) == Values(enc, slots, p)
    decreases |slots| - p
  {
    if p < |slots| {
      ClearedValues(enc, slots, p + 1);
    }
  }

  lemma ClearedImage<T>(enc: T -> seq<byte>, slots: seq<Slot<T>>)
    ensures Image(enc, Cleared(slots)) == Image(enc, slots)
  {
    hide Number, Bitmaps, CountFull, Values;
    ClearedCounts(slots);
    ClearedBitmaps(slots, 0);
    ClearedValues(enc, slots, 0);
  }

  lemma {:induction false} NoTombstones<T>(slots: seq<Slot<T>>)
    requires CountErased(slots) == 0
    ensures Cleared(slots) == slots
  {
    if slots != [] {
      NoTombstones(slots[..|slots| - 1]);
      assert Cleared(slots)[..|slots| - 1] == Cleared(slots[..|slots| - 1]);
    }
  }

  // ----- which bindings survive

  /** A tombstone stands before bucket b on the probe path of h. */
  ghost predicate Shadowed<T>(slots: seq<Slot<T>>, h: nat, b: nat)
    requires |slots| > 0
  {
    exists k: nat, i: nat :: i < k < |slots| && Probe(h, k, |slots|) == b && slots[Probe(h, i, |slots|)] == Erased
  }

  ghost predicate NoneShadowed<K, V>(slots: seq<Slot<(K, V)>>, hash: K -> nat)
    requires |slots| > 0
  {
    forall b :: 0 <= b < |slots| && slots[b].Full? ==> !Shadowed(slots, hash(slots[b].value.0), b)
  }

  /** After a round trip a bucket is still on the path of its probes exactly when no tombstone stood before it. */
  lemma SurvivesIff<T>(slots: seq<Slot<T>>, h: nat, b: nat)
    requires IsPow2(|slots|) && |slots| > 0 && Reachable(slots, h, b)
    ensures Reachable(Cleared(slots), h, b) <==> !Shadowed(slots, h, b)
  {
    hide IsPow2, Probe;
    var n, cs := |slots|, Cleared(slots);
    var k: nat :| k < n && Probe(h, k, n) == b && Clogged(slots, h, k);
    forall j: nat | j < n && Probe(h, j, n) == b
      ensures j == k
    {
      if j != k {
        ProbesDistinct(h, if j < k then j else k, if j < k then k else j, n);
      }
    }
    if !Shadowed(slots, h, b) {
      assert Clogged(cs, h, k);
    }
    if Reachable(cs, h, b) {
      assert Clogged(cs, h, k);
    }
  }

  /** What a valid hash table may hold. */
  ghost predicate Stored<K(!new), V(!new)>(was: seq<Slot<(K, V)>>, hash: K -> nat, m: map<K, V>) {
    && |was| <= MAX_BUCKETS && Sound(was, hash) && Holds(was, |was|, m)
    && |m| == CountFull(was) && CountFull(was) + CountErased(was) <= EnlargeSize(|was|)
  }

  lemma TableStored<K(0,!new), V(0,!new)>(ht: SparseHashtable<K, V>)
    requires ht.Valid()
    ensures Stored(ht.table.slots, ht.hash, ht.contents)
    ensures ht.numDeleted == 0 ==> Cleared(ht.table.slots) == ht.table.slots && NoneShadowed(ht.table.slots, ht.hash)
  {
    hide SparseTable.Separate, Sound, Holds, CountFull, CountErased, EnlargeSize, Flat, EmptyFrom, Shadowed;
    ht.Meaning();
    ht.LoadLeavesEmpty();
    if ht.numDeleted == 0 {
      NoTombstones(ht.table.slots);
      NothingToShadow(ht.table.slots, ht.hash);
    }
  }

  lemma NothingToShadow<K, V>(slots: seq<Slot<(K, V)>>, hash: K -> nat)
    requires |slots| > 0 && Cleared(slots) == slots
    ensures NoneShadowed(slots, hash)
  {
    hide Probe;
    assert forall i :: 0 <= i < |slots| ==> slots[i] == Cleared(slots)[i];
  }

  /** The buckets in the file are those of a sound table exactly when no binding is shadowed; the bindings are the same. */
  lemma ClearedSound<K, V>(was: seq<Slot<(K, V)>>, hash: K -> nat, m: map<K, V>)
    requires Sound(was, hash) && Holds(was, |was|, m)
    ensures Sound(Cleared(was), hash) <==> NoneShadowed(was, hash)
    ensures Holds(Cleared(was), |was|, m)
  {
    hide IsPow2, Reachable, Shadowed;
    forall b | 0 <= b < |was| && was[b].Full?
      ensures Reachable(Cleared(was), hash(was[b].value.0), b) <==> !Shadowed(was, hash(was[b].value.0), b)
    {
      SurvivesIff(was, hash(was[b].value.0), b);
    }
    forall key | key in m
      ensures exists b :: 0 <= b < |was| && Keyed(Cleared(was)[b], key)
    {
      var b :| 0 <= b < |was| && Keyed(was[b], key);
      assert Keyed(Cleared(was)[b], key);
    }
  }

  /** A key erased before another of the same hash value: the other is shadowed. */
  lemma ShadowExample<V(!new)>(v: V)
    ensures var was: seq<Slot<(int, V)>> := [Erased, Full((7, v)), Empty, Empty];
            Stored(was, (k: int) => 0, map[7 := v]) && !NoneShadowed(was, (k: int) => 0)
  {
    hide Reachable, Shadowed, IsPow2, CountFull, CountErased;
    var was: seq<Slot<(int, V)>> := [Erased, Full((7, v)), Empty, Empty];
    FourBuckets(was);
    ExampleCounts(v);
    assert Keyed(was[1], 7);
  }

  lemma FourBuckets<T>(was: seq<Slot<T>>)
    requires |was| == 4 && was[0] == Erased
    ensures IsPow2(4) && Reachable(was, 0, 1) && Shadowed(was, 0, 1)
  {
    assert Pow2(2) == 4;
    assert Triangle(0) == 0 && Triangle(1) == 1;
    assert Probe(0, 0, 4) == 0 && Probe(0, 1, 4) == 1;
    hide Probe;
    assert Clogged(was, 0, 1);
  }

  lemma CountAppend<T>(slots: seq<Slot<T>>, s: Slot<T>)
    ensures CountFull(slots + [s]) == CountFull(slots) + (if s.Full? then 1 else 0)
    ensures CountErased(slots + [s]) == CountErased(slots) + (if s.Erased? then 1 else 0)
  {
    assert (slots + [s])[..|slots|] == slots;
  }

  lemma ExampleCounts<V>(v: V)
    ensures var was: seq<Slot<(int, V)>> := [Erased, Full((7, v)), Empty, Empty];
            CountFull(was) == 1 && CountErased(was) == 1
  {
    hide CountFull, CountErased;
    var one: seq<Slot<(int, V)>> := [Erased];
    var two: seq<Slot<(int, V)>> := [Erased, Full((7, v))];
    var three: seq<Slot<(int, V)>> := [Erased, Full((7, v)), Empty];
    CountNone<(int, V)>();
    CountAppend<(int, V)>([], Erased);
    assert [] + [Erased] == one;
    CountAppend(one, Full((7, v)));
    assert one + [Full((7, v))] == two;
    CountAppend(two, Empty);
    assert two + [Empty] == three;
    CountAppend(three, Empty);
    assert three + [Empty] == [Erased, Full((7, v)), Empty, Empty];
  }

  lemma CountNone<T>()
    ensures CountFull<T>([]) == 0 && CountErased<T>([]) == 0
  {
  }

  /**
   * `unserialize`, of a table that was written with the same hash function: the same bindings at the same buckets, in a
   * sound table exactly when no tombstone stood before one of them on its path.
   */
  method UnserializeTable<K(==,0,!new), V(==,0,!new)>(ht: SparseHashtable<K, V>, enc: ((K, V)) -> seq<byte>, dec: seq<byte> -> Parsed<(K, V)>, f: ByteFile,
      ghost was: seq<Slot<(K, V)>>, ghost m: map<K, V>, ghost rest: seq<byte>) returns (ok: bool)
    requires ht.Valid() && f !in ht.table.Repr && Invertible(enc, dec) && Stored(was, ht.hash, m)
    requires f.bytes <= Image(enc, was) + rest
    modifies ht, ht.table.Repr, f
    ensures Reads(old(f.bytes), f.bytes, Image(enc, was), rest, ok)
    ensures ok ==> ht.table.Valid() && ht.table.slots == Cleared(was) && ht.numDeleted == 0 && ht.contents == m
    ensures ok ==> (ht.Valid() <==> NoneShadowed(was, ht.hash))
  {
    hide SparseTable.Valid, SparseTable.Separate, Sound, Holds, CountFull, CountErased, EnlargeSize, ShrinkSize, Flat, EmptyFrom, Image, Invertible, Reads, OtherMagic;
    hide Cleared, NoneShadowed;
    ghost var now := Cleared(was);
    ClearedImage(enc, was);
    ClearedCounts(was);
    ClearedSound(was, ht.hash, m);
    NowEmpty(was);
    SameStart(f.bytes, enc, now, rest);
    ht.numDeleted := 0;
    ok := Unserialize(ht.table, enc, dec, f, now, rest);
    ht.ResetThresholds();
    ht.contents := m;
    if ok {
      TableMeaning(ht.table);
    }
  }

  lemma NowEmpty<T>(slots: seq<Slot<T>>)
    ensures forall i :: 0 <= i < |slots| ==> !Cleared(slots)[i].Erased?
  {
  }

  lemma TableMeaning<T(0)>(t: SparseTable<T>)
    requires t.Valid()
    ensures |t.slots| == t.tableSize && t.numBuckets == CountFull(t.slots)
  {
    hide SparseTable.Separate, CountFull, Flat, EmptyFrom;
  }

  lemma SameStart<T>(b: seq<byte>, enc: T -> seq<byte>, was: seq<Slot<T>>, rest: seq<byte>)
    requires b <= Image(enc, was) + rest
    ensures !OtherMagic(b)
  {
    hide Number, Bitmaps, Values, CountFull, ParseNumber;
    var more := Number(|was|) + (Number(CountFull(was)) + (Bitmaps(was, 0) + Values(enc, was, 0))) + rest;
    assert Image(enc, was) + rest == Number(MAGIC_NUMBER) + more;
    NumberAhead(b, MAGIC_NUMBER, more);
  }
}
