/** The hash table over a sparse table: probing, tombstones, growth, deferred shrinking and rehashing. */
module HashTables {
  import opened Wrappers
  import opened Bits
  import opened SparseGroups
  import opened SparseTables
  import opened SparseIterators
  import opened Probing
  import opened HashSpec

  const MIN_BUCKETS: nat := 4
  const DEFAULT_BUCKETS: nat := 32
  const MAX_BUCKETS: nat := 0x8000_0000_0000_0000
  const SIZE_LIMIT: nat := 0x1_0000_0000_0000_0000

  /** A result, or the source's `length_error`. */
  datatype Outcome<T> = Ok(value: T) | LengthError

  /** Half of the buckets may be in use before the table grows; below a fifth it is considered for shrinking. */
  function EnlargeSize(n: nat): nat { n / 2 }
  function ShrinkSize(n: nat): nat { n / 5 }

  /** Half of the buckets, and a fifth of them, rounded down. */
  lemma LoadFactors(n: nat)
    ensures 2 * EnlargeSize(n) <= n < 2 * EnlargeSize(n) + 2 && 5 * ShrinkSize(n) <= n < 5 * ShrinkSize(n) + 5
  {
  }

  /** Adjacent powers of two. */
  lemma Pow2Gap(a: nat, b: nat)
    requires IsPow2(a) && IsPow2(b) && a <= b < 2 * a
    ensures a == b
  {
    var i: nat :| a == Pow2(i);
    var j: nat :| b == Pow2(j);
    if i < j {
      Pow2Increases(i + 1, j);
    } else {
      Pow2Increases(j, i);
    }
  }

  /** A number of buckets for some elements, at least a wanted number. */
  ghost predicate Admissible(n: nat, numElts: nat, wanted: nat) {
    IsPow2(n) && n >= MIN_BUCKETS && wanted <= n && numElts < EnlargeSize(n)
  }

  ghost predicate IsLeast(n: nat, numElts: nat, wanted: nat) {
    Admissible(n, numElts, wanted) && n <= MAX_BUCKETS && forall k: nat :: Admissible(k, numElts, wanted) ==> n <= k
  }

  /** The smallest admissible number of buckets. */
  method MinBuckets(numElts: nat, wanted: nat) returns (r: Outcome<nat>)
    ensures r.Ok? ==> IsLeast(r.value, numElts, wanted)
    ensures r.LengthError? <==> wanted > MAX_BUCKETS || numElts >= EnlargeSize(MAX_BUCKETS)
  {
    var sz := MIN_BUCKETS;
    assert Pow2(2) == 4;
    while sz < wanted || numElts >= EnlargeSize(sz)
      invariant IsPow2(sz) && MIN_BUCKETS <= sz <= MAX_BUCKETS
      invariant sz == MIN_BUCKETS || sz / 2 < wanted || numElts >= EnlargeSize(sz / 2)
      decreases MAX_BUCKETS - sz
    {
      if sz * 2 % SIZE_LIMIT < sz {
        BelowLimit(sz);
        return LengthError;
      }
      BelowLimit(sz);
      Pow2Doubles(sz);
      sz := sz * 2;
    }
    forall n: nat | Admissible(n, numElts, wanted)
      ensures sz <= n
    {
      if n < sz {
        Pow2Doubles(sz);
        if sz < 2 * n {
          Pow2Gap(n, sz);
        }
      }
    }
    return Ok(sz);
  }

  lemma BelowLimit(sz: nat)
    requires IsPow2(sz) && 0 < sz <= MAX_BUCKETS
    ensures sz * 2 % SIZE_LIMIT < sz <==> sz == MAX_BUCKETS
    ensures sz < MAX_BUCKETS ==> 2 * sz <= MAX_BUCKETS
  {
    var p: nat :| sz == Pow2(p);
    MaxBucketsIsPow2();
    if sz < MAX_BUCKETS {
      if p >= 63 {
        Pow2Increases(63, p);
      }
      Pow2Increases(p + 1, 63);
    }
  }

  lemma MaxBucketsIsPow2()
    ensures Pow2(63) == MAX_BUCKETS && IsPow2(MAX_BUCKETS)
  {
    assert Pow2(8) == 256 && Pow2(16) == 0x1_0000 && Pow2(24) == 0x100_0000 && Pow2(32) == 0x1_0000_0000;
    assert Pow2(40) == 0x100_0000_0000 && Pow2(48) == 0x1_0000_0000_0000 && Pow2(56) == 0x100_0000_0000_0000;
  }

  /** The least admissible size is the wanted one when that is admissible itself. */
  lemma LeastIsWanted(r: nat, numElts: nat, wanted: nat)
    requires IsLeast(r, numElts, wanted) && IsPow2(wanted) && MIN_BUCKETS <= wanted && numElts < EnlargeSize(wanted)
    ensures r == wanted
  {
    hide IsPow2, EnlargeSize;
    assert Admissible(wanted, numElts, wanted);
  }

  lemma AtLeastWanted(n: nat, numElts: nat, wanted: nat)
    requires IsLeast(n, numElts, wanted)
    ensures Larger(wanted, n) == n
  {
    hide IsPow2, EnlargeSize;
  }

  lemma EnlargeGrows(a: nat, b: nat)
    requires a <= b
    ensures EnlargeSize(a) <= EnlargeSize(b) && (IsPow2(a) && IsPow2(b) && 4 <= a < b ==> EnlargeSize(a) < EnlargeSize(b))
  {
    if IsPow2(a) && IsPow2(b) && 4 <= a < b {
      Pow2Doubles(b);
    }
  }

  function Larger(a: nat, b: nat): nat {
    if a < b then b else a
  }

  /** How a temporary table is sized that takes over another's bindings: for them, or as large as the other. */
  datatype Mover = MoveDontCopy | MoveDontGrow

  lemma DefaultIsPow2()
    ensures IsPow2(DEFAULT_BUCKETS)
  {
    assert Pow2(5) == DEFAULT_BUCKETS;
  }

  /** Above 32 a power of two is at least 64, so its half is still at least 32. */
  lemma HalfAboveDefault(n: nat)
    requires IsPow2(n) && n > DEFAULT_BUCKETS
    ensures n % 2 == 0 && IsPow2(n / 2) && n / 2 >= DEFAULT_BUCKETS
  {
    assert Pow2(5) == DEFAULT_BUCKETS;
    Pow2Doubles(n);
    if n < 64 {
      Pow2Gap(DEFAULT_BUCKETS, n);
    }
  }

  /** Inserting never replaces an existing binding. */
  function Insert1<K, V>(m: map<K, V>, key: K, v: V): map<K, V> {
    if key in m then m else m[key := v]
  }

  function InsertAll<K, V>(m: map<K, V>, entries: seq<(K, V)>): map<K, V> {
    if entries == [] then m
    else var last := entries[|entries| - 1]; Insert1(InsertAll(m, entries[..|entries| - 1]), last.0, last.1)
  }

  lemma InsertAllStep<K, V>(m: map<K, V>, entries: seq<(K, V)>, i: nat)
    requires i < |entries|
    ensures InsertAll(m, entries[..i + 1]) == Insert1(InsertAll(m, entries[..i]), entries[i].0, entries[i].1)
  {
    assert entries[..i + 1][..i] == entries[..i];
  }

  /** The first halving of n that is a fifth full, or 32: every larger one is too empty. */
  ghost predicate IsShrunk(sz: nat, num: nat, n: nat) {
    IsPow2(sz) && DEFAULT_BUCKETS <= sz < n && num < ShrinkSize(2 * sz) && (sz == DEFAULT_BUCKETS || num >= ShrinkSize(sz))
  }

  lemma ShrunkUnique(a: nat, b: nat, num: nat, n: nat)
    requires IsShrunk(a, num, n) && IsShrunk(b, num, n)
    ensures a == b
  {
    if a < b && b < 2 * a {
      Pow2Gap(a, b);
    } else if b < a && a < 2 * b {
      Pow2Gap(b, a);
    }
  }

  /** The buckets for what is needed, of a table that has some: as they are if they suffice, else the least larger number. */
  ghost predicate SizeFor(n: nat, present: nat, needed: nat) {
    var m := needed % SIZE_LIMIT;
    if m <= EnlargeSize(present) then n == present else IsLeast(n, m, present)
  }

  /** The buckets n of a table that had some, after making room for a needed number, perhaps shrinking it first. */
  ghost predicate Resized(n: nat, shrinks: bool, num: nat, present: nat, deleted: nat, needed: nat) {
    if shrinks then exists s: nat :: IsShrunk(s, num, present) && SizeFor(n, s, needed) else SizeFor(n, present, needed + deleted)
  }

  /** The loop of `_maybe_shrink`. */
  method ShrunkSize(numRemain: nat, n: nat) returns (sz: nat)
    requires IsPow2(n) && n > DEFAULT_BUCKETS && numRemain < ShrinkSize(n)
    ensures IsShrunk(sz, numRemain, n)
    ensures numRemain + 1 <= EnlargeSize(sz)
  {
    sz := n / 2;
    HalfAboveDefault(n);
    while sz > DEFAULT_BUCKETS && numRemain < ShrinkSize(sz)
      invariant IsPow2(sz) && DEFAULT_BUCKETS <= sz < n
      invariant numRemain < ShrinkSize(2 * sz)
    {
      HalfAboveDefault(sz);
      sz := sz / 2;
    }
  }

  class SparseHashtable<K(==,0), V(==,0)> {
    const hash: K -> nat
    const maxSize: nat
    var table: SparseTable<(K, V)>
    var numDeleted: nat
    var enlargeThreshold: nat
    var shrinkThreshold: nat
    var considerShrink: bool
    ghost var contents: map<K, V>

    /** The counters and thresholds that go with the buckets. */
    ghost predicate Counted()
      reads this, table, table.Repr
    {
      && this !in table.Repr && table.Valid()
      && numDeleted == CountErased(table.slots)
      && |contents| == table.numBuckets
      && enlargeThreshold == EnlargeSize(table.tableSize) && shrinkThreshold == ShrinkSize(table.tableSize)
    }

    ghost predicate Valid()
      reads this, table, table.Repr
    {
      && Counted()
      && table.tableSize <= MAX_BUCKETS
      && Sound(table.slots, hash) && Holds(table.slots, table.tableSize, contents)
      && table.numBuckets + numDeleted <= EnlargeSize(table.tableSize)
    }

    /** An empty table of n buckets. */
    constructor Bare(hash: K -> nat, maxSize: nat, n: nat)
      requires IsPow2(n) && MIN_BUCKETS <= n <= MAX_BUCKETS
      ensures Valid() && contents == map[] && table.tableSize == n && numDeleted == 0 && !considerShrink
      ensures this.hash == hash && this.maxSize == maxSize && fresh(table.Repr)
    {
      this.hash, this.maxSize := hash, maxSize;
      table := new SparseTable<(K, V)>(n);
      numDeleted, considerShrink := 0, false;
      enlargeThreshold, shrinkThreshold := EnlargeSize(n), ShrinkSize(n);
      contents := map[];
      new;
      hide SparseTable.Valid, SparseTable.Separate, Sound, Holds, CountFull, CountErased, IsPow2, EnlargeSize, ShrinkSize, Flat, EmptyFrom;
      NothingStored<K, V>(n, hash);
      StartsCounted(table);
    }

    static lemma StartsCounted(t: SparseTable<(K, V)>)
      requires t.Valid()
      ensures t.numBuckets == CountFull(t.slots) && |t.slots| == t.tableSize
    {
      hide SparseTable.Separate, CountFull, Flat, EmptyFrom;
    }

    /** A table without any buckets, as the copy constructor starts with. */
    ghost predicate Unsized()
      reads this, table, table.Repr
    {
      Counted() && table.tableSize == 0 && contents == map[] && numDeleted == 0
    }

    constructor Bucketless(hash: K -> nat, maxSize: nat)
      ensures Unsized() && !considerShrink && this.hash == hash && this.maxSize == maxSize && fresh(table.Repr)
    {
      this.hash, this.maxSize := hash, maxSize;
      table := new SparseTable<(K, V)>(0);
      numDeleted, considerShrink := 0, false;
      enlargeThreshold, shrinkThreshold := EnlargeSize(0), ShrinkSize(0);
      contents := map[];
      new;
      hide SparseTable.Separate, Flat, EmptyFrom;
      assert table.slots == [];
    }

    /** The public constructor: 32 buckets, or as many as the expected number of elements needs. */
    static method Create(hash: K -> nat, maxSize: nat, expected: nat) returns (r: Outcome<SparseHashtable<K, V>>)
      ensures r.Ok? ==> fresh(r.value) && r.value.Valid() && r.value.contents == map[] && fresh(r.value.table.Repr)
      ensures r.LengthError? <==> expected >= EnlargeSize(MAX_BUCKETS)
      ensures r.Ok? ==> r.value.hash == hash && r.value.maxSize == maxSize && !r.value.considerShrink
      ensures r.Ok? ==> if expected == 0 then r.value.table.tableSize == DEFAULT_BUCKETS else IsLeast(r.value.table.tableSize, expected, 0)
    {
      var n := DEFAULT_BUCKETS;
      DefaultIsPow2();
      if expected != 0 {
        var least := MinBuckets(expected, 0);
        if least.LengthError? {
          return LengthError;
        }
        n := least.value;
      }
      var t := new SparseHashtable<K, V>.Bare(hash, maxSize, n);
      return Ok(t);
    }

    method ResetThresholds()
      modifies `enlargeThreshold, `shrinkThreshold, `considerShrink
      ensures enlargeThreshold == EnlargeSize(table.tableSize) && shrinkThreshold == ShrinkSize(table.tableSize)
      ensures !considerShrink
    {
      enlargeThreshold, shrinkThreshold := EnlargeSize(table.tableSize), ShrinkSize(table.tableSize);
      considerShrink := false;
    }

    // ----- lookup

    /** The load limit leaves a never-used bucket. */
    lemma LoadLeavesEmpty()
      requires Valid()
      ensures CountFull(table.slots) + CountErased(table.slots) < |table.slots| == table.tableSize
      ensures IsPow2(|table.slots|) && |table.slots| >= MIN_BUCKETS
    {
      hide CountFull, CountErased, IsPow2, SparseTable.Separate, Flat, EmptyFrom;
    }

    /** No more than half of the buckets are in use, tombstones included. */
    lemma HalfInUse()
      requires Valid()
      ensures 2 * (|contents| + numDeleted) <= table.tableSize
    {
      hide SparseTable.Valid, Sound, Holds, EnlargeSize;
      LoadFactors(table.tableSize);
    }

    /** Where a key is, or where it would be stored. */
    method FindPosition(key: K) returns (pos: Position)
      requires Valid()
      ensures IsPosition(table.slots, hash(key), contents, key, pos)
    {
      hide SparseTable.Valid, SparseTable.Test, SparseTable.TestStrict;
      hide Sound, Holds, Walking, Seen, Clogged, Probe, CountFull, CountErased, EnlargeSize, IsPosition, Reachable, FirstFree;
      LoadLeavesEmpty();
      ghost var slots, h := table.slots, hash(key);
      var n := table.tableSize;
      var numProbes: nat := 0;
      var bucket: nat := hash(key) % n;
      WalkStarts(slots, h, key);
      SeenNothing(slots, h, bucket);
      pos := AtEmpty(bucket);
      while true
        invariant numProbes < n && bucket < n
        invariant Walking(slots, h, key, numProbes, bucket) && Seen(slots, h, numProbes, pos)
        decreases n - numProbes
      {
        if !table.TestStrict(bucket) {
          WalkEnds(slots, hash, contents, key, numProbes, bucket, pos);
          return if pos.AtErased? then pos else AtEmpty(bucket);
        }
        ghost var was := pos;
        if table.Test(bucket) {
          var entry := table.UnsafeGet(bucket);
          if key == entry.0 {
            WalkFinds(slots, h, contents, key, bucket);
            return AtFull(bucket);
          }
        } else if pos.AtEmpty? {
          pos := AtErased(bucket);
        }
        WalkSees(slots, h, key, numProbes, bucket, was);
        numProbes := numProbes + 1;
        bucket := (bucket + numProbes) % n;
      }
    }

    /** The probe loop of `find` and `erase`: the bucket holding a key, if any. */
    method Locate(key: K) returns (r: Option<nat>)
      requires Valid()
      ensures r.Some? <==> key in contents
      ensures r.Some? ==> r.value < table.tableSize && table.slots[r.value] == Full((key, contents[key]))
    {
      hide SparseTable.Valid, SparseTable.Test, SparseTable.TestStrict;
      hide Sound, Holds, Walking, Clogged, Probe, CountFull, CountErased, EnlargeSize, Reachable;
      LoadLeavesEmpty();
      var n := table.tableSize;
      var numProbes: nat := 0;
      var bucket: nat := hash(key) % n;
      WalkStarts(table.slots, hash(key), key);
      while true
        invariant numProbes < n && bucket < n
        invariant Walking(table.slots, hash(key), key, numProbes, bucket)
        decreases n - numProbes
      {
        if !table.TestStrict(bucket) {
          WalkFails(table.slots, hash, contents, key, numProbes, bucket);
          return None;
        }
        if table.Test(bucket) {
          var entry := table.UnsafeGet(bucket);
          if key == entry.0 {
            WalkFinds(table.slots, hash(key), contents, key, bucket);
            return Some(bucket);
          }
        }
        WalkGoesOn(table.slots, hash(key), key, numProbes, bucket);
        numProbes := numProbes + 1;
        bucket := (bucket + numProbes) % n;
      }
    }

    method Find(key: K) returns (r: Option<V>)
      requires Valid()
      ensures r == if key in contents then Some(contents[key]) else None
    {
      hide SparseTable.Separate, Sound, Holds, CountFull, CountErased, Flat, EmptyFrom;
      var found := Locate(key);
      match found {
        case None => return None;
        case Some(bucket) =>
          var entry := table.UnsafeGet(bucket);
          return Some(entry.1);
      }
    }

    method Count(key: K) returns (n: nat)
      requires Valid()
      ensures n == if key in contents then 1 else 0
    {
      hide SparseTable.Valid, Sound, Holds, Reachable;
      var pos := FindPosition(key);
      n := if pos.AtFull? then 1 else 0;
    }

    method Erase(key: K) returns (n: nat)
      requires Valid()
      modifies this, table.Repr
      ensures Valid() && table == old(table) && fresh(table.Repr - old(table.Repr))
      ensures contents == old(contents) - {key} && n == (if key in old(contents) then 1 else 0)
      ensures table.tableSize == old(table.tableSize)
      ensures considerShrink == (old(considerShrink) || key in old(contents))
    {
      hide SparseTable.Valid, Sound, Holds, CountFull, CountErased, EnlargeSize, ShrinkSize;
      var found := Locate(key);
      match found {
        case None => return 0;
        case Some(bucket) =>
          EraseBucket(key, bucket);
          return 1;
      }
    }

    /** Turn a found binding into a tombstone. */
    method EraseBucket(key: K, bucket: nat)
      requires Valid() && bucket < table.tableSize && Keyed(table.slots[bucket], key)
      modifies this, table.Repr
      ensures Valid() && table == old(table) && fresh(table.Repr - old(table.Repr))
      ensures contents == old(contents) - {key} && considerShrink && table.tableSize == old(table.tableSize)
    {
      hide SparseTable.Separate, Sound, Holds, CountFull, CountErased, EnlargeSize, ShrinkSize, Reachable, Flat, EmptyFrom;
      EraseKeeps(table.slots, hash, contents, key, bucket);
      CountsAfterUpdate(table.slots, bucket, Erased);
      table.Erase(bucket);
      numDeleted := numDeleted + 1;
      considerShrink := true;
      contents := contents - {key};
    }

    // ----- storing

    /** Put a new binding into a bucket of its path that holds no value (`_insert_at` after its size check). */
    method StoreAt(key: K, v: V, bucket: nat, erased: bool)
      requires Valid() && key !in contents && bucket < table.tableSize && !table.slots[bucket].Full?
      requires Reachable(table.slots, hash(key), bucket) && erased == table.slots[bucket].Erased?
      requires !erased ==> table.numBuckets + numDeleted < EnlargeSize(table.tableSize)
      modifies this, table.Repr
      ensures Valid() && table == old(table) && fresh(table.Repr - old(table.Repr))
      ensures contents == old(contents)[key := v]
      ensures table.slots == old(table.slots)[bucket := Full((key, v))]
      ensures numDeleted == old(numDeleted) - (if erased then 1 else 0) && considerShrink == old(considerShrink)
    {
      hide SparseTable.Separate, Sound, Holds, CountFull, CountErased, EnlargeSize, ShrinkSize, Reachable, Flat, EmptyFrom;
      StoreKeeps(table.slots, hash, contents, key, v, bucket);
      CountsAfterUpdate(table.slots, bucket, Full((key, v)));
      if erased {
        numDeleted := numDeleted - 1;
      }
      table.Set(bucket, (key, v));
      contents := contents[key := v];
    }

    /** The probe loop of rehashing: without tombstones the first bucket holding no value is never used. */
    method FreeBucket(key: K) returns (bucket: nat)
      requires Valid() && numDeleted == 0 && key !in contents
      ensures bucket < table.tableSize && table.slots[bucket] == Empty && Reachable(table.slots, hash(key), bucket)
    {
      hide SparseTable.Valid, SparseTable.Test;
      hide Sound, Holds, Walking, Clogged, Probe, CountFull, CountErased, EnlargeSize, Reachable;
      LoadLeavesEmpty();
      var n := table.tableSize;
      var numProbes: nat := 0;
      bucket := hash(key) % n;
      WalkStarts(table.slots, hash(key), key);
      while table.Test(bucket)
        invariant numProbes < n && bucket < n
        invariant Walking(table.slots, hash(key), key, numProbes, bucket)
        decreases n - numProbes
      {
        KeyElsewhere(key, bucket);
        WalkGoesOn(table.slots, hash(key), key, numProbes, bucket);
        numProbes := numProbes + 1;
        bucket := (bucket + numProbes) % n;
      }
      NoErased(table.slots, bucket);
      WalkReaches(table.slots, hash(key), key, numProbes, bucket);
    }

    lemma KeyElsewhere(key: K, bucket: nat)
      requires Valid() && key !in contents && bucket < table.tableSize
      ensures !Keyed(table.slots[bucket], key)
    {
      hide SparseTable.Valid, Sound;
    }

    /** Store a binding into the never-used bucket that its probes found (`table.move`). */
    method MoveAt(key: K, v: V, bucket: nat)
      requires Valid() && key !in contents && bucket < table.tableSize && table.slots[bucket] == Empty
      requires Reachable(table.slots, hash(key), bucket) && table.numBuckets + numDeleted < EnlargeSize(table.tableSize)
      modifies this, table.Repr
      ensures Valid() && table == old(table) && fresh(table.Repr - old(table.Repr))
      ensures contents == old(contents)[key := v] && numDeleted == old(numDeleted) && considerShrink == old(considerShrink)
      ensures table.slots == old(table.slots)[bucket := Full((key, v))]
    {
      hide SparseTable.Separate, Sound, Holds, CountFull, CountErased, EnlargeSize, ShrinkSize, Reachable, Flat, EmptyFrom;
      StoreKeeps(table.slots, hash, contents, key, v, bucket);
      CountsAfterUpdate(table.slots, bucket, Full((key, v)));
      table.Move(bucket, (key, v));
      contents := contents[key := v];
    }

    // ----- emptying

    ghost function ClearedSize(): nat
      reads this, table
    {
      if contents == map[] && numDeleted == 0 then table.tableSize else DEFAULT_BUCKETS
    }

    method Clear()
      requires Valid() || Unsized()
      modifies this
      ensures old(Valid()) ==> Valid()
      ensures old(Unsized()) ==> Unsized()
      ensures fresh(table.Repr - old(table.Repr)) && contents == map[] && numDeleted == 0 && !considerShrink
      ensures table.tableSize == old(ClearedSize())
    {
      hide SparseTable.Separate, Sound, Holds, CountFull, CountErased, EnlargeSize, ShrinkSize, Flat, EmptyFrom, IsPow2;
      if table.numBuckets != 0 || numDeleted != 0 {
        DefaultIsPow2();
        table := new SparseTable<(K, V)>(DEFAULT_BUCKETS);
        NothingStored<K, V>(DEFAULT_BUCKETS, hash);
      }
      ResetThresholds();
      numDeleted := 0;
      contents := map[];
    }

    /** Give an empty table at least n buckets. */
    method GrowEmpty(n: nat)
      requires (Valid() || Unsized()) && contents == map[] && numDeleted == 0 && !considerShrink
      requires IsPow2(n) && MIN_BUCKETS <= n <= MAX_BUCKETS
      modifies this, table
      ensures Valid() && contents == map[] && numDeleted == 0 && !considerShrink
      ensures table == old(table) && fresh(table.Repr - old(table.Repr)) && table.tableSize == Larger(old(table.tableSize), n)
    {
      hide SparseTable.Separate, Sound, Holds, CountFull, CountErased, EnlargeSize, ShrinkSize, Flat, EmptyFrom, IsPow2;
      if n > table.tableSize {
        AllEmpty(table.slots);
        table.Resize(n);
        assert table.slots == Empties(n);
        NothingStored<K, V>(n, hash);
        ResetThresholds();
      }
    }

    // ----- rehashing

    /** The bindings before the iterator's position have been moved here; the rest are still to come. */
    ghost predicate Moving(it: DestructiveIterator<(K, V)>, source: seq<Slot<(K, V)>>)
      reads this, table, table.Repr, it, it.table, it.table.Repr
    {
      && it.Valid() && Flat(it.source, it.size) == source && it.pos <= |source| == it.size
      && Valid() && numDeleted == 0 && !considerShrink
      && ({this} + table.Repr) !! ({it as object} + it.table.Repr)
      && UniqueKeys(source) && CountFull(source) <= EnlargeSize(table.tableSize)
      && Holds(source, it.pos, contents) && |contents| == CountFull(source[..it.pos])
    }

    method MoveOne(it: DestructiveIterator<(K, V)>, ghost source: seq<Slot<(K, V)>>)
      requires Moving(it, source) && it.pos < it.size
      modifies this, table.Repr, it, it.table.Repr
      ensures Moving(it, source) && old(it.pos) < it.pos
      ensures table == old(table) && table.tableSize == old(table.tableSize)
      ensures fresh(table.Repr - old(table.Repr)) && fresh(it.table.Repr - old(it.table.Repr))
    {
      hide SparseTable.Valid, DestructiveIterator.Valid, DestructiveIterator.Draining, SparseTable.Separate;
      hide Sound, Holds, CountFull, CountErased, EnlargeSize, ShrinkSize, Flat, EmptyFrom, Reachable, UniqueKeys;
      ghost var pos := it.pos;
      var entry := it.Value();
      it.Next();
      HoldsStep(source, pos, it.pos, contents, entry.0, entry.1);
      CountFullGrows(source, it.pos, |source|);
      assert source[..|source|] == source;
      Meaning();
      var bucket := FreeBucket(entry.0);
      MoveAt(entry.0, entry.1, bucket);
    }

    /** The loop of `_move_from`: move every binding of ht here, freeing ht's groups on the way. */
    method MoveAll(ht: SparseHashtable<K, V>)
      requires Valid() && contents == map[] && numDeleted == 0 && !considerShrink
      requires ht.Valid() && ht.table.numBuckets <= EnlargeSize(table.tableSize)
      requires ({this} + table.Repr) !! ht.table.Repr
      modifies this, table.Repr, ht.table.Repr
      ensures Valid() && contents == old(ht.contents) && numDeleted == 0 && !considerShrink
      ensures table == old(table) && table.tableSize == old(table.tableSize) && fresh(table.Repr - old(table.Repr))
    {
      hide SparseTable.Valid, DestructiveIterator.Valid, DestructiveIterator.Draining, SparseTable.Separate;
      hide Sound, Holds, CountFull, CountErased, EnlargeSize, ShrinkSize, Flat, EmptyFrom, UniqueKeys;
      ghost var source, wanted := ht.table.slots, ht.contents;
      ht.Meaning();
      var it := new DestructiveIterator.Begin(ht.table);
      HoldsNothing(source, it.pos);
      while !it.AtEnd()
        invariant Moving(it, source) && it.table == old(ht.table) && fresh(it)
        invariant fresh(it.table.Repr - old(ht.table.Repr))
        invariant table == old(table) && table.tableSize == old(table.tableSize) && fresh(table.Repr - old(table.Repr))
        decreases it.size - it.pos
      {
        MoveOne(it, source);
      }
      HoldsUnique(source, |source|, contents, wanted);
    }

    /** `_move_from`: size this table, then move every binding of ht here. */
    method MoveFrom(mover: Mover, ht: SparseHashtable<K, V>, wanted: nat) returns (r: Outcome<()>)
      requires Valid() && ht.Valid() && ({this} + table.Repr) !! ({ht as object} + ht.table.Repr)
      modifies this, table.Repr, ht.table.Repr
      ensures r.LengthError? <==> mover == MoveDontCopy && (wanted > MAX_BUCKETS || |old(ht.contents)| >= EnlargeSize(MAX_BUCKETS))
      ensures r.LengthError? ==> ht.Valid() && ht.table.slots == old(ht.table.slots) && ht.table.Repr == old(ht.table.Repr)
      ensures r.Ok? ==> Valid() && contents == old(ht.contents) && numDeleted == 0 && !considerShrink
      ensures r.Ok? && mover == MoveDontGrow ==> table.tableSize == Larger(old(ClearedSize()), old(ht.table.tableSize))
      ensures r.Ok? && mover == MoveDontCopy ==>
                exists n: nat :: IsLeast(n, |contents|, wanted) && table.tableSize == Larger(old(ClearedSize()), n)
      ensures fresh(table.Repr - old(table.Repr))
    {
      hide SparseTable.Valid, SparseTable.Separate, Sound, Holds, CountFull, CountErased, EnlargeSize, ShrinkSize, IsPow2;
      ht.LoadLeavesEmpty();
      Clear();
      var resizeTo := ht.table.tableSize;
      if mover == MoveDontCopy {
        var least := MinBuckets(ht.table.numBuckets, wanted);
        if least.LengthError? {
          return LengthError;
        }
        resizeTo := least.value;
      }
      GrowEmpty(resizeTo);
      EnlargeGrows(resizeTo, table.tableSize);
      MoveAll(ht);
      return Ok(());
    }

    /** Exchange tables and counters with another hash table. */
    method Swap(other: SparseHashtable<K, V>)
      requires this != other
      modifies this, other
      ensures table == old(other.table) && numDeleted == old(other.numDeleted) && contents == old(other.contents)
      ensures other.table == old(table) && other.numDeleted == old(numDeleted) && other.contents == old(contents)
      ensures enlargeThreshold == EnlargeSize(table.tableSize) && shrinkThreshold == ShrinkSize(table.tableSize)
      ensures other.enlargeThreshold == EnlargeSize(other.table.tableSize) && other.shrinkThreshold == ShrinkSize(other.table.tableSize)
      ensures !considerShrink && !other.considerShrink
    {
      table, other.table := other.table, table;
      numDeleted, other.numDeleted := other.numDeleted, numDeleted;
      contents, other.contents := other.contents, contents;
      ResetThresholds();
      other.ResetThresholds();
    }

    /** Rehash: a temporary table of a wanted size takes over the bindings and is swapped in. */
    method Rehash(mover: Mover, wanted: nat) returns (r: Outcome<()>)
      requires Valid() && IsPow2(wanted) && MIN_BUCKETS <= wanted <= MAX_BUCKETS
      modifies this, table.Repr
      ensures Valid() && fresh(table.Repr - old(table.Repr)) && contents == old(contents)
      ensures r.LengthError? <==> mover == MoveDontCopy && |contents| >= EnlargeSize(MAX_BUCKETS)
      ensures r.LengthError? ==> table == old(table) && table.slots == old(table.slots) && numDeleted == old(numDeleted)
      ensures r.Ok? ==> fresh(table) && numDeleted == 0 && !considerShrink
      ensures r.Ok? && mover == MoveDontGrow ==> table.tableSize == Larger(wanted, old(table.tableSize))
      ensures r.Ok? && mover == MoveDontCopy ==> IsLeast(table.tableSize, |contents|, wanted)
    {
      hide SparseTable.Valid, SparseTable.Separate, Sound, Holds, CountFull, CountErased, EnlargeSize, ShrinkSize, IsPow2, IsLeast, Larger;
      var tmp := new SparseHashtable<K, V>.Bare(hash, maxSize, wanted);
      r := tmp.MoveFrom(mover, this, wanted);
      if r.LengthError? {
        return LengthError;
      }
      if mover == MoveDontCopy {
        ghost var n: nat :| IsLeast(n, |tmp.contents|, wanted) && tmp.table.tableSize == Larger(wanted, n);
        AtLeastWanted(n, |tmp.contents|, wanted);
      }
      assert fresh(tmp.table.Repr) && this !in tmp.table.Repr;
      ghost var was := tmp.table;
      tmp.Meaning();
      Swap(tmp);
      assert table == was && table.Valid() && Counted();
    }

    /** Get rid of the tombstones; a table of fewer than 32 buckets gets 32, as the temporary starts with that many. */
    method SquashDeleted()
      requires Valid()
      modifies this, table.Repr
      ensures Valid() && fresh(table.Repr - old(table.Repr)) && contents == old(contents) && numDeleted == 0
      ensures old(numDeleted) == 0 ==> table == old(table) && table.slots == old(table.slots)
      ensures old(numDeleted) != 0 ==> table.tableSize == Larger(DEFAULT_BUCKETS, old(table.tableSize))
    {
      hide SparseTable.Valid, SparseTable.Separate, Holds, CountFull, CountErased, ShrinkSize;
      if numDeleted != 0 {
        DefaultIsPow2();
        var _ := Rehash(MoveDontGrow, DEFAULT_BUCKETS);
      }
    }

    ghost predicate Underfull()
      reads this, table
    {
      table.numBuckets < ShrinkSize(table.tableSize) && table.tableSize > DEFAULT_BUCKETS
    }

    /** After erasures: halve the table while it is less than a fifth full, but not below 32 buckets. */
    method MaybeShrink() returns (shrunk: bool)
      requires Valid()
      modifies this, table.Repr
      ensures Valid() && fresh(table.Repr - old(table.Repr)) && contents == old(contents) && !considerShrink
      ensures shrunk <==> old(Underfull())
      ensures !shrunk ==> table == old(table) && table.slots == old(table.slots) && numDeleted == old(numDeleted)
      ensures shrunk ==> fresh(table) && numDeleted == 0 && IsShrunk(table.tableSize, |contents|, old(table.tableSize))
      ensures shrunk ==> table.numBuckets + 1 <= EnlargeSize(table.tableSize)
    {
      hide SparseTable.Valid, SparseTable.Separate, Holds, CountFull, CountErased, IsPow2, UniqueKeys, AllReachable, IsLeast;
      shrunk := false;
      if shrinkThreshold > 0 && table.numBuckets < shrinkThreshold && table.tableSize > DEFAULT_BUCKETS {
        var sz := ShrunkSize(table.numBuckets, table.tableSize);
        EnlargeGrows(sz, MAX_BUCKETS);
        var _ := Rehash(MoveDontCopy, sz);
        LeastIsWanted(table.tableSize, |contents|, sz);
        shrunk := true;
      }
      considerShrink := false;
    }

    /** Make room for delta more bindings; tells whether the table was rehashed. */
    method ResizeDelta(delta: nat) returns (r: Outcome<bool>)
      requires Valid() && delta < SIZE_LIMIT
      modifies this, table.Repr
      ensures Valid() && fresh(table.Repr - old(table.Repr)) && contents == old(contents)
      ensures r == Ok(false) ==> table == old(table) && table.slots == old(table.slots) && numDeleted == old(numDeleted)
      ensures r.Ok? && old(table.numBuckets + numDeleted) + delta < SIZE_LIMIT ==>
                table.numBuckets + numDeleted + delta <= EnlargeSize(table.tableSize)
      ensures r.LengthError? ==> table.numBuckets + numDeleted + delta >= EnlargeSize(MAX_BUCKETS)
      ensures r.LengthError? ==> table.numBuckets + numDeleted + delta > EnlargeSize(table.tableSize)
      ensures r == Ok(true) ==> fresh(table)
      ensures table != old(table) ==> fresh(table) && numDeleted == 0
      ensures !considerShrink
      ensures r.Ok? ==> Resized(table.tableSize, old(considerShrink && Underfull()), |contents|, old(table.tableSize), old(numDeleted), |contents| + delta)
      ensures delta == 1 && old(considerShrink && Underfull()) ==> r == Ok(true) && table.tableSize < old(table.tableSize)
    {
      hide SparseTable.Valid, SparseTable.Separate, Sound, Holds, CountFull, CountErased, ShrinkSize, EnlargeSize;
      var didResize := false;
      if considerShrink {
        didResize := MaybeShrink();
      }
      r := GrowFor(delta);
      if r == Ok(false) {
        r := Ok(didResize);
      }
    }

    /** Grow unless delta more bindings fit as the table is; tells whether it grew. */
    method GrowFor(delta: nat) returns (r: Outcome<bool>)
      requires Valid() && delta < SIZE_LIMIT
      modifies this, table.Repr
      ensures Valid() && fresh(table.Repr - old(table.Repr)) && contents == old(contents)
      ensures r != Ok(true) ==> table == old(table) && table.slots == old(table.slots) && numDeleted == old(numDeleted)
      ensures r.Ok? && old(table.numBuckets + numDeleted) + delta < SIZE_LIMIT ==>
                table.numBuckets + numDeleted + delta <= EnlargeSize(table.tableSize)
      ensures r.LengthError? ==> table.numBuckets + numDeleted + delta >= EnlargeSize(MAX_BUCKETS)
      ensures r.LengthError? ==> table.numBuckets + numDeleted + delta > EnlargeSize(table.tableSize)
      ensures old(table.numBuckets + numDeleted) + delta <= old(EnlargeSize(table.tableSize)) ==> r == Ok(false)
      ensures r == Ok(true) ==> fresh(table) && numDeleted == 0
      ensures considerShrink ==> old(considerShrink)
      ensures r.Ok? ==> SizeFor(table.tableSize, old(table.tableSize), old(table.numBuckets + numDeleted) + delta)
    {
      hide SparseTable.Valid, SparseTable.Separate, Holds, CountFull, CountErased, IsPow2, UniqueKeys, AllReachable;
      hide ShrinkSize;
      if table.numBuckets >= SIZE_LIMIT - 1 - delta {
        return LengthError;
      }
      var needed := (table.numBuckets + numDeleted + delta) % SIZE_LIMIT;
      if table.tableSize >= MIN_BUCKETS && needed <= enlargeThreshold {
        return Ok(false);
      }
      var neededSize := MinBuckets(needed, 0);
      if neededSize.LengthError? {
        return LengthError;
      }
      EnlargeGrows(neededSize.value, Larger(neededSize.value, table.tableSize));
      if neededSize.value <= table.tableSize {
        return Ok(false);
      }
      // The size that is at least the present one is never below neededSize, so the source's doubling of a smaller
      // size does not happen.
      var resizeTo := MinBuckets(needed, table.tableSize);
      assert Admissible(resizeTo.value, needed, 0);
      assert resizeTo.Ok? && resizeTo.value >= neededSize.value;
      EnlargeGrows(table.tableSize, resizeTo.value);
      EnlargeGrows(resizeTo.value, MAX_BUCKETS);
      var _ := Rehash(MoveDontCopy, resizeTo.value);
      LeastIsWanted(table.tableSize, |contents|, resizeTo.value);
      return Ok(true);
    }

    /** `resize`: shrink when erasures suggest it or nothing is asked for, then make room for the requested number in all. */
    method Resize(req: nat) returns (r: Outcome<()>)
      requires Valid() && req < SIZE_LIMIT
      modifies this, table.Repr
      ensures Valid() && fresh(table.Repr - old(table.Repr)) && contents == old(contents)
      ensures r.Ok? ==> Resized(table.tableSize, old((considerShrink || req == 0) && Underfull()), |contents|, old(table.tableSize), old(numDeleted), Larger(req, |contents|))
      ensures r.Ok? && old(numDeleted) + req < SIZE_LIMIT ==> numDeleted + req <= EnlargeSize(table.tableSize)
      ensures r.LengthError? ==> numDeleted + req >= EnlargeSize(MAX_BUCKETS) && numDeleted + req > EnlargeSize(table.tableSize)
    {
      hide SparseTable.Valid, SparseTable.Separate, Sound, Holds, CountFull, CountErased, ShrinkSize, EnlargeSize;
      if considerShrink || req == 0 {
        var _ := MaybeShrink();
      }
      if req > table.numBuckets {
        var g := ResizeDelta(req - table.numBuckets);
        if g.LengthError? {
          return LengthError;
        }
      }
      return Ok(());
    }

    /** The new binding took the first bucket of its path that held no value, a tombstone if there was one to reach. */
    ghost predicate StoredFirst(was: seq<Slot<(K, V)>>, deleted: nat, key: K, v: V, bucket: nat)
      reads this, table
    {
      && |was| > 0 && FirstFree(was, hash(key), bucket) && table.slots == was[bucket := Full((key, v))]
      && numDeleted == deleted - (if was[bucket] == Erased then 1 else 0)
    }

    /** `_insert_at`: the size check, then the store. */
    method InsertAt(key: K, v: V, pos: Position) returns (r: Outcome<nat>)
      requires Valid() && !pos.AtFull? && IsPosition(table.slots, hash(key), contents, key, pos)
      requires table.numBuckets + numDeleted + 1 <= EnlargeSize(table.tableSize)
      modifies this, table.Repr
      ensures Valid() && fresh(table.Repr - old(table.Repr))
      ensures r.LengthError? <==> |old(contents)| >= maxSize
      ensures r.LengthError? ==> contents == old(contents)
      ensures r.Ok? ==> contents == old(contents)[key := v] && r.value < table.tableSize
      ensures r.Ok? ==> table.slots[r.value] == Full((key, v))
      ensures if r.Ok? then StoredFirst(old(table.slots), old(numDeleted), key, v, r.value) else table.slots == old(table.slots) && numDeleted == old(numDeleted)
      ensures table == old(table) && considerShrink == old(considerShrink)
      ensures table.numBuckets + numDeleted <= old(table.numBuckets + numDeleted) + 1
      ensures table.tableSize == old(table.tableSize)
    {
      hide SparseTable.Separate, Sound, Holds, CountFull, CountErased, EnlargeSize, ShrinkSize, Reachable, FirstFree, Flat, EmptyFrom;
      if table.numBuckets >= maxSize {
        return LengthError;
      }
      CountsAfterUpdate(table.slots, pos.bucket, Full((key, v)));
      FreeReaches(table.slots, hash(key), pos.bucket);
      StoreAt(key, v, pos.bucket, pos.AtErased?);
      return Ok(pos.bucket);
    }

    /** `_insert_noresize`: keep an existing binding, else store the new one. */
    method InsertNoResize(key: K, v: V) returns (r: Outcome<(nat, bool)>)
      requires Valid() && table.numBuckets + numDeleted + 1 <= EnlargeSize(table.tableSize)
      modifies this, table.Repr
      ensures Valid() && fresh(table.Repr - old(table.Repr))
      ensures r.LengthError? <==> key !in old(contents) && |old(contents)| >= maxSize
      ensures r.LengthError? ==> contents == old(contents)
      ensures r.Ok? ==> contents == Insert1(old(contents), key, v) && r.value.1 == (key !in old(contents))
      ensures r.Ok? ==> r.value.0 < table.tableSize && table.slots[r.value.0] == Full((key, contents[key]))
      ensures if r.Ok? && r.value.1 then StoredFirst(old(table.slots), old(numDeleted), key, v, r.value.0)
              else table.slots == old(table.slots) && numDeleted == old(numDeleted)
      ensures table == old(table) && considerShrink == old(considerShrink)
      ensures table.numBuckets + numDeleted <= old(table.numBuckets + numDeleted) + 1
      ensures table.tableSize == old(table.tableSize)
    {
      hide SparseTable.Valid, SparseTable.Separate, Sound, Holds, CountFull, CountErased, EnlargeSize, ShrinkSize, Reachable, FirstFree, StoredFirst;
      var pos := FindPosition(key);
      if pos.AtFull? {
        return Ok((pos.bucket, false));
      }
      var at := InsertAt(key, v, pos);
      if at.LengthError? {
        return LengthError;
      }
      return Ok((at.value, true));
    }

    /** The bindings, the tombstones and delta more fill more than half of the buckets, and no larger table is allowed. */
    ghost predicate CannotGrow(delta: nat)
      reads this, table
    {
      |contents| + numDeleted + delta > EnlargeSize(table.tableSize) && |contents| + numDeleted + delta >= EnlargeSize(MAX_BUCKETS)
    }

    method Insert(key: K, v: V) returns (r: Outcome<(nat, bool)>)
      requires Valid()
      modifies this, table.Repr
      ensures Valid() && fresh(table.Repr - old(table.Repr))
      ensures r.LengthError? ==> contents == old(contents) && ((key !in contents && |contents| >= maxSize) || CannotGrow(1))
      ensures key !in old(contents) && |old(contents)| >= maxSize ==> r == LengthError
      ensures r.Ok? ==> contents == Insert1(old(contents), key, v) && r.value.1 == (key !in old(contents))
      ensures r.Ok? ==> r.value.0 < table.tableSize && table.slots[r.value.0] == Full((key, contents[key]))
      ensures r.Ok? ==> Resized(table.tableSize, old(considerShrink && Underfull()), |old(contents)|, old(table.tableSize), old(numDeleted), |old(contents)| + 1)
      ensures r.Ok? && table == old(table) && key !in old(contents) ==> StoredFirst(old(table.slots), old(numDeleted), key, v, r.value.0)
      ensures r.Ok? && table == old(table) && key in old(contents) ==> table.slots == old(table.slots) && numDeleted == old(numDeleted)
      ensures table != old(table) ==> fresh(table) && numDeleted == 0
    {
      hide SparseTable.Valid, SparseTable.Separate, Sound, Holds, CountFull, CountErased, ShrinkSize;
      hide Resized, StoredFirst, FirstFree, Underfull;
      var room := ResizeDelta(1);
      if room.LengthError? {
        return LengthError;
      }
      assert room.value || table.slots == old(table.slots);
      r := InsertNoResize(key, v);
    }

    /** Insert a range: room for all of it is made first; the elements stored before an error stay. */
    method InsertRange(entries: seq<(K, V)>) returns (r: Outcome<()>, ghost stored: nat)
      requires Valid()
      modifies this, table.Repr
      ensures Valid() && fresh(table.Repr - old(table.Repr))
      ensures stored <= |entries| && contents == InsertAll(old(contents), entries[..stored])
      ensures r.Ok? ==> contents == InsertAll(old(contents), entries)
      ensures r.Ok? ==> Resized(table.tableSize, old(considerShrink && Underfull()), |old(contents)|, old(table.tableSize), old(numDeleted), |old(contents)| + |entries|)
      ensures |entries| >= MAX_BUCKETS ==> r == LengthError && stored == 0
      ensures r.LengthError? && |entries| < MAX_BUCKETS ==>
                (stored == 0 && CannotGrow(|entries|)) || (stored < |entries| && entries[stored].0 !in contents && |contents| >= maxSize)
    {
      hide SparseTable.Valid, SparseTable.Separate, Sound, Holds, CountFull, CountErased, ShrinkSize;
      if |entries| >= MAX_BUCKETS {
        return LengthError, 0;
      }
      var room := ResizeDelta(|entries|);
      if room.LengthError? {
        return LengthError, 0;
      }
      hide Resized, Underfull, InsertAll, Insert1, FirstFree, StoredFirst;
      ghost var n := table.tableSize;
      for i := 0 to |entries|
        invariant Valid() && fresh(table.Repr - old(table.Repr)) && table.tableSize == n
        invariant contents == InsertAll(old(contents), entries[..i])
        invariant table.numBuckets + numDeleted + (|entries| - i) <= EnlargeSize(table.tableSize)
      {
        var one := InsertNoResize(entries[i].0, entries[i].1);
        if one.LengthError? {
          return LengthError, i;
        }
        InsertAllStep(old(contents), entries, i);
      }
      assert entries[..|entries|] == entries;
      return Ok(()), |entries|;
    }

    /** `find_or_insert`: the bucket of the key, bound to the default if it was absent. */
    method FindOrInsert(key: K, dflt: V) returns (r: Outcome<nat>)
      requires Valid()
      modifies this, table.Repr
      ensures Valid() && fresh(table.Repr - old(table.Repr))
      ensures r.LengthError? ==> contents == old(contents) && key !in contents && (|contents| >= maxSize || CannotGrow(1))
      ensures key !in old(contents) && |old(contents)| >= maxSize ==> r == LengthError
      ensures r.Ok? ==> contents == Insert1(old(contents), key, dflt)
      ensures r.Ok? ==> r.value < table.tableSize && table.slots[r.value] == Full((key, contents[key]))
      ensures key in old(contents) ==> r.Ok? && table == old(table) && table.slots == old(table.slots) && numDeleted == old(numDeleted)
      ensures r.Ok? && key !in old(contents) ==>
                Resized(table.tableSize, old(considerShrink && Underfull()), |old(contents)|, old(table.tableSize), old(numDeleted), |old(contents)| + 1)
      ensures r.Ok? && table == old(table) && key !in old(contents) ==> StoredFirst(old(table.slots), old(numDeleted), key, dflt, r.value)
      ensures table != old(table) ==> fresh(table) && numDeleted == 0
    {
      hide SparseTable.Valid, SparseTable.Separate, Sound, Holds, CountFull, CountErased, ShrinkSize, Reachable;
      hide Resized, StoredFirst, FirstFree, Underfull;
      var pos := FindPosition(key);
      if pos.AtFull? {
        return Ok(pos.bucket);
      }
      var room := ResizeDelta(1);
      match room {
        case LengthError =>
          return LengthError;
        case Ok(true) =>
          var one := InsertNoResize(key, dflt);
          r := if one.Ok? then Ok(one.value.0) else LengthError;
        case Ok(false) =>
          r := InsertAt(key, dflt, pos);
      }
    }

    /** Assignment through the reference that `find_or_insert` returns. */
    method Assign(bucket: nat, key: K, v: V)
      requires Valid() && bucket < table.tableSize && Keyed(table.slots[bucket], key)
      modifies this, table.Repr
      ensures Valid() && fresh(table.Repr - old(table.Repr)) && contents == old(contents)[key := v]
    {
      hide SparseTable.Separate, Sound, Holds, CountFull, CountErased, EnlargeSize, ShrinkSize, Reachable, Flat, EmptyFrom;
      AssignKeeps(table.slots, hash, contents, key, v, bucket);
      CountsAfterUpdate(table.slots, bucket, Full((key, v)));
      table.Set(bucket, (key, v));
      contents := contents[key := v];
    }

    /** The bindings before the iterator's position have been copied here. */
    ghost predicate Copying(it: NeIterator<(K, V)>, source: seq<Slot<(K, V)>>)
      reads this, table, table.Repr, it, it.table, it.table.Repr
    {
      && it.Valid() && it.table.slots == source && it.pos <= |source| == it.table.tableSize
      && Valid() && numDeleted == 0
      && ({this} + table.Repr) !! ({it as object} + it.table.Repr)
      && UniqueKeys(source) && CountFull(source) <= EnlargeSize(table.tableSize)
      && Holds(source, it.pos, contents) && |contents| == CountFull(source[..it.pos])
    }

    method CopyOne(it: NeIterator<(K, V)>, ghost source: seq<Slot<(K, V)>>)
      requires Copying(it, source) && it.pos < |source|
      modifies this, table.Repr, it
      ensures Copying(it, source) && old(it.pos) < it.pos
      ensures table == old(table) && table.tableSize == old(table.tableSize) && fresh(table.Repr - old(table.Repr))
    {
      hide SparseTable.Valid, NeIterator.Valid, SparseTable.Separate;
      hide Sound, Holds, CountFull, CountErased, EnlargeSize, ShrinkSize, Flat, EmptyFrom, Reachable, UniqueKeys;
      ghost var pos := it.pos;
      var entry := it.Value();
      it.Next();
      HoldsStep(source, pos, it.pos, contents, entry.0, entry.1);
      CountFullGrows(source, it.pos, |source|);
      assert source[..|source|] == source;
      Meaning();
      var bucket := FreeBucket(entry.0);
      StoreAt(entry.0, entry.1, bucket, false);
    }

    /** The loop of `_copy_from`: store every binding of ht here, leaving ht as it is. */
    method CopyAll(ht: SparseHashtable<K, V>)
      requires Valid() && contents == map[] && numDeleted == 0
      requires ht.Valid() && ht.table.numBuckets <= EnlargeSize(table.tableSize)
      requires ({this} + table.Repr) !! ({ht as object} + ht.table.Repr)
      modifies this, table.Repr
      ensures Valid() && contents == ht.contents && numDeleted == 0
      ensures table == old(table) && table.tableSize == old(table.tableSize) && fresh(table.Repr - old(table.Repr))
    {
      hide SparseTable.Valid, NeIterator.Valid, SparseTable.Separate;
      hide Sound, Holds, CountFull, CountErased, EnlargeSize, ShrinkSize, Flat, EmptyFrom, Reachable, UniqueKeys;
      ghost var source, wanted := ht.table.slots, ht.contents;
      ht.Meaning();
      var it := new NeIterator.Begin(ht.table);
      HoldsNothing(source, it.pos);
      while !it.AtEnd()
        invariant Copying(it, source) && fresh(it) && it.table == ht.table
        invariant table == old(table) && table.tableSize == old(table.tableSize) && fresh(table.Repr - old(table.Repr))
        decreases |source| - it.pos
      {
        CopyOne(it, source);
      }
      HoldsUnique(source, |source|, contents, wanted);
    }

    /** `_copy_from`: empty and size this table, then store every binding of ht here. */
    method CopyFrom(ht: SparseHashtable<K, V>, wanted: nat) returns (r: Outcome<()>)
      requires Valid() || Unsized()
      requires ht.Valid() && ({this} + table.Repr) !! ({ht as object} + ht.table.Repr)
      modifies this, table.Repr
      ensures r.LengthError? <==> wanted > MAX_BUCKETS || |ht.contents| >= EnlargeSize(MAX_BUCKETS)
      ensures r.LengthError? ==> contents == map[]
      ensures r.Ok? ==> Valid() && contents == ht.contents && numDeleted == 0
      ensures r.Ok? ==> exists n: nat :: IsLeast(n, |contents|, wanted) && table.tableSize == Larger(old(ClearedSize()), n)
      ensures fresh(table.Repr - old(table.Repr))
    {
      hide SparseTable.Valid, SparseTable.Separate, Sound, Holds, CountFull, CountErased, EnlargeSize, ShrinkSize, IsPow2;
      Clear();
      var least := MinBuckets(ht.table.numBuckets, wanted);
      if least.LengthError? {
        return LengthError;
      }
      GrowEmpty(least.value);
      EnlargeGrows(least.value, table.tableSize);
      CopyAll(ht);
      return Ok(());
    }

    /** The copy constructor. */
    static method Copy(ht: SparseHashtable<K, V>, wanted: nat) returns (r: Outcome<SparseHashtable<K, V>>)
      requires ht.Valid()
      ensures r.LengthError? <==> wanted > MAX_BUCKETS || |ht.contents| >= EnlargeSize(MAX_BUCKETS)
      ensures r.Ok? ==> fresh(r.value) && r.value.Valid() && fresh(r.value.table.Repr)
      ensures r.Ok? ==> r.value.contents == ht.contents && r.value.numDeleted == 0
      ensures r.Ok? ==> IsLeast(r.value.table.tableSize, |ht.contents|, wanted)
    {
      hide SparseTable.Valid, SparseTable.Separate, Sound, Holds, CountFull, CountErased, EnlargeSize, ShrinkSize, IsPow2, IsLeast;
      var t := new SparseHashtable<K, V>.Bucketless(ht.hash, ht.maxSize);
      var done := t.CopyFrom(ht, wanted);
      if done.LengthError? {
        return LengthError;
      }
      return Ok(t);
    }

    /** `operator==`: same size and every binding found in the other table. */
    method Equals(other: SparseHashtable<K, V>) returns (eq: bool)
      requires Valid() && other.Valid()
      ensures eq <==> contents == other.contents
    {
      hide SparseTable.Valid, NeIterator.Valid, SparseTable.Separate, DestructiveIterator.Valid;
      hide Sound, CountFull, CountErased, EnlargeSize, ShrinkSize, Flat, EmptyFrom, Reachable, Holds;
      if this == other {
        return true;
      }
      Meaning();
      other.Meaning();
      if table.numBuckets != other.table.numBuckets {
        return false;
      }
      ghost var seen: map<K, V> := map[];
      var it := new NeIterator.Begin(table);
      HoldsNothing(table.slots, it.pos);
      while !it.AtEnd()
        invariant it.Valid() && it.table == table && it.pos <= |table.slots|
        invariant Holds(table.slots, it.pos, seen)
        invariant forall key :: key in seen ==> key in other.contents && other.contents[key] == seen[key]
        decreases |table.slots| - it.pos
      {
        ghost var pos := it.pos;
        var entry := it.Value();
        var found := other.Find(entry.0);
        if found != Some(entry.1) {
          WalkFinds(table.slots, 0, contents, entry.0, pos);
          return false;
        }
        it.Next();
        HoldsStep(table.slots, pos, it.pos, seen, entry.0, entry.1);
        seen := seen[entry.0 := entry.1];
      }
      HoldsUnique(table.slots, |table.slots|, seen, contents);
      SameSizeSubmap(contents, other.contents);
      return true;
    }

    /** What validity says, without its parts. */
    lemma Meaning()
      requires Valid()
      ensures table.Valid() && this !in table.Repr && |table.slots| == table.tableSize
      ensures Sound(table.slots, hash) && UniqueKeys(table.slots) && Holds(table.slots, table.tableSize, contents)
      ensures |contents| == table.numBuckets == CountFull(table.slots) && numDeleted == CountErased(table.slots)
      ensures table.numBuckets + numDeleted <= EnlargeSize(table.tableSize)
    {
    }
  }

  lemma WalkReaches<K, V>(slots: seq<Slot<(K, V)>>, h: nat, key: K, k: nat, b: nat)
    requires Walking(slots, h, key, k, b)
    ensures Reachable(slots, h, b)
  {
    CloggedReaches(slots, h, k);
  }

  lemma SameSizeSubmap<K, V>(m: map<K, V>, m': map<K, V>)
    requires |m| == |m'| && forall key :: key in m ==> key in m' && m'[key] == m[key]
    ensures m == m'
  {
    assert m.Keys <= m'.Keys;
    SameSizeSubset(m.Keys, m'.Keys);
  }

  lemma SameSizeSubset<K>(s: set<K>, s': set<K>)
    requires s <= s' && |s| == |s'|
    ensures s == s'
  {
    assert |s' - s| == |s'| - |s|;
  }
}
