/** What a hash table's buckets mean, and what storing and erasing do to that meaning. */
module HashSpec {
  import opened SparseGroups
  import opened SparseTables
  import opened Probing

  predicate Keyed<K(==), V>(s: Slot<(K, V)>, key: K) {
    s.Full? && s.value.0 == key
  }

  /** The first k probes of a hash value meet no never-used bucket. */
  ghost predicate Clogged<T>(slots: seq<Slot<T>>, h: nat, k: nat)
    requires |slots| > 0
  {
    forall i: nat :: i < k ==> slots[Probe(h, i, |slots|)] != Empty
  }

  /** Bucket b is on the probe path of h, and every earlier bucket of the path is full or erased. */
  ghost predicate Reachable<T>(slots: seq<Slot<T>>, h: nat, b: nat)
    requires |slots| > 0
  {
    exists k: nat :: k < |slots| && Probe(h, k, |slots|) == b && Clogged(slots, h, k)
  }

  /** A probe for key has made k fruitless steps. */
  ghost predicate Walked<K, V>(slots: seq<Slot<(K, V)>>, h: nat, key: K, k: nat)
    requires |slots| > 0
  {
    && k < |slots|
    && Clogged(slots, h, k)
    && forall i: nat :: i < k ==> !Keyed(slots[Probe(h, i, |slots|)], key)
  }

  /** The first bucket on the path of h that holds no value: every earlier one is full. */
  ghost predicate FirstFree<T>(slots: seq<Slot<T>>, h: nat, b: nat)
    requires |slots| > 0
  {
    && b < |slots| && !slots[b].Full?
    && exists k: nat :: k < |slots| && Probe(h, k, |slots|) == b && forall i: nat :: i < k ==> slots[Probe(h, i, |slots|)].Full?
  }

  /** Where a key is, or where it would be stored: the first erased bucket of its walk, else the empty one at its end. */
  datatype Position = AtEmpty(bucket: nat) | AtErased(bucket: nat) | AtFull(bucket: nat)

  ghost predicate IsPosition<K, V>(slots: seq<Slot<(K, V)>>, h: nat, m: map<K, V>, key: K, pos: Position) {
    && pos.bucket < |slots|
    && (pos.AtFull? <==> key in m)
    && match pos {
      case AtFull(b) => slots[b] == Full((key, m[key]))
      case AtErased(b) => slots[b] == Erased && FirstFree(slots, h, b)
      case AtEmpty(b) => slots[b] == Empty && FirstFree(slots, h, b)
    }
  }

  lemma FreeReaches<T>(slots: seq<Slot<T>>, h: nat, b: nat)
    requires |slots| > 0 && FirstFree(slots, h, b)
    ensures Reachable(slots, h, b)
  {
    hide Probe;
    var k: nat :| k < |slots| && Probe(h, k, |slots|) == b && forall i: nat :: i < k ==> slots[Probe(h, i, |slots|)].Full?;
    assert Clogged(slots, h, k);
  }

  /** There is at most one such bucket, and if a tombstone can be reached at all, a tombstone is the first. */
  lemma FirstIsTombstone<T>(slots: seq<Slot<T>>, h: nat, b: nat, t: nat)
    requires |slots| > 0 && FirstFree(slots, h, b)
    ensures FirstFree(slots, h, t) ==> t == b
    ensures t < |slots| && slots[t] == Erased && Reachable(slots, h, t) ==> slots[b] == Erased
  {
    hide Probe;
  }

  ghost predicate UniqueKeys<K, V>(slots: seq<Slot<(K, V)>>) {
    forall b, c :: 0 <= b < c < |slots| && slots[b].Full? && slots[c].Full? ==> slots[b].value.0 != slots[c].value.0
  }

  ghost predicate AllReachable<K, V>(slots: seq<Slot<(K, V)>>, hash: K -> nat)
    requires |slots| > 0
  {
    forall b :: 0 <= b < |slots| && slots[b].Full? ==> Reachable(slots, hash(slots[b].value.0), b)
  }

  ghost predicate Sound<K, V>(slots: seq<Slot<(K, V)>>, hash: K -> nat) {
    IsPow2(|slots|) && |slots| >= 4 && UniqueKeys(slots) && AllReachable(slots, hash)
  }

  /** The buckets below hi hold exactly the bindings of m. */
  ghost predicate Holds<K, V>(slots: seq<Slot<(K, V)>>, hi: nat, m: map<K, V>) {
    && hi <= |slots|
    && (forall b :: 0 <= b < hi && slots[b].Full? ==> slots[b].value.0 in m && m[slots[b].value.0] == slots[b].value.1)
    && (forall key :: key in m ==> exists b :: 0 <= b < hi && Keyed(slots[b], key))
  }

  lemma HoldsUnique<K, V>(slots: seq<Slot<(K, V)>>, hi: nat, m: map<K, V>, m': map<K, V>)
    requires Holds(slots, hi, m) && Holds(slots, hi, m')
    ensures m == m'
  {
    forall key | key in m
      ensures key in m' && m[key] == m'[key]
    {
      var b :| 0 <= b < hi && Keyed(slots[b], key);
    }
    forall key | key in m'
      ensures key in m
    {
      var b :| 0 <= b < hi && Keyed(slots[b], key);
    }
  }

  /** The walk of a key that is now at bucket b. */
  ghost predicate Walking<K, V>(slots: seq<Slot<(K, V)>>, h: nat, key: K, k: nat, b: nat) {
    |slots| > 0 && Walked(slots, h, key, k) && b == Probe(h, k, |slots|)
  }

  /** The walk has seen nothing but values, or pos is the first tombstone it saw. */
  ghost predicate Seen<T>(slots: seq<Slot<T>>, h: nat, k: nat, pos: Position)
    requires |slots| > 0
  {
    && !pos.AtFull?
    && (pos.AtEmpty? ==> forall i: nat :: i < k ==> slots[Probe(h, i, |slots|)].Full?)
    && (pos.AtErased? ==> pos.bucket < |slots| && slots[pos.bucket] == Erased && FirstFree(slots, h, pos.bucket))
  }

  lemma SeenNothing<T>(slots: seq<Slot<T>>, h: nat, b: nat)
    requires |slots| > 0
    ensures Seen(slots, h, 0, AtEmpty(b))
  {
  }

  /** One bucket more: a value, or a tombstone, which is noted if it is the first. */
  lemma SeenMore<T>(slots: seq<Slot<T>>, h: nat, k: nat, pos: Position)
    requires |slots| > 0 && k < |slots| && Seen(slots, h, k, pos) && slots[Probe(h, k, |slots|)] != Empty
    ensures var b := Probe(h, k, |slots|);
            Seen(slots, h, k + 1, if slots[b] == Erased && pos.AtEmpty? then AtErased(b) else pos)
  {
    hide Probe;
  }

  /** A walk that ends at a never-used bucket has found where to store. */
  lemma SeenAll<T>(slots: seq<Slot<T>>, h: nat, k: nat, pos: Position)
    requires |slots| > 0 && k < |slots| && Seen(slots, h, k, pos) && slots[Probe(h, k, |slots|)] == Empty
    ensures !pos.AtFull? && FirstFree(slots, h, if pos.AtErased? then pos.bucket else Probe(h, k, |slots|))
    ensures pos.AtErased? ==> slots[pos.bucket] == Erased
  {
    hide Probe;
  }

  lemma CloggedReaches<T>(slots: seq<Slot<T>>, h: nat, k: nat)
    requires |slots| > 0 && k < |slots| && Clogged(slots, h, k)
    ensures Reachable(slots, h, Probe(h, k, |slots|))
  {
  }

  lemma WalkStarts<K, V>(slots: seq<Slot<(K, V)>>, h: nat, key: K)
    requires |slots| > 0
    ensures Walking(slots, h, key, 0, h % |slots|)
  {
    ProbeStep(h, 0, |slots|);
  }

  /** A never-used bucket on the walk proves that the key is absent. */
  lemma WalkFails<K, V>(slots: seq<Slot<(K, V)>>, hash: K -> nat, m: map<K, V>, key: K, k: nat, b: nat)
    requires Sound(slots, hash) && Holds(slots, |slots|, m)
    requires Walking(slots, hash(key), key, k, b) && slots[b] == Empty
    ensures key !in m
  {
    CloggedReaches(slots, hash(key), k);
    forall c | 0 <= c < |slots| && Reachable(slots, hash(key), c)
      ensures !Keyed(slots[c], key)
    {
      var j: nat :| j < |slots| && Probe(hash(key), j, |slots|) == c && Clogged(slots, hash(key), j);
      assert j <= k;
    }
  }

  /** The key itself ends the walk. */
  lemma WalkFinds<K, V>(slots: seq<Slot<(K, V)>>, h: nat, m: map<K, V>, key: K, b: nat)
    requires Holds(slots, |slots|, m) && b < |slots| && Keyed(slots[b], key)
    ensures key in m && slots[b] == Full((key, m[key])) && IsPosition(slots, h, m, key, AtFull(b))
  {
  }

  /** While a never-used bucket exists, a walk over used buckets has a next step. */
  lemma WalkGoesOn<K, V>(slots: seq<Slot<(K, V)>>, h: nat, key: K, k: nat, b: nat)
    requires IsPow2(|slots|) && CountFull(slots) + CountErased(slots) < |slots|
    requires Walking(slots, h, key, k, b) && slots[b] != Empty && !Keyed(slots[b], key)
    ensures k + 1 < |slots|
    ensures Walking(slots, h, key, k + 1, (b + (k + 1)) % |slots|)
  {
    CloggedReaches(slots, h, k);
    ProbeStep(h, k, |slots|);
    assert Clogged(slots, h, k + 1);
    if k + 1 == |slots| {
      var c := SomeEmpty(slots);
      ProbesCover(h, |slots|, c);
    }
  }

  /** One bucket more without finding the key: the first tombstone is noted. */
  lemma WalkSees<K, V>(slots: seq<Slot<(K, V)>>, h: nat, key: K, k: nat, b: nat, pos: Position)
    requires IsPow2(|slots|) && CountFull(slots) + CountErased(slots) < |slots|
    requires Walking(slots, h, key, k, b) && Seen(slots, h, k, pos) && slots[b] != Empty && !Keyed(slots[b], key)
    ensures k + 1 < |slots| && Walking(slots, h, key, k + 1, (b + (k + 1)) % |slots|)
    ensures Seen(slots, h, k + 1, if slots[b] == Erased && pos.AtEmpty? then AtErased(b) else pos)
  {
    hide IsPow2, Seen, CountFull, CountErased;
    SeenMore(slots, h, k, pos);
    WalkGoesOn(slots, h, key, k, b);
  }

  /** A never-used bucket: the key is absent, and its place is known. */
  lemma WalkEnds<K, V>(slots: seq<Slot<(K, V)>>, hash: K -> nat, m: map<K, V>, key: K, k: nat, b: nat, pos: Position)
    requires Sound(slots, hash) && Holds(slots, |slots|, m)
    requires Walking(slots, hash(key), key, k, b) && Seen(slots, hash(key), k, pos) && slots[b] == Empty
    ensures IsPosition(slots, hash(key), m, key, if pos.AtErased? then pos else AtEmpty(b))
  {
    hide Sound, Holds, Seen;
    WalkFails(slots, hash, m, key, k, b);
    SeenAll(slots, hash(key), k, pos);
  }

  lemma {:induction false} SomeEmpty<T>(slots: seq<Slot<T>>) returns (b: nat)
    requires CountFull(slots) + CountErased(slots) < |slots|
    ensures b < |slots| && slots[b] == Empty
  {
    var last := |slots| - 1;
    if slots[last] == Empty {
      b := last;
    } else {
      b := SomeEmpty(slots[..last]);
    }
  }

  /** Using a bucket never shortens the clogged part of a path. */
  lemma UsedStaysClogged<T>(slots: seq<Slot<T>>, pos: nat, s: Slot<T>, h: nat, b: nat)
    requires pos < |slots| && s != Empty && Reachable(slots, h, b)
    ensures Reachable(slots[pos := s], h, b)
  {
    var k: nat :| k < |slots| && Probe(h, k, |slots|) == b && Clogged(slots, h, k);
    assert Clogged(slots[pos := s], h, k);
  }

  /** Storing an absent key at the first erased bucket of its walk, or at its end. */
  lemma StoreKeeps<K, V>(slots: seq<Slot<(K, V)>>, hash: K -> nat, m: map<K, V>, key: K, v: V, pos: nat)
    requires Sound(slots, hash) && Holds(slots, |slots|, m) && key !in m
    requires pos < |slots| && Reachable(slots, hash(key), pos) && !slots[pos].Full?
    ensures var slots' := slots[pos := Full((key, v))];
            Sound(slots', hash) && Holds(slots', |slots'|, m[key := v])
    ensures |m[key := v]| == |m| + 1
  {
    var s := Full((key, v));
    var slots' := slots[pos := s];
    forall b | 0 <= b < |slots'| && slots'[b].Full?
      ensures Reachable(slots', hash(slots'[b].value.0), b)
    {
      if b == pos {
        UsedStaysClogged(slots, pos, s, hash(key), pos);
      } else {
        assert Reachable(slots, hash(slots[b].value.0), b);
        UsedStaysClogged(slots, pos, s, hash(slots[b].value.0), b);
      }
    }
    assert UniqueKeys(slots');
    var m' := m[key := v];
    forall key' | key' in m'
      ensures exists b :: 0 <= b < |slots'| && Keyed(slots'[b], key')
    {
      if key' == key {
        assert Keyed(slots'[pos], key);
      } else {
        var b :| 0 <= b < |slots| && Keyed(slots[b], key');
        assert Keyed(slots'[b], key');
      }
    }
  }

  /** Overwriting the value of a stored key. */
  lemma AssignKeeps<K, V>(slots: seq<Slot<(K, V)>>, hash: K -> nat, m: map<K, V>, key: K, v: V, b: nat)
    requires Sound(slots, hash) && Holds(slots, |slots|, m) && b < |slots| && Keyed(slots[b], key)
    ensures var slots' := slots[b := Full((key, v))];
            Sound(slots', hash) && Holds(slots', |slots'|, m[key := v])
    ensures |m[key := v]| == |m|
  {
    var s := Full((key, v));
    var slots' := slots[b := s];
    forall c | 0 <= c < |slots'| && slots'[c].Full?
      ensures Reachable(slots', hash(slots'[c].value.0), c)
    {
      assert Reachable(slots, hash(slots[c].value.0), c);
      UsedStaysClogged(slots, b, s, hash(slots[c].value.0), c);
    }
    assert m[key := v].Keys == m.Keys;
    var m' := m[key := v];
    forall key' | key' in m'
      ensures exists c :: 0 <= c < |slots'| && Keyed(slots'[c], key')
    {
      var c :| 0 <= c < |slots| && Keyed(slots[c], key');
      assert Keyed(slots'[c], key');
    }
  }

  /** Erasing leaves a tombstone, so the paths through the bucket stay intact. */
  lemma EraseKeeps<K, V>(slots: seq<Slot<(K, V)>>, hash: K -> nat, m: map<K, V>, key: K, b: nat)
    requires Sound(slots, hash) && Holds(slots, |slots|, m) && b < |slots| && Keyed(slots[b], key)
    ensures var slots' := slots[b := Erased];
            Sound(slots', hash) && Holds(slots', |slots'|, m - {key})
    ensures |m - {key}| == |m| - 1
  {
    var slots' := slots[b := Erased];
    forall c | 0 <= c < |slots'| && slots'[c].Full?
      ensures Reachable(slots', hash(slots'[c].value.0), c)
    {
      assert Reachable(slots, hash(slots[c].value.0), c);
      UsedStaysClogged(slots, b, Erased, hash(slots[c].value.0), c);
    }
    assert UniqueKeys(slots');
    assert (m - {key}).Keys == m.Keys - {key};
    assert |(m - {key}).Keys| == |m.Keys| - 1;
    forall key' | key' in m - {key}
      ensures exists c :: 0 <= c < |slots'| && Keyed(slots'[c], key')
    {
      var c :| 0 <= c < |slots| && Keyed(slots[c], key');
      assert Keyed(slots'[c], key');
    }
  }

  /** A table without values or tombstones. */
  lemma {:induction false} NothingStored<K, V>(n: nat, hash: K -> nat)
    requires IsPow2(n) && n >= 4
    ensures Sound(Empties<(K, V)>(n), hash) && Holds(Empties<(K, V)>(n), n, map[])
    ensures CountFull(Empties<(K, V)>(n)) == 0 && CountErased(Empties<(K, V)>(n)) == 0
  {
    NoneCounted<(K, V)>(n);
  }

  /** Buckets without values and tombstones are empty. */
  lemma {:induction false} AllEmpty<T>(slots: seq<Slot<T>>)
    requires CountFull(slots) == 0 && CountErased(slots) == 0
    ensures slots == Empties(|slots|)
  {
    if slots != [] {
      AllEmpty(slots[..|slots| - 1]);
    }
  }

  /** Moving on by one full bucket adds exactly its binding. */
  lemma HoldsStep<K, V>(slots: seq<Slot<(K, V)>>, lo: nat, hi: nat, m: map<K, V>, key: K, v: V)
    requires UniqueKeys(slots) && Holds(slots, lo, m) && lo < hi <= |slots|
    requires slots[lo] == Full((key, v)) && (forall b :: lo < b < hi ==> !slots[b].Full?)
    ensures key !in m && Holds(slots, hi, m[key := v]) && |m[key := v]| == |m| + 1
    ensures CountFull(slots[..hi]) == CountFull(slots[..lo]) + 1
  {
    assert key !in m by {
      assert forall b :: 0 <= b < lo ==> !Keyed(slots[b], key);
    }
    var m' := m[key := v];
    forall key' | key' in m'
      ensures exists b :: 0 <= b < hi && Keyed(slots[b], key')
    {
      if key' == key {
        assert Keyed(slots[lo], key);
      } else {
        var b :| 0 <= b < lo && Keyed(slots[b], key');
      }
    }
    CountStep(slots, lo);
    CountStays(slots, lo + 1, hi);
  }

  lemma {:induction false} CountStays<T>(slots: seq<Slot<T>>, lo: nat, hi: nat)
    requires lo <= hi <= |slots| && forall b :: lo <= b < hi ==> !slots[b].Full?
    ensures CountFull(slots[..hi]) == CountFull(slots[..lo])
    decreases hi
  {
    if lo < hi {
      CountStays(slots, lo, hi - 1);
      CountStep(slots, hi - 1);
    }
  }

  lemma HoldsNothing<K, V>(slots: seq<Slot<(K, V)>>, hi: nat)
    requires hi <= |slots| && forall b :: 0 <= b < hi ==> !slots[b].Full?
    ensures Holds(slots, hi, map[]) && CountFull(slots[..hi]) == 0
  {
    NothingBelow(slots);
    CountStays(slots, 0, hi);
  }

  lemma {:induction false} NoErased<T>(slots: seq<Slot<T>>, b: nat)
    requires CountErased(slots) == 0 && b < |slots|
    ensures !slots[b].Erased?
  {
    if b < |slots| - 1 {
      NoErased(slots[..|slots| - 1], b);
    }
  }

  lemma {:induction false} NoneCounted<T>(n: nat)
    ensures CountFull(Empties<T>(n)) == 0 && CountErased(Empties<T>(n)) == 0
  {
    CountsAfterGrowth<T>([], n);
    assert [] + Empties<T>(n) == Empties<T>(n);
  }
}
