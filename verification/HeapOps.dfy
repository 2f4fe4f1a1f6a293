/** The header writes of the allocator, and the replacements they amount to. */
module HeapOps {
  import opened TreeIndexes
  import opened ChunkLinks
  import opened ChunkHeads
  import opened BinSpec
  import opened HeapSpec
  import opened HeapState

  // ----- header writes

  function SetPinuse(h: Heads, n: nat): Heads {
    h[n := (if n in h then h[n] else Head(0, false, false)).(pinuse := true)]
  }

  function ClearPinuse(h: Heads, n: nat): Heads {
    h[n := (if n in h then h[n] else Head(0, false, false)).(pinuse := false)]
  }

  /** `set_inuse`. */
  function SetInuse(h: Heads, p: nat, s: nat): Heads {
    SetPinuse(h[p := Head(s, p in h && h[p].pinuse, true)], p + s)
  }

  /** `set_inuse_and_pinuse`. */
  function SetInuseAndPinuse(h: Heads, p: nat, s: nat): Heads {
    SetPinuse(h[p := Head(s, true, true)], p + s)
  }

  // ----- what they amount to

  /** The chunk before a free one, or before top, is in use. */
  lemma PinuseOfFree(live: Live, ends: set<nat>, heads: Heads, feet: Words, p: nat)
    requires Tagged(live, ends, heads, feet) && p in live && !live[p].kind.Used?
    ensures p in heads && heads[p].pinuse
  {
    assert BackAt(live, heads, feet, p) && TagsAt(live, heads, feet, p);
    assert forall q :: q in live ==> TagsAt(live, heads, feet, q);
  }

  /** What a chunk's tags and shape say, all at once. */
  lemma ChunkFacts(live: Live, ends: set<nat>, heads: Heads, feet: Words, p: nat)
    requires Tagged(live, ends, heads, feet) && p in live
    ensures TagsAt(live, heads, feet, p) && ShapeAt(live, ends, p) && Hole(live, ends, p, p + live[p].size)
    ensures (p + live[p].size) % 16 == 0
  {
    hide TagsAt;
    assert TagsAt(live, heads, feet, p);
    assert ShapeAt(live, ends, p);
    HoleOne(live, ends, p);
    AlignedDifference(0, p);
    AlignedSum(p, live[p].size);
  }

  lemma AlignedSum(x: nat, y: nat)
    requires x % 16 == 0 && y % 16 == 0
    ensures (x + y) % 16 == 0
  {
  }

  /** A free chunk taken whole. */
  lemma UseWhole(live: Live, ends: set<nat>, heads: Heads, feet: Words, p: nat, s: nat)
    requires Tagged(live, ends, heads, feet) && p in live && live[p] == Chunk(s, Free)
    ensures s > 0 && Tagged(Placed(live, p, p + s, Used, p + s, Used), ends, SetInuseAndPinuse(heads, p, s), feet)
  {
    hide Tagged, Hole;
    ChunkFacts(live, ends, heads, feet, p);
    PinuseOfFree(live, ends, heads, feet, p);
    PlacedTagged(live, ends, heads, feet, SetInuseAndPinuse(heads, p, s), feet, p, p + s, Used, p + s, Used);
  }

  /** The first nb bytes of a free chunk or of top taken, the rest staying of its kind. */
  lemma UseSplit(live: Live, ends: set<nat>, heads: Heads, feet: Words, p: nat, s: nat, nb: nat, heads': Heads, feet': Words)
    requires Tagged(live, ends, heads, feet) && p in live && live[p].size == s && !live[p].kind.Used?
    requires nb % 16 == 0 && 32 <= nb < s && (live[p].kind.Free? ==> s - nb >= 32)
    requires heads' == heads[p := Head(nb, true, true)][p + nb := Head(s - nb, true, false)]
    requires feet' == if live[p].kind.Free? then feet[p + s := s - nb] else feet
    ensures Tagged(Placed(live, p, p + s, Used, p + nb, live[p].kind), ends, heads', feet')
  {
    hide Tagged, Hole;
    ChunkFacts(live, ends, heads, feet, p);
    PinuseOfFree(live, ends, heads, feet, p);
    AlignedSum(p, nb);
    PlacedTagged(live, ends, heads, feet, heads', feet', p, p + s, Used, p + nb, live[p].kind);
  }

  /** A run of chunks merged into one free chunk, or into top. */
  lemma Merge(live: Live, ends: set<nat>, heads: Heads, feet: Words, a: nat, b: nat, kind: Kind, heads': Heads, feet': Words)
    requires Tagged(live, ends, heads, feet) && a in live && !kind.Used? && Hole(live, ends, a, b)
    requires a in heads && heads[a].pinuse && b in heads && b % 16 == 0 && b < WORD_LIMIT && b - a >= 32
    requires a in heads' && heads'[a] == Head(b - a, true, false) && b in heads' && heads'[b] == heads[b].(pinuse := false)
    requires forall x :: x in heads && x != a && x != b ==> x in heads' && heads'[x] == heads[x]
    requires At(feet', a) == At(feet, a)
    requires kind.Free? ==> feet' == feet[b := b - a]
    requires kind.Top? ==> feet' == feet
    requires if kind.Top? then b in ends else b in live ==> live[b].kind.Used?
    ensures Tagged(Placed(live, a, b, kind, b, kind), ends, heads', feet')
  {
    hide Tagged, Hole;
    NoEndInLive(live, ends, heads, feet, b);
    ChunkFacts(live, ends, heads, feet, a);
    PlacedTagged(live, ends, heads, feet, heads', feet', a, b, kind, b, kind);
  }

  lemma NoEndInLive(live: Live, ends: set<nat>, heads: Heads, feet: Words, e: nat)
    requires Tagged(live, ends, heads, feet)
    ensures e in ends ==> e !in live
  {
    if e in live {
      assert ShapeAt(live, ends, e);
    }
  }

  /** A chunk in use resized over an interval: nb bytes in use, the rest, if any, of kind v. */
  lemma Resize(live: Live, ends: set<nat>, heads: Heads, feet: Words, p: nat, b: nat, m: nat, v: Kind, heads': Heads, feet': Words)
    requires Tagged(live, ends, heads, feet) && p in live && live[p].kind.Used? && Hole(live, ends, p, b)
    requires p < m <= b && m % 16 == 0 && m - p >= 32 && b in heads && b % 16 == 0 && b < WORD_LIMIT
    requires m < b ==> b - m >= (if v.Top? then 16 else 32)
    requires p in heads && p in heads' && heads'[p] == Head(m - p, heads[p].pinuse, true)
    requires m < b ==> m in heads' && heads'[m] == Head(b - m, true, v.Used?)
    requires b in heads' && heads'[b] == heads[b].(pinuse := Last(b, Used, m, v).Used?)
    requires forall x :: x in heads && x != p && x != m && x != b ==> x in heads' && heads'[x] == heads[x]
    requires m < b && v.Free? ==> feet' == feet[b := b - m]
    requires m == b || !v.Free? ==> feet' == feet
    requires m < b && v.Top? ==> b in ends
    requires m < b && v.Free? ==> b in live ==> live[b].kind.Used?
    ensures Tagged(Placed(live, p, b, Used, m, v), ends, heads', feet')
  {
    hide Tagged, Hole;
    NoEndInLive(live, ends, heads, feet, b);
    ChunkFacts(live, ends, heads, feet, p);
    PlacedTagged(live, ends, heads, feet, heads', feet', p, b, Used, m, v);
  }

  // ----- who owns the free chunks afterwards

  /** As `Owned`, but some free chunks may be in transit between their owners. */
  ghost predicate OwnedBut(live: Live, items: Items, dv: nat, dvsize: nat, top: nat, topsize: nat, loose: set<nat>) {
    && (forall p :: p in live && live[p].kind.Free? ==> p in items || p == dv || p in loose)
    && (forall c :: c in items ==> c in live && live[c] == Chunk(items[c], Free) && c != dv && c !in loose)
    && (if dvsize == 0 then dv == 0 else dv in live && live[dv] == Chunk(dvsize, Free) && dv !in loose)
    && (forall p :: p in loose ==> p in live && live[p].kind.Free?)
    && (forall p :: p in live && live[p].kind.Top? ==> p == top)
    && top in live && live[top] == Chunk(topsize, Top)
  }

  /** A free chunk leaves its bin, or stops being the designated victim. */
  lemma Loosen(live: Live, items: Items, dv: nat, dvsize: nat, top: nat, topsize: nat, loose: set<nat>, p: nat)
    requires OwnedBut(live, items, dv, dvsize, top, topsize, loose) && 0 !in live
    ensures p in items ==> OwnedBut(live, items - {p}, dv, dvsize, top, topsize, loose + {p})
    ensures p == dv && dvsize != 0 ==> OwnedBut(live, items, 0, 0, top, topsize, loose + {p})
  {
  }

  /** The chunk in transit is binned, or becomes the designated victim. */
  lemma Settle(live: Live, items: Items, dv: nat, dvsize: nat, top: nat, topsize: nat, p: nat, s: nat)
    requires OwnedBut(live, items, dv, dvsize, top, topsize, {p}) && p in live && live[p].size == s > 0 && 0 !in live
    ensures p !in items && OwnedBut(live, items[p := s], dv, dvsize, top, topsize, {})
    ensures dvsize == 0 ==> OwnedBut(live, items, p, s, top, topsize, {})
    ensures dvsize != 0 ==> dv !in items && dv != p && OwnedBut(live, items[dv := dvsize], p, s, top, topsize, {})
  {
    assert p in {p};
  }

  /** After a replacement whose interval holds no binned chunk and no victim. */
  lemma PlacedOwned(live: Live, items: Items, dv: nat, dvsize: nat, top: nat, topsize: nat, loose: set<nat>,
                    a: nat, b: nat, u: Kind, m: nat, v: Kind, loose': set<nat>, top': nat, topsize': nat)
    requires OwnedBut(live, items, dv, dvsize, top, topsize, loose) && 0 < a < m <= b && 0 !in live
    requires (forall c :: c in items ==> !(a <= c < b)) && (dvsize == 0 || !(a <= dv < b))
    requires forall p :: p in loose ==> a <= p < b
    requires loose' == (if u.Free? then {a} else if m < b && v.Free? then {m} else {}) && !(u.Free? && m < b && v.Free?)
    requires if a <= top < b then (if m == b then u.Top? && top' == a && topsize' == b - a else !u.Top? && v.Top? && top' == m && topsize' == b - m)
             else top' == top && topsize' == topsize && !u.Top? && (m == b || !v.Top?)
    ensures OwnedBut(Placed(live, a, b, u, m, v), items, dv, dvsize, top', topsize', loose')
  {
    hide Placed;
    PlacedKeys(live, a, b, u, m, v);
  }

  // ----- what callers see

  /** A chunk in use is added, or changes its size: the interval held at most the old one. */
  lemma TakenInUse(live: Live, a: nat, b: nat, m: nat, v: Kind)
    requires a < m <= b && (m == b || !v.Used?) && forall x :: x in live && a <= x < b && live[x].kind.Used? ==> x == a
    ensures InUse(Placed(live, a, b, Used, m, v)) == InUse(live)[a := m - a]
  {
    hide Placed;
    PlacedKeys(live, a, b, Used, m, v);
  }

  lemma SplitInUse(live: Live, a: nat, b: nat, m: nat)
    requires a < m < b && forall x :: x in live && a <= x < b && live[x].kind.Used? ==> x == a
    ensures InUse(Placed(live, a, b, Used, m, Used)) == InUse(live)[a := m - a][m := b - m]
  {
    hide Placed;
    PlacedKeys(live, a, b, Used, m, Used);
  }

  /** The only chunk in use of the interval is given back. */
  lemma GivenInUse(live: Live, a: nat, b: nat, kind: Kind, p: nat)
    requires a <= p < b && !kind.Used? && forall x :: x in live && a <= x < b && live[x].kind.Used? ==> x == p
    ensures InUse(Placed(live, a, b, kind, b, kind)) == InUse(live) - {p}
  {
    hide Placed;
    PlacedKeys(live, a, b, kind, b, kind);
  }
}
