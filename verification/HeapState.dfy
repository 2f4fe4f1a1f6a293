/** Segments, the owners of free chunks, and the effect of replacing an interval on them. */
module HeapState {
  import opened TreeIndexes
  import opened ChunkLinks
  import opened ChunkHeads
  import opened BinSpec
  import opened HeapSpec

  /** A region obtained from the system. */
  datatype Segment = Segment(base: nat, size: nat)

  /** The chunks of a segment run from its base to its limit; the rest of it holds a foot or fenceposts. */
  ghost predicate SegmentAt(live: Live, ends: set<nat>, g: Segment, limit: nat) {
    g.base in live && limit in ends && Hole(live, ends, g.base, limit) && limit + 16 <= g.base + g.size < WORD_LIMIT
  }

  ghost predicate SegsOk(live: Live, ends: set<nat>, segs: seq<Segment>, limits: seq<nat>) {
    && |segs| == |limits|
    && (forall i {:trigger segs[i]} :: 0 <= i < |segs| ==> SegmentAt(live, ends, segs[i], limits[i]))
    && (forall i, j :: 0 <= i < j < |segs| ==> ApartSegments(segs[i], segs[j]))
    && (forall p {:trigger InSome(segs, limits, p)} :: p in live ==> InSome(segs, limits, p))
    && (forall e :: e in ends ==> e in limits)
  }

  predicate ApartSegments(g: Segment, h: Segment) {
    g.base + g.size <= h.base || h.base + h.size <= g.base
  }

  ghost predicate InSome(segs: seq<Segment>, limits: seq<nat>, p: nat)
    requires |segs| == |limits|
  {
    exists i :: 0 <= i < |segs| && segs[i].base <= p < limits[i]
  }

  /** The chunks that hold the allocator's own records stay in use; the first one holds the bins. */
  ghost predicate PinnedOk(live: Live, pinned: set<nat>, state: nat) {
    && (forall p :: p in pinned ==> p in live && live[p].kind.Used?)
    && state >= 16 && state - 16 in pinned && live[state - 16].size >= BINS_END + 16
  }

  /** What callers see: the chunks in use, with their sizes. */
  function InUse(live: Live): map<nat, nat> {
    map p | p in live && live[p].kind.Used? :: live[p].size
  }

  // ----- every byte of a segment is in one chunk

  predicate Contains(live: Live, p: nat, x: nat) {
    p in live && p <= x < p + live[p].size
  }

  /** Walking from chunk to chunk reaches the one that holds x. */
  lemma {:induction false} WalkTo(live: Live, ends: set<nat>, p: nat, limit: nat, x: nat)
    requires ShapeOk(live, ends) && Apart(live, ends) && p in live && limit in ends && p <= x < limit
    requires forall e :: e in ends ==> e <= p || limit <= e
    ensures exists c: nat :: Contains(live, c, x)
    decreases limit - p
  {
    assert ShapeAt(live, ends, p);
    var n := p + live[p].size;
    if x < n {
      assert Contains(live, p, x);
    } else {
      WalkTo(live, ends, n, limit, x);
    }
  }

  /** Chunks tile each segment exactly. */
  lemma Tiles(live: Live, ends: set<nat>, segs: seq<Segment>, limits: seq<nat>, i: nat, x: nat)
    requires ShapeOk(live, ends) && Apart(live, ends) && SegsOk(live, ends, segs, limits)
    requires i < |segs| && segs[i].base <= x < limits[i]
    ensures exists c: nat :: Contains(live, c, x) && segs[i].base <= c && c + live[c].size <= limits[i]
    ensures forall c: nat, d: nat :: Contains(live, c, x) && Contains(live, d, x) ==> c == d
  {
    hide InSome;
    assert SegmentAt(live, ends, segs[i], limits[i]);
    WalkTo(live, ends, segs[i].base, limits[i], x);
    var c: nat :| Contains(live, c, x);
    assert Contains(live, c, x) && segs[i].base <= c && c + live[c].size <= limits[i];
  }

  // ----- segments after a replacement

  lemma PlacedHole(live: Live, ends: set<nat>, a: nat, b: nat, u: Kind, m: nat, v: Kind, s: nat, e: nat)
    requires Hole(live, ends, a, b) && Hole(live, ends, s, e) && a < m <= b && (b <= s || e <= a || (s <= a && b <= e)) && e in ends
    ensures Hole(Placed(live, a, b, u, m, v), ends, s, e)
  {
    hide Placed;
    PlacedKeys(live, a, b, u, m, v);
  }

  /** The segment of a chunk also holds the rest of its interval, and is apart from the others. */
  lemma OwnSegment(live: Live, ends: set<nat>, segs: seq<Segment>, limits: seq<nat>, a: nat, b: nat) returns (own: nat)
    requires SegsOk(live, ends, segs, limits) && Hole(live, ends, a, b) && a in live
    ensures own < |segs| && segs[own].base <= a && b <= limits[own]
    ensures forall i :: 0 <= i < |segs| && i != own ==> segs[i].base + segs[i].size <= a || b <= segs[i].base
  {
    assert InSome(segs, limits, a);
    own :| own < |segs| && segs[own].base <= a < limits[own];
    assert SegmentAt(live, ends, segs[own], limits[own]);
    assert limits[own] in ends;
    forall i | 0 <= i < |segs| && i != own
      ensures segs[i].base + segs[i].size <= a || b <= segs[i].base
    {
      assert if i < own then ApartSegments(segs[i], segs[own]) else ApartSegments(segs[own], segs[i]);
    }
  }

  lemma PlacedSegs(live: Live, ends: set<nat>, segs: seq<Segment>, limits: seq<nat>, a: nat, b: nat, u: Kind, m: nat, v: Kind)
    requires SegsOk(live, ends, segs, limits) && Hole(live, ends, a, b) && a in live && a < m <= b
    ensures SegsOk(Placed(live, a, b, u, m, v), ends, segs, limits)
  {
    hide Placed, Hole, InSome;
    var live' := Placed(live, a, b, u, m, v);
    PlacedKeys(live, a, b, u, m, v);
    var own := OwnSegment(live, ends, segs, limits, a, b);
    forall i | 0 <= i < |segs|
      ensures SegmentAt(live', ends, segs[i], limits[i])
    {
      assert SegmentAt(live, ends, segs[i], limits[i]);
      BaseInLive(live, ends, segs[own].base, limits[own], segs[i].base, limits[i], a, b, i == own);
      PlacedHole(live, ends, a, b, u, m, v, segs[i].base, limits[i]);
    }
    PlacedInSome(live, segs, limits, own, a, b, u, m, v);
  }

  lemma PlacedInSome(live: Live, segs: seq<Segment>, limits: seq<nat>, own: nat, a: nat, b: nat, u: Kind, m: nat, v: Kind)
    requires |segs| == |limits| && own < |segs| && segs[own].base <= a < m <= b <= limits[own]
    requires forall p {:trigger InSome(segs, limits, p)} :: p in live ==> InSome(segs, limits, p)
    ensures forall p {:trigger InSome(segs, limits, p)} :: p in Placed(live, a, b, u, m, v) ==> InSome(segs, limits, p)
  {
    hide Placed, InSome;
    PlacedKeys(live, a, b, u, m, v);
    HeldBy(segs, limits, own, a);
    if m < b {
      HeldBy(segs, limits, own, m);
    }
  }

  lemma HeldBy(segs: seq<Segment>, limits: seq<nat>, own: nat, p: nat)
    requires |segs| == |limits| && own < |segs| && segs[own].base <= p < limits[own]
    ensures InSome(segs, limits, p)
  {
  }

  lemma BaseInLive(live: Live, ends: set<nat>, ownBase: nat, ownLimit: nat, base: nat, limit: nat, a: nat, b: nat, same: bool)
    requires Hole(live, ends, a, b) && Hole(live, ends, base, limit) && ownBase <= a && b <= ownLimit
    requires if same then base == ownBase && limit == ownLimit else limit <= a || b <= base
    ensures b <= base || limit <= a || (base <= a && b <= limit)
    ensures base == a || !(a <= base < b)
  {
  }
}
