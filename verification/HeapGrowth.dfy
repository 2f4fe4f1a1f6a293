/** Memory obtained from the system: a segment grows upwards or downwards, or a new one is added. */
module HeapGrowth {
  import opened TreeIndexes
  import opened ChunkLinks
  import opened ChunkHeads
  import opened BinSpec
  import opened HeapSpec
  import opened HeapState
  import opened HeapOps
  import opened HeapViews

  /** A region as the system hands it out: aligned, and apart from every segment. */
  ghost predicate FreshRegion(segs: seq<Segment>, base: nat, size: nat) {
    && 0 < base && base % 16 == 0 && size % 16 == 0 && base + size < WORD_LIMIT
    && forall i {:trigger segs[i]} :: 0 <= i < |segs| ==> ApartSegments(Segment(base, size), segs[i])
  }

  /** Only the headers of chunks and limits matter. */
  lemma TaggedFrame(live: Live, ends: set<nat>, heads: Heads, feet: Words, heads': Heads)
    requires Tagged(live, ends, heads, feet)
    requires forall x :: x in heads && (x in live || x in ends) ==> x in heads' && heads'[x] == heads[x]
    ensures Tagged(live, ends, heads', feet)
  {
    forall p | p in live
      ensures TagsAt(live, heads', feet, p) && BackAt(live, heads', feet, p)
    {
      assert TagsAt(live, heads, feet, p) && BackAt(live, heads, feet, p) && ShapeAt(live, ends, p);
    }
  }

  /** Where the chunks and limits of the segments lie. */
  lemma Whereabouts(h: View, state: nat, p: nat) returns (j: nat)
    requires Core(h, state) && p in h.live
    ensures j < |h.segs| == |h.limits| && h.segs[j].base <= p && p + h.live[p].size <= h.limits[j]
    ensures h.limits[j] + 16 <= h.segs[j].base + h.segs[j].size < WORD_LIMIT && h.live[p].size > 0
  {
    hide Apart, TagsOk, BackOk, PinnedOk;
    assert InSome(h.segs, h.limits, p);
    j :| 0 <= j < |h.segs| && h.segs[j].base <= p < h.limits[j];
    assert SegmentAt(h.live, h.ends, h.segs[j], h.limits[j]);
    assert ShapeAt(h.live, h.ends, p);
  }

  lemma LimitOf(h: View, state: nat, e: nat) returns (j: nat)
    requires Core(h, state) && e in h.ends
    ensures j < |h.segs| == |h.limits| && h.limits[j] == e && h.segs[j].base < e && e + 16 <= h.segs[j].base + h.segs[j].size
  {
    hide Tagged, PinnedOk, InSome;
    assert e in h.limits;
    j :| 0 <= j < |h.limits| && h.limits[j] == e;
    assert SegmentAt(h.live, h.ends, h.segs[j], h.limits[j]);
  }

  lemma SegmentsApart(h: View, state: nat, i: nat, j: nat)
    requires Core(h, state) && i < |h.segs| && j < |h.segs| && i != j
    ensures ApartSegments(h.segs[i], h.segs[j])
  {
    hide Tagged, PinnedOk, InSome;
    assert if i < j then ApartSegments(h.segs[i], h.segs[j]) else ApartSegments(h.segs[j], h.segs[i]);
  }

  /** No chunk and no limit lies in the part of a region that no segment has. */
  lemma RegionEmpty(h: View, state: nat, base: nat, size: nat)
    requires Core(h, state) && forall i {:trigger h.segs[i]} :: 0 <= i < |h.segs| ==> ApartSegments(Segment(base, size), h.segs[i])
    ensures forall p :: p in h.live ==> p + h.live[p].size + 16 <= base || base + size <= p
    ensures forall e :: e in h.ends ==> e + 16 <= base || base + size <= e
  {
    hide Core;
    forall p | p in h.live
      ensures p + h.live[p].size + 16 <= base || base + size <= p
    {
      var j := Whereabouts(h, state, p);
      assert ApartSegments(Segment(base, size), h.segs[j]);
    }
    forall e | e in h.ends
      ensures e + 16 <= base || base + size <= e
    {
      var j := LimitOf(h, state, e);
      assert ApartSegments(Segment(base, size), h.segs[j]);
    }
  }

  // ----- a new segment, all of it one free chunk: the new top

  function WithSegment(h: View, base: nat, size: nat, limit: nat): View
    requires base <= limit
  {
    h.(live := h.live[base := Chunk(limit - base, Top)], ends := h.ends + {limit},
       heads := h.heads[base := Head(limit - base, true, false)][limit := Head(80, false, false)],
       segs := [Segment(base, size)] + h.segs, limits := [limit] + h.limits)
  }

  ghost predicate Apartness(h: View, base: nat, size: nat) {
    && (forall p :: p in h.live ==> p + h.live[p].size + 16 <= base || base + size <= p)
    && (forall e :: e in h.ends ==> e + 16 <= base || base + size <= e)
  }

  /** A chunk in memory that held none: what is written for it, and what stays. */
  ghost predicate Added(live: Live, ends: set<nat>, heads: Heads, base: nat, s: nat, kind: Kind, ends': set<nat>, heads': Heads) {
    var n := base + s;
    && 0 < base && base % 16 == 0 && s % 16 == 0 && s >= 32 && n < WORD_LIMIT && !kind.Free?
    && (forall p :: p in live ==> p + live[p].size < base || n <= p)
    && (forall e :: e in ends ==> e < base || n <= e)
    && ends' == (if kind.Top? then ends + {n} else ends) && (if kind.Top? then n !in live && n !in ends else n in live)
    && (forall x :: x in heads && (x in live || x in ends) ==> x in heads' && heads'[x] == heads[x])
    && base in heads' && heads'[base] == Head(s, true, kind.Used?) && n in heads' && heads'[n].pinuse == kind.Used?
  }

  lemma AddedShape(live: Live, ends: set<nat>, heads: Heads, base: nat, s: nat, kind: Kind, ends': set<nat>, heads': Heads)
    requires ShapeOk(live, ends) && Apart(live, ends) && Added(live, ends, heads, base, s, kind, ends', heads')
    ensures ShapeOk(live[base := Chunk(s, kind)], ends') && Apart(live[base := Chunk(s, kind)], ends')
  {
    var live' := live[base := Chunk(s, kind)];
    forall p | p in live'
      ensures ShapeAt(live', ends', p)
    {
      assert p != base ==> ShapeAt(live, ends, p);
    }
  }

  lemma AddedTags(live: Live, ends: set<nat>, heads: Heads, feet: Words, base: nat, s: nat, kind: Kind, ends': set<nat>, heads': Heads)
    requires Tagged(live, ends, heads, feet) && Added(live, ends, heads, base, s, kind, ends', heads')
    ensures TagsOk(live[base := Chunk(s, kind)], heads', feet)
  {
    hide Apart, BackOk;
    var live' := live[base := Chunk(s, kind)];
    forall p | p in live'
      ensures TagsAt(live', heads', feet, p)
    {
      if p != base {
        assert ShapeAt(live, ends, p) && TagsAt(live, heads, feet, p);
      }
    }
  }

  lemma AddedBack(live: Live, ends: set<nat>, heads: Heads, feet: Words, base: nat, s: nat, kind: Kind, ends': set<nat>, heads': Heads)
    requires BackOk(live, heads, feet) && Added(live, ends, heads, base, s, kind, ends', heads') && base !in live
    ensures BackOk(live[base := Chunk(s, kind)], heads', feet)
  {
    var live' := live[base := Chunk(s, kind)];
    forall p | p in live'
      ensures BackAt(live', heads', feet, p)
    {
      assert p != base ==> BackAt(live, heads, feet, p);
    }
  }

  lemma AddedTagged(live: Live, ends: set<nat>, heads: Heads, feet: Words, base: nat, s: nat, kind: Kind, ends': set<nat>, heads': Heads)
    requires Tagged(live, ends, heads, feet) && Added(live, ends, heads, base, s, kind, ends', heads')
    ensures Tagged(live[base := Chunk(s, kind)], ends', heads', feet)
  {
    hide ShapeOk, Apart, TagsOk, BackOk;
    AddedShape(live, ends, heads, base, s, kind, ends', heads');
    AddedTags(live, ends, heads, feet, base, s, kind, ends', heads');
    AddedBack(live, ends, heads, feet, base, s, kind, ends', heads');
  }

  lemma NewSegmentTags(h: View, base: nat, size: nat, limit: nat)
    requires Tagged(h.live, h.ends, h.heads, h.feet) && Apartness(h, base, size)
    requires 0 < base && base % 16 == 0 && limit % 16 == 0 && base + 32 <= limit && limit + 16 <= base + size < WORD_LIMIT
    ensures var h' := WithSegment(h, base, size, limit); Tagged(h'.live, h'.ends, h'.heads, h'.feet)
  {
    hide Tagged;
    var h' := WithSegment(h, base, size, limit);
    AlignedDifference(base, limit);
    AddedTagged(h.live, h.ends, h.heads, h.feet, base, limit - base, Top, h'.ends, h'.heads);
  }

  lemma NewSegmentSegs(h: View, base: nat, size: nat, limit: nat)
    requires SegsOk(h.live, h.ends, h.segs, h.limits) && Apartness(h, base, size) && FreshRegion(h.segs, base, size)
    requires base < limit && limit + 16 <= base + size
    ensures var h' := WithSegment(h, base, size, limit); SegsOk(h'.live, h'.ends, h'.segs, h'.limits)
  {
    hide InSome;
    var h' := WithSegment(h, base, size, limit);
    forall i | 0 <= i < |h'.segs|
      ensures SegmentAt(h'.live, h'.ends, h'.segs[i], h'.limits[i])
    {
      if i > 0 {
        assert h'.segs[i] == h.segs[i - 1] && h'.limits[i] == h.limits[i - 1];
        OldSegment(h, base, size, limit, i - 1);
      }
    }
    forall i, j | 0 <= i < j < |h'.segs|
      ensures ApartSegments(h'.segs[i], h'.segs[j])
    {
      assert h'.segs[j] == h.segs[j - 1];
    }
    forall p | p in h'.live
      ensures InSome(h'.segs, h'.limits, p)
    {
      if p in h.live {
        assert InSome(h.segs, h.limits, p);
        SomeLater(h.segs, h.limits, Segment(base, size), limit, p);
      } else {
        HeldBy(h'.segs, h'.limits, 0, p);
      }
    }
  }

  lemma OldSegment(h: View, base: nat, size: nat, limit: nat, i: nat)
    requires SegsOk(h.live, h.ends, h.segs, h.limits) && Apartness(h, base, size) && FreshRegion(h.segs, base, size)
    requires base < limit && limit + 16 <= base + size && i < |h.segs|
    ensures SegmentAt(WithSegment(h, base, size, limit).live, h.ends + {limit}, h.segs[i], h.limits[i])
  {
    hide InSome;
    assert SegmentAt(h.live, h.ends, h.segs[i], h.limits[i]);
    assert ApartSegments(Segment(base, size), h.segs[i]);
  }

  lemma SomeLater(segs: seq<Segment>, limits: seq<nat>, g: Segment, limit: nat, p: nat)
    requires |segs| == |limits| && InSome(segs, limits, p)
    ensures InSome([g] + segs, [limit] + limits, p)
  {
    var i: nat :| i < |segs| && segs[i].base <= p < limits[i];
    assert ([g] + segs)[i + 1] == segs[i];
  }

  lemma AddSegmentCore(h: View, state: nat, base: nat, size: nat, limit: nat)
    requires Core(h, state) && FreshRegion(h.segs, base, size)
    requires limit % 16 == 0 && base + 32 <= limit && limit + 16 <= base + size
    ensures Core(WithSegment(h, base, size, limit), state)
  {
    hide Tagged, SegsOk;
    RegionEmpty(h, state, base, size);
    NewSegmentTags(h, base, size, limit);
    NewSegmentSegs(h, base, size, limit);
  }

  // ----- memory before a segment: a chunk in use, to be split

  function WithPrefix(h: View, i: nat, base: nat): View
    requires i < |h.segs| && base <= h.segs[i].base
  {
    var size := h.segs[i].base - base;
    h.(live := h.live[base := Chunk(size, Used)], heads := h.heads[base := Head(size, true, true)],
       segs := h.segs[i := Segment(base, h.segs[i].size + size)])
  }

  /** The first chunk of a segment has its predecessor bit set. */
  lemma BasePinuse(h: View, state: nat, i: nat)
    requires Core(h, state) && i < |h.segs|
    ensures h.segs[i].base in h.live && h.segs[i].base in h.heads && h.heads[h.segs[i].base].pinuse
  {
    hide PinnedOk, InSome, Hole, Apart;
    var o := h.segs[i].base;
    assert SegmentAt(h.live, h.ends, h.segs[i], h.limits[i]);
    assert BackAt(h.live, h.heads, h.feet, o);
    assert forall q :: q in h.live ==> q + h.live[q].size != o by {
      forall q | q in h.live
        ensures q + h.live[q].size != o
      {
        var j := Whereabouts(h, state, q);
        if j != i {
          SegmentsApart(h, state, i, j);
        }
      }
    }
  }

  lemma PrefixTags(h: View, i: nat, base: nat)
    requires Tagged(h.live, h.ends, h.heads, h.feet) && i < |h.segs| && 0 < base && base + 32 <= h.segs[i].base && base % 16 == 0
    requires var o := h.segs[i].base; o in h.live && o in h.heads && h.heads[o].pinuse && Apartness(h, base, o - base)
    ensures var h' := WithPrefix(h, i, base); Tagged(h'.live, h'.ends, h'.heads, h'.feet)
  {
    hide Apart, TagsOk, BackOk;
    var h' := WithPrefix(h, i, base);
    var o := h.segs[i].base;
    assert ShapeAt(h.live, h.ends, o);
    AlignedDifference(base, o);
    AddedTagged(h.live, h.ends, h.heads, h.feet, base, o - base, Used, h.ends, h'.heads);
  }

  lemma PrefixSegs(h: View, state: nat, i: nat, base: nat)
    requires Core(h, state) && i < |h.segs| && 0 < base < h.segs[i].base
    requires var o := h.segs[i].base; FreshRegion(h.segs, base, o - base) && Apartness(h, base, o - base)
    ensures var h' := WithPrefix(h, i, base); SegsOk(h'.live, h'.ends, h'.segs, h'.limits)
  {
    hide InSome, Tagged, PinnedOk, Hole;
    var h' := WithPrefix(h, i, base);
    var o := h.segs[i].base;
    forall j | 0 <= j < |h'.segs|
      ensures SegmentAt(h'.live, h'.ends, h'.segs[j], h'.limits[j])
    {
      PrefixSegment(h, i, base, j);
    }
    forall j, k | 0 <= j < k < |h'.segs|
      ensures ApartSegments(h'.segs[j], h'.segs[k])
    {
      assert ApartSegments(h.segs[j], h.segs[k]);
      assert SegmentAt(h.live, h.ends, h.segs[j], h.limits[j]) && SegmentAt(h.live, h.ends, h.segs[k], h.limits[k]);
      BaseBelowLimit(h.live, h.ends, h.segs[j].base, h.limits[j]);
      BaseBelowLimit(h.live, h.ends, h.segs[k].base, h.limits[k]);
      assert ApartSegments(Segment(base, o - base), h.segs[j]) && ApartSegments(Segment(base, o - base), h.segs[k]);
    }
    assert SegmentAt(h.live, h.ends, h.segs[i], h.limits[i]);
    PrefixInSome(h, state, i, base);
  }

  lemma PrefixSegment(h: View, i: nat, base: nat, j: nat)
    requires SegsOk(h.live, h.ends, h.segs, h.limits) && i < |h.segs| && j < |h.segs| && 0 < base < h.segs[i].base
    requires var o := h.segs[i].base; FreshRegion(h.segs, base, o - base) && Apartness(h, base, o - base)
    ensures var h' := WithPrefix(h, i, base); SegmentAt(h'.live, h'.ends, h'.segs[j], h'.limits[j])
  {
    hide InSome;
    assert SegmentAt(h.live, h.ends, h.segs[j], h.limits[j]) && SegmentAt(h.live, h.ends, h.segs[i], h.limits[i]);
    assert ApartSegments(Segment(base, h.segs[i].base - base), h.segs[j]);
  }

  lemma PrefixInSome(h: View, state: nat, i: nat, base: nat)
    requires Core(h, state) && i < |h.segs| && 0 < base < h.segs[i].base
    ensures var h' := WithPrefix(h, i, base);
            |h'.segs| == |h'.limits| && forall p {:trigger InSome(h'.segs, h'.limits, p)} :: p in h'.live ==> InSome(h'.segs, h'.limits, p)
  {
    hide InSome, Tagged, PinnedOk, Hole;
    var h' := WithPrefix(h, i, base);
    assert SegmentAt(h.live, h.ends, h.segs[i], h.limits[i]);
    BaseBelowLimit(h.live, h.ends, h.segs[i].base, h.limits[i]);
    forall p | p in h'.live
      ensures InSome(h'.segs, h'.limits, p)
    {
      if p == base {
        HeldBy(h'.segs, h'.limits, i, p);
      } else {
        var j := Whereabouts(h, state, p);
        HeldBy(h'.segs, h'.limits, j, p);
      }
    }
  }

  lemma BaseBelowLimit(live: Live, ends: set<nat>, a: nat, b: nat)
    requires Hole(live, ends, a, b)
    ensures a < b
  {
  }

  lemma PrefixCore(h: View, state: nat, i: nat, base: nat)
    requires Core(h, state) && i < |h.segs| && base + 32 <= h.segs[i].base && FreshRegion(h.segs, base, h.segs[i].base - base)
    ensures Core(WithPrefix(h, i, base), state)
  {
    hide Tagged, SegsOk;
    BasePinuse(h, state, i);
    RegionEmpty(h, state, base, h.segs[i].base - base);
    PrefixTags(h, i, base);
    PrefixSegs(h, state, i, base);
  }

  // ----- the limit of the segment that holds top moves up

  function WithLimit(h: View, i: nat, limit: nat, size: nat, foot: Head): View
    requires i < |h.segs| == |h.limits| && h.top <= limit
  {
    h.(live := h.live[h.top := Chunk(limit - h.top, Top)], ends := h.ends - {h.limits[i]} + {limit},
       heads := h.heads[h.top := Head(limit - h.top, true, false)][limit := foot],
       segs := h.segs[i := Segment(h.segs[i].base, size)], limits := h.limits[i := limit])
  }

  /** Segment i ends with top, and may be size bytes long. */
  ghost predicate CanGrow(h: View, i: nat, limit: nat, size: nat) {
    && i < |h.segs| == |h.limits| && h.top in h.live && h.live[h.top].kind.Top?
    && h.top + h.live[h.top].size == h.limits[i] <= limit && limit % 16 == 0
    && h.segs[i].size <= size && limit + 16 <= h.segs[i].base + size < WORD_LIMIT
    && forall j :: 0 <= j < |h.segs| && j != i ==> ApartSegments(Segment(h.segs[i].base, size), h.segs[j])
  }

  /** Other chunks and limits keep clear of top's part of the segment. */
  ghost predicate ClearOf(h: View, limit: nat)
    requires h.top in h.live
  {
    && (forall p :: p in h.live && p != h.top ==> p + h.live[p].size <= h.top || limit + 16 <= p)
    && (forall e :: e in h.ends && e != h.top + h.live[h.top].size ==> e + 16 <= h.top || limit + 16 <= e)
  }

  lemma GrowthClear(h: View, state: nat, i: nat, limit: nat, size: nat)
    requires Core(h, state) && CanGrow(h, i, limit, size)
    ensures h.top in h.live && ClearOf(h, limit)
  {
    hide PinnedOk, InSome, TagsOk, BackOk, ShapeOk;
    var t := Whereabouts(h, state, h.top);
    if t != i {
      SegmentsApart(h, state, i, t);
    }
    forall p | p in h.live && p != h.top
      ensures p + h.live[p].size <= h.top || limit + 16 <= p
    {
      var j := Whereabouts(h, state, p);
      if j != i {
        assert ApartSegments(Segment(h.segs[i].base, size), h.segs[j]);
      }
    }
    forall e | e in h.ends && e != h.limits[i]
      ensures e + 16 <= h.top || limit + 16 <= e
    {
      var j := LimitOf(h, state, e);
      assert ApartSegments(Segment(h.segs[i].base, size), h.segs[j]);
    }
  }

  lemma GrownShape(h: View, i: nat, limit: nat, size: nat, foot: Head)
    requires ShapeOk(h.live, h.ends) && CanGrow(h, i, limit, size) && ClearOf(h, limit)
    ensures var h' := WithLimit(h, i, limit, size, foot); ShapeOk(h'.live, h'.ends)
  {
    var h' := WithLimit(h, i, limit, size, foot);
    assert ShapeAt(h.live, h.ends, h.top);
    AlignedDifference(h.top, limit);
    forall p | p in h'.live
      ensures ShapeAt(h'.live, h'.ends, p)
    {
      assert p != h.top ==> ShapeAt(h.live, h.ends, p);
    }
  }

  lemma GrownApart(h: View, i: nat, limit: nat, size: nat, foot: Head)
    requires Apart(h.live, h.ends) && CanGrow(h, i, limit, size) && ClearOf(h, limit) && h.live[h.top].size > 0
    ensures var h' := WithLimit(h, i, limit, size, foot); Apart(h'.live, h'.ends)
  {
    TopApart(h.live, h.ends, h.top, h.limits[i], limit);
  }

  lemma TopApart(live: Live, ends: set<nat>, top: nat, e: nat, limit: nat)
    requires Apart(live, ends) && top in live && top + live[top].size == e <= limit && live[top].size > 0
    requires forall p :: p in live && p != top ==> p + live[p].size <= top || limit + 16 <= p
    requires forall x :: x in ends && x != e ==> x + 16 <= top || limit + 16 <= x
    ensures Apart(live[top := Chunk(limit - top, Top)], ends - {e} + {limit})
  {
  }

  lemma GrownTagsAt(h: View, i: nat, limit: nat, size: nat, foot: Head, p: nat)
    requires CanGrow(h, i, limit, size) && ClearOf(h, limit) && !foot.pinuse
    requires h.top in h.heads && h.heads[h.top].pinuse && p in h.live && h.live[h.top].size > 0 && h.live[p].size > 0
    requires TagsAt(h.live, h.heads, h.feet, p) && BackAt(h.live, h.heads, h.feet, p)
    ensures var h' := WithLimit(h, i, limit, size, foot);
            TagsAt(h'.live, h'.heads, h'.feet, p) && BackAt(h'.live, h'.heads, h'.feet, p)
  {
    var h' := WithLimit(h, i, limit, size, foot);
    var n := p + h.live[p].size;
    if p != h.top {
      assert p != limit && n != limit;
    }
  }

  lemma GrownTags(h: View, i: nat, limit: nat, size: nat, foot: Head)
    requires Tagged(h.live, h.ends, h.heads, h.feet) && CanGrow(h, i, limit, size) && ClearOf(h, limit) && !foot.pinuse
    requires h.top in h.heads && h.heads[h.top].pinuse
    ensures var h' := WithLimit(h, i, limit, size, foot); TagsOk(h'.live, h'.heads, h'.feet) && BackOk(h'.live, h'.heads, h'.feet)
  {
    hide Apart, CanGrow, ClearOf, TagsAt, BackAt;
    assert i < |h.segs| == |h.limits| && h.top <= limit && h.top in h.live by {
      GrowBounds(h, i, limit, size);
    }
    var h' := WithLimit(h, i, limit, size, foot);
    assert ShapeAt(h.live, h.ends, h.top);
    forall p | p in h'.live
      ensures TagsAt(h'.live, h'.heads, h'.feet, p) && BackAt(h'.live, h'.heads, h'.feet, p)
    {
      assert ShapeAt(h.live, h.ends, p) && TagsAt(h.live, h.heads, h.feet, p) && BackAt(h.live, h.heads, h.feet, p);
      GrownTagsAt(h, i, limit, size, foot, p);
    }
  }

  lemma GrowBounds(h: View, i: nat, limit: nat, size: nat)
    requires CanGrow(h, i, limit, size)
    ensures i < |h.segs| == |h.limits| && h.top <= limit && h.top in h.live && !h.live[h.top].kind.Used?
  {
  }

  lemma GrownSegs(h: View, state: nat, i: nat, limit: nat, size: nat, foot: Head)
    requires Core(h, state) && CanGrow(h, i, limit, size) && ClearOf(h, limit)
    ensures var h' := WithLimit(h, i, limit, size, foot); SegsOk(h'.live, h'.ends, h'.segs, h'.limits)
  {
    hide InSome, Tagged, PinnedOk, Hole;
    var h' := WithLimit(h, i, limit, size, foot);
    forall j | 0 <= j < |h'.segs|
      ensures SegmentAt(h'.live, h'.ends, h'.segs[j], h'.limits[j])
    {
      GrownSegment(h, state, i, limit, size, foot, j);
    }
    forall j, k | 0 <= j < k < |h'.segs|
      ensures ApartSegments(h'.segs[j], h'.segs[k])
    {
      assert ApartSegments(h.segs[j], h.segs[k]);
    }
    forall p | p in h'.live
      ensures InSome(h'.segs, h'.limits, p)
    {
      var j := Whereabouts(h, state, p);
      HeldBy(h'.segs, h'.limits, j, p);
    }
    forall e | e in h'.ends
      ensures e in h'.limits
    {
      if e == limit {
        assert h'.limits[i] == e;
      } else {
        var j := LimitOf(h, state, e);
        assert h'.limits[j] == e;
      }
    }
  }

  lemma GrownSegment(h: View, state: nat, i: nat, limit: nat, size: nat, foot: Head, j: nat)
    requires Core(h, state) && CanGrow(h, i, limit, size) && ClearOf(h, limit) && j < |h.segs|
    ensures var h' := WithLimit(h, i, limit, size, foot); SegmentAt(h'.live, h'.ends, h'.segs[j], h'.limits[j])
  {
    hide InSome, Tagged, PinnedOk;
    assert SegmentAt(h.live, h.ends, h.segs[j], h.limits[j]) && SegmentAt(h.live, h.ends, h.segs[i], h.limits[i]);
    if j != i {
      assert ApartSegments(Segment(h.segs[i].base, size), h.segs[j]);
      var t := Whereabouts(h, state, h.top);
      if t != i {
        SegmentsApart(h, state, i, t);
      }
    }
  }

  lemma GrowCore(h: View, state: nat, i: nat, limit: nat, size: nat, foot: Head)
    requires Core(h, state) && CanGrow(h, i, limit, size) && !foot.pinuse
    ensures Core(WithLimit(h, i, limit, size, foot), state)
  {
    hide ShapeOk, Apart, TagsOk, BackOk, SegsOk, ClearOf;
    GrowthClear(h, state, i, limit, size);
    PinuseOfFree(h.live, h.ends, h.heads, h.feet, h.top);
    ChunkFacts(h.live, h.ends, h.heads, h.feet, h.top);
    GrownShape(h, i, limit, size, foot);
    GrownApart(h, i, limit, size, foot);
    GrownTags(h, i, limit, size, foot);
    GrownSegs(h, state, i, limit, size, foot);
  }

  // ----- the whole invariant after each kind of growth

  /** The segment that holds top. */
  lemma TopsSegment(h: View, items: Items, state: nat) returns (k: nat)
    requires HeapOk(h, items, {}, state)
    ensures k < |h.segs| == |h.limits| && h.limits[k] == h.top + h.topsize && h.segs[k].base + h.segs[k].size == h.limits[k] + TOP_FOOT
    ensures h.segs[k].base <= h.top && h.top in h.live && h.live[h.top] == Chunk(h.topsize, Top) && h.topsize >= 16
    ensures h.top % 16 == 0 && h.limits[k] % 16 == 0 && h.limits[k] + TOP_FOOT < WORD_LIMIT
  {
    hide Core, EndsOk, SegmentAt;
    k :| 0 <= k < |h.segs| && k < |h.limits| && h.limits[k] == h.top + h.topsize && h.segs[k].base + h.segs[k].size == h.limits[k] + TOP_FOOT;
    OneChunk(h, items, {}, state, h.top);
    var j := Whereabouts(h, state, h.top);
    SegmentBounds(h, state, k);
    if j != k {
      SegmentsApart(h, state, j, k);
    }
    TopSize(h, items, state);
  }

  lemma SegmentBounds(h: View, state: nat, k: nat)
    requires Core(h, state) && k < |h.segs|
    ensures |h.limits| == |h.segs| && h.segs[k].base < h.limits[k] && h.limits[k] + 16 <= h.segs[k].base + h.segs[k].size < WORD_LIMIT
    ensures h.limits[k] in h.ends && h.segs[k].base in h.live
  {
    hide Tagged, PinnedOk, InSome;
    assert SegmentAt(h.live, h.ends, h.segs[k], h.limits[k]);
  }

  lemma TopSize(h: View, items: Items, state: nat)
    requires HeapOk(h, items, {}, state)
    ensures h.topsize >= 16
  {
    hide SegsOk, PinnedOk, EndsOk, TagsOk, BackOk, Apart;
    assert ShapeAt(h.live, h.ends, h.top);
  }

  /** The segment that holds a given address. */
  lemma OneSegment(h: View, state: nat, i: nat, k: nat, x: nat)
    requires Core(h, state) && i < |h.segs| && k < |h.segs|
    requires h.segs[i].base <= x < h.segs[i].base + h.segs[i].size && h.segs[k].base <= x < h.segs[k].base + h.segs[k].size
    ensures i == k
  {
    hide Tagged, PinnedOk, InSome;
    if i != k {
      SegmentsApart(h, state, i, k);
    }
  }

  function Appended(h: View, i: nat, size: nat): View
    requires i < |h.segs| == |h.limits|
  {
    WithLimit(h, i, h.top + h.topsize + size, h.segs[i].size + size, Head(TOP_FOOT, false, false)).(topsize := h.topsize + size)
  }

  /** A region right after top's segment makes top larger. */
  lemma AppendOk(h: View, items: Items, state: nat, i: nat, base: nat, size: nat)
    requires HeapOk(h, items, {}, state) && FreshRegion(h.segs, base, size) && size > 0
    requires i < |h.segs| && base == h.segs[i].base + h.segs[i].size && h.segs[i].base <= h.top < base
    ensures i < |h.segs| == |h.limits| && HeapOk(Appended(h, i, size), items, {}, state) && InUse(Appended(h, i, size).live) == InUse(h.live)
  {
    hide Core, InUse, OwnedBut, EndsOk, TopSegment, FreshRegion;
    var k := TopsSegment(h, items, state);
    TopNotEnd(h, items, state);
    OneSegment(h, state, i, k, h.top);
    AppendApart(h, state, i, base, size);
    AlignedSum(h.limits[i], size);
    GrowCore(h, state, i, h.top + h.topsize + size, h.segs[i].size + size, Head(TOP_FOOT, false, false));
    AppendRest(h, items, i, size);
    var h' := Appended(h, i, size);
    CoreOfTop(WithLimit(h, i, h.top + h.topsize + size, h.segs[i].size + size, Head(TOP_FOOT, false, false)), state, h.top, h.topsize + size);
  }

  /** The chunks and their tags do not depend on the top field. */
  lemma CoreOfTop(h: View, state: nat, top: nat, topsize: nat)
    requires Core(h, state)
    ensures Core(h.(top := top, topsize := topsize), state)
  {
    hide Tagged, SegsOk, PinnedOk;
  }

  lemma TopNotEnd(h: View, items: Items, state: nat)
    requires HeapOk(h, items, {}, state)
    ensures h.top !in h.ends
  {
    hide SegsOk, PinnedOk, TagsOk, BackOk, EndsOk, TopSegment;
    EndsNotLive(h.live, h.ends);
  }

  lemma AppendApart(h: View, state: nat, i: nat, base: nat, size: nat)
    requires Core(h, state) && FreshRegion(h.segs, base, size) && i < |h.segs| && base == h.segs[i].base + h.segs[i].size
    ensures forall j :: 0 <= j < |h.segs| && j != i ==> ApartSegments(Segment(h.segs[i].base, h.segs[i].size + size), h.segs[j])
    ensures size % 16 == 0 && base + size < WORD_LIMIT
  {
    hide Tagged, PinnedOk, InSome;
    forall j | 0 <= j < |h.segs| && j != i
      ensures ApartSegments(Segment(h.segs[i].base, h.segs[i].size + size), h.segs[j])
    {
      SegmentsApart(h, state, i, j);
      assert ApartSegments(Segment(base, size), h.segs[j]);
      assert SegmentAt(h.live, h.ends, h.segs[j], h.limits[j]) && SegmentAt(h.live, h.ends, h.segs[i], h.limits[i]);
    }
  }

  lemma AppendRest(h: View, items: Items, i: nat, size: nat)
    requires OwnedBut(h.live, items, h.dv, h.dvsize, h.top, h.topsize, {}) && EndsOk(h.ends, h.heads, h.top + h.topsize)
    requires i < |h.segs| == |h.limits| && h.limits[i] == h.top + h.topsize && h.segs[i].base + h.segs[i].size == h.limits[i] + TOP_FOOT
    requires h.top !in h.ends && size > 0
    ensures var h' := Appended(h, i, size);
            OwnedBut(h'.live, items, h'.dv, h'.dvsize, h'.top, h'.topsize, {}) && EndsOk(h'.ends, h'.heads, h'.top + h'.topsize)
            && TopSegment(h'.segs, h'.limits, h'.top + h'.topsize) && InUse(h'.live) == InUse(h.live)
  {
    var h' := Appended(h, i, size);
    assert h'.limits[i] == h'.top + h'.topsize;
    AppendInUse(h.live, h.top, h.topsize + size);
  }

  lemma AppendInUse(live: Live, top: nat, s: nat)
    requires top in live && !live[top].kind.Used?
    ensures InUse(live[top := Chunk(s, Top)]) == InUse(live)
  {
  }

  /** A region right before a segment is a chunk in use, next to the segment's first chunk. */
  lemma PrefixOk(h: View, items: Items, state: nat, i: nat, base: nat)
    requires HeapOk(h, items, {}, state) && i < |h.segs| && base + 32 <= h.segs[i].base && FreshRegion(h.segs, base, h.segs[i].base - base)
    ensures var h' := WithPrefix(h, i, base);
            && HeapOk(h', items, {}, state) && base !in h.live && base !in h.pinned
            && InUse(h'.live) == InUse(h.live)[base := h.segs[i].base - base] && base !in InUse(h.live)
  {
    hide Core, InUse, OwnedBut, EndsOk, TopSegment, FreshRegion;
    PrefixCore(h, state, i, base);
    CoreParts(h, state);
    PrefixEmpty(h, items, state, i, base);
    PrefixRest(h, items, i, base);
    PrefixTop(h, items, state, i, base);
  }

  lemma PrefixEmpty(h: View, items: Items, state: nat, i: nat, base: nat)
    requires HeapOk(h, items, {}, state) && i < |h.segs| && base < h.segs[i].base && FreshRegion(h.segs, base, h.segs[i].base - base)
    ensures base !in h.live && base !in h.ends && base !in InUse(h.live) && h.top != base
  {
    hide Tagged, SegsOk, PinnedOk, EndsOk, TopSegment;
    RegionEmpty(h, state, base, h.segs[i].base - base);
  }

  lemma PrefixRest(h: View, items: Items, i: nat, base: nat)
    requires OwnedBut(h.live, items, h.dv, h.dvsize, h.top, h.topsize, {}) && EndsOk(h.ends, h.heads, h.top + h.topsize)
    requires i < |h.segs| && base < h.segs[i].base && base !in h.live && base !in h.ends
    ensures var h' := WithPrefix(h, i, base);
            OwnedBut(h'.live, items, h'.dv, h'.dvsize, h'.top, h'.topsize, {}) && EndsOk(h'.ends, h'.heads, h'.top + h'.topsize)
            && InUse(h'.live) == InUse(h.live)[base := h.segs[i].base - base]
  {
    hide EndsOk, OwnedBut, InUse;
    OwnedWithUsed(h.live, items, h.dv, h.dvsize, h.top, h.topsize, base, h.segs[i].base - base);
    InUseWithUsed(h.live, base, h.segs[i].base - base);
    EndsKept(h.ends, h.heads, h.heads[base := Head(h.segs[i].base - base, true, true)], h.top + h.topsize);
  }

  lemma OwnedWithUsed(live: Live, items: Items, dv: nat, dvsize: nat, top: nat, topsize: nat, base: nat, s: nat)
    requires OwnedBut(live, items, dv, dvsize, top, topsize, {}) && base !in live
    ensures OwnedBut(live[base := Chunk(s, Used)], items, dv, dvsize, top, topsize, {})
  {
  }

  lemma InUseWithUsed(live: Live, base: nat, s: nat)
    ensures InUse(live[base := Chunk(s, Used)]) == InUse(live)[base := s]
  {
  }

  lemma PrefixTop(h: View, items: Items, state: nat, i: nat, base: nat)
    requires HeapOk(h, items, {}, state) && i < |h.segs| && base < h.segs[i].base
    ensures var h' := WithPrefix(h, i, base); TopSegment(h'.segs, h'.limits, h'.top + h'.topsize)
  {
    hide Core, OwnedBut, EndsOk;
    var k := TopsSegment(h, items, state);
    var h' := WithPrefix(h, i, base);
    assert h'.segs[k].base + h'.segs[k].size == h.segs[k].base + h.segs[k].size;
  }

  // ----- a new segment elsewhere: the old top becomes a free chunk and the record of the new segment

  const RECORD: nat := 48

  /** Where the record of the old segment goes: at the foot of top, or at top when top is too small to be left over. */
  function RecordAt(h: View): nat {
    if h.topsize < MIN_CHUNK_SIZE then h.top else h.top + h.topsize
  }

  /** The old top cut off at its record, and the fencepost after it. */
  function Closed(h: View, k: nat): View
    requires k < |h.segs| == |h.limits| && h.topsize >= 16
  {
    var sp := RecordAt(h);
    var limit := sp + RECORD;
    var h1 := WithLimit(h, k, limit, h.segs[k].size, Head(8, false, true));
    if sp == h.top then
      h1.(live := Placed(h1.live, sp, limit, Used, limit, Used),
          heads := h1.heads[sp := Head(RECORD, true, true)][limit := Head(8, true, true)])
    else
      h1.(live := Placed(h1.live, h.top, limit, Free, sp, Used),
          heads := h1.heads[h.top := Head(h.topsize, true, false)][sp := Head(RECORD, false, true)][limit := Head(8, true, true)],
          feet := h.feet[sp := h.topsize])
  }

  lemma ClosedCore(h: View, items: Items, state: nat, k: nat)
    requires HeapOk(h, items, {}, state) && k < |h.segs| == |h.limits| && h.limits[k] == h.top + h.topsize
    requires h.segs[k].base + h.segs[k].size == h.limits[k] + TOP_FOOT
    ensures h.topsize >= 16 && Core(Closed(h, k), state)
  {
    hide Core, OwnedBut, EndsOk, TopSegment, Placed, Hole;
    TopSize(h, items, state);
    SegmentBounds(h, state, k);
    TopIsLive(h, items, state);
    OneChunk(h, items, {}, state, h.top);
    var sp := RecordAt(h);
    var limit := sp + RECORD;
    ClosedGrow(h, items, state, k);
    GrowCore(h, state, k, limit, h.segs[k].size, Head(8, false, true));
    var h1 := WithLimit(h, k, limit, h.segs[k].size, Head(8, false, true));
    ClosedTags(h1, state, h.top, h.topsize, sp, limit);
  }

  lemma ClosedGrow(h: View, items: Items, state: nat, k: nat)
    requires HeapOk(h, items, {}, state) && k < |h.segs| == |h.limits| && h.limits[k] == h.top + h.topsize
    requires h.segs[k].base + h.segs[k].size == h.limits[k] + TOP_FOOT
    ensures var limit := RecordAt(h) + RECORD;
            h.topsize % 16 == 0 && CanGrow(h, k, limit, h.segs[k].size) && h.topsize >= 16
  {
    hide Core, OwnedBut, EndsOk, TopSegment;
    TopSize(h, items, state);
    SegmentBounds(h, state, k);
    TopIsLive(h, items, state);
    OneChunk(h, items, {}, state, h.top);
    AlignedDifference(h.top, h.top + h.topsize);
    AlignedSum(RecordAt(h), RECORD);
    forall j | 0 <= j < |h.segs| && j != k
      ensures ApartSegments(Segment(h.segs[k].base, h.segs[k].size), h.segs[j])
    {
      SegmentsApart(h, state, k, j);
    }
  }

  lemma TopIsLive(h: View, items: Items, state: nat)
    requires HeapOk(h, items, {}, state)
    ensures h.top in h.live && h.live[h.top] == Chunk(h.topsize, Top)
  {
  }

  /** Top, already reaching to the fencepost, is cut into what is left over and the record. */
  lemma ClosedTags(h1: View, state: nat, top: nat, topsize: nat, sp: nat, limit: nat)
    requires Core(h1, state) && limit == sp + RECORD && top % 16 == 0 && topsize % 16 == 0 && 0 < top && limit < WORD_LIMIT
    requires top <= limit && top in h1.live && h1.live[top] == Chunk(limit - top, Top) && sp == if topsize < 32 then top else top + topsize
    requires topsize >= 16 && limit in h1.heads && h1.heads[limit] == Head(8, false, true) && top in h1.heads && h1.heads[top].pinuse
    ensures if sp == top then
              Core(h1.(live := Placed(h1.live, sp, limit, Used, limit, Used),
                       heads := h1.heads[sp := Head(RECORD, true, true)][limit := Head(8, true, true)]), state)
            else
              Core(h1.(live := Placed(h1.live, top, limit, Free, sp, Used),
                       heads := h1.heads[top := Head(topsize, true, false)][sp := Head(RECORD, false, true)][limit := Head(8, true, true)],
                       feet := h1.feet[sp := topsize]), state)
  {
    hide Tagged, SegsOk, PinnedOk, Placed, Hole;
    CoreParts(h1, state);
    ChunkFacts(h1.live, h1.ends, h1.heads, h1.feet, top);
    TaggedParts(h1.live, h1.ends, h1.heads, h1.feet);
    OneInHole(h1.live, h1.ends, top);
    NoEndInLive(h1.live, h1.ends, h1.heads, h1.feet, limit);
    PinnedOutside(h1, state, top, limit, 0);
    AlignedSum(top, topsize);
    if sp == top {
      var heads' := h1.heads[sp := Head(RECORD, true, true)][limit := Head(8, true, true)];
      PlacedTagged(h1.live, h1.ends, h1.heads, h1.feet, heads', h1.feet, top, limit, Used, limit, Used);
      CorePlaced(h1, state, top, limit, Used, limit, Used, heads', h1.feet);
    } else {
      var heads' := h1.heads[top := Head(topsize, true, false)][sp := Head(RECORD, false, true)][limit := Head(8, true, true)];
      PlacedTagged(h1.live, h1.ends, h1.heads, h1.feet, heads', h1.feet[sp := topsize], top, limit, Free, sp, Used);
      CorePlaced(h1, state, top, limit, Free, sp, Used, heads', h1.feet[sp := topsize]);
    }
  }

  lemma CoreHeads(h: View, state: nat, heads': Heads)
    requires Core(h, state)
    requires forall x :: x in h.heads && (x in h.live || x in h.ends) ==> x in heads' && heads'[x] == h.heads[x]
    ensures Core(h.(heads := heads'), state)
  {
    hide Tagged, SegsOk, PinnedOk;
    TaggedFrame(h.live, h.ends, h.heads, h.feet, heads');
  }

  /** The view after a new segment was added: its space is the new top, the record of the old one is pinned. */
  function Renewed(h: View, k: nat, base: nat, size: nat): View
    requires k < |h.segs| == |h.limits| && h.topsize >= 16 && size >= TOP_FOOT
  {
    WithSegment(Closed(h, k), base, size, base + size - TOP_FOOT)
    .(top := base, topsize := size - TOP_FOOT, pinned := h.pinned + {RecordAt(h)})
  }

  lemma ClosedKeys(h: View, k: nat)
    requires k < |h.segs| == |h.limits| && h.topsize >= 16 && h.top in h.live && h.live[h.top] == Chunk(h.topsize, Top)
    requires forall p :: p in h.live && p != h.top ==> p + h.live[p].size <= h.top || h.top + h.topsize + TOP_FOOT <= p
    ensures var c := Closed(h, k);
            var sp := RecordAt(h);
            && c.segs == h.segs && c.ends == h.ends - {h.limits[k]} + {sp + RECORD}
            && c.live == (if sp == h.top then h.live[sp := Chunk(RECORD, Used)] else h.live[h.top := Chunk(h.topsize, Free)][sp := Chunk(RECORD, Used)])
            && sp !in h.live - {h.top}
  {
    var c := Closed(h, k);
    assert c.segs == h.segs;
  }

  lemma TopNeighbours(h: View, items: Items, state: nat, k: nat)
    requires HeapOk(h, items, {}, state) && k < |h.segs| == |h.limits| && h.limits[k] == h.top + h.topsize
    requires h.segs[k].base + h.segs[k].size == h.limits[k] + TOP_FOOT
    ensures h.top in h.live && h.live[h.top] == Chunk(h.topsize, Top)
    ensures forall p :: p in h.live && p != h.top ==> p + h.live[p].size <= h.top || h.top + h.topsize + TOP_FOOT <= p
    ensures forall e :: e in h.ends && e != h.top + h.topsize ==> e + 16 <= h.top || h.top + h.topsize + TOP_FOOT <= e
  {
    hide Core, OwnedBut, EndsOk, TopSegment;
    TopIsLive(h, items, state);
    forall j | 0 <= j < |h.segs| && j != k
      ensures ApartSegments(Segment(h.segs[k].base, h.segs[k].size), h.segs[j])
    {
      SegmentsApart(h, state, k, j);
    }
    SegmentBounds(h, state, k);
    TopSize(h, items, state);
    OneChunk(h, items, {}, state, h.top);
    AlignedSum(h.top + h.topsize, 64);
    GrowthClear(h, state, k, h.top + h.topsize + 64, h.segs[k].size);
  }

  lemma RegionBounds(segs: seq<Segment>, base: nat, size: nat)
    requires FreshRegion(segs, base, size)
    ensures 0 < base && base % 16 == 0 && size % 16 == 0 && base + size < WORD_LIMIT && (size >= TOP_FOOT ==> (base + size - TOP_FOOT) % 16 == 0)
    ensures forall i {:trigger segs[i]} :: 0 <= i < |segs| ==> ApartSegments(Segment(base, size), segs[i])
  {
    AlignedSum(base, size);
  }

  /** A chunk in use that is not a caller's is pinned. */
  lemma PinnedMore(h: View, state: nat, sp: nat)
    requires Core(h, state) && sp in h.live && h.live[sp].kind.Used?
    ensures Core(h.(pinned := h.pinned + {sp}), state)
  {
    hide Tagged, SegsOk;
  }

  lemma ClosedPinned(h: View, k: nat)
    requires k < |h.segs| == |h.limits| && h.topsize >= 16
    ensures Closed(h, k).pinned == h.pinned && Closed(h, k).dv == h.dv && Closed(h, k).dvsize == h.dvsize && Closed(h, k).limits[k] == RecordAt(h) + RECORD
  {
  }

  lemma RenewedCore(h: View, items: Items, state: nat, k: nat, base: nat, size: nat)
    requires HeapOk(h, items, {}, state) && k < |h.segs| == |h.limits| && h.limits[k] == h.top + h.topsize
    requires h.segs[k].base + h.segs[k].size == h.limits[k] + TOP_FOOT
    requires FreshRegion(h.segs, base, size) && size >= TOP_FOOT + 32 && h.topsize >= 16
    ensures Core(Renewed(h, k, base, size), state)
  {
    hide Core, OwnedBut, EndsOk, TopSegment, FreshRegion, Closed;
    ClosedCore(h, items, state, k);
    TopNeighbours(h, items, state, k);
    ClosedKeys(h, k);
    RegionBounds(h.segs, base, size);
    var c := Closed(h, k);
    AddSegmentCore(c, state, base, size, base + size - TOP_FOOT);
    RegionEmpty(c, state, base, size);
    var n := WithSegment(c, base, size, base + size - TOP_FOOT);
    PinnedMore(n, state, RecordAt(h));
    CoreOfTop(n.(pinned := n.pinned + {RecordAt(h)}), state, base, size - TOP_FOOT);
    ClosedPinned(h, k);
  }

  /** The rest of the invariant: the old top, when left over, is in transit. */
  lemma RenewedRest(h: View, items: Items, state: nat, k: nat, base: nat, size: nat)
    requires HeapOk(h, items, {}, state) && k < |h.segs| == |h.limits| && h.limits[k] == h.top + h.topsize
    requires h.segs[k].base + h.segs[k].size == h.limits[k] + TOP_FOOT
    requires FreshRegion(h.segs, base, size) && size >= TOP_FOOT + 32 && h.topsize >= 16
    ensures var n := Renewed(h, k, base, size);
            && OwnedBut(n.live, items, n.dv, n.dvsize, n.top, n.topsize, if RecordAt(h) == h.top then {} else {h.top})
            && EndsOk(n.ends, n.heads, n.top + n.topsize) && TopSegment(n.segs, n.limits, n.top + n.topsize)
            && InUse(n.live) == InUse(h.live)[RecordAt(h) := RECORD] && RecordAt(h) !in InUse(h.live)
  {
    hide Core, OwnedBut, EndsOk, FreshRegion, Closed, InUse;
    TopNeighbours(h, items, state, k);
    ClosedKeys(h, k);
    ClosedPinned(h, k);
    RegionBounds(h.segs, base, size);
    RegionEmpty(h, state, base, size);
    var n := Renewed(h, k, base, size);
    assert n.limits[0] == n.top + n.topsize;
    RenewedOwned(h.live, items, h.dv, h.dvsize, h.top, h.topsize, RecordAt(h), base, size - TOP_FOOT);
    RenewedEnds(h, items, state, k, base, size);
  }

  lemma RenewedOwned(live: Live, items: Items, dv: nat, dvsize: nat, top: nat, topsize: nat, sp: nat, base: nat, s: nat)
    requires OwnedBut(live, items, dv, dvsize, top, topsize, {}) && base !in live && base != sp && base != top && sp !in live - {top}
    ensures var live' := (if sp == top then live[sp := Chunk(RECORD, Used)] else live[top := Chunk(topsize, Free)][sp := Chunk(RECORD, Used)])[base := Chunk(s, Top)];
            && OwnedBut(live', items, dv, dvsize, base, s, if sp == top then {} else {top})
            && InUse(live') == InUse(live)[sp := RECORD] && sp !in InUse(live)
  {
  }

  lemma RenewedEnds(h: View, items: Items, state: nat, k: nat, base: nat, size: nat)
    requires HeapOk(h, items, {}, state) && k < |h.segs| == |h.limits| && h.limits[k] == h.top + h.topsize
    requires h.segs[k].base + h.segs[k].size == h.limits[k] + TOP_FOOT
    requires FreshRegion(h.segs, base, size) && size >= TOP_FOOT + 32 && h.topsize >= 16
    ensures var n := Renewed(h, k, base, size); EndsOk(n.ends, n.heads, n.top + n.topsize)
  {
    hide Core, OwnedBut, TopSegment, FreshRegion, Placed;
    TopNeighbours(h, items, state, k);
    RegionBounds(h.segs, base, size);
    RegionEmpty(h, state, base, size);
    TopSize(h, items, state);
  }

  /** An address that adding a segment does not write to. */
  predicate Elsewhere(h: View, base: nat, size: nat, x: nat)
    requires size >= TOP_FOOT
  {
    && x != h.top && x != RecordAt(h) && x != base && x != base + size - TOP_FOOT
    && !(RecordAt(h) + RECORD <= x < h.top + h.topsize + TOP_FOOT)
  }

  /** The headers after `add_segment`: as in the view, but for further fenceposts where no chunk is. */
  ghost predicate FencedOff(h: View, base: nat, size: nat, heads': Heads)
    requires size >= TOP_FOOT
  {
    var sp := RecordAt(h);
    var limit := sp + RECORD;
    && (forall x :: x in h.heads && Elsewhere(h, base, size, x) ==> x in heads' && heads'[x] == h.heads[x])
    && base in heads' && heads'[base] == Head(size - TOP_FOOT, true, false)
    && base + size - TOP_FOOT in heads' && heads'[base + size - TOP_FOOT] == Head(TOP_FOOT, false, false)
    && sp in heads' && heads'[sp] == Head(RECORD, sp == h.top, true)
    && (sp != h.top ==> h.top in heads' && heads'[h.top] == Head(h.topsize, true, false))
    && limit in heads' && heads'[limit] == Head(8, true, true)
  }

  lemma FencedHeads(h: View, items: Items, state: nat, k: nat, base: nat, size: nat, heads': Heads)
    requires HeapOk(h, items, {}, state) && k < |h.segs| == |h.limits| && h.limits[k] == h.top + h.topsize
    requires h.segs[k].base + h.segs[k].size == h.limits[k] + TOP_FOOT
    requires FreshRegion(h.segs, base, size) && size >= TOP_FOOT + 32 && h.topsize >= 16 && FencedOff(h, base, size, heads')
    ensures var n := Renewed(h, k, base, size);
            forall x :: x in n.heads && (x in n.live || x in n.ends) ==> x in heads' && heads'[x] == n.heads[x]
  {
    hide Core, OwnedBut, EndsOk, TopSegment, FreshRegion, Placed;
    TopNeighbours(h, items, state, k);
    ClosedKeys(h, k);
    RegionBounds(h.segs, base, size);
    RegionEmpty(h, state, base, size);
    TopSize(h, items, state);
    RegionAfterTop(h, state, k, base, size);
  }

  lemma RegionAfterTop(h: View, state: nat, k: nat, base: nat, size: nat)
    requires Core(h, state) && k < |h.segs| && FreshRegion(h.segs, base, size)
    ensures base + size <= h.segs[k].base || h.segs[k].base + h.segs[k].size <= base
    ensures h.segs[k].base in h.live && h.segs[k].base < h.segs[k].base + h.segs[k].size
  {
    hide Tagged, PinnedOk, InSome;
    SegmentBounds(h, state, k);
    assert ApartSegments(Segment(base, size), h.segs[k]);
  }

  /** A new segment was added. */
  lemma RenewedOk(h: View, items: Items, state: nat, k: nat, base: nat, size: nat, heads': Heads)
    requires HeapOk(h, items, {}, state) && k < |h.segs| == |h.limits| && h.limits[k] == h.top + h.topsize
    requires h.segs[k].base + h.segs[k].size == h.limits[k] + TOP_FOOT
    requires FreshRegion(h.segs, base, size) && size >= TOP_FOOT + 32 && h.topsize >= 16 && FencedOff(h, base, size, heads')
    ensures var n := Renewed(h, k, base, size).(heads := heads');
            && HeapOk(n, items, if RecordAt(h) == h.top then {} else {h.top}, state)
            && InUse(n.live) == InUse(h.live)[RecordAt(h) := RECORD] && RecordAt(h) !in InUse(h.live)
  {
    hide Core, OwnedBut, EndsOk, TopSegment, FreshRegion, Renewed, InUse, FencedOff;
    RenewedCore(h, items, state, k, base, size);
    RenewedRest(h, items, state, k, base, size);
    FencedHeads(h, items, state, k, base, size, heads');
    var n := Renewed(h, k, base, size);
    CoreHeads(n, state, heads');
    EndsAgree(n.ends, n.heads, heads', n.top + n.topsize);
  }

  lemma EndsAgree(ends: set<nat>, heads: Heads, heads': Heads, topEnd: nat)
    requires EndsOk(ends, heads, topEnd) && forall x :: x in heads && x in ends ==> x in heads' && heads'[x] == heads[x]
    ensures EndsOk(ends, heads', topEnd)
  {
  }
}
