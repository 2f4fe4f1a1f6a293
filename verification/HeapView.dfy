/** The whole heap apart from the link words, and what each primitive step does to it. */
module HeapViews {
  import opened TreeIndexes
  import opened ChunkLinks
  import opened ChunkHeads
  import opened BinSpec
  import opened HeapSpec
  import opened HeapState
  import opened HeapOps

  datatype View = View(live: Live, ends: set<nat>, heads: Heads, feet: Words, dv: nat, dvsize: nat, top: nat, topsize: nat,
                       segs: seq<Segment>, limits: seq<nat>, pinned: set<nat>)

  /** Fenceposts read as chunks in use; the foot after top does not. */
  ghost predicate EndsOk(ends: set<nat>, heads: Heads, topEnd: nat) {
    forall e :: e in ends ==> e in heads && (heads[e].cinuse || e == topEnd)
  }

  const TOP_FOOT: nat := 80

  /** Top ends where its segment ends, but for the foot. */
  ghost predicate TopSegment(segs: seq<Segment>, limits: seq<nat>, topEnd: nat) {
    exists i :: 0 <= i < |segs| && i < |limits| && limits[i] == topEnd && segs[i].base + segs[i].size == topEnd + TOP_FOOT
  }

  ghost predicate Core(h: View, state: nat) {
    && Tagged(h.live, h.ends, h.heads, h.feet)
    && SegsOk(h.live, h.ends, h.segs, h.limits)
    && PinnedOk(h.live, h.pinned, state)
  }

  /** The heap invariant, with some free chunks perhaps in transit between their owners. */
  ghost predicate HeapOk(h: View, items: Items, loose: set<nat>, state: nat) {
    && Core(h, state)
    && OwnedBut(h.live, items, h.dv, h.dvsize, h.top, h.topsize, loose)
    && EndsOk(h.ends, h.heads, h.top + h.topsize)
    && TopSegment(h.segs, h.limits, h.top + h.topsize)
  }

  lemma NoNull(live: Live, ends: set<nat>)
    requires ShapeOk(live, ends)
    ensures 0 !in live
  {
    assert 0 in live ==> ShapeAt(live, ends, 0);
  }

  /** What the bins need to know of the headers. */
  lemma BinnedSizes(h: View, items: Items, loose: set<nat>, state: nat)
    requires HeapOk(h, items, loose, state)
    ensures forall c :: c in items ==> ChunkSize(h.heads, c) == items[c]
  {
    hide SegsOk, ShapeOk, Apart, BackOk, PinnedOk;
    assert forall c :: c in items ==> TagsAt(h.live, h.heads, h.feet, c);
  }

  /** A free chunk can go into a bin: it is large enough and away from the bins themselves. */
  lemma FreeIsItem(h: View, items: Items, loose: set<nat>, state: nat, p: nat)
    requires HeapOk(h, items, loose, state) && p in h.live && h.live[p].kind.Free?
    ensures IsItem(state, p, h.live[p].size)
  {
    hide SegsOk, TagsOk, BackOk;
    assert ShapeAt(h.live, h.ends, p) && ShapeAt(h.live, h.ends, state - 16);
  }

  /** A replacement keeps the segments, and the pinned chunks when it stays off them. */
  lemma CorePlaced(h: View, state: nat, a: nat, b: nat, u: Kind, m: nat, v: Kind, heads': Heads, feet': Words)
    requires Core(h, state) && Hole(h.live, h.ends, a, b) && a in h.live && a < m <= b
    requires forall p :: p in h.pinned ==> !(a <= p < b)
    requires Tagged(Placed(h.live, a, b, u, m, v), h.ends, heads', feet')
    ensures Core(h.(live := Placed(h.live, a, b, u, m, v), heads := heads', feet := feet'), state)
  {
    hide Tagged, SegsOk, Hole, Placed;
    PlacedKeys(h.live, a, b, u, m, v);
    PlacedSegs(h.live, h.ends, h.segs, h.limits, a, b, u, m, v);
  }

  lemma PinnedOutside(h: View, state: nat, a: nat, b: nat, p: nat)
    requires Core(h, state) && p !in h.pinned && forall x :: x in h.live && a <= x < b && h.live[x].kind.Used? ==> x == p
    ensures forall x :: x in h.pinned ==> !(a <= x < b)
  {
    hide Tagged, SegsOk;
  }

  lemma OneInHole(live: Live, ends: set<nat>, p: nat)
    requires Apart(live, ends) && p in live
    ensures forall x :: x in live && p <= x < p + live[p].size ==> x == p
  {
  }

  lemma TaggedParts(live: Live, ends: set<nat>, heads: Heads, feet: Words)
    requires Tagged(live, ends, heads, feet)
    ensures ShapeOk(live, ends) && Apart(live, ends) && TagsOk(live, heads, feet) && BackOk(live, heads, feet) && 0 !in live
  {
    NoNull(live, ends);
  }

  // ----- one replacement

  /** An interval of whole chunks and what takes its place. */
  datatype Patch = Patch(a: nat, b: nat, u: Kind, m: nat, v: Kind)

  ghost predicate PatchFits(h: View, x: Patch) {
    x.a < x.m <= x.b && x.a in h.live && Hole(h.live, h.ends, x.a, x.b)
  }

  function Patched(h: View, x: Patch, heads': Heads, feet': Words): View
    requires x.a < x.m <= x.b
  {
    h.(live := Placed(h.live, x.a, x.b, x.u, x.m, x.v), heads := heads', feet := feet')
  }

  /** Only p, if anything, is in use in the interval. */
  ghost predicate OnlyUsed(live: Live, a: nat, b: nat, p: nat) {
    forall x :: x in live && a <= x < b && live[x].kind.Used? ==> x == p
  }

  ghost predicate CinuseKept(ends: set<nat>, heads: Heads, heads': Heads) {
    forall e :: e in ends && e in heads ==> e in heads' && heads'[e].cinuse == heads[e].cinuse
  }

  /** Who owns what after a replacement. */
  ghost predicate Handover(h: View, items: Items, loose: set<nat>, x: Patch, loose': set<nat>, top': nat, topsize': nat) {
    && (forall c :: c in items ==> !(x.a <= c < x.b)) && (h.dvsize == 0 || !(x.a <= h.dv < x.b))
    && (forall p :: p in loose ==> x.a <= p < x.b)
    && loose' == (if x.u.Free? then {x.a} else if x.m < x.b && x.v.Free? then {x.m} else {}) && !(x.u.Free? && x.m < x.b && x.v.Free?)
    && if x.a <= h.top < x.b then (if x.m == x.b then x.u.Top? && top' == x.a && topsize' == x.b - x.a
                                   else !x.u.Top? && x.v.Top? && top' == x.m && topsize' == x.b - x.m)
       else top' == h.top && topsize' == h.topsize && !x.u.Top? && (x.m == x.b || !x.v.Top?)
  }

  lemma Replace(h: View, items: Items, loose: set<nat>, state: nat, x: Patch, heads': Heads, feet': Words,
                loose': set<nat>, top': nat, topsize': nat, p: nat)
    requires HeapOk(h, items, loose, state) && PatchFits(h, x) && OnlyUsed(h.live, x.a, x.b, p) && p !in h.pinned
    requires Tagged(Placed(h.live, x.a, x.b, x.u, x.m, x.v), h.ends, heads', feet')
    requires Handover(h, items, loose, x, loose', top', topsize') && CinuseKept(h.ends, h.heads, heads')
    requires top' + topsize' == h.top + h.topsize
    ensures HeapOk(Patched(h, x, heads', feet').(top := top', topsize := topsize'), items, loose', state)
  {
    hide Tagged, SegsOk, Hole, Placed, OwnedBut, PinnedOk;
    TaggedParts(h.live, h.ends, h.heads, h.feet);
    PinnedOutside(h, state, x.a, x.b, p);
    CorePlaced(h, state, x.a, x.b, x.u, x.m, x.v, heads', feet');
    PlacedKeys(h.live, x.a, x.b, x.u, x.m, x.v);
    NullNotKey(h.live, h.ends, x.a);
    PlacedOwned(h.live, items, h.dv, h.dvsize, h.top, h.topsize, loose, x.a, x.b, x.u, x.m, x.v, loose', top', topsize');
    EndsKept(h.ends, h.heads, heads', h.top + h.topsize);
  }

  lemma EndsKept(ends: set<nat>, heads: Heads, heads': Heads, topEnd: nat)
    requires EndsOk(ends, heads, topEnd) && CinuseKept(ends, heads, heads')
    ensures EndsOk(ends, heads', topEnd)
  {
  }

  lemma NullNotKey(live: Live, ends: set<nat>, a: nat)
    requires ShapeOk(live, ends) && a in live
    ensures a > 0
  {
    assert ShapeAt(live, ends, a);
  }

  // ----- allocation steps

  /** A chunk and its surroundings. */
  lemma OneChunk(h: View, items: Items, loose: set<nat>, state: nat, p: nat)
    requires HeapOk(h, items, loose, state) && p in h.live
    ensures var b := p + h.live[p].size;
            && 0 < p < b < WORD_LIMIT && p % 16 == 0 && b % 16 == 0 && Hole(h.live, h.ends, p, b)
            && (forall q :: q in h.live && p <= q < b ==> q == p)
            && (forall e :: e in h.ends ==> !(p <= e < b))
            && Tagged(h.live, h.ends, h.heads, h.feet) && 0 !in h.pinned && 0 !in h.live
            && p in h.heads && b in h.heads && (!h.live[p].kind.Used? ==> h.heads[p].pinuse)
  {
    hide SegsOk, Hole, OwnedBut, ShapeOk, Apart, TagsOk, BackOk;
    CoreParts(h, state);
    ChunkFacts(h.live, h.ends, h.heads, h.feet, p);
    TaggedParts(h.live, h.ends, h.heads, h.feet);
    OneInHole(h.live, h.ends, p);
    HoleEnds(h.live, h.ends, p, p + h.live[p].size);
    if !h.live[p].kind.Used? {
      PinuseOfFree(h.live, h.ends, h.heads, h.feet, p);
    }
  }

  lemma HoleEnds(live: Live, ends: set<nat>, a: nat, b: nat)
    requires Hole(live, ends, a, b)
    ensures forall e :: e in ends ==> !(a <= e < b)
  {
  }

  /** The chunk in transit goes whole to the caller. */
  lemma TakeWhole(h: View, items: Items, state: nat, p: nat, s: nat)
    requires HeapOk(h, items, {p}, state) && p in h.live && h.live[p].size == s
    ensures s > 0 && HeapOk(Patched(h, Patch(p, p + s, Used, p + s, Used), SetInuseAndPinuse(h.heads, p, s), h.feet), items, {}, state)
  {
    hide Tagged, SegsOk, Hole, Placed, Core, PinnedOk, Handover, EndsOk;
    OneChunk(h, items, {p}, state, p);
    UseWhole(h.live, h.ends, h.heads, h.feet, p, s);
    var x := Patch(p, p + s, Used, p + s, Used);
    LooseHandover(h, items, p, x, {}, h.top, h.topsize);
    Replace(h, items, {p}, state, x, SetInuseAndPinuse(h.heads, p, s), h.feet, {}, h.top, h.topsize, 0);
  }

  /** The first nb bytes of the chunk in transit go to the caller, the rest is in transit. */
  lemma TakeSplit(h: View, items: Items, state: nat, p: nat, s: nat, nb: nat)
    requires HeapOk(h, items, {p}, state) && p in h.live && h.live[p].size == s
    requires nb % 16 == 0 && 32 <= nb && nb + 32 <= s
    ensures HeapOk(Patched(h, Patch(p, p + s, Used, p + nb, Free), h.heads[p := Head(nb, true, true)][p + nb := Head(s - nb, true, false)],
                           h.feet[p + s := s - nb]), items, {p + nb}, state)
  {
    hide Tagged, SegsOk, Hole, Placed, Core, PinnedOk, Handover, EndsOk;
    OneChunk(h, items, {p}, state, p);
    var heads', feet' := h.heads[p := Head(nb, true, true)][p + nb := Head(s - nb, true, false)], h.feet[p + s := s - nb];
    UseSplit(h.live, h.ends, h.heads, h.feet, p, s, nb, heads', feet');
    var x := Patch(p, p + s, Used, p + nb, Free);
    LooseHandover(h, items, p, x, {p + nb}, h.top, h.topsize);
    Replace(h, items, {p}, state, x, heads', feet', {p + nb}, h.top, h.topsize, 0);
  }

  /** The first nb bytes of top go to the caller. */
  lemma TakeTop(h: View, items: Items, state: nat, nb: nat)
    requires HeapOk(h, items, {}, state) && nb % 16 == 0 && 32 <= nb < h.topsize
    ensures var p, s := h.top, h.topsize;
            p > 0 && HeapOk(Patched(h, Patch(p, p + s, Used, p + nb, Top), h.heads[p := Head(nb, true, true)][p + nb := Head(s - nb, true, false)], h.feet)
                   .(top := p + nb, topsize := s - nb), items, {}, state)
  {
    hide Tagged, SegsOk, Hole, Placed, Core, PinnedOk, Handover, EndsOk;
    var p, s := h.top, h.topsize;
    OneChunk(h, items, {}, state, p);
    var heads' := h.heads[p := Head(nb, true, true)][p + nb := Head(s - nb, true, false)];
    UseSplit(h.live, h.ends, h.heads, h.feet, p, s, nb, heads', h.feet);
    var x := Patch(p, p + s, Used, p + nb, Top);
    TopHandover(h, items, x);
    Replace(h, items, {}, state, x, heads', h.feet, {}, p + nb, s - nb, 0);
  }

  lemma TopHandover(h: View, items: Items, x: Patch)
    requires OwnedBut(h.live, items, h.dv, h.dvsize, h.top, h.topsize, {}) && x.u.Used? && x.v.Top?
    requires forall q :: q in h.live && x.a <= q < x.b ==> q == h.top
    requires x.a == h.top < x.m < x.b
    ensures Handover(h, items, {}, x, {}, x.m, x.b - x.m)
  {
  }

  /** An interval that is just the chunk in transit. */
  lemma LooseHandover(h: View, items: Items, p: nat, x: Patch, loose': set<nat>, top': nat, topsize': nat)
    requires OwnedBut(h.live, items, h.dv, h.dvsize, h.top, h.topsize, {p})
    requires forall q :: q in h.live && x.a <= q < x.b ==> q == p
    requires x.a == p < x.m <= x.b && x.u.Used? && !x.v.Top? && top' == h.top && topsize' == h.topsize
    requires loose' == if x.m < x.b && x.v.Free? then {x.m} else {}
    ensures Handover(h, items, {p}, x, loose', top', topsize')
  {
  }

  // ----- merging and resizing

  /** The interval is a run of chunks: p in use, the others in transit, or top at its end. */
  ghost predicate RunOf(h: View, a: nat, b: nat, p: nat, loose: set<nat>) {
    && (forall q :: q in h.live && a <= q < b ==> q == p || q in loose || q == h.top)
    && (forall q :: q in loose ==> a <= q < b)
  }

  /** A chunk in use is given back, merged with its free neighbours or with top. */
  lemma GiveBack(h: View, items: Items, loose: set<nat>, state: nat, a: nat, b: nat, p: nat, kind: Kind, heads': Heads, feet': Words)
    requires HeapOk(h, items, loose, state) && p in h.live && h.live[p].kind.Used? && p !in h.pinned && a <= p < b
    requires a in h.live && Hole(h.live, h.ends, a, b) && RunOf(h, a, b, p, loose)
    requires !kind.Used? && (kind.Top? <==> a <= h.top < b) && (kind.Top? ==> b == h.top + h.topsize)
    requires a in h.heads && h.heads[a].pinuse && b in h.heads && b % 16 == 0 && b < WORD_LIMIT && b - a >= 32
    requires a in heads' && heads'[a] == Head(b - a, true, false) && b in heads' && heads'[b] == h.heads[b].(pinuse := false)
    requires forall x :: x in h.heads && x != a && x != b ==> x in heads' && heads'[x] == h.heads[x]
    requires At(feet', a) == At(h.feet, a) && feet' == if kind.Free? then h.feet[b := b - a] else h.feet
    requires if kind.Top? then b in h.ends else b in h.live ==> h.live[b].kind.Used?
    ensures var h' := Patched(h, Patch(a, b, kind, b, kind), heads', feet');
            if kind.Top? then HeapOk(h'.(top := a, topsize := b - a), items, {}, state) else HeapOk(h', items, {a}, state)
  {
    hide Tagged, SegsOk, Hole, Placed, Core, PinnedOk, Handover, EndsOk, RunOf, OwnedBut;
    OneChunk(h, items, loose, state, p);
    Merge(h.live, h.ends, h.heads, h.feet, a, b, kind, heads', feet');
    HoleEnds(h.live, h.ends, a, b);
    var x := Patch(a, b, kind, b, kind);
    RunHandover(h, items, loose, p, x);
    RunUsed(h, items, loose, a, b, p);
    var top', topsize' := if kind.Top? then a else h.top, if kind.Top? then b - a else h.topsize;
    assert Patched(h, x, heads', feet') == Patched(h, x, heads', feet').(top := h.top, topsize := h.topsize);
    Replace(h, items, loose, state, x, heads', feet', if kind.Free? then {a} else {}, top', topsize', p);
  }

  lemma RunUsed(h: View, items: Items, loose: set<nat>, a: nat, b: nat, p: nat)
    requires OwnedBut(h.live, items, h.dv, h.dvsize, h.top, h.topsize, loose) && RunOf(h, a, b, p, loose)
    ensures OnlyUsed(h.live, a, b, p)
  {
  }

  lemma RunHandover(h: View, items: Items, loose: set<nat>, p: nat, x: Patch)
    requires OwnedBut(h.live, items, h.dv, h.dvsize, h.top, h.topsize, loose) && RunOf(h, x.a, x.b, p, loose)
    requires p in h.live && h.live[p].kind.Used? && x.a < x.m == x.b && !x.u.Used? && (x.u.Top? <==> x.a <= h.top < x.b)
    ensures Handover(h, items, loose, x, if x.u.Free? then {x.a} else {}, if x.u.Top? then x.a else h.top, if x.u.Top? then x.b - x.a else h.topsize)
  {
  }

  /** A chunk in use is resized within a run it begins: m is its new end, what remains up to b is of kind v. */
  lemma Adjust(h: View, items: Items, loose: set<nat>, state: nat, p: nat, b: nat, m: nat, v: Kind, heads': Heads, feet': Words)
    requires HeapOk(h, items, loose, state) && p in h.live && h.live[p].kind.Used? && p !in h.pinned && p < m <= b
    requires Hole(h.live, h.ends, p, b) && RunOf(h, p, b, p, loose)
    requires (m < b && v.Top? <==> p <= h.top < b) && (m < b && v.Top? ==> b == h.top + h.topsize && b in h.ends)
    requires m % 16 == 0 && m - p >= 32 && b in h.heads && b % 16 == 0 && b < WORD_LIMIT
    requires m < b ==> b - m >= (if v.Top? then 16 else 32)
    requires p in h.heads && p in heads' && heads'[p] == Head(m - p, h.heads[p].pinuse, true)
    requires m < b ==> m in heads' && heads'[m] == Head(b - m, true, v.Used?)
    requires b in heads' && heads'[b] == h.heads[b].(pinuse := Last(b, Used, m, v).Used?)
    requires forall x :: x in h.heads && x != p && x != m && x != b ==> x in heads' && heads'[x] == h.heads[x]
    requires feet' == if m < b && v.Free? then h.feet[b := b - m] else h.feet
    requires m < b && v.Free? ==> b in h.live ==> h.live[b].kind.Used?
    ensures var h' := Patched(h, Patch(p, b, Used, m, v), heads', feet');
            if m < b && v.Top? then HeapOk(h'.(top := m, topsize := b - m), items, {}, state)
            else HeapOk(h', items, if m < b && v.Free? then {m} else {}, state)
  {
    hide Tagged, SegsOk, Hole, Placed, Core, PinnedOk, Handover, EndsOk, RunOf, OwnedBut;
    OneChunk(h, items, loose, state, p);
    Resize(h.live, h.ends, h.heads, h.feet, p, b, m, v, heads', feet');
    HoleEnds(h.live, h.ends, p, b);
    var x := Patch(p, b, Used, m, v);
    AdjustHandover(h, items, loose, p, x);
    RunUsed(h, items, loose, p, b, p);
    var top', topsize' := if m < b && v.Top? then m else h.top, if m < b && v.Top? then b - m else h.topsize;
    assert Patched(h, x, heads', feet') == Patched(h, x, heads', feet').(top := h.top, topsize := h.topsize);
    Replace(h, items, loose, state, x, heads', feet', if m < b && v.Free? then {m} else {}, top', topsize', p);
  }

  lemma AdjustHandover(h: View, items: Items, loose: set<nat>, p: nat, x: Patch)
    requires OwnedBut(h.live, items, h.dv, h.dvsize, h.top, h.topsize, loose) && RunOf(h, x.a, x.b, p, loose)
    requires p == x.a && p in h.live && h.live[p].kind.Used? && x.a < x.m <= x.b && x.u.Used? && (x.m < x.b && x.v.Top? <==> x.a <= h.top < x.b)
    ensures Handover(h, items, loose, x, if x.m < x.b && x.v.Free? then {x.m} else {},
                     if x.m < x.b && x.v.Top? then x.m else h.top, if x.m < x.b && x.v.Top? then x.b - x.m else h.topsize)
  {
  }

  // ----- owners

  /** A chunk on its way out of its bin, or no longer the designated victim. */
  lemma LoosenChunk(h: View, items: Items, loose: set<nat>, state: nat, p: nat)
    requires HeapOk(h, items, loose, state)
    ensures p in items ==> HeapOk(h, items - {p}, loose + {p}, state)
    ensures p == h.dv && h.dvsize != 0 ==> HeapOk(h.(dv := 0, dvsize := 0), items, loose + {p}, state)
  {
    hide Tagged, SegsOk, EndsOk, PinnedOk;
    CoreParts(h, state);
    TaggedParts(h.live, h.ends, h.heads, h.feet);
    Loosen(h.live, items, h.dv, h.dvsize, h.top, h.topsize, loose, p);
  }

  lemma SettleChunk(h: View, items: Items, state: nat, p: nat, s: nat)
    requires HeapOk(h, items, {p}, state) && p in h.live && h.live[p].size == s
    ensures s > 0 && p !in items && IsItem(state, p, s) && HeapOk(h, items[p := s], {}, state)
    ensures h.dvsize == 0 ==> HeapOk(h.(dv := p, dvsize := s), items, {}, state)
    ensures h.dvsize != 0 ==>
              h.dv !in items && IsItem(state, h.dv, h.dvsize) && HeapOk(h.(dv := p, dvsize := s), items[h.dv := h.dvsize], {}, state)
  {
    hide Tagged, SegsOk, EndsOk, PinnedOk;
    OneChunk(h, items, {p}, state, p);
    assert p in {p};
    FreeIsItem(h, items, {p}, state, p);
    if h.dvsize != 0 {
      FreeIsItem(h, items, {p}, state, h.dv);
    }
    Settle(h.live, items, h.dv, h.dvsize, h.top, h.topsize, p, s);
  }

  lemma BinnedChunk(h: View, items: Items, loose: set<nat>, state: nat, p: nat)
    requires HeapOk(h, items, loose, state) && p in items
    ensures p in h.live && h.live[p] == Chunk(items[p], Free)
  {
  }

  lemma CoreParts(h: View, state: nat)
    requires Core(h, state)
    ensures Tagged(h.live, h.ends, h.heads, h.feet) && 0 !in h.pinned && forall p :: p in h.pinned ==> p in h.live && h.live[p].kind.Used?
  {
    hide SegsOk, ShapeOk, Apart, TagsOk, BackOk;
    NoNull(h.live, h.ends);
  }

  lemma EndsNotLive(live: Live, ends: set<nat>)
    requires ShapeOk(live, ends) && Apart(live, ends)
    ensures forall e :: e in ends ==> e !in live
  {
    forall e | e in ends
      ensures e !in live
    {
      assert e in live ==> ShapeAt(live, ends, e);
    }
  }
}
