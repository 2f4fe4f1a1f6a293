/** Runs of neighbouring chunks around one in use, as release and resizing gather them. */
module HeapRuns {
  import opened TreeIndexes
  import opened ChunkLinks
  import opened ChunkHeads
  import opened BinSpec
  import opened HeapSpec
  import opened HeapState
  import opened HeapOps
  import opened HeapViews

  /** The chunk p is in use and a caller's; from a to b there are only p and free chunks in transit. */
  ghost predicate Run(h: View, items: Items, loose: set<nat>, state: nat, a: nat, b: nat, p: nat) {
    && HeapOk(h, items, loose, state)
    && p in h.live && h.live[p].kind.Used? && p !in h.pinned && a in h.live && a <= p < b
    && Hole(h.live, h.ends, a, b) && RunOf(h, a, b, p, loose) && !(a <= h.top < b)
    && b in h.heads && b % 16 == 0 && b < WORD_LIMIT && b - a >= 32
  }

  /** What follows a run: a chunk in use or a fencepost, a free chunk, or top. */
  ghost predicate EndOfRun(h: View, items: Items, b: nat) {
    && b in h.heads
    && (h.heads[b].cinuse ==> (b in h.live ==> h.live[b].kind.Used?))
    && (!h.heads[b].cinuse ==> b in h.live && (b == h.top || h.live[b].kind.Free?) && ChunkSize(h.heads, b) == h.live[b].size
                               && (b != h.top && b != h.dv ==> b in items && items[b] == h.live[b].size)
                               && (b == h.top ==> h.live[b] == Chunk(h.topsize, Top))
                               && (b == h.dv && b != h.top ==> h.live[b] == Chunk(h.dvsize, Free) && h.dvsize != 0))
  }

  lemma StartRun(h: View, items: Items, state: nat, p: nat)
    requires HeapOk(h, items, {}, state) && p in h.live && h.live[p].kind.Used? && p !in h.pinned
    ensures Run(h, items, {}, state, p, p + h.live[p].size, p) && p in h.heads && ChunkSize(h.heads, p) == h.live[p].size
  {
    hide Core, Hole, EndsOk;
    OneChunk(h, items, {}, state, p);
    UsedSize(h, items, {}, state, p);
  }

  lemma UsedSize(h: View, items: Items, loose: set<nat>, state: nat, p: nat)
    requires HeapOk(h, items, loose, state) && p in h.live
    ensures TagsAt(h.live, h.heads, h.feet, p) && ShapeAt(h.live, h.ends, p)
    ensures h.live[p].size >= 16 && (!h.live[p].kind.Top? ==> h.live[p].size >= 32)
  {
    hide SegsOk, EndsOk, PinnedOk, OwnedBut, Apart, BackOk;
    assert TagsAt(h.live, h.heads, h.feet, p) && ShapeAt(h.live, h.ends, p);
  }

  /** The free chunk before p, told by its foot. */
  lemma ChunkBefore(h: View, items: Items, state: nat, p: nat)
    requires HeapOk(h, items, {}, state) && p in h.live && p in h.heads && !h.heads[p].pinuse
    ensures var q := p - At(h.feet, p);
            && 0 < q < p && q in h.live && h.live[q] == Chunk(p - q, Free) && (q != h.dv ==> q in items && items[q] == p - q)
            && (q == h.dv ==> h.dvsize == p - q) && q in h.heads && h.heads[q].pinuse && Hole(h.live, h.ends, q, p)
  {
    hide SegsOk, EndsOk, PinnedOk, TagsOk;
    assert BackAt(h.live, h.heads, h.feet, p);
    OneChunk(h, items, {}, state, p - At(h.feet, p));
  }

  /** Merging backwards: from the bins, or from the designated victim. */
  lemma RunBack(h: View, items: Items, state: nat, p: nat, q: nat)
    requires HeapOk(h, items, {}, state) && p in h.live && h.live[p].kind.Used? && p !in h.pinned && p in h.heads && !h.heads[p].pinuse
    requires q == p - At(h.feet, p)
    ensures var b := p + h.live[p].size;
            && (q in items ==> Run(h, items - {q}, {q}, state, q, b, p))
            && (q == h.dv ==> Run(h.(dv := 0, dvsize := 0), items, {q}, state, q, b, p))
  {
    hide Core, Hole, EndsOk;
    StartRun(h, items, state, p);
    ChunkBefore(h, items, state, p);
    OneChunk(h, items, {}, state, q);
    LoosenChunk(h, items, {}, state, q);
    assert {} + {q} == {q};
    HoleJoin(h.live, h.ends, q, p, p + h.live[p].size);
  }

  /** Merging forwards. */
  lemma RunOn(h: View, items: Items, loose: set<nat>, state: nat, a: nat, b: nat, p: nat)
    requires Run(h, items, loose, state, a, b, p) && b in h.live && h.live[b].kind.Free?
    ensures var e := b + h.live[b].size;
            && (b in items ==> Run(h, items - {b}, loose + {b}, state, a, e, p))
            && (b == h.dv && h.dvsize != 0 ==> Run(h.(dv := 0, dvsize := 0), items, loose + {b}, state, a, e, p))
            && e in h.heads && h.heads[e] == h.heads[e].(pinuse := false) && (e in h.live ==> h.live[e].kind.Used?)
  {
    hide Core, Hole, EndsOk;
    OneChunk(h, items, loose, state, b);
    UsedSize(h, items, loose, state, b);
    LoosenChunk(h, items, loose, state, b);
    HoleJoin(h.live, h.ends, a, b, b + h.live[b].size);
  }

  lemma AfterRun(h: View, items: Items, loose: set<nat>, state: nat, a: nat, b: nat, p: nat)
    requires Run(h, items, loose, state, a, b, p)
    ensures EndOfRun(h, items, b)
  {
    hide SegsOk, PinnedOk, ShapeOk, BackOk;
    if b in h.live {
      assert TagsAt(h.live, h.heads, h.feet, b);
      assert b !in loose;
    } else {
      TopAfter(h, items, loose, state, a, b, p);
    }
  }

  /** The foot after top does not follow a chunk in use. */
  lemma TopAfter(h: View, items: Items, loose: set<nat>, state: nat, a: nat, b: nat, p: nat)
    requires Run(h, items, loose, state, a, b, p) && b !in h.live
    ensures b in h.ends && b != h.top + h.topsize
  {
    hide SegsOk, PinnedOk, BackOk, TagsOk;
    assert ShapeAt(h.live, h.ends, h.top);
  }

  /** The run becomes one free chunk in transit. */
  lemma RunToFree(h: View, items: Items, loose: set<nat>, state: nat, a: nat, b: nat, p: nat, heads': Heads)
    requires Run(h, items, loose, state, a, b, p) && a in h.heads && h.heads[a].pinuse && (b in h.live ==> h.live[b].kind.Used?)
    requires heads' == h.heads[b := h.heads[b].(pinuse := false)][a := Head(b - a, true, false)]
    ensures var h' := h.(live := Placed(h.live, a, b, Free, b, Free), heads := heads', feet := h.feet[b := b - a]);
            && HeapOk(h', items, {a}, state) && a in h'.live && h'.live[a].size == b - a
            && InUse(h'.live) == InUse(h.live) - {p}
  {
    hide Core, Hole, EndsOk, Placed;
    GiveBack(h, items, loose, state, a, b, p, Free, heads', h.feet[b := b - a]);
    PlacedKeys(h.live, a, b, Free, b, Free);
    RunUsed(h, items, loose, a, b, p);
    GivenInUse(h.live, a, b, Free, p);
    assert Patched(h, Patch(a, b, Free, b, Free), heads', h.feet[b := b - a])
        == h.(live := Placed(h.live, a, b, Free, b, Free), heads := heads', feet := h.feet[b := b - a]);
  }

  /** The run with top. */
  lemma RunWithTop(h: View, items: Items, loose: set<nat>, state: nat, a: nat, b: nat, p: nat)
    requires Run(h, items, loose, state, a, b, p) && b == h.top
    ensures var e := b + h.topsize;
            && Hole(h.live, h.ends, a, e) && RunOf(h, a, e, p, loose) && e in h.ends && e !in h.live && e % 16 == 0 && b < e < WORD_LIMIT
            && e in h.heads && h.heads[e] == h.heads[e].(pinuse := false)
  {
    hide Core, Hole, EndsOk, TagsAt;
    OneChunk(h, items, loose, state, b);
    TopEnd(h, items, loose, state);
    HoleJoin(h.live, h.ends, a, b, b + h.topsize);
    EndNotLive(h, items, loose, state, b + h.topsize);
  }

  lemma EndNotLive(h: View, items: Items, loose: set<nat>, state: nat, e: nat)
    requires HeapOk(h, items, loose, state) && e in h.ends
    ensures e !in h.live
  {
    hide SegsOk, OwnedBut, TagsOk, BackOk, PinnedOk, EndsOk;
    EndsNotLive(h.live, h.ends);
  }

  /** The run joins top. */
  lemma RunToTop(h: View, items: Items, loose: set<nat>, state: nat, a: nat, b: nat, p: nat, heads': Heads)
    requires Run(h, items, loose, state, a, b, p) && a in h.heads && h.heads[a].pinuse && b == h.top
    requires heads' == h.heads[a := Head(b - a + h.topsize, true, false)]
    ensures var e := b + h.topsize;
            var h' := h.(live := Placed(h.live, a, e, Top, e, Top), heads := heads', top := a, topsize := e - a);
            e > a && HeapOk(h', items, {}, state) && InUse(h'.live) == InUse(h.live) - {p}
  {
    hide Core, Hole, EndsOk, Placed, RunOf, OwnedBut, InUse, HeapOk;
    var e := b + h.topsize;
    RunWithTop(h, items, loose, state, a, b, p);
    GiveBack(h, items, loose, state, a, e, p, Top, heads', h.feet);
    RunInUse(h, items, loose, state, a, e, p, Top);
  }

  lemma RunInUse(h: View, items: Items, loose: set<nat>, state: nat, a: nat, e: nat, p: nat, kind: Kind)
    requires HeapOk(h, items, loose, state) && RunOf(h, a, e, p, loose) && a <= p < e && !kind.Used?
    ensures InUse(Placed(h.live, a, e, kind, e, kind)) == InUse(h.live) - {p}
  {
    hide Core, EndsOk, Placed, InUse;
    RunUsed(h, items, loose, a, e, p);
    GivenInUse(h.live, a, e, kind, p);
  }

  lemma TopEnd(h: View, items: Items, loose: set<nat>, state: nat)
    requires HeapOk(h, items, loose, state)
    ensures h.top in h.live && h.live[h.top] == Chunk(h.topsize, Top) && h.top + h.topsize in h.ends
    ensures h.top + h.topsize in h.heads && !h.heads[h.top + h.topsize].pinuse
  {
    hide SegsOk, PinnedOk, BackOk, Apart;
    assert ShapeAt(h.live, h.ends, h.top) && TagsAt(h.live, h.heads, h.feet, h.top);
  }

  // ----- resizing in place

  ghost predicate Grown(h: View, items: Items, loose: set<nat>, state: nat, b: nat, p: nat, m: nat) {
    && Run(h, items, loose, state, p, b, p) && p in h.heads && m % 16 == 0 && p + 32 <= m <= b
  }

  /** The whole run goes to p. */
  lemma KeepWhole(h: View, items: Items, loose: set<nat>, state: nat, b: nat, p: nat, heads': Heads)
    requires Grown(h, items, loose, state, b, p, b)
    requires heads' == SetInuse(h.heads, p, b - p)
    ensures var h' := h.(live := Placed(h.live, p, b, Used, b, Used), heads := heads');
            HeapOk(h', items, {}, state) && InUse(h'.live) == InUse(h.live)[p := b - p]
  {
    hide Core, Hole, EndsOk, Placed, HeapOk, InUse;
    Adjust(h, items, loose, state, p, b, b, Used, heads', h.feet);
    RunOnlyUsed(h, items, loose, state, p, b, p);
    TakenInUse(h.live, p, b, b, Used);
  }

  lemma RunOnlyUsed(h: View, items: Items, loose: set<nat>, state: nat, a: nat, b: nat, p: nat)
    requires HeapOk(h, items, loose, state) && RunOf(h, a, b, p, loose)
    ensures forall x :: x in h.live && a <= x < b && h.live[x].kind.Used? ==> x == p
  {
    hide Core, EndsOk;
    RunUsed(h, items, loose, a, b, p);
  }

  /** The run is cut in two chunks in use, the second to be disposed of. */
  lemma KeepSplit(h: View, items: Items, loose: set<nat>, state: nat, b: nat, p: nat, m: nat, heads': Heads)
    requires Grown(h, items, loose, state, b, p, m) && m + 32 <= b
    requires heads' == SetInuse(SetInuse(h.heads, p, m - p), m, b - m)
    ensures var h' := h.(live := Placed(h.live, p, b, Used, m, Used), heads := heads');
            HeapOk(h', items, {}, state) && InUse(h'.live) == InUse(h.live)[p := m - p][m := b - m] && m !in InUse(h.live) && m !in h.pinned
  {
    hide Core, Hole, EndsOk, Placed, HeapOk;
    Adjust(h, items, loose, state, p, b, m, Used, heads', h.feet);
    RunOnlyUsed(h, items, loose, state, p, b, p);
    SplitInUse(h.live, p, b, m);
    PinnedUsed(h, items, loose, state);
  }

  lemma PinnedUsed(h: View, items: Items, loose: set<nat>, state: nat)
    requires HeapOk(h, items, loose, state)
    ensures forall x :: x in h.pinned ==> x in InUse(h.live)
  {
    hide Tagged, SegsOk, OwnedBut, EndsOk;
  }

  /** The end of the run becomes a free chunk in transit. */
  lemma KeepAndFree(h: View, items: Items, loose: set<nat>, state: nat, b: nat, p: nat, m: nat, heads': Heads)
    requires Grown(h, items, loose, state, b, p, m) && m + 32 <= b && (b in h.live ==> h.live[b].kind.Used?)
    requires heads' == h.heads[p := Head(m - p, h.heads[p].pinuse, true)][m := Head(b - m, true, false)][b := h.heads[b].(pinuse := false)]
    ensures var h' := h.(live := Placed(h.live, p, b, Used, m, Free), heads := heads', feet := h.feet[b := b - m]);
            HeapOk(h', items, {m}, state) && InUse(h'.live) == InUse(h.live)[p := m - p] && m in h'.live && h'.live[m].size == b - m
  {
    hide Core, Hole, EndsOk, Placed, HeapOk, InUse;
    Adjust(h, items, loose, state, p, b, m, Free, heads', h.feet[b := b - m]);
    RunOnlyUsed(h, items, loose, state, p, b, p);
    TakenInUse(h.live, p, b, m, Free);
    PlacedKeys(h.live, p, b, Used, m, Free);
  }

  /** The run goes on into top, which starts at m. */
  lemma KeepIntoTop(h: View, items: Items, loose: set<nat>, state: nat, b: nat, p: nat, m: nat, heads': Heads)
    requires Run(h, items, loose, state, p, b, p) && p in h.heads && b == h.top && m % 16 == 0 && p + 32 <= m < b + h.topsize
    requires heads' == h.heads[p := Head(m - p, h.heads[p].pinuse, true)][m := Head(b + h.topsize - m, true, false)]
    ensures var e := b + h.topsize;
            var h' := h.(live := Placed(h.live, p, e, Used, m, Top), heads := heads', top := m, topsize := e - m);
            HeapOk(h', items, {}, state) && InUse(h'.live) == InUse(h.live)[p := m - p]
  {
    hide Core, Hole, EndsOk, Placed, HeapOk, InUse, RunOf;
    var e := b + h.topsize;
    RunWithTop(h, items, loose, state, p, b, p);
    AlignedDifference(m, e);
    Adjust(h, items, loose, state, p, e, m, Top, heads', h.feet);
    RunOnlyUsed(h, items, loose, state, p, e, p);
    TakenInUse(h.live, p, e, m, Top);
  }
}
