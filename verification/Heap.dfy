/** Allocation and release over the boundary-tagged heap. */
module Malloc {
  import opened Bits
  import opened Division
  import opened BinMaps
  import opened PopCounts
  import opened TreeIndexes
  import opened ChunkLinks
  import opened ChunkHeads
  import opened BinSpec
  import opened ChunkBins
  import opened BestFit
  import opened Choices
  import opened HeapSpec
  import opened HeapState
  import opened HeapOps
  import opened HeapViews
  import opened HeapRuns
  import opened HeapGrowth
  import opened UserData

  const CHUNK_OVERHEAD: nat := 8
  const MIN_REQUEST: nat := 23
  const MAX_SMALL_REQUEST: nat := 232
  const MAX_REQUEST: nat := 0xFFFF_FF80

  /** `pad_request`: overhead added, rounded up to the alignment. */
  function PadRequest(bytes: nat): nat {
    (bytes + 23) / 16 * 16
  }

  /** The chunk size for a request. */
  function RequestSize(bytes: nat): nat {
    if bytes < MIN_REQUEST then MIN_CHUNK_SIZE else PadRequest(bytes)
  }

  /** The least multiple of 16 with room for the overhead, and at least the smallest chunk. */
  lemma RequestSizes(bytes: nat)
    ensures var nb := RequestSize(bytes);
            && nb % 16 == 0 && nb >= 32 && bytes + CHUNK_OVERHEAD <= nb < bytes + 40
            && (bytes <= MAX_SMALL_REQUEST ==> nb <= 240) && (bytes > MAX_SMALL_REQUEST ==> nb >= 256 && nb == PadRequest(bytes))
            && (bytes < MAX_REQUEST ==> nb < 0x1_0000_0000) && (nb == MIN_CHUNK_SIZE || nb < bytes + CHUNK_OVERHEAD + 16)
  {
    assert (bytes + 23) / 16 * 16 % 16 == 0;
  }

  /** A request of nb bytes was served by the chunk p: a new chunk in use, not much larger; no other one changed. */
  ghost predicate Served(before: map<nat, nat>, after: map<nat, nat>, p: nat, nb: nat) {
    && p !in before && p in after && after == before[p := after[p]]
    && nb <= after[p] < nb + MIN_CHUNK_SIZE && p % 16 == 0 && p > 0
  }

  /** What the system answers to a request for memory: nothing, or a region of the requested size. */
  datatype Supply = NoMemory | Region(base: nat)

  /** `granularity_align`. */
  function AlignUp(x: nat, granularity: nat): nat
    requires granularity > 0
  {
    var q := (x + granularity - 1) / granularity;
    QuotientPositive(x + granularity - 1, granularity);
    q * granularity
  }

  lemma QuotientPositive(x: nat, d: nat)
    requires d > 0
    ensures x / d >= 0 && x / d * d >= 0
  {
  }

  /** How much is asked of the system: room for the foot and for alignment, in whole units, in 64 bits. */
  function SysSize(nb: nat, granularity: nat): nat
    requires granularity > 0
  {
    AlignUp((nb + TOP_FOOT + 16) % WORD_LIMIT, granularity) % WORD_LIMIT
  }

  predicate Unit(granularity: nat) {
    0 < granularity < 0x1_0000_0000 && granularity % 16 == 0
  }

  lemma AlignedUp(x: nat, granularity: nat)
    requires granularity > 0 && granularity % 16 == 0
    ensures x <= AlignUp(x, granularity) < x + granularity && AlignUp(x, granularity) % 16 == 0
  {
    var y := x + granularity - 1;
    var q := y / granularity;
    assert y == granularity * q + y % granularity;
    var u := granularity / 16;
    assert granularity == 16 * u;
    assert q * granularity == 16 * (q * u) by {
      assert q * (16 * u) == 16 * (q * u);
    }
  }

  lemma SysSizes(nb: nat, granularity: nat)
    requires Unit(granularity)
    ensures nb <= 0x1_0000_0000 ==> nb + TOP_FOOT + 16 <= SysSize(nb, granularity) < nb + TOP_FOOT + 16 + granularity && SysSize(nb, granularity) % 16 == 0
    ensures nb == WORD_LIMIT - 1 ==> SysSize(nb, granularity) <= nb
  {
    hide AlignUp;
    AlignedUp((nb + TOP_FOOT + 16) % WORD_LIMIT, granularity);
  }

  const STATE_CHUNK: nat := 944

  /** Room for the state's own chunk, a first top and the foot after it. */
  predicate FitsState(tbase: nat, tsize: nat) {
    tbase > 0 && tbase % 16 == 0 && tsize % 16 == 0 && tsize > STATE_CHUNK + TOP_FOOT && tbase + tsize < WORD_LIMIT
  }

  /** The heads of the state's own chunk, of top after it and of the foot. */
  function FirstHeads(tbase: nat, mn: nat, psize: nat): Heads {
    map[tbase := Head(STATE_CHUNK, true, true), mn := Head(psize, true, false), mn + psize := Head(TOP_FOOT, false, false)]
  }

  ghost function FirstLive(tbase: nat, mn: nat, psize: nat): Live {
    map[tbase := Chunk(STATE_CHUNK, Used), mn := Chunk(psize, Top)]
  }

  /** The state's own chunk, and all the rest as top. */
  ghost function Initial(tbase: nat, tsize: nat): View
    requires FitsState(tbase, tsize)
  {
    var mn, psize := tbase + STATE_CHUNK, tsize - STATE_CHUNK - TOP_FOOT;
    View(FirstLive(tbase, mn, psize), {mn + psize}, FirstHeads(tbase, mn, psize), map[], 0, 0, mn, psize, [Segment(tbase, tsize)], [mn + psize], {tbase})
  }

  lemma InitialOk(h: View, tbase: nat, tsize: nat)
    requires FitsState(tbase, tsize) && h == Initial(tbase, tsize)
    ensures HeapOk(h, map[], {}, tbase + 16)
  {
    hide Tagged, SegsOk;
    InitialTags(h, tbase, tsize);
    InitialSegs(h, tbase, tsize);
    assert h.segs[0].base + h.segs[0].size == h.limits[0] + TOP_FOOT;
  }

  lemma InitialNone(h: View, tbase: nat, tsize: nat)
    requires FitsState(tbase, tsize) && h == Initial(tbase, tsize)
    ensures InUse(h.live) - h.pinned == map[]
  {
  }

  lemma InitialTags(h: View, tbase: nat, tsize: nat)
    requires FitsState(tbase, tsize) && h == Initial(tbase, tsize)
    ensures Tagged(h.live, h.ends, h.heads, h.feet)
  {
    hide Tagged;
    var mn, psize := tbase + STATE_CHUNK, tsize - STATE_CHUNK - TOP_FOOT;
    AlignedSum(tbase, STATE_CHUNK);
    TwoChunks(tbase, mn, mn + psize);
  }

  /** A chunk in use and top after it. */
  lemma TwoChunks(a: nat, m: nat, e: nat)
    requires 0 < a && a + 32 <= m && m + 16 <= e < WORD_LIMIT && a % 16 == 0 && m % 16 == 0 && (m - a) % 16 == 0 && (e - m) % 16 == 0
    ensures Tagged(map[a := Chunk(m - a, Used), m := Chunk(e - m, Top)], {e},
                   map[a := Head(m - a, true, true), m := Head(e - m, true, false), e := Head(TOP_FOOT, false, false)], map[])
  {
    var live: Live := map[a := Chunk(m - a, Used), m := Chunk(e - m, Top)];
    var heads: Heads := map[a := Head(m - a, true, true), m := Head(e - m, true, false), e := Head(TOP_FOOT, false, false)];
    assert ShapeOk(live, {e}) by {
      assert ShapeAt(live, {e}, a) && ShapeAt(live, {e}, m);
    }
    assert TagsOk(live, heads, map[]) by {
      assert TagsAt(live, heads, map[], a) && TagsAt(live, heads, map[], m);
    }
  }

  lemma InitialSegs(h: View, tbase: nat, tsize: nat)
    requires FitsState(tbase, tsize) && h == Initial(tbase, tsize)
    ensures SegsOk(h.live, h.ends, h.segs, h.limits)
  {
    HoleOf(h, tbase, h.limits[0]);
    assert SegmentAt(h.live, h.ends, h.segs[0], h.limits[0]);
    forall p | p in h.live
      ensures InSome(h.segs, h.limits, p)
    {
      assert h.segs[0].base <= p < h.limits[0];
    }
  }

  lemma HoleOf(h: View, tbase: nat, e: nat)
    requires tbase + STATE_CHUNK < e && h.live == map[tbase := Chunk(STATE_CHUNK, Used), tbase + STATE_CHUNK := Chunk(e - tbase - STATE_CHUNK, Top)]
    requires h.ends == {e}
    ensures Hole(h.live, h.ends, tbase, e)
  {
  }

  class MallocState {
    const bins: Bins
    const contents: Contents
    var heads: Heads
    var feet: Words
    var dv: nat
    var dvsize: nat
    var top: nat
    var topsize: nat
    var segs: seq<Segment>
    var footprint: nat
    var maxFootprint: nat
    var footprintLimit: nat
    const granularity: nat
    ghost var live: Live
    ghost var ends: set<nat>
    ghost var limits: seq<nat>
    ghost var pinned: set<nat>

    /** `init` on a fresh region whose first chunk holds this state. */
    constructor Init(tbase: nat, tsize: nat, unit: nat)
      requires FitsState(tbase, tsize) && Unit(unit)
      ensures Valid() && fresh(bins) && fresh(contents) && Allocated() == map[] && granularity == unit
      ensures Look() == Initial(tbase, tsize) && bins.items == map[] && footprint == maxFootprint == tsize && footprintLimit == 0
    {
      hide HeapOk, Unit, FirstHeads, FirstLive, InUse;
      granularity := unit;
      contents := new Contents();
      bins := new Bins.Init(tbase + 16);
      var mn := tbase + STATE_CHUNK;
      var psize := tsize - STATE_CHUNK - TOP_FOOT;
      heads := FirstHeads(tbase, mn, psize);
      feet, dv, dvsize, top, topsize := map[], 0, 0, mn, psize;
      segs := [Segment(tbase, tsize)];
      footprint, maxFootprint, footprintLimit := tsize, tsize, 0;
      live := FirstLive(tbase, mn, psize);
      ends, limits, pinned := {mn + psize}, [mn + psize], {tbase};
      new;
      InitialOk(Look(), tbase, tsize);
      InitialNone(Look(), tbase, tsize);
    }

    ghost function Look(): View
      reads this
    {
      View(live, ends, heads, feet, dv, dvsize, top, topsize, segs, limits, pinned)
    }

    /** The invariant, with some free chunks perhaps in transit between bins, victim and caller. */
    ghost predicate Mid(loose: set<nat>)
      reads this, bins
    {
      bins.Valid() && HeapOk(Look(), bins.items, loose, bins.state)
    }

    ghost predicate Valid()
      reads this, bins
    {
      Mid({})
    }

    /** The chunks in use, by address, with their sizes. */
    ghost function Held(): map<nat, nat>
      reads this
    {
      InUse(live)
    }

    /** The chunks callers hold: all in use but the allocator's own. */
    ghost function Allocated(): map<nat, nat>
      reads this
    {
      Held() - pinned
    }

    // ----- header steps, one free chunk in transit

    /** `set_inuse_and_pinuse` on the whole chunk. */
    method UseWholeChunk(p: nat, s: nat)
      requires Mid({p}) && p in live && live[p].size == s
      modifies this`heads, this`live
      ensures Mid({}) && p !in old(Held()) && Held() == old(Held())[p := s] && p % 16 == 0 && p > 0
    {
      hide HeapOk, SetInuseAndPinuse, Placed, InUse;
      ghost var h := Look();
      TakeWhole(h, bins.items, bins.state, p, s);
      OneChunk(h, bins.items, {p}, bins.state, p);
      LooseNotUsed(h, bins.items, bins.state, p);
      TakenInUse(live, p, p + s, p + s, Used);
      heads := SetInuseAndPinuse(heads, p, s);
      live := Placed(live, p, p + s, Used, p + s, Used);
      assert Look() == Patched(h, Patch(p, p + s, Used, p + s, Used), heads, feet);
    }

    /** `set_size_and_pinuse_of_inuse_chunk` on the first nb bytes, `set_size_and_pinuse_of_free_chunk` on the rest. */
    method SplitChunk(p: nat, s: nat, nb: nat)
      requires Mid({p}) && p in live && live[p].size == s && nb % 16 == 0 && 32 <= nb && nb + 32 <= s
      modifies this`heads, this`feet, this`live
      ensures Mid({p + nb}) && p !in old(Held()) && Held() == old(Held())[p := nb] && p % 16 == 0 && p > 0
      ensures p + nb in live && live[p + nb] == Chunk(s - nb, Free)
    {
      hide HeapOk, Placed, InUse;
      ghost var h := Look();
      TakeSplit(h, bins.items, bins.state, p, s, nb);
      OneChunk(h, bins.items, {p}, bins.state, p);
      LooseNotUsed(h, bins.items, bins.state, p);
      TakenInUse(live, p, p + s, p + nb, Free);
      PlacedKeys(live, p, p + s, Used, p + nb, Free);
      heads := heads[p := Head(nb, true, true)];
      heads := heads[p + nb := Head(s - nb, true, false)];
      feet := feet[p + s := s - nb];
      live := Placed(live, p, p + s, Used, p + nb, Free);
      assert Look() == Patched(h, Patch(p, p + s, Used, p + nb, Free), heads, feet);
    }

    /** `replace_dv`: the old designated victim, known to be small, is binned. */
    method ReplaceDv(p: nat, s: nat)
      requires Mid({p}) && p in live && live[p].size == s && (dvsize == 0 || IsSmall(dvsize))
      modifies this`dv, this`dvsize, bins
      ensures Mid({}) && dv == p && dvsize == s
    {
      hide HeapOk;
      ghost var h := Look();
      SettleChunk(h, bins.items, bins.state, p, s);
      if dvsize != 0 {
        bins.InsertSmallChunk(dv, dvsize);
      }
      dvsize := s;
      dv := p;
      assert Look() == h.(dv := p, dvsize := s);
    }

    method InsertLoose(p: nat, s: nat)
      requires Mid({p}) && p in live && live[p].size == s
      modifies bins
      ensures Mid({})
    {
      hide HeapOk;
      BinnedSizes(Look(), bins.items, {p}, bins.state);
      SettleChunk(Look(), bins.items, bins.state, p, s);
      bins.InsertChunk(heads, p, s);
    }

    // ----- the ways to serve a request

    /** The first chunk of a marked small bin, of exactly its size. */
    method TakeSmall(i: nat, nb: nat) returns (p: nat)
      requires Valid() && i < BINS && BitAt(bins.smallmap, i) && nb <= 8 * i < nb + 32
      modifies this`heads, this`live, bins
      ensures Valid() && Served(old(Held()), Held(), p, nb) && p in old(bins.items) && old(bins.items)[p] == 8 * i
    {
      hide HeapOk, BitAt, InUse;
      var b := SmallBin(bins.state, i);
      p := At(bins.links.fd, b);
      bins.FirstSmall(i);
      LoosenChunk(Look(), bins.items, {}, bins.state, p);
      BinnedChunk(Look(), bins.items, {}, bins.state, p);
      bins.UnlinkFirstSmallChunk(b, p, i);
      assert {} + {p} == {p};
      UseWholeChunk(p, 8 * i);
    }

    /** The first chunk of a later small bin; what remains of it becomes the designated victim. */
    method TakeLaterSmall(i: nat, nb: nat) returns (p: nat)
      requires Valid() && i < BINS && BitAt(bins.smallmap, i) && nb <= 8 * i && 32 <= nb && nb % 16 == 0 && IsSmall(dvsize)
      modifies this`heads, this`feet, this`live, this`dv, this`dvsize, bins
      ensures Valid() && Served(old(Held()), Held(), p, nb) && p in old(bins.items) && old(bins.items)[p] == 8 * i
      ensures dv == if 8 * i >= nb + MIN_CHUNK_SIZE then p + nb else old(dv)
    {
      hide HeapOk, BitAt, InUse;
      var b := SmallBin(bins.state, i);
      p := At(bins.links.fd, b);
      bins.FirstSmall(i);
      LoosenChunk(Look(), bins.items, {}, bins.state, p);
      BinnedChunk(Look(), bins.items, {}, bins.state, p);
      bins.UnlinkFirstSmallChunk(b, p, i);
      assert {} + {p} == {p};
      var rsize := 8 * i - nb;
      if rsize < MIN_CHUNK_SIZE {
        UseWholeChunk(p, 8 * i);
      } else {
        SplitChunk(p, 8 * i, nb);
        ReplaceDv(p + nb, rsize);
      }
    }

    /** `unlink_large_chunk` on a chunk about to be used. */
    method UnlinkLarge(v: nat)
      requires Valid() && v in bins.items && !IsSmall(bins.items[v])
      modifies bins
      ensures Mid({v}) && v in live && live[v] == Chunk(old(bins.items)[v], Free)
    {
      hide HeapOk;
      LoosenChunk(Look(), bins.items, {}, bins.state, v);
      BinnedChunk(Look(), bins.items, {}, bins.state, v);
      bins.UnlinkLargeChunk(v);
      assert {} + {v} == {v};
    }

    /** `tmalloc_small`: the smallest large chunk; what remains of it becomes the designated victim. */
    method TmallocSmall(nb: nat) returns (p: nat)
      requires Valid() && bins.treemap != 0 && 32 <= nb <= 240 && nb % 16 == 0 && IsSmall(dvsize)
      modifies this`heads, this`feet, this`live, this`dv, this`dvsize, bins
      ensures Valid() && Served(old(Held()), Held(), p, nb) && IsBestFit(old(bins.items), nb, p)
      ensures dv == if old(bins.items)[p] >= nb + MIN_CHUNK_SIZE then p + nb else old(dv)
    {
      hide HeapOk, FitsState, Unit;
      BinnedSizes(Look(), bins.items, {}, bins.state);
      var rsize;
      p, rsize := FindSmallest(bins, heads, nb);
      ItemSizes(bins, p);
      UnlinkLarge(p);
      if rsize < MIN_CHUNK_SIZE {
        UseWholeChunk(p, rsize + nb);
      } else {
        SplitChunk(p, nb + rsize, nb);
        ReplaceDv(p + nb, rsize);
      }
    }

    /** `tmalloc_large`: the best fit over all trees, or 0 when there is none or the designated victim fits as well. */
    method TmallocLarge(nb: nat) returns (p: nat)
      requires Valid() && MIN_LARGE_SIZE <= nb < WORD_LIMIT && nb % 16 == 0
      modifies this`heads, this`feet, this`live, bins
      ensures p != 0 ==> Valid() && Served(old(Held()), Held(), p, nb)
      ensures p != 0 ==> IsBestFit(old(bins.items), nb, p) && (nb <= old(dvsize) ==> old(bins.items)[p] < old(dvsize))
      ensures p == 0 ==> Valid() && Look() == old(Look()) && bins.items == old(bins.items)
      ensures p == 0 ==> forall c :: c in bins.items && !IsSmall(bins.items[c]) && bins.items[c] >= nb ==> nb <= dvsize <= bins.items[c]
    {
      hide HeapOk, FitsState, Unit;
      BinnedSizes(Look(), bins.items, {}, bins.state);
      VictimInRange(Look(), bins.items, bins.state);
      var v, rsize := FindLarge(bins, heads, nb);
      VictimFits(dvsize, nb, rsize);
      if v != 0 && rsize < Minus(dvsize, nb) {
        ItemSizes(bins, v);
        UnlinkLarge(v);
        if rsize < MIN_CHUNK_SIZE {
          UseWholeChunk(v, rsize + nb);
        } else {
          SplitChunk(v, nb + rsize, nb);
          InsertLoose(v + nb, rsize);
        }
        return v;
      }
      p := 0;
    }

    /** The designated victim, split when enough remains. */
    method TakeVictim(nb: nat) returns (p: nat)
      requires Valid() && 32 <= nb <= dvsize && nb % 16 == 0
      modifies this`heads, this`feet, this`live, this`dv, this`dvsize
      ensures Valid() && Served(old(Held()), Held(), p, nb) && bins.items == old(bins.items)
      ensures p == old(dv) && dv == if old(dvsize) >= nb + MIN_CHUNK_SIZE then p + nb else 0
    {
      hide HeapOk, FitsState, Unit;
      ghost var h := Look();
      VictimFacts(h, bins.items, bins.state);
      LoosenChunk(h, bins.items, {}, bins.state, dv);
      var rsize := dvsize - nb;
      p := dv;
      assert {} + {p} == {p};
      if rsize >= MIN_CHUNK_SIZE {
        var dvs := dvsize;
        dv, dvsize := 0, 0;
        SplitChunk(p, dvs, nb);
        SettleChunk(Look(), bins.items, bins.state, p + nb, rsize);
        dv := p + nb;
        dvsize := rsize;
      } else {
        var dvs := dvsize;
        dvsize := 0;
        dv := 0;
        UseWholeChunk(p, dvs);
      }
    }

    /** The first nb bytes of top. */
    method TakeFromTop(nb: nat) returns (p: nat)
      requires Valid() && 32 <= nb < topsize && nb % 16 == 0
      modifies this`heads, this`live, this`top, this`topsize
      ensures Valid() && Served(old(Held()), Held(), p, nb) && p == old(top) && top == p + nb && topsize == old(topsize) - nb
    {
      hide HeapOk, InUse, Placed;
      ghost var h := Look();
      TopFacts(h, bins.items, {}, bins.state);
      TakeTop(h, bins.items, bins.state, nb);
      OneChunk(h, bins.items, {}, bins.state, top);
      TakenInUse(live, top, top + topsize, top + nb, Top);
      p := top;
      topsize := topsize - nb;
      top := p + nb;
      heads := heads[top := Head(topsize, true, false)];
      heads := heads[p := Head(nb, true, true)];
      live := Placed(live, p, p + h.topsize, Used, p + nb, Top);
      assert heads == h.heads[p := Head(nb, true, true)][p + nb := Head(h.topsize - nb, true, false)];
      assert Look() == Patched(h, Patch(p, p + h.topsize, Used, p + nb, Top), heads, h.feet).(top := p + nb, topsize := h.topsize - nb);
      NotHeld(h, p);
    }

    // ----- giving chunks back

    /** The run from p on is being freed, and p, when it is the designated victim, is in transit. */
    ghost predicate Freeing(h: View, loose: set<nat>, p: nat, next: nat, used: nat)
      reads this, bins
    {
      && bins.Valid() && Run(h, bins.items, loose, bins.state, p, next, used) && p in heads && heads[p].pinuse
      && if p == dv then h == Look().(dv := 0, dvsize := 0) && dvsize != 0 else h == Look()
    }

    /** `set_free_with_pinuse`, then the chunk is the designated victim already or goes into a bin. */
    method FreeRun(p: nat, psize: nat, next: nat, ghost h: View, ghost loose: set<nat>, ghost used: nat)
      requires Freeing(h, loose, p, next, used) && psize == next - p && (next in live ==> live[next].kind.Used?)
      modifies this`heads, this`feet, this`live, this`dvsize, bins
      ensures Valid() && Held() == old(Held()) - {used}
    {
      hide HeapOk, Run, Placed, InUse;
      RunBounds(h, bins.items, loose, bins.state, p, next, used);
      RunToFree(h, bins.items, loose, bins.state, p, next, used, heads[next := heads[next].(pinuse := false)][p := Head(psize, true, false)]);
      heads := ClearPinuse(heads, next);
      heads := heads[p := Head(psize, true, false)];
      feet := feet[next := psize];
      live := Placed(live, p, next, Free, next, Free);
      ghost var h' := h.(live := live, heads := heads, feet := feet);
      SettleChunk(h', bins.items, bins.state, p, psize);
      if p == dv {
        dvsize := psize;
        assert Look() == h'.(dv := p, dvsize := psize);
      } else {
        assert Look() == h';
        BinnedSizes(h', bins.items, {p}, bins.state);
        bins.InsertChunk(heads, p, psize);
      }
    }

    /** Top follows: it grows backwards. */
    method ForwardIntoTop(p: nat, psize: nat, next: nat, ghost h: View, ghost loose: set<nat>, ghost used: nat)
      requires Freeing(h, loose, p, next, used) && psize == next - p && next == top
      modifies this`heads, this`feet, this`live, this`dv, this`dvsize, this`top, this`topsize
      ensures Valid() && Held() == old(Held()) - {used}
      ensures top == p && dv == if p == old(dv) then 0 else old(dv)
    {
      hide HeapOk, Run, Placed, InUse;
      RunToTop(h, bins.items, loose, bins.state, p, next, used, heads[p := Head(psize + topsize, true, false)]);
      var tsize := topsize + psize;
      live := Placed(live, p, next + topsize, Top, next + topsize, Top);
      topsize := tsize;
      top := p;
      heads := heads[p := Head(tsize, true, false)];
      if p == dv {
        dv := 0;
        dvsize := 0;
      }
    }

    /** The forward half of `dispose_chunk`. */
    method ConsolidateForward(p: nat, psize: nat, next: nat, ghost h: View, ghost loose: set<nat>, ghost used: nat)
      requires Freeing(h, loose, p, next, used) && psize == next - p
      modifies this`heads, this`feet, this`live, this`dv, this`dvsize, this`top, this`topsize, bins
      ensures Valid() && Held() == old(Held()) - {used}
      ensures dv == if next == old(top) then (if p == old(dv) then 0 else old(dv)) else if next == old(dv) then p else old(dv)
    {
      hide HeapOk, Run, Placed, InUse;
      RunBounds(h, bins.items, loose, bins.state, p, next, used);
      AfterRun(h, bins.items, loose, bins.state, p, next, used);
      EndUsed(h, bins.items, loose, bins.state, p, next, used);
      if !heads[next].cinuse {
        if next == top {
          ForwardIntoTop(p, psize, next, h, loose, used);
        } else if next == dv {
          ForwardIntoVictim(p, psize, next, h, loose, used);
        } else {
          var nsize := ChunkSize(heads, next);
          RunOn(h, bins.items, loose, bins.state, p, next, used);
          bins.UnlinkChunk(next, nsize);
          FreeRun(p, psize + nsize, next + nsize, h, loose + {next}, used);
        }
      } else {
        FreeRun(p, psize, next, h, loose, used);
      }
    }

    /** The designated victim follows: it too grows backwards. */
    method ForwardIntoVictim(p: nat, psize: nat, next: nat, ghost h: View, ghost loose: set<nat>, ghost used: nat)
      requires Freeing(h, loose, p, next, used) && psize == next - p && next == dv && next in live && live[next] == Chunk(dvsize, Free) && dvsize != 0
      modifies this`heads, this`feet, this`live, this`dv, this`dvsize
      ensures Valid() && Held() == old(Held()) - {used} && dv == p
    {
      hide HeapOk, Run, Placed, InUse;
      RunBounds(h, bins.items, loose, bins.state, p, next, used);
      RunOn(h, bins.items, loose, bins.state, p, next, used);
      var e := next + dvsize;
      ghost var h1 := h.(dv := 0, dvsize := 0);
      RunBounds(h1, bins.items, loose + {next}, bins.state, p, e, used);
      var dsize := dvsize + psize;
      RunToFree(h1, bins.items, loose + {next}, bins.state, p, e, used, heads[e := heads[e].(pinuse := false)][p := Head(dsize, true, false)]);
      assert heads[e := heads[e].(pinuse := false)] == heads;
      dvsize := dsize;
      dv := p;
      heads := heads[p := Head(dsize, true, false)];
      feet := feet[p + dsize := dsize];
      live := Placed(live, p, e, Free, e, Free);
      ghost var h' := h1.(live := live, heads := heads, feet := feet);
      SettleChunk(h', bins.items, bins.state, p, dsize);
      assert Look() == h'.(dv := p, dvsize := dsize);
    }

    /** `dispose_chunk`: merge a chunk in use with its free neighbours, and bin the result or add it to victim or top. */
    method DisposeChunk(chunk: nat, size: nat)
      requires Valid() && chunk in Held() && chunk !in pinned && size == Held()[chunk]
      modifies this`heads, this`feet, this`live, this`dv, this`dvsize, this`top, this`topsize, bins
      ensures Valid() && Held() == old(Held()) - {chunk}
      ensures dv == VictimWithout(old(Look()), chunk, size)
    {
      hide HeapOk, Run, Placed;
      var p, psize, next := chunk, size, chunk + size;
      StartRun(Look(), bins.items, bins.state, p);
      if !heads[p].pinuse {
        var prevsize := At(feet, p);
        ChunkBefore(Look(), bins.items, bins.state, p);
        var prev := p - prevsize;
        RunBack(Look(), bins.items, bins.state, p, prev);
        psize := psize + prevsize;
        p := prev;
        if p != dv {
          bins.UnlinkChunk(p, prevsize);
          ConsolidateForward(p, psize, next, Look(), {prev}, chunk);
        } else {
          ghost var h := Look().(dv := 0, dvsize := 0);
          AfterRun(h, bins.items, {prev}, bins.state, p, next, chunk);
          EndUsed(h, bins.items, {prev}, bins.state, p, next, chunk);
          if heads[next].cinuse && heads[next].pinuse {
            FreeRun(p, psize, next, h, {prev}, chunk);
          } else {
            ConsolidateForward(p, psize, next, h, {prev}, chunk);
          }
        }
      } else {
        NotVictim(Look(), bins.items, bins.state, p);
        ConsolidateForward(p, psize, next, Look(), {}, chunk);
      }
    }

    /** `_free`, which repeats `dispose_chunk` and then may trim the heap. */
    method Release(p: nat)
      requires Valid() && p in Held() && p !in pinned
      modifies this`heads, this`feet, this`live, this`dv, this`dvsize, this`top, this`topsize, bins
      ensures Valid() && Held() == old(Held()) - {p} && dv == VictimWithout(old(Look()), p, old(Held())[p])
    {
      HeldSize(Look(), bins.items, bins.state, p);
      DisposeChunk(p, ChunkSize(heads, p));
    }

    // ----- resizing in place

    /** The chunk p of old size s was resized: only its size changed, to at least nb and not much more. */
    ghost predicate Resized(before: map<nat, nat>, p: nat, nb: nat)
      reads this
    {
      p in before && p in Held() && Held() == before[p := Held()[p]] && nb <= Held()[p] < nb + MIN_CHUNK_SIZE
    }

    /** Cut p at nb and dispose of the rest, up to b. */
    method CutAndDispose(p: nat, nb: nat, b: nat, ghost loose: set<nat>)
      requires bins.Valid() && Grown(Look(), bins.items, loose, bins.state, b, p, p + nb) && p + nb + 32 <= b
      modifies this`heads, this`feet, this`live, this`dv, this`dvsize, this`top, this`topsize, bins
      ensures Valid() && Held() == old(Held())[p := nb]
      ensures dv == if b == old(dv) && b != old(top) then p + nb else old(dv)
    {
      hide HeapOk, Grown, Run, Placed, InUse, SetInuse;
      var r, rsize := p + nb, b - (p + nb);
      ghost var h := Look();
      GrownBounds(h, bins.items, loose, bins.state, b, p, r);
      KeepSplit(h, bins.items, loose, bins.state, b, p, r, SetInuse(SetInuse(heads, p, nb), r, rsize));
      heads := SetInuse(heads, p, nb);
      heads := SetInuse(heads, r, rsize);
      live := Placed(live, p, b, Used, r, Used);
      assert Look() == h.(live := live, heads := heads);
      SplitPinuse(h.heads, p, nb, rsize);
      HeldNotVictim(Look(), bins.items, bins.state, r);
      DisposeChunk(r, rsize);
    }

    /** All of the run up to b goes to p. */
    method Absorb(p: nat, b: nat, ghost loose: set<nat>)
      requires bins.Valid() && Grown(Look(), bins.items, loose, bins.state, b, p, b)
      modifies this`heads, this`live
      ensures Valid() && Held() == old(Held())[p := b - p]
    {
      hide HeapOk, Grown, Placed, InUse, SetInuse;
      ghost var h := Look();
      GrownBounds(h, bins.items, loose, bins.state, b, p, b);
      KeepWhole(h, bins.items, loose, bins.state, b, p, SetInuse(heads, p, b - p));
      heads := SetInuse(heads, p, b - p);
      live := Placed(live, p, b, Used, b, Used);
      assert Look() == h.(live := live, heads := heads);
    }

    /** Top follows and gives up what is missing. */
    method ExtendIntoTop(p: nat, oldsize: nat, nb: nat)
      requires Valid() && Grown(Look(), bins.items, {}, bins.state, top, p, top) && oldsize == top - p
      requires oldsize < nb < oldsize + topsize && nb % 16 == 0 && nb >= 32
      modifies this`heads, this`live, this`top, this`topsize
      ensures Valid() && Held() == old(Held())[p := nb]
    {
      hide HeapOk, Grown, Run, Placed, InUse, SetInuse;
      ghost var h := Look();
      GrownBounds(h, bins.items, {}, bins.state, top, p, top);
      AlignedSum(p, nb);
      CutHeads(heads, p, nb, oldsize + topsize - nb);
      ghost var heads' := heads[p := Head(nb, heads[p].pinuse, true)][p + nb := Head(oldsize + topsize - nb, true, false)];
      KeepIntoTop(h, bins.items, {}, bins.state, top, p, p + nb, heads');
      var newsize := oldsize + topsize;
      var newtopsize := newsize - nb;
      var newtop := p + nb;
      live := Placed(live, p, p + newsize, Used, newtop, Top);
      heads := SetInuse(heads, p, nb);
      heads := heads[newtop := Head(newtopsize, true, false)];
      top := newtop;
      topsize := newtopsize;
      assert heads == heads';
      assert Look() == h.(live := live, heads := heads, top := top, topsize := topsize);
    }

    /** The designated victim follows, in transit, and is split: the rest of it is the new victim. */
    method SplitVictim(p: nat, nb: nat, n: nat, ghost was: nat)
      requires bins.Valid() && Grown(Look(), bins.items, {was}, bins.state, n, p, p + nb) && p + nb + 32 <= n && dvsize == 0
      requires n in live ==> live[n].kind.Used?
      modifies this`heads, this`feet, this`live, this`dv, this`dvsize
      ensures Valid() && Held() == old(Held())[p := nb] && dv == p + nb
    {
      hide HeapOk, Grown, Run, Placed, InUse, SetInuse, ClearPinuse;
      ghost var h := Look();
      var r, dsize := p + nb, n - (p + nb);
      GrownBounds(h, bins.items, {was}, bins.state, n, p, r);
      ghost var heads' := heads[p := Head(nb, heads[p].pinuse, true)][r := Head(dsize, true, false)][n := heads[n].(pinuse := false)];
      KeepAndFree(h, bins.items, {was}, bins.state, n, p, r, heads');
      SplitHeads(heads, p, nb, dsize, n);
      heads := SetInuse(heads, p, nb);
      heads := heads[r := Head(dsize, true, false)];
      feet := feet[n := dsize];
      heads := ClearPinuse(heads, n);
      assert heads == heads';
      live := Placed(live, p, n, Used, r, Free);
      ghost var h2 := h.(live := live, heads := heads, feet := feet);
      SettleChunk(h2, bins.items, bins.state, r, dsize);
      dvsize := dsize;
      dv := r;
      assert Look() == h2.(dv := r, dvsize := dsize);
    }

    /** The designated victim follows: it is split, or taken whole. */
    method ExtendIntoVictim(p: nat, oldsize: nat, nb: nat)
      requires Valid() && p in Held() && Grown(Look(), bins.items, {}, bins.state, dv, p, dv) && oldsize == dv - p && dvsize != 0
      requires dv in live && live[dv] == Chunk(dvsize, Free) && oldsize < nb <= oldsize + dvsize && nb % 16 == 0 && nb >= 32
      modifies this`heads, this`feet, this`live, this`dv, this`dvsize
      ensures Valid() && Resized(old(Held()), p, nb)
      ensures dv == if oldsize + old(dvsize) >= nb + MIN_CHUNK_SIZE then p + nb else 0
    {
      hide HeapOk, Grown, Run, Placed, InUse;
      GrownBounds(Look(), bins.items, {}, bins.state, dv, p, dv);
      RunOn(Look(), bins.items, {}, bins.state, p, dv, p);
      ghost var was := dv;
      assert {} + {was} == {was};
      var dsize := oldsize + dvsize - nb;
      var n := dv + dvsize;
      GrownOn(Look().(dv := 0, dvsize := 0), bins.items, {was}, bins.state, n, p, p + nb);
      dvsize := 0;
      dv := 0;
      if dsize >= MIN_CHUNK_SIZE {
        SplitVictim(p, nb, n, was);
      } else {
        Absorb(p, n, {was});
      }
    }

    /** A binned chunk follows: it is taken whole, or cut. */
    method ExtendIntoFree(p: nat, next: nat, nextsize: nat, nb: nat)
      requires Valid() && p in Held() && Grown(Look(), bins.items, {}, bins.state, next, p, next)
      requires next in bins.items && bins.items[next] == nextsize && next in live && live[next] == Chunk(nextsize, Free)
      requires next < p + nb <= next + nextsize && nb % 16 == 0 && nb >= 32 && next != dv && next != top
      modifies this`heads, this`feet, this`live, this`dv, this`dvsize, this`top, this`topsize, bins
      ensures Valid() && Resized(old(Held()), p, nb) && dv == old(dv)
    {
      hide HeapOk, Grown, Run, Placed, InUse;
      var rsize := next + nextsize - (p + nb);
      GrownBounds(Look(), bins.items, {}, bins.state, next, p, next);
      RunOn(Look(), bins.items, {}, bins.state, p, next, p);
      bins.UnlinkChunk(next, nextsize);
      GrownOn(Look(), bins.items, {} + {next}, bins.state, next + nextsize, p, p + nb);
      GrownBounds(Look(), bins.items, {} + {next}, bins.state, next + nextsize, p, p + nb);
      AfterRun(Look(), bins.items, {} + {next}, bins.state, p, next + nextsize, p);
      EndUsed(Look(), bins.items, {} + {next}, bins.state, p, next + nextsize, p);
      if rsize < MIN_CHUNK_SIZE {
        Absorb(p, next + nextsize, {} + {next});
      } else {
        CutAndDispose(p, nb, next + nextsize, {} + {next});
      }
    }

    /** `try_realloc_chunk` in place: resize, or leave everything as it is when there is no room. */
    method TryReallocChunk(p: nat, nb: nat) returns (newp: nat)
      requires Valid() && p in Held() && p !in pinned && nb % 16 == 0 && 32 <= nb
      modifies this`heads, this`feet, this`live, this`dv, this`dvsize, this`top, this`topsize, bins
      ensures Valid()
      ensures newp != 0 <==> HasRoom(old(Look()), p, nb)
      ensures newp != 0 ==> newp == p && Resized(old(Held()), p, nb) && dv == VictimResized(old(Look()), p, nb)
      ensures newp == 0 ==> Look() == old(Look()) && bins.items == old(bins.items)
    {
      hide HeapOk, Run, Placed;
      newp := 0;
      HeldSize(Look(), bins.items, bins.state, p);
      var oldsize := ChunkSize(heads, p);
      var next := p + oldsize;
      StartRun(Look(), bins.items, bins.state, p);
      StartGrown(Look(), bins.items, bins.state, p);
      AfterRun(Look(), bins.items, {}, bins.state, p, next, p);
      TopFacts(Look(), bins.items, {}, bins.state);
      RunBounds(Look(), bins.items, {}, bins.state, p, next, p);
      if dvsize != 0 {
        VictimFacts(Look(), bins.items, bins.state);
      } else {
        NoVictim(Look(), bins.items, bins.state);
      }
      if oldsize >= nb {
        if oldsize - nb >= MIN_CHUNK_SIZE {
          GrownTo(Look(), bins.items, {}, bins.state, next, p, next, p + nb);
          CutAndDispose(p, nb, next, {});
        }
        newp := p;
      } else if next == top {
        if oldsize + topsize > nb {
          ExtendIntoTop(p, oldsize, nb);
          newp := p;
        }
      } else if next == dv {
        if oldsize + dvsize >= nb {
          ExtendIntoVictim(p, oldsize, nb);
          newp := p;
        }
      } else if !heads[next].cinuse {
        var nextsize := ChunkSize(heads, next);
        if oldsize + nextsize >= nb {
          ExtendIntoFree(p, next, nextsize, nb);
          newp := p;
        }
      }
    }

    // ----- memory from the system

    /** `init_top` on the grown top chunk of segment i. */
    method Append(i: nat, tsize: nat)
      requires Valid() && i < |segs| && FreshRegion(segs, segs[i].base + segs[i].size, tsize) && tsize > 0
      requires segs[i].base <= top < segs[i].base + segs[i].size
      modifies this`segs, this`topsize, this`heads, this`live, this`ends, this`limits
      ensures Valid() && Held() == old(Held()) && topsize == old(topsize) + tsize
      ensures segs == old(segs)[i := Segment(old(segs)[i].base, old(segs)[i].size + tsize)]
    {
      hide HeapOk, InUse, FreshRegion;
      ghost var h := Look();
      AppendOk(h, bins.items, bins.state, i, segs[i].base + segs[i].size, tsize);
      segs := segs[i := Segment(segs[i].base, segs[i].size + tsize)];
      topsize := topsize + tsize;
      heads := heads[top := Head(topsize, true, false)];
      heads := heads[top + topsize := Head(TOP_FOOT, false, false)];
      live := live[top := Chunk(topsize, Top)];
      ends := ends - {limits[i]} + {top + topsize};
      limits := limits[i := top + topsize];
      assert Look() == Appended(h, i, tsize);
    }

    /** The region before a segment is one chunk p in the view h, of which only the first nb bytes are marked as in use yet. */
    ghost predicate Begun(h: View, loose: set<nat>, p: nat, nb: nat, b: nat)
      reads this, bins
    {
      && bins.Valid() && Grown(h, bins.items, loose, bins.state, b, p, p + nb) && p + nb + 32 <= b
      && h.heads[p].pinuse && Look() == h.(heads := h.heads[p := Head(nb, true, true)])
    }

    /** `oldfirst == _top`: the rest of the region joins top. */
    method PrependTop(p: nat, nb: nat, oldfirst: nat, ghost h: View)
      requires Begun(h, {}, p, nb, oldfirst) && oldfirst == top
      modifies this`heads, this`live, this`top, this`topsize
      ensures Valid() && Held() == InUse(h.live)[p := nb] && top == p + nb
    {
      hide HeapOk, Grown, Run, Placed, InUse;
      GrownBounds(h, bins.items, {}, bins.state, oldfirst, p, p + nb);
      GrownAligned(h, bins.items, {}, bins.state, oldfirst, p, p + nb);
      var q, qsize := p + nb, oldfirst - (p + nb);
      ghost var e := oldfirst + topsize;
      var tsize := topsize + qsize;
      KeepIntoTop(h, bins.items, {}, bins.state, oldfirst, p, q, h.heads[p := Head(nb, true, true)][q := Head(tsize, true, false)]);
      topsize := tsize;
      top := q;
      heads := heads[q := Head(tsize, true, false)];
      live := Placed(live, p, e, Used, q, Top);
    }

    /** The rest of the region, with a free first chunk in transit or alone, becomes one free chunk. */
    method PrependRest(p: nat, nb: nat, b: nat, ghost h: View, ghost loose: set<nat>)
      requires Begun(h, loose, p, nb, b) && (b in live ==> live[b].kind.Used?)
      modifies this`heads, this`feet, this`live
      ensures bins.Valid() && HeapOk(Look(), bins.items, {p + nb}, bins.state) && Held() == InUse(h.live)[p := nb]
      ensures p + nb in live && live[p + nb].size == b - (p + nb)
    {
      hide HeapOk, Grown, Run, Placed, InUse;
      GrownBounds(h, bins.items, loose, bins.state, b, p, p + nb);
      GrownAligned(h, bins.items, loose, bins.state, b, p, p + nb);
      var q, qsize := p + nb, b - (p + nb);
      ghost var heads' := h.heads[p := Head(nb, true, true)][q := Head(qsize, true, false)][b := h.heads[b].(pinuse := false)];
      KeepAndFree(h, bins.items, loose, bins.state, b, p, q, heads');
      heads := ClearPinuse(heads, b);
      heads := heads[q := Head(qsize, true, false)];
      assert heads == heads';
      feet := feet[b := qsize];
      live := Placed(live, p, b, Used, q, Free);
      assert Look() == h.(live := live, heads := heads, feet := feet);
    }

    /** The designated victim follows the region: it grows backwards over the rest. */
    method PrependVictim(p: nat, nb: nat, oldfirst: nat, ghost h: View)
      requires Begun(h, {}, p, nb, oldfirst) && oldfirst == dv && oldfirst in live && live[oldfirst] == Chunk(dvsize, Free) && dvsize != 0
      modifies this`heads, this`feet, this`live, this`dv, this`dvsize
      ensures Valid() && Held() == InUse(h.live)[p := nb] && dv == p + nb
    {
      hide HeapOk, Grown, Run, Placed, InUse;
      GrownBounds(h, bins.items, {}, bins.state, oldfirst, p, p + nb);
      GrownAligned(h, bins.items, {}, bins.state, oldfirst, p, p + nb);
      RunOn(h, bins.items, {}, bins.state, p, oldfirst, p);
      assert {} + {oldfirst} == {oldfirst};
      ghost var h1 := h.(dv := 0, dvsize := 0);
      var e := oldfirst + dvsize;
      GrownOn(h1, bins.items, {oldfirst}, bins.state, e, p, p + nb);
      GrownBounds(h1, bins.items, {oldfirst}, bins.state, e, p, p + nb);
      var dsize := dvsize + (oldfirst - (p + nb));
      dv := 0;
      dvsize := 0;
      PrependRest(p, nb, e, h1, {oldfirst});
      SettleChunk(Look(), bins.items, bins.state, p + nb, dsize);
      dv := p + nb;
      dvsize := dsize;
    }

    /** The rest of the region is consolidated with the first chunk of the old base. */
    method PrependConsolidate(p: nat, nb: nat, oldfirst: nat, ghost h1: View)
      requires Begun(h1, {}, p, nb, oldfirst) && EndOfRun(h1, bins.items, oldfirst)
      modifies this`heads, this`feet, this`live, this`dv, this`dvsize, this`top, this`topsize, bins
      ensures Valid() && Held() == InUse(h1.live)[p := nb]
      ensures dv == if oldfirst == old(dv) then p + nb else old(dv)
    {
      hide HeapOk, Grown, Run, Placed, InUse;
      GrownBounds(h1, bins.items, {}, bins.state, oldfirst, p, p + nb);
      GrownAligned(h1, bins.items, {}, bins.state, oldfirst, p, p + nb);
      RunBounds(h1, bins.items, {}, bins.state, p, oldfirst, p);
      EndUsed(h1, bins.items, {}, bins.state, p, oldfirst, p);
      if oldfirst == top {
        PrependTop(p, nb, oldfirst, h1);
      } else if oldfirst == dv {
        NotNullVictim(h1, bins.items, bins.state);
        PrependVictim(p, nb, oldfirst, h1);
      } else if !heads[oldfirst].cinuse {
        var nsize := ChunkSize(heads, oldfirst);
        RunOn(h1, bins.items, {}, bins.state, p, oldfirst, p);
        bins.UnlinkChunk(oldfirst, nsize);
        GrownOn(h1, bins.items, {} + {oldfirst}, bins.state, oldfirst + nsize, p, p + nb);
        PrependRest(p, nb, oldfirst + nsize, h1, {} + {oldfirst});
        InsertLoose(p + nb, oldfirst + nsize - (p + nb));
      } else {
        PrependRest(p, nb, oldfirst, h1, {});
        InsertLoose(p + nb, oldfirst - (p + nb));
      }
    }

    /** `prepend_alloc`: the request is served from the region, the rest of which joins the segment's first chunk. */
    method PrependAlloc(i: nat, tbase: nat, nb: nat) returns (p: nat)
      requires Valid() && i < |segs| && tbase + nb + 32 <= segs[i].base && FreshRegion(segs, tbase, segs[i].base - tbase)
      requires nb % 16 == 0 && nb >= 32
      modifies this`heads, this`feet, this`live, this`dv, this`dvsize, this`top, this`topsize, this`segs, bins
      ensures Valid() && p == tbase && p !in old(Held()) && Held() == old(Held())[p := nb] && p !in pinned
      ensures dv == if old(segs)[i].base == old(dv) then p + nb else old(dv)
      ensures segs == old(segs)[i := Segment(tbase, old(segs)[i].size + (old(segs)[i].base - tbase))]
    {
      hide HeapOk, Grown, Run, Placed, InUse, FreshRegion;
      ghost var h := Look();
      var oldfirst := segs[i].base;
      PrefixOk(h, bins.items, bins.state, i, tbase);
      ghost var h1 := WithPrefix(h, i, tbase);
      p := tbase;
      StartGrown(h1, bins.items, bins.state, p);
      GrownTo(h1, bins.items, {}, bins.state, oldfirst, p, oldfirst, p + nb);
      GrownBounds(h1, bins.items, {}, bins.state, oldfirst, p, p + nb);
      AfterRun(h1, bins.items, {}, bins.state, p, oldfirst, p);
      segs := segs[i := Segment(tbase, segs[i].size + (oldfirst - tbase))];
      live := h1.live;
      heads := heads[p := Head(nb, true, true)];
      assert Begun(h1, {}, p, nb, oldfirst);
      PrependConsolidate(p, nb, oldfirst, h1);
      assert InUse(h1.live)[p := nb] == InUse(h.live)[p := nb];
    }

    /** `segment_holding`: the segment an address lies in. */
    method SegmentHolding(a: nat) returns (i: nat)
      requires exists k: nat :: k < |segs| && segs[k].base <= a < segs[k].base + segs[k].size
      ensures i < |segs| && segs[i].base <= a < segs[i].base + segs[i].size
    {
      i := 0;
      while i < |segs| && !(segs[i].base <= a < segs[i].base + segs[i].size)
        invariant forall k :: 0 <= k < i && k < |segs| ==> !(segs[k].base <= a < segs[k].base + segs[k].size)
        invariant i <= |segs|
      {
        i := i + 1;
      }
    }

    /** The trailing fenceposts of a closed segment: one in every word from first on, up to the last that fits. */
    method InsertFenceposts(first: nat, oldEnd: nat) returns (nfences: nat)
      requires first + 8 <= oldEnd
      modifies this`heads
      ensures nfences >= 1 && first + 8 * nfences <= oldEnd <= first + 8 * nfences + 8
      ensures forall k: nat :: k < nfences ==> Fence(first, k) in heads && heads[Fence(first, k)] == Head(8, true, true)
      ensures forall x :: x in old(heads) && !(first <= x < oldEnd) ==> x in heads && heads[x] == old(heads)[x]
    {
      var p := first;
      nfences := 0;
      while true
        invariant p == Fence(first, nfences) && p + 8 <= oldEnd && (nfences > 0 ==> p + 8 < oldEnd)
        invariant forall k: nat :: k < nfences ==> Fence(first, k) in heads && heads[Fence(first, k)] == Head(8, true, true)
        invariant forall x :: x in old(heads) && !(first <= x < oldEnd) ==> x in heads && heads[x] == old(heads)[x]
        decreases oldEnd - p
      {
        var nextp := p + 8;
        heads := heads[p := Head(8, true, true)];
        nfences := nfences + 1;
        if nextp + 8 < oldEnd {
          p := nextp;
        } else {
          break;
        }
      }
    }

    /** Where the record of a new segment goes in the one that holds top, and where that one ends. */
    method PlaceRecord() returns (csp: nat, oldEnd: nat, ghost k: nat)
      requires Valid()
      ensures k < |segs| == |limits| && limits[k] == top + topsize && segs[k].base + segs[k].size == limits[k] + TOP_FOOT && segs[k].base <= top
      ensures csp == RecordAt(Look()) && oldEnd == top + topsize + TOP_FOOT && topsize >= 16 && topsize % 16 == 0
    {
      hide HeapOk;
      k := TopsSegment(Look(), bins.items, bins.state);
      TopFacts(Look(), bins.items, {}, bins.state);
      assert segs[k].base <= top < segs[k].base + segs[k].size;
      var sp := SegmentHolding(top);
      OneSegmentOf(Look(), bins.items, bins.state, sp, k);
      oldEnd := segs[sp].base + segs[sp].size;
      RecordAligned(oldEnd, top + topsize);
      var rawsp := oldEnd - (RECORD + 32 + 15);
      var offset := (16 - (rawsp + 16) % 16) % 16;
      var asp := rawsp + offset;
      csp := if asp < top + MIN_CHUNK_SIZE then top else asp;
    }

    /** `add_segment`. */
    method AddSegment(tbase: nat, tsize: nat)
      requires Valid() && FreshRegion(segs, tbase, tsize) && tsize >= TOP_FOOT + 32
      modifies this`heads, this`feet, this`top, this`topsize, this`segs, this`live, this`ends, this`limits, this`pinned, bins
      ensures Valid() && Allocated() == old(Allocated()) && top == tbase && topsize == tsize - TOP_FOOT
      ensures segs == [Segment(tbase, tsize)] + old(segs)
    {
      hide HeapOk, InUse, FreshRegion, Renewed, FencedOff, Started;
      ghost var h := Look();
      var oldTop := top;
      var csp, oldEnd;
      ghost var k;
      csp, oldEnd, k := PlaceRecord();
      StartSegment(tbase, tsize, csp);
      StartedHeads(h, bins.items, bins.state, k, tbase, tsize, heads);
      ghost var started := heads;
      var nfences := InsertFenceposts(csp + RECORD, oldEnd);
      assert nfences >= 2 && Fence(csp + RECORD, 0) == csp + RECORD;
      ghost var fenced := heads;
      if csp != oldTop {
        heads := ClearPinuse(heads, csp);
        heads := heads[oldTop := Head(csp - oldTop, true, false)];
        feet := feet[csp := csp - oldTop];
      }
      FencesDone(h, tbase, tsize, started, fenced, heads);
      RenewView(h, k, tbase, tsize);
      if csp != oldTop {
        InsertLoose(oldTop, csp - oldTop);
      }
      PinnedRecord(old(Held()), old(pinned), csp);
    }

    /** The ghost state after a new segment. */
    ghost method RenewView(h: View, k: nat, tbase: nat, tsize: nat)
      requires bins.Valid() && HeapOk(h, bins.items, {}, bins.state)
      requires k < |h.segs| == |h.limits| && h.limits[k] == h.top + h.topsize && h.segs[k].base + h.segs[k].size == h.limits[k] + TOP_FOOT
      requires FreshRegion(h.segs, tbase, tsize) && tsize >= TOP_FOOT + 32 && h.topsize >= 16 && FencedOff(h, tbase, tsize, heads)
      requires dv == h.dv && dvsize == h.dvsize && top == tbase && topsize == tsize - TOP_FOOT && segs == [Segment(tbase, tsize)] + h.segs
      requires feet == if RecordAt(h) == h.top then h.feet else h.feet[RecordAt(h) := h.topsize]
      modifies this`live, this`ends, this`limits, this`pinned
      ensures Mid(if RecordAt(h) == h.top then {} else {h.top}) && pinned == h.pinned + {RecordAt(h)}
      ensures Held() == InUse(h.live)[RecordAt(h) := RECORD] && RecordAt(h) !in InUse(h.live)
      ensures RecordAt(h) != h.top ==> h.top in live && live[h.top].size == h.topsize
    {
      hide HeapOk, InUse, FreshRegion, Renewed, FencedOff;
      RenewedOk(h, bins.items, bins.state, k, tbase, tsize, heads);
      RenewedFields(h, k, tbase, tsize);
      RenewedOldTop(h, bins.items, bins.state, k, tbase, tsize);
      var n := Renewed(h, k, tbase, tsize).(heads := heads);
      live, ends, limits, pinned := n.live, n.ends, n.limits, n.pinned;
      assert Look() == n;
    }

    method StartSegment(tbase: nat, tsize: nat, sp: nat)
      requires tsize >= TOP_FOOT
      modifies this`heads, this`top, this`topsize, this`segs
      ensures top == tbase && topsize == tsize - TOP_FOOT && segs == [Segment(tbase, tsize)] + old(segs)
      ensures heads == old(heads)[tbase := Head(tsize - TOP_FOOT, true, false)][tbase + tsize - TOP_FOOT := Head(TOP_FOOT, false, false)][sp := Head(RECORD, true, true)]
    {
      top := tbase;
      topsize := tsize - TOP_FOOT;
      heads := heads[tbase := Head(topsize, true, false)];
      heads := heads[tbase + topsize := Head(TOP_FOOT, false, false)];
      heads := heads[sp := Head(RECORD, true, true)];
      segs := [Segment(tbase, tsize)] + segs;
    }

    /** The position of the segment that ends where the region begins, or of the one that begins where it ends; past the end if none. */
    method FindSegment(address: nat, atEnd: bool) returns (i: nat)
      ensures i <= |segs| && (i < |segs| ==> (if atEnd then segs[i].base + segs[i].size else segs[i].base) == address)
      ensures i == |segs| ==> forall k :: 0 <= k < |segs| ==> (if atEnd then segs[k].base + segs[k].size else segs[k].base) != address
    {
      i := 0;
      while i < |segs| && (if atEnd then segs[i].base + segs[i].size else segs[i].base) != address
        invariant i <= |segs|
        invariant forall k :: 0 <= k < i ==> (if atEnd then segs[k].base + segs[k].size else segs[k].base) != address
      {
        i := i + 1;
      }
    }

    /** The system, or the limit on the footprint, refuses the request. */
    ghost predicate Refused(nb: nat, supply: Supply)
      requires Unit(granularity)
      reads this
    {
      var asize := SysSize(nb, granularity);
      var fp := (footprint + asize) % WORD_LIMIT;
      asize <= nb || (footprintLimit != 0 && (fp <= footprint || fp > footprintLimit)) || supply.NoMemory?
    }

    /** `sys_alloc`: a region is appended to top's segment, put before a segment, or added as a segment of its own. */
    method SysAlloc(nb: nat, supply: Supply) returns (p: nat)
      requires Valid() && Unit(granularity) && (nb == WORD_LIMIT - 1 || (32 <= nb <= 0x1_0000_0000 && nb % 16 == 0))
      requires supply.Region? ==> FreshRegion(segs, supply.base, SysSize(nb, granularity))
      modifies this, bins
      ensures Valid()
      ensures p == 0 <==> old(Refused(nb, supply))
      ensures p == 0 ==> Look() == old(Look()) && bins.items == old(bins.items) && footprint == old(footprint) && maxFootprint == old(maxFootprint)
      ensures p != 0 ==> Served(old(Allocated()), Allocated(), p, nb) && FromSystem(old(Look()), Look(), p, nb, supply.base, SysSize(nb, granularity))
      ensures p != 0 ==> footprint == (old(footprint) + SysSize(nb, granularity)) % WORD_LIMIT
      ensures p != 0 ==> maxFootprint == if footprint > old(maxFootprint) then footprint else old(maxFootprint)
    {
      hide HeapOk, InUse, FreshRegion, SysSize;
      SysSizes(nb, granularity);
      p := 0;
      var asize := SysSize(nb, granularity);
      if asize <= nb {
        return;
      }
      if footprintLimit != 0 {
        var fp := (footprint + asize) % WORD_LIMIT;
        if fp <= footprint || fp > footprintLimit {
          return;
        }
      }
      if supply.Region? {
        var tbase, tsize := supply.base, asize;
        footprint := (footprint + tsize) % WORD_LIMIT;
        if footprint > maxFootprint {
          maxFootprint := footprint;
        }
        p := AllocateFrom(tbase, tsize, nb);
      }
    }

    /** The request is served with the help of a new region. */
    method AllocateFrom(tbase: nat, tsize: nat, nb: nat) returns (p: nat)
      requires Valid() && FreshRegion(segs, tbase, tsize) && tsize >= nb + TOP_FOOT + 16 && 32 <= nb && nb % 16 == 0
      modifies this`heads, this`feet, this`dv, this`dvsize, this`top, this`topsize, this`segs, this`live, this`ends, this`limits, this`pinned, bins
      ensures Valid() && Served(old(Allocated()), Allocated(), p, nb)
      ensures FromSystem(old(Look()), Look(), p, nb, tbase, tsize)
    {
      hide HeapOk, InUse, FreshRegion, FromSystem, ExtendsTop, Served;
      ghost var h := Look();
      PinnedHeld(h, bins.items, bins.state);
      VictimPlace(h, bins.items, bins.state, tbase, tsize);
      ghost var k := TopsSegment(h, bins.items, bins.state);
      var i := FindSegment(tbase, true);
      Extending(h, bins.items, bins.state, i, tbase);
      if i < |segs| && segs[i].base <= top < segs[i].base + segs[i].size {
        Append(i, tsize);
        p := FromNewTop(nb);
        LongerSegment(h, Look(), i, p, nb, tbase, tsize);
      } else {
        i := FindSegment(tbase + tsize, false);
        if i < |segs| {
          RegionBounds(segs, tbase, tsize);
          p := PrependAlloc(i, tbase, nb);
          ServedNew(old(Held()), Held(), pinned, p);
          SegmentBefore(h, Look(), i, p, nb, tbase, tsize);
          ServedBy(old(Allocated()), Allocated(), p, nb);
        } else {
          AddSegment(tbase, tsize);
          p := FromNewTop(nb);
          OwnSegmentOf(h, Look(), p, nb, tbase, tsize);
        }
      }
    }

    method FromNewTop(nb: nat) returns (p: nat)
      requires Valid() && 32 <= nb < topsize && nb % 16 == 0
      modifies this`heads, this`live, this`top, this`topsize
      ensures Valid() && Served(old(Allocated()), Allocated(), p, nb) && p == old(top)
    {
      hide HeapOk, FitsState, Unit;
      PinnedHeld(Look(), bins.items, bins.state);
      p := TakeFromTop(nb);
      ServedNew(old(Held()), Held(), pinned, p);
    }

    // ----- malloc, free and realloc

    /** A small request from the small bins or the smallest tree chunk; 0 leaves it to victim, top or system. */
    method SmallRequest(nb: nat) returns (p: nat)
      requires Valid() && 32 <= nb <= 240 && nb % 16 == 0
      modifies this`heads, this`feet, this`live, this`dv, this`dvsize, bins
      ensures Valid()
      ensures p != 0 ==> Served(old(Held()), Held(), p, nb) && FromBins(old(bins.items), old(dvsize), nb, p)
      ensures p != 0 ==> dv == VictimAfter(old(Look()), old(bins.items), nb, p)
      ensures p == 0 ==> Look() == old(Look()) && bins.items == old(bins.items) && forall v :: !FromBins(bins.items, dvsize, nb, v)
    {
      hide HeapOk, InUse, And, Pow2, BitAt, LeftBits, BitToIdxOfLeast, ShiftLeft, ShiftRight, Bins.Valid;
      p := 0;
      var idx := nb / 8;
      SmallMapOk(bins);
      ExactBin(bins, nb);
      var smallbits := ShiftRight(bins.smallmap, idx);
      LowTwoBits(smallbits);
      LowBitIsParity(smallbits);
      ShiftedBit(bins.smallmap, idx, 0);
      ShiftedBit(bins.smallmap, idx, 1);
      if And(smallbits, 3) != 0 {
        idx := idx + (1 - smallbits % 2);
        p := TakeSmall(idx, nb);
      } else if nb > dvsize {
        if smallbits != 0 {
          NextSmall(bins.smallmap, idx);
          var left := And(ShiftLeft(smallbits, idx), LeftBits(Pow2(idx)));
          var i := BitToIdxOfLeast(left);
          LaterFits(bins, nb, i);
          p := TakeLaterSmall(i, nb);
        } else {
          NoBitLeft(bins, nb);
          if bins.treemap != 0 {
            ghost var items := bins.items;
            p := TmallocSmall(nb);
            LargeFit(items, nb, p);
          } else {
            NoLarge(bins);
          }
        }
      }
    }

    /** The chunk for nb bytes when bins did not serve: from the victim, from top, or from the system. */
    method RemainingRequest(nb: nat, supply: Supply) returns (p: nat)
      requires Valid() && Unit(granularity) && (nb == WORD_LIMIT - 1 || (32 <= nb <= 0x1_0000_0000 && nb % 16 == 0))
      requires supply.Region? ==> FreshRegion(segs, supply.base, SysSize(nb, granularity))
      modifies this, bins
      ensures Valid()
      ensures p != 0 ==> Served(old(Allocated()), Allocated(), p, nb)
      ensures p == 0 <==> old(dvsize) < nb && old(topsize) <= nb && old(Refused(nb, supply))
      ensures p == 0 ==> Look() == old(Look()) && bins.items == old(bins.items)
      ensures nb <= old(dvsize) ==> p == old(dv) && p !in old(bins.items)
      ensures old(dvsize) < nb < old(topsize) ==> p == old(top) && p !in old(bins.items) && p != old(dv)
      ensures nb <= old(dvsize) || nb < old(topsize) ==> dv == VictimAfter(old(Look()), old(bins.items), nb, p)
      ensures nb <= old(dvsize) || nb < old(topsize) || p == 0 ==> footprint == old(footprint) && maxFootprint == old(maxFootprint) && segs == old(segs)
      ensures p != 0 && old(dvsize) < nb && old(topsize) <= nb ==> BySystem(old(Look()), old(footprint), old(maxFootprint), p, nb, supply)
      ensures nb == WORD_LIMIT - 1 ==> p == 0
    {
      hide HeapOk, InUse, FreshRegion, SysSize, FromSystem, Served;
      SysSizes(nb, granularity);
      PinnedHeld(Look(), bins.items, bins.state);
      VictimInRange(Look(), bins.items, bins.state);
      TopInRange(Look(), bins.items, bins.state);
      NotBinned(Look(), bins.items, bins.state);
      if nb <= dvsize {
        p := TakeVictim(nb);
        ServedToo(old(Held()), Held(), pinned, p, nb);
      } else if nb < topsize {
        p := FromNewTop(nb);
      } else {
        p := SysAlloc(nb, supply);
      }
    }

    /** The request was served from the region that the system supplied, which counts as footprint from now on. */
    ghost predicate BySystem(h: View, before: nat, most: nat, p: nat, nb: nat, supply: Supply)
      requires Unit(granularity)
      reads this
    {
      && supply.Region? && FromSystem(h, Look(), p, nb, supply.base, SysSize(nb, granularity))
      && footprint == (before + SysSize(nb, granularity)) % WORD_LIMIT && maxFootprint == (if footprint > most then footprint else most)
    }

    /** `_malloc`: an aligned chunk of at least the request, or 0 when bins, victim, top and system all fail. */
    method Malloc(bytes: nat, supply: Supply) returns (mem: nat)
      requires Valid() && Unit(granularity)
      requires supply.Region? ==> FreshRegion(segs, supply.base, SysSize(ChunkRequest(bytes), granularity))
      modifies this, bins
      ensures Valid()
      ensures mem != 0 ==> mem >= 16 && mem % 16 == 0 && Served(old(Allocated()), Allocated(), mem - 16, RequestSize(bytes))
      ensures mem != 0 ==> bytes + CHUNK_OVERHEAD <= Allocated()[mem - 16]
      ensures mem == 0 ==> Look() == old(Look()) && bins.items == old(bins.items)
      ensures mem == 0 <==> old(Exhausted(Look(), bins.items, ChunkRequest(bytes))) && old(Refused(ChunkRequest(bytes), supply))
      ensures mem != 0 ==> Chosen(old(Look()), old(bins.items), ChunkRequest(bytes), mem - 16)
      ensures mem != 0 && !old(Exhausted(Look(), bins.items, ChunkRequest(bytes))) ==>
                dv == VictimAfter(old(Look()), old(bins.items), ChunkRequest(bytes), mem - 16) && footprint == old(footprint)
      ensures mem != 0 && old(Exhausted(Look(), bins.items, ChunkRequest(bytes))) ==>
                BySystem(old(Look()), old(footprint), old(maxFootprint), mem - 16, ChunkRequest(bytes), supply)
    {
      hide HeapOk, InUse, FreshRegion, SysSize, Refused, IsBestFit, IsSmall, IsFit, Served, BySystem, VictimAfter, FromBins, Chosen, Exhausted, Bins.Valid;
      RequestSizes(bytes);
      PinnedHeld(Look(), bins.items, bins.state);
      var nb, p := ChunkRequest(bytes), 0;
      ghost var h, items := Look(), bins.items;
      if bytes <= MAX_SMALL_REQUEST {
        p := SmallRequest(nb);
      } else if bytes < MAX_REQUEST && bins.treemap != 0 {
        p := TmallocLarge(nb);
        LargeChoice(h, items, nb, p);
      } else {
        NoLargeChoice(bins, nb, dvsize);
      }
      if p != 0 {
        ChosenFromBins(h, items, nb, p);
        ServedToo(old(Held()), Held(), pinned, p, nb);
      } else {
        NotFromBins(h, items, nb);
        p := RemainingRequest(nb, supply);
      }
      if p != 0 {
        ServedFacts(old(Allocated()), Allocated(), p, nb);
      }
      mem := if p != 0 then p + 16 else 0;
    }

    /** `mspace_free`: the caller's chunk is gone, and nothing else changed for any caller. */
    method FreeMemory(mem: nat)
      requires Valid() && (mem == 0 || (mem >= 16 && mem - 16 in Allocated()))
      modifies this`heads, this`feet, this`live, this`dv, this`dvsize, this`top, this`topsize, bins
      ensures Valid() && Allocated() == if mem == 0 then old(Allocated()) else old(Allocated()) - {mem - 16}
      ensures dv == if mem == 0 then old(dv) else VictimWithout(old(Look()), mem - 16, old(Allocated())[mem - 16])
      ensures footprint == old(footprint) && segs == old(segs)
    {
      hide HeapOk, FitsState, Unit;
      if mem != 0 {
        Release(mem - 16);
        WithoutOne(old(Held()), pinned, mem - 16);
      }
    }

    /** Beyond the largest request nothing suffices, and the system is not asked. */
    lemma TooMuch(bytes: nat, supply: Supply)
      requires Valid() && Unit(granularity) && bytes >= MAX_REQUEST
      ensures Exhausted(Look(), bins.items, ChunkRequest(bytes)) && Refused(ChunkRequest(bytes), supply)
    {
      hide HeapOk, SysSize, Bins.Valid;
      SysSizes(WORD_LIMIT - 1, granularity);
      VictimInRange(Look(), bins.items, bins.state);
      TopInRange(Look(), bins.items, bins.state);
      ItemsBelow(bins);
    }

    /** A request that the memory at hand cannot serve, neither where the old chunk is nor elsewhere. */
    ghost predicate NoWay(oldmem: nat, bytes: nat)
      reads this, bins
    {
      && Exhausted(Look(), bins.items, ChunkRequest(bytes))
      && (oldmem >= 16 ==> bytes >= MAX_REQUEST || !HasRoom(Look(), oldmem - 16, RequestSize(bytes)))
    }

    /** `mspace_realloc`: nothing to move for a null pointer, else `Move`. */
    method Realloc(oldmem: nat, bytes: nat, supply: Supply) returns (mem: nat)
      requires Valid() && Unit(granularity) && (oldmem == 0 || (oldmem >= 16 && oldmem - 16 in Allocated()))
      requires supply.Region? ==> FreshRegion(segs, supply.base, SysSize(ChunkRequest(bytes), granularity))
      modifies this, bins, contents
      ensures Valid()
      ensures mem == 0 ==> Look() == old(Look()) && bins.items == old(bins.items)
      ensures mem == 0 <==> old(NoWay(oldmem, bytes)) && old(Refused(ChunkRequest(bytes), supply))
      ensures mem != 0 ==> mem >= 16 && mem % 16 == 0
      ensures mem != 0 && oldmem == 0 ==> Served(old(Allocated()), Allocated(), mem - 16, RequestSize(bytes)) && bytes + CHUNK_OVERHEAD <= Allocated()[mem - 16]
      ensures mem != 0 && oldmem != 0 ==> Moved(old(Allocated()), Allocated(), oldmem - 16, mem - 16, bytes)
      ensures mem != 0 && oldmem == 0 ==> Chosen(old(Look()), old(bins.items), ChunkRequest(bytes), mem - 16)
      ensures mem != 0 && oldmem != 0 ==> KeptOrChosen(old(Look()), old(bins.items), oldmem - 16, mem - 16, bytes)
      ensures mem != 0 && mem == oldmem ==> dv == VictimResized(old(Look()), oldmem - 16, RequestSize(bytes)) && footprint == old(footprint)
      ensures mem == 0 || oldmem == 0 ==> contents.bytes == old(contents.bytes)
      ensures mem != 0 && oldmem != 0 ==> Carried(old(contents.bytes), contents.bytes, old(Allocated()), oldmem - 16, mem - 16, bytes)
    {
      hide HeapOk, InUse, FreshRegion, SysSize, HasRoom, Refused, Carried;
      if oldmem == 0 {
        mem := Malloc(bytes, supply);
      } else {
        mem := Move(oldmem, bytes, supply);
      }
    }

    /** Resize in place, or allocate anew and free the old chunk. */
    method Move(oldmem: nat, bytes: nat, supply: Supply) returns (mem: nat)
      requires Valid() && Unit(granularity) && oldmem >= 16 && oldmem - 16 in Allocated()
      requires supply.Region? ==> FreshRegion(segs, supply.base, SysSize(ChunkRequest(bytes), granularity))
      modifies this, bins, contents
      ensures Valid()
      ensures mem == 0 ==> Look() == old(Look()) && bins.items == old(bins.items)
      ensures mem == 0 <==> old(NoWay(oldmem, bytes)) && old(Refused(ChunkRequest(bytes), supply))
      ensures mem != 0 ==> mem >= 16 && mem % 16 == 0 && Moved(old(Allocated()), Allocated(), oldmem - 16, mem - 16, bytes)
      ensures mem != 0 ==> KeptOrChosen(old(Look()), old(bins.items), oldmem - 16, mem - 16, bytes)
      ensures mem == oldmem ==> dv == VictimResized(old(Look()), oldmem - 16, RequestSize(bytes)) && footprint == old(footprint)
      ensures mem == 0 ==> contents.bytes == old(contents.bytes)
      ensures mem != 0 ==> Carried(old(contents.bytes), contents.bytes, old(Allocated()), oldmem - 16, mem - 16, bytes)
    {
      hide HeapOk, InUse, FreshRegion, SysSize, HasRoom, Refused, Carried, Chosen, Exhausted, VictimAfter, BySystem, VictimResized, VictimWithout, Served, Moved, Resized;
      mem := 0;
      if bytes >= MAX_REQUEST {
        TooMuch(bytes, supply);
      } else {
        RequestSizes(bytes);
        PinnedHeld(Look(), bins.items, bins.state);
        HeldAligned(Look(), bins.items, bins.state, oldmem - 16);
        var nb := RequestSize(bytes);
        var newp := TryReallocChunk(oldmem - 16, nb);
        if newp != 0 {
          mem := newp + 16;
          ResizedMoved(old(Held()), newp, nb, bytes);
          NothingCarried(contents.bytes, old(Allocated()), newp, bytes);
        } else {
          mem := Malloc(bytes, supply);
          if mem != 0 {
            ghost var between := Allocated();
            ServedMoved(old(Allocated()), between, oldmem - 16, mem - 16, bytes);
            CopyOver(oldmem, mem, bytes, old(Allocated()));
            FreeMemory(oldmem);
          }
        }
      }
    }

    /** The copying of a chunk that moves: what it had, but no more than was asked for. */
    method CopyOver(oldmem: nat, mem: nat, bytes: nat, ghost before: map<nat, nat>)
      requires Valid() && oldmem >= 16 && mem >= 16 && oldmem - 16 in before && mem - 16 !in before && mem - 16 in Allocated()
      requires Allocated() == before[mem - 16 := Allocated()[mem - 16]] && bytes + CHUNK_OVERHEAD <= Allocated()[mem - 16]
      modifies contents
      ensures Carried(old(contents.bytes), contents.bytes, before, oldmem - 16, mem - 16, bytes)
    {
      hide HeapOk;
      ChunksApart(Look(), bins.items, bins.state);
      ghost var between := Allocated();
      assert oldmem - 16 in between && between[oldmem - 16] == before[oldmem - 16];
      var oc := ChunkSize(heads, oldmem - 16) - CHUNK_OVERHEAD;
      assert oc == before[oldmem - 16] - CHUNK_OVERHEAD;
      contents.Copy(mem, oldmem, if oc < bytes then oc else bytes);
      CopyCarries(old(contents.bytes), contents.bytes, before, between, oldmem - 16, mem - 16, bytes);
    }

    lemma ResizedMoved(held: map<nat, nat>, p: nat, nb: nat, bytes: nat)
      requires Resized(held, p, nb) && p !in pinned && p % 16 == 0 && nb == RequestSize(bytes)
      ensures Moved(held - pinned, Allocated(), p, p, bytes)
    {
      hide InUse, RequestSize;
      RequestSizes(bytes);
      SameChunk(held, Held(), pinned, p);
    }
  }

  lemma ServedMoved(before: map<nat, nat>, between: map<nat, nat>, p: nat, q: nat, bytes: nat)
    requires p in before && Served(before, between, q, RequestSize(bytes))
    ensures q != p && p in between && Moved(before, between - {p}, p, q, bytes)
    ensures q !in before && q in between && between == before[q := between[q]] && bytes + CHUNK_OVERHEAD <= between[q]
  {
    hide RequestSize;
    RequestSizes(bytes);
    MovedChunk(before, between, p, q);
  }

  lemma HeldAligned(h: View, items: Items, state: nat, p: nat)
    requires HeapOk(h, items, {}, state) && p in InUse(h.live)
    ensures p % 16 == 0 && InUse(h.live)[p] >= MIN_CHUNK_SIZE
  {
    hide HeapOk;
    AllocationsApart(h, items, state);
  }

  /** The chunk p became the chunk q, which holds the bytes; the other chunks of callers are as before. */
  ghost predicate Moved(before: map<nat, nat>, after: map<nat, nat>, p: nat, q: nat, bytes: nat) {
    && p in before && q in after && (q != p ==> q !in before) && after == (before - {p})[q := after[q]]
    && bytes + CHUNK_OVERHEAD <= after[q] < RequestSize(bytes) + MIN_CHUNK_SIZE && q % 16 == 0
  }

  /** The chunk stays where it is exactly when there is room, and else the allocator chooses. */
  ghost predicate KeptOrChosen(h: View, items: Items, p: nat, q: nat, bytes: nat) {
    if HasRoom(h, p, RequestSize(bytes)) then q == p else q != p && Chosen(h, items, ChunkRequest(bytes), q)
  }

  /**
   * As many bytes of the chunk p as it had, but no more than were asked for, are now in the chunk q; those of the other
   * chunks are as before.
   */
  ghost predicate Carried(was: Words, now: Words, before: map<nat, nat>, p: nat, q: nat, bytes: nat) {
    && p in before && before[p] >= CHUNK_OVERHEAD
    && SameBytes(was, p + 16, now, q + 16, if before[p] - CHUNK_OVERHEAD < bytes then before[p] - CHUNK_OVERHEAD else bytes)
    && (forall c :: c in before && c != p && before[c] >= CHUNK_OVERHEAD ==> SameBytes(was, c + 16, now, c + 16, before[c] - CHUNK_OVERHEAD))
    && (p == q ==> now == was)
  }

  ghost predicate Disjoint(held: map<nat, nat>) {
    && (forall p, q :: p in held && q in held && p < q ==> p + held[p] <= q)
    && forall p :: p in held ==> held[p] >= MIN_CHUNK_SIZE
  }

  lemma ChunksApart(h: View, items: Items, state: nat)
    requires HeapOk(h, items, {}, state)
    ensures Disjoint(InUse(h.live) - h.pinned)
    ensures forall p :: p in InUse(h.live) ==> p in h.heads && h.heads[p].size == InUse(h.live)[p]
  {
    hide HeapOk;
    AllocationsApart(h, items, state);
    TagsAgree(h, items, state);
  }

  /** Copying into one of several disjoint chunks leaves the bytes of the others alone. */
  lemma CopyCarries(was: Words, now: Words, before: map<nat, nat>, between: map<nat, nat>, p: nat, q: nat, bytes: nat)
    requires Disjoint(between) && p in before && q !in before && q in between && between == before[q := between[q]]
    requires bytes + CHUNK_OVERHEAD <= between[q]
    requires var n := if before[p] - CHUNK_OVERHEAD < bytes then before[p] - CHUNK_OVERHEAD else bytes;
             n >= 0 && SameBytes(was, p + 16, now, q + 16, n) && forall a: nat :: !(q + 16 <= a < q + 16 + n) ==> At(now, a) == At(was, a)
    ensures Carried(was, now, before, p, q, bytes)
  {
    hide At;
    forall c | c in before && c != p && before[c] >= CHUNK_OVERHEAD
      ensures SameBytes(was, c + 16, now, c + 16, before[c] - CHUNK_OVERHEAD)
    {
      assert c in between && between[c] == before[c] && c != q;
    }
  }

  lemma NothingCarried(bytes: Words, before: map<nat, nat>, p: nat, n: nat)
    requires p in before && before[p] >= CHUNK_OVERHEAD
    ensures Carried(bytes, bytes, before, p, p, n)
  {
  }

  lemma MovedChunk(before: map<nat, nat>, between: map<nat, nat>, p: nat, q: nat)
    requires p in before && q !in before && q in between && between == before[q := between[q]]
    ensures between - {p} == (before - {p})[q := between[q]] && q != p
  {
  }

  lemma SameChunk(held: map<nat, nat>, after: map<nat, nat>, pinned: set<nat>, p: nat)
    requires p in held && p in after && p !in pinned && after == held[p := after[p]]
    ensures p in after - pinned && (after - pinned) == (held - pinned - {p})[p := after[p]] && p in held - pinned
  {
  }

  // ----- what the debugging checks assert of a heap in this state

  /** Live allocations are disjoint, aligned, and of at least the smallest size. */
  lemma AllocationsApart(h: View, items: Items, state: nat)
    requires HeapOk(h, items, {}, state)
    ensures forall p, q :: p in InUse(h.live) && q in InUse(h.live) && p < q ==> p + InUse(h.live)[p] <= q
    ensures forall p :: p in InUse(h.live) ==> p % 16 == 0 && InUse(h.live)[p] % 16 == 0 && InUse(h.live)[p] >= MIN_CHUNK_SIZE
  {
    hide SegsOk, PinnedOk, EndsOk, TopSegment, TagsOk, BackOk, OwnedBut;
    assert forall p :: p in h.live ==> ShapeAt(h.live, h.ends, p);
  }

  /** The tags of every chunk agree with it and with the chunk after it, and no two chunks that are not in use are neighbours. */
  lemma TagsAgree(h: View, items: Items, state: nat)
    requires HeapOk(h, items, {}, state)
    ensures forall p :: p in h.live ==>
              var c := h.live[p];
              var n := p + c.size;
              && p in h.heads && n in h.heads && h.heads[p].size == c.size && h.heads[p].cinuse == c.kind.Used? == h.heads[n].pinuse
              && (c.kind.Free? ==> At(h.feet, n) == c.size) && (!c.kind.Used? && n in h.live ==> h.live[n].kind.Used?)
  {
    hide SegsOk, PinnedOk, EndsOk, TopSegment, ShapeOk, BackOk, OwnedBut;
    assert forall p :: p in h.live ==> TagsAt(h.live, h.heads, h.feet, p);
  }

  /** The bytes of the caller, from after the head of the chunk at q of size s to the end of its foot, lie outside of lo to hi. */
  predicate Clear(q: nat, s: nat, lo: nat, hi: nat) {
    hi <= q + 16 || q + s + CHUNK_OVERHEAD <= lo
  }

  /** No caller's bytes share a place with the head of a chunk, or with the links or the foot of a chunk that is not in use. */
  lemma BytesApart(h: View, items: Items, state: nat)
    requires HeapOk(h, items, {}, state)
    ensures forall q, p :: q in InUse(h.live) && p in h.live ==>
              && Clear(q, h.live[q].size, p + 8, p + 16)
              && (!h.live[p].kind.Used? ==> Clear(q, h.live[q].size, p + 16, p + h.live[p].size + 8))
  {
    hide SegsOk, PinnedOk, EndsOk, TopSegment, TagsOk, BackOk, OwnedBut;
    assert forall p :: p in h.live ==> ShapeAt(h.live, h.ends, p);
  }

  /** A free chunk is in its bin or the designated victim, never both; top is the one chunk of its kind and ends its segment. */
  lemma FreeChunksOwned(h: View, items: Items, state: nat)
    requires HeapOk(h, items, {}, state)
    ensures forall p :: p in h.live && h.live[p].kind.Free? <==> (p in items) != (p == h.dv && h.dvsize != 0)
    ensures forall c :: c in items ==> c in h.live && items[c] == h.live[c].size
    ensures forall p :: p in h.live && h.live[p].kind.Top? <==> p == h.top
    ensures TopSegment(h.segs, h.limits, h.top + h.topsize)
  {
    hide SegsOk, PinnedOk, EndsOk, TopSegment, Apart, TagsOk, BackOk;
    NoNull(h.live, h.ends);
  }

  lemma RenewedFields(h: View, k: nat, base: nat, size: nat)
    requires k < |h.segs| == |h.limits| && h.topsize >= 16 && size >= TOP_FOOT
    ensures var n := Renewed(h, k, base, size);
            && n.dv == h.dv && n.dvsize == h.dvsize && n.top == base && n.topsize == size - TOP_FOOT
            && n.segs == [Segment(base, size)] + h.segs && n.pinned == h.pinned + {RecordAt(h)}
            && n.feet == if RecordAt(h) == h.top then h.feet else h.feet[RecordAt(h) := h.topsize]
  {
    assert Closed(h, k).segs == h.segs;
  }

  lemma RenewedOldTop(h: View, items: Items, state: nat, k: nat, base: nat, size: nat)
    requires HeapOk(h, items, {}, state) && k < |h.segs| == |h.limits| && h.limits[k] == h.top + h.topsize
    requires h.segs[k].base + h.segs[k].size == h.limits[k] + TOP_FOOT
    requires FreshRegion(h.segs, base, size) && size >= TOP_FOOT + 32 && h.topsize >= 16
    ensures RecordAt(h) != h.top ==> var n := Renewed(h, k, base, size); h.top in n.live && n.live[h.top].size == h.topsize
  {
    hide Core, OwnedBut, EndsOk, TopSegment, FreshRegion, Closed;
    TopNeighbours(h, items, state, k);
    ClosedKeys(h, k);
    RegionBounds(h.segs, base, size);
    RegionEmpty(h, state, base, size);
  }

  /** A record chunk is in use, but not a caller's. */
  lemma PinnedRecord(held: map<nat, nat>, pinned: set<nat>, sp: nat)
    requires sp !in held
    ensures held[sp := RECORD] - (pinned + {sp}) == held - pinned
  {
  }

  lemma PinnedHeld(h: View, items: Items, state: nat)
    requires HeapOk(h, items, {}, state)
    ensures forall x :: x in h.pinned ==> x in InUse(h.live)
  {
    PinnedUsed(h, items, {}, state);
  }

  lemma WithoutOne(held: map<nat, nat>, pinned: set<nat>, p: nat)
    ensures held - {p} - pinned == held - pinned - {p}
  {
  }

  /** A region that the system gave extends the segment of top. */
  ghost predicate ExtendsTop(segs: seq<Segment>, top: nat, tbase: nat) {
    exists i: nat :: i < |segs| && EndsAt(segs[i], tbase) && segs[i].base <= top < tbase
  }

  predicate EndsAt(g: Segment, a: nat) {
    g.base + g.size == a
  }

  /** The segments with the region: top's segment is longer, or the one after the region starts with it, or it is one of its own. */
  ghost predicate Joined(before: seq<Segment>, after: seq<Segment>, top: nat, tbase: nat, tsize: nat) {
    if ExtendsTop(before, top, tbase) then
      exists i: nat :: i < |before| && EndsAt(before[i], tbase) && after == before[i := Segment(before[i].base, before[i].size + tsize)]
    else if exists i: nat :: i < |before| && before[i].base == tbase + tsize then
      exists i: nat :: i < |before| && before[i].base == tbase + tsize && after == before[i := Segment(tbase, before[i].size + tsize)]
    else after == [Segment(tbase, tsize)] + before
  }

  /** The request was served from a region of the system: from the longer top, else from the start of the region. */
  ghost predicate FromSystem(h: View, after: View, p: nat, nb: nat, tbase: nat, tsize: nat) {
    && Joined(h.segs, after.segs, h.top, tbase, tsize)
    && p == (if ExtendsTop(h.segs, h.top, tbase) then h.top else tbase)
    && after.dv == (if h.dv == tbase + tsize && !ExtendsTop(h.segs, h.top, tbase) then p + nb else h.dv)
  }

  lemma LongerSegment(h: View, after: View, i: nat, p: nat, nb: nat, tbase: nat, tsize: nat)
    requires i < |h.segs| && EndsAt(h.segs[i], tbase) && h.segs[i].base <= h.top < tbase
    requires after.segs == h.segs[i := Segment(h.segs[i].base, h.segs[i].size + tsize)] && p == h.top && after.dv == h.dv
    ensures FromSystem(h, after, p, nb, tbase, tsize)
  {
  }

  lemma SegmentBefore(h: View, after: View, i: nat, p: nat, nb: nat, tbase: nat, tsize: nat)
    requires !ExtendsTop(h.segs, h.top, tbase) && i < |h.segs| && h.segs[i].base == tbase + tsize
    requires after.segs == h.segs[i := Segment(tbase, h.segs[i].size + tsize)] && p == tbase
    requires after.dv == if h.dv == tbase + tsize then p + nb else h.dv
    ensures FromSystem(h, after, p, nb, tbase, tsize)
  {
    hide ExtendsTop;
  }

  lemma OwnSegmentOf(h: View, after: View, p: nat, nb: nat, tbase: nat, tsize: nat)
    requires !ExtendsTop(h.segs, h.top, tbase) && forall k :: 0 <= k < |h.segs| ==> h.segs[k].base != tbase + tsize
    requires after.segs == [Segment(tbase, tsize)] + h.segs && p == tbase && after.dv == h.dv != tbase + tsize
    ensures FromSystem(h, after, p, nb, tbase, tsize)
  {
    hide ExtendsTop;
  }

  lemma ServedBy(before: map<nat, nat>, after: map<nat, nat>, p: nat, nb: nat)
    requires p !in before && p in after && after == before[p := after[p]] && after[p] == nb && p % 16 == 0 && p > 0
    ensures Served(before, after, p, nb)
  {
  }

  /** The segment found at the end of another region decides whether the region extends top's. */
  lemma Extending(h: View, items: Items, state: nat, i: nat, tbase: nat)
    requires HeapOk(h, items, {}, state) && i <= |h.segs| && (i < |h.segs| ==> EndsAt(h.segs[i], tbase))
    requires i == |h.segs| ==> forall k :: 0 <= k < |h.segs| ==> !EndsAt(h.segs[k], tbase)
    ensures ExtendsTop(h.segs, h.top, tbase) <==> i < |h.segs| && h.segs[i].base <= h.top < h.segs[i].base + h.segs[i].size
  {
    hide HeapOk;
    if k: nat :| k < |h.segs| && EndsAt(h.segs[k], tbase) && h.segs[k].base <= h.top < tbase {
      OneEnd(h, items, state, i, k);
    }
  }

  lemma OneEnd(h: View, items: Items, state: nat, i: nat, k: nat)
    requires HeapOk(h, items, {}, state) && i < |h.segs| && k < |h.segs| && h.segs[i].base + h.segs[i].size == h.segs[k].base + h.segs[k].size
    ensures i == k
  {
    hide OwnedBut, EndsOk, TopSegment, Core;
    SegmentBounds(h, state, i);
    SegmentBounds(h, state, k);
    OneSegment(h, state, i, k, h.segs[i].base + h.segs[i].size - 1);
  }

  /** A victim right after a fresh region is the first chunk of its segment. */
  lemma VictimPlace(h: View, items: Items, state: nat, tbase: nat, tsize: nat)
    requires HeapOk(h, items, {}, state) && FreshRegion(h.segs, tbase, tsize) && tsize > 0
    ensures (forall i: nat :: i < |h.segs| ==> h.segs[i].base != tbase + tsize) ==> h.dv != tbase + tsize
  {
    hide OwnedBut, EndsOk, TopSegment, Core;
    if h.dv == tbase + tsize {
      NotNullVictim(h, items, state);
      var i := Whereabouts(h, state, h.dv);
      SegmentBounds(h, state, i);
      assert ApartSegments(Segment(tbase, tsize), h.segs[i]);
    }
  }

  /** Where the free memory begins that a chunk at p joins when it is freed. */
  ghost function FreeStart(h: View, p: nat): int {
    if p in h.heads && !h.heads[p].pinuse then p - At(h.feet, p) else p
  }

  /** The designated victim after a chunk is freed: it grows over a neighbour, and joins top. */
  ghost function VictimWithout(h: View, p: nat, size: nat): int {
    var a := FreeStart(h, p);
    if p + size == h.top then (if a == h.dv then 0 else h.dv) else if p + size == h.dv then a else h.dv
  }

  lemma HeldNotVictim(h: View, items: Items, state: nat, p: nat)
    requires HeapOk(h, items, {}, state) && p in InUse(h.live)
    ensures p != h.dv
  {
    hide HeapOk;
    NotVictim(h, items, state, p);
  }

  lemma SplitPinuse(heads: Heads, p: nat, nb: nat, rsize: nat)
    requires nb > 0 && rsize > 0
    ensures var h := SetInuse(SetInuse(heads, p, nb), p + nb, rsize); p + nb in h && h[p + nb].pinuse
  {
  }

  /** The designated victim after p is resized in place: it lends or takes what is before it. */
  ghost function VictimResized(h: View, p: nat, nb: nat): nat {
    var s := if p in h.live then h.live[p].size else 0;
    if p + s != h.dv || h.dvsize == 0 then h.dv
    else if s < nb then (if s + h.dvsize >= nb + MIN_CHUNK_SIZE then p + nb else 0)
    else if s >= nb + MIN_CHUNK_SIZE then p + nb else h.dv
  }

  /** A chunk in use after a run is neither top nor the designated victim. */
  lemma EndUsed(h: View, items: Items, loose: set<nat>, state: nat, p: nat, next: nat, used: nat)
    requires Run(h, items, loose, state, p, next, used) && EndOfRun(h, items, next)
    ensures h.heads[next].cinuse ==> next != h.top && next != h.dv
    ensures p != h.top && h.dv != h.top
  {
    hide SegsOk, PinnedOk, TagsOk, BackOk, Apart, EndsOk, TopSegment;
    NoNull(h.live, h.ends);
  }

  /** The size the allocator looks for: beyond the largest request, one that nothing satisfies. */
  function ChunkRequest(bytes: nat): nat {
    if bytes >= MAX_REQUEST then WORD_LIMIT - 1 else RequestSize(bytes)
  }

  lemma SmallMapOk(b: Bins)
    requires b.Valid()
    ensures b.smallmap < WORD
  {
  }

  lemma LowBitIsParity(y: nat)
    ensures BitAt(y, 0) <==> y % 2 == 1
  {
  }

  lemma TopInRange(h: View, items: Items, state: nat)
    requires HeapOk(h, items, {}, state)
    ensures h.topsize < WORD_LIMIT - 1
  {
    assert ShapeAt(h.live, h.ends, h.top);
  }

  /** Serving a request adds one chunk to those callers hold. */
  lemma ServedNew(held: map<nat, nat>, after: map<nat, nat>, pinned: set<nat>, p: nat)
    requires p !in held && p in after && after == held[p := after[p]] && forall x :: x in pinned ==> x in held
    ensures after - pinned == (held - pinned)[p := after[p]] && p !in held - pinned && p !in pinned
  {
  }

  lemma ServedFacts(before: map<nat, nat>, after: map<nat, nat>, p: nat, nb: nat)
    requires Served(before, after, p, nb)
    ensures p > 0 && p % 16 == 0 && p in after && nb <= after[p]
  {
  }

  lemma ServedToo(held: map<nat, nat>, after: map<nat, nat>, pinned: set<nat>, p: nat, nb: nat)
    requires Served(held, after, p, nb) && forall x :: x in pinned ==> x in held
    ensures Served(held - pinned, after - pinned, p, nb)
  {
    ServedNew(held, after, pinned, p);
  }

  /** Neither the designated victim nor top is in a bin. */
  lemma NotBinned(h: View, items: Items, state: nat)
    requires HeapOk(h, items, {}, state)
    ensures h.dv !in items && h.top !in items && h.dv != h.top && h.top > 0 && (h.dv == 0 <==> h.dvsize == 0)
  {
    hide SegsOk, PinnedOk, TagsOk, BackOk, Apart, EndsOk, TopSegment;
    NoNull(h.live, h.ends);
  }

  lemma OneSegmentOf(h: View, items: Items, state: nat, i: nat, k: nat)
    requires HeapOk(h, items, {}, state) && i < |h.segs| && k < |h.segs|
    requires h.segs[i].base <= h.top < h.segs[i].base + h.segs[i].size && h.segs[k].base <= h.top < h.segs[k].base + h.segs[k].size
    ensures i == k
  {
    hide Core, OwnedBut, EndsOk, TopSegment;
    OneSegment(h, state, i, k, h.top);
  }

  /** The record's address as computed from the end of the segment is the end of top. */
  lemma RecordAligned(oldEnd: nat, topEnd: nat)
    requires oldEnd == topEnd + TOP_FOOT && topEnd % 16 == 0 && topEnd >= 16
    ensures var rawsp := oldEnd - (RECORD + 32 + 15); rawsp >= 0 && rawsp + (16 - (rawsp + 16) % 16) % 16 == topEnd
  {
  }

  /** The headers before the fenceposts. */
  ghost predicate Started(h: View, base: nat, size: nat, heads': Heads)
    requires size >= TOP_FOOT
  {
    && (forall x :: x in h.heads && Elsewhere(h, base, size, x) ==> x in heads' && heads'[x] == h.heads[x])
    && base in heads' && heads'[base] == Head(size - TOP_FOOT, true, false)
    && base + size - TOP_FOOT in heads' && heads'[base + size - TOP_FOOT] == Head(TOP_FOOT, false, false)
    && RecordAt(h) in heads' && heads'[RecordAt(h)] == Head(RECORD, true, true)
    && (base + size <= h.top || h.top + h.topsize + TOP_FOOT <= base) && size > TOP_FOOT && h.topsize > 0
  }

  lemma StartedHeads(h: View, items: Items, state: nat, k: nat, base: nat, size: nat, heads': Heads)
    requires HeapOk(h, items, {}, state) && k < |h.segs| == |h.limits| && h.limits[k] == h.top + h.topsize && h.segs[k].base <= h.top
    requires h.segs[k].base + h.segs[k].size == h.limits[k] + TOP_FOOT
    requires FreshRegion(h.segs, base, size) && size >= TOP_FOOT + 32 && h.topsize >= 16
    requires heads' == h.heads[base := Head(size - TOP_FOOT, true, false)][base + size - TOP_FOOT := Head(TOP_FOOT, false, false)][RecordAt(h) := Head(RECORD, true, true)]
    ensures Started(h, base, size, heads')
  {
    hide Core, OwnedBut, EndsOk, TopSegment, FreshRegion;
    RegionAfterTop(h, state, k, base, size);
  }

  /** The k-th fencepost of a row. */
  function Fence(first: nat, k: nat): nat {
    first + 8 * k
  }

  lemma FencesDone(h: View, base: nat, size: nat, started: Heads, fenced: Heads, heads': Heads)
    requires size >= TOP_FOOT && Started(h, base, size, started)
    requires var limit := RecordAt(h) + RECORD;
             && limit in fenced && fenced[limit] == Head(8, true, true)
             && forall x :: x in started && !(limit <= x < h.top + h.topsize + TOP_FOOT) ==> x in fenced && fenced[x] == started[x]
    requires var sp := RecordAt(h); heads' == if sp == h.top then fenced else ClearPinuse(fenced, sp)[h.top := Head(h.topsize, true, false)]
    ensures FencedOff(h, base, size, heads')
  {
  }

  /** Whether a chunk can be made nb bytes long where it is. */
  ghost predicate HasRoom(h: View, p: nat, nb: nat) {
    p in h.live &&
    var s := h.live[p].size;
    var next := p + s;
    (s >= nb || (next == h.top && s + h.topsize > nb) || (next in h.live && h.live[next].kind.Free? && s + h.live[next].size >= nb))
  }

  lemma GrownBounds(h: View, items: Items, loose: set<nat>, state: nat, b: nat, p: nat, m: nat)
    requires Grown(h, items, loose, state, b, p, m)
    ensures Run(h, items, loose, state, p, b, p) && p < m <= b && 0 < p && p % 16 == 0 && p in h.heads && b in h.heads
  {
    hide SegsOk, EndsOk, OwnedBut, TagsOk, BackOk, Apart;
    assert ShapeAt(h.live, h.ends, p);
  }

  lemma NotNullVictim(h: View, items: Items, state: nat)
    requires HeapOk(h, items, {}, state) && h.dv != 0
    ensures h.dvsize != 0 && h.dv in h.live && h.live[h.dv] == Chunk(h.dvsize, Free)
  {
  }

  lemma GrownAligned(h: View, items: Items, loose: set<nat>, state: nat, b: nat, p: nat, m: nat)
    requires Grown(h, items, loose, state, b, p, m)
    ensures m % 16 == 0 && p + 32 <= m && (m - p) % 16 == 0
  {
    hide Run;
    GrownBounds(h, items, loose, state, b, p, m);
    AlignedDifference(p, m);
  }

  lemma StartGrown(h: View, items: Items, state: nat, p: nat)
    requires HeapOk(h, items, {}, state) && p in h.live && h.live[p].kind.Used? && p !in h.pinned
    ensures Grown(h, items, {}, state, p + h.live[p].size, p, p + h.live[p].size)
  {
    hide HeapOk, Run;
    StartRun(h, items, state, p);
    RunBounds(h, items, {}, state, p, p + h.live[p].size, p);
    OneChunk(h, items, {}, state, p);
    UsedSize(h, items, {}, state, p);
  }

  lemma GrownTo(h: View, items: Items, loose: set<nat>, state: nat, b: nat, p: nat, m: nat, m': nat)
    requires Grown(h, items, loose, state, b, p, m) && m' <= b && m' >= p + 32 && (m' - p) % 16 == 0
    ensures Grown(h, items, loose, state, b, p, m')
  {
    hide Run;
    GrownBounds(h, items, loose, state, b, p, m);
    AlignedSum(p, m' - p);
  }

  lemma GrownOn(h: View, items: Items, loose: set<nat>, state: nat, b: nat, p: nat, m: nat)
    requires Run(h, items, loose, state, p, b, p) && m <= b && m >= p + 32 && (m - p) % 16 == 0
    ensures Grown(h, items, loose, state, b, p, m) && Grown(h, items, loose, state, b, p, b)
  {
    hide SegsOk, EndsOk, OwnedBut, BackOk, Apart, PinnedOk;
    assert ShapeAt(h.live, h.ends, p) && TagsAt(h.live, h.heads, h.feet, p);
    AlignedSum(p, m - p);
  }

  lemma HeldSize(h: View, items: Items, state: nat, p: nat)
    requires HeapOk(h, items, {}, state) && p in InUse(h.live)
    ensures p in h.heads && ChunkSize(h.heads, p) == InUse(h.live)[p]
  {
    hide SegsOk, EndsOk, OwnedBut, Apart, ShapeOk, BackOk;
    assert TagsAt(h.live, h.heads, h.feet, p);
  }

  lemma CutHeads(heads: Heads, p: nat, nb: nat, rest: nat)
    requires p in heads && nb > 0
    ensures SetInuse(heads, p, nb)[p + nb := Head(rest, true, false)]
         == heads[p := Head(nb, heads[p].pinuse, true)][p + nb := Head(rest, true, false)]
  {
  }

  lemma SplitHeads(heads: Heads, p: nat, nb: nat, rest: nat, n: nat)
    requires p in heads && n in heads && p + nb < n && nb > 0
    ensures ClearPinuse(SetInuse(heads, p, nb)[p + nb := Head(rest, true, false)], n)
         == heads[p := Head(nb, heads[p].pinuse, true)][p + nb := Head(rest, true, false)][n := heads[n].(pinuse := false)]
  {
  }

  lemma NoVictim(h: View, items: Items, state: nat)
    requires HeapOk(h, items, {}, state) && h.dvsize == 0
    ensures h.dv == 0
  {
  }

  lemma NotVictim(h: View, items: Items, state: nat, p: nat)
    requires HeapOk(h, items, {}, state) && p in h.live && h.live[p].kind.Used?
    ensures p != h.dv
  {
    hide SegsOk, EndsOk;
    CoreParts(h, state);
    TaggedParts(h.live, h.ends, h.heads, h.feet);
  }

  lemma RunBounds(h: View, items: Items, loose: set<nat>, state: nat, a: nat, b: nat, p: nat)
    requires Run(h, items, loose, state, a, b, p)
    ensures 0 < a <= p < b < WORD_LIMIT && HeapOk(h, items, loose, state) && b in h.heads && p in h.live && h.live[p].kind.Used?
    ensures a in h.live && !(a <= h.top < b)
  {
    hide SegsOk, EndsOk, OwnedBut, TagsOk, BackOk, Apart;
    assert ShapeAt(h.live, h.ends, a);
  }

  lemma VictimFacts(h: View, items: Items, state: nat)
    requires HeapOk(h, items, {}, state) && h.dvsize != 0
    ensures h.dv in h.live && h.live[h.dv] == Chunk(h.dvsize, Free)
  {
  }

  lemma TopFacts(h: View, items: Items, loose: set<nat>, state: nat)
    requires HeapOk(h, items, loose, state)
    ensures h.top in h.live && h.live[h.top] == Chunk(h.topsize, Top) && h.topsize >= 16 && h.topsize % 16 == 0
    ensures h.top + h.topsize in h.ends
  {
    assert ShapeAt(h.live, h.ends, h.top);
  }

  lemma NotHeld(h: View, p: nat)
    requires p in h.live && !h.live[p].kind.Used?
    ensures p !in InUse(h.live)
  {
  }

  lemma ItemSizes(b: Bins, p: nat)
    requires b.Valid() && p in b.items
    ensures IsItem(b.state, p, b.items[p])
  {
  }

  lemma VictimInRange(h: View, items: Items, state: nat)
    requires HeapOk(h, items, {}, state)
    ensures h.dvsize < WORD_LIMIT - 1
  {
    if h.dvsize != 0 {
      assert ShapeAt(h.live, h.ends, h.dv);
    }
  }

  /** The wrapped comparison with the designated victim: a chunk wins when the victim is too small, or larger than it. */
  lemma VictimFits(dvsize: nat, nb: nat, rsize: nat)
    requires dvsize < WORD_LIMIT && nb < WORD_LIMIT
    ensures dvsize >= nb ==> (rsize < Minus(dvsize, nb) <==> nb + rsize < dvsize)
    ensures dvsize < nb && nb + rsize < WORD_LIMIT ==> rsize < Minus(dvsize, nb)
  {
    MinusCases(dvsize, nb);
  }

  lemma LooseNotUsed(h: View, items: Items, state: nat, p: nat)
    requires HeapOk(h, items, {p}, state)
    ensures p in h.live && h.live[p].kind.Free? && p !in InUse(h.live)
  {
    hide Core;
    assert p in {p};
  }
}
