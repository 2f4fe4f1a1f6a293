/** What the bins of an allocator state hold: each free chunk in the one small list or tree its size selects. */
module BinSpec {
  import opened Bits
  import opened BinMaps
  import opened PopCounts
  import opened TreeIndexes
  import opened Tries
  import opened ChunkLinks
  import opened TreeLinks

  const BINS: nat := 32
  const MIN_CHUNK_SIZE: nat := 32
  const BINS_END: nat := 856

  /** The free chunks in bins, by address, with their sizes. */
  type Items = map<nat, nat>

  predicate IsSmall(s: nat) {
    s / 8 < BINS
  }

  predicate InSmall(s: nat, i: nat) {
    s / 8 == i
  }

  predicate InTree(s: nat, i: nat) {
    !IsSmall(s) && TreeIndex(s) == i
  }

  /** `smallbin_at`: where the list header of bin i pretends to be a chunk. */
  function SmallBin(state: nat, i: nat): nat {
    state + 72 + 16 * i
  }

  /** `treebin_at`: the address of the root pointer of bin i. */
  function TreeBin(state: nat, i: nat): nat {
    state + 600 + 8 * i
  }

  predicate IsItem(state: nat, c: nat, s: nat) {
    c != 0 && !(state <= c < state + BINS_END) && MIN_CHUNK_SIZE <= s < WORD_LIMIT && s % 16 == 0
  }

  ghost predicate ItemsOk(state: nat, items: Items) {
    forall c :: c in items ==> IsItem(state, c, items[c])
  }

  /** A small bin: a ring through the header, first chunk first; unmarked bins have no chunks and stale links. */
  ghost predicate SmallOk(m: Links, marked: bool, b: nat, i: nat, cs: seq<nat>, items: Items) {
    && NoDup(cs) && b !in items && (marked <==> cs != [])
    && (marked ==> Ring(m.fd, m.bk, [b] + cs))
    && forall c :: c in cs <==> c in items && InSmall(items[c], i)
  }

  ghost predicate TreeBinOk(m: Links, marked: bool, root: nat, par: nat, i: nat, t: Tree, items: Items) {
    && (marked <==> t.Node?) && par !in items && par != 0
    && TrieOk(t, BinBase(i), BinWidth(i)) && Rep(m, root, par, i, t)
    && forall c, s :: Has(t, c, s) <==> c in items && items[c] == s && InTree(s, i)
  }

  ghost predicate SmallsOk(m: Links, smallmap: nat, state: nat, small: seq<seq<nat>>, items: Items) {
    && |small| == BINS && smallmap < WORD
    && forall i: nat :: i < BINS ==> SmallOk(m, BitAt(smallmap, i), SmallBin(state, i), i, small[i], items)
  }

  ghost predicate TreesOk(m: Links, treemap: nat, roots: seq<nat>, state: nat, trees: seq<Tree>, items: Items) {
    && |trees| == |roots| == BINS && treemap < WORD
    && forall i: nat :: i < BINS ==> TreeBinOk(m, BitAt(treemap, i), roots[i], TreeBin(state, i), i, trees[i], items)
  }

  // ----- a change to one bin leaves the others as they were

  datatype Bin = SmallList(i: nat) | TreeRoot(i: nat)

  function BinOf(s: nat): Bin {
    if IsSmall(s) then SmallList(s / 8) else TreeRoot(TreeIndex(s))
  }

  predicate MayTouch(items: Items, x: nat, own: Bin, state: nat, c: nat) {
    c == x || (c in items && BinOf(items[c]) == own) || (own.SmallList? && c == SmallBin(state, own.i))
  }

  /** The chunk x enters or leaves its own bin, and only links there are written. */
  ghost predicate LocalChange(m: Links, m': Links, items: Items, items': Items, x: nat, own: Bin, state: nat) {
    && x != 0 && !(state <= x < state + BINS_END) && ItemsOk(state, items) && ItemsOk(state, items')
    && (own.SmallList? ==> own.i < BINS)
    && (forall c :: c != x ==> (c in items <==> c in items') && (c in items ==> items'[c] == items[c]))
    && (x in items ==> BinOf(items[x]) == own) && (x in items' ==> BinOf(items'[x]) == own)
    && forall c :: c != 0 && !MayTouch(items, x, own, state, c) ==> AgreeAt(m, m', c)
  }

  lemma SmallKept(m: Links, m': Links, items: Items, items': Items, x: nat, own: Bin, state: nat, marked: bool, i: nat, cs: seq<nat>)
    requires LocalChange(m, m', items, items', x, own, state) && own != SmallList(i) && i < BINS
    requires SmallOk(m, marked, SmallBin(state, i), i, cs, items)
    ensures SmallOk(m', marked, SmallBin(state, i), i, cs, items')
  {
    hide Ring, TreeIndex, AgreeAt;
    var ring := [SmallBin(state, i)] + cs;
    forall c | c in ring
      ensures AgreeAt(m, m', c)
    {
      assert c in cs ==> c in items && BinOf(items[c]) == SmallList(i);
      assert !MayTouch(items, x, own, state, c);
    }
    if marked {
      SameRing(m, m', ring);
    }
  }

  lemma SameRing(m: Links, m': Links, ring: seq<nat>)
    requires Ring(m.fd, m.bk, ring) && forall c :: c in ring ==> AgreeAt(m, m', c)
    ensures Ring(m'.fd, m'.bk, ring)
  {
    hide Ring;
    RingFrame(m.fd, m.bk, m'.fd, m'.bk, ring);
  }

  lemma TreeKept(m: Links, m': Links, items: Items, items': Items, x: nat, own: Bin, state: nat, marked: bool, root: nat, i: nat, t: Tree)
    requires LocalChange(m, m', items, items', x, own, state) && own != TreeRoot(i) && i < BINS
    requires TreeBinOk(m, marked, root, TreeBin(state, i), i, t, items)
    ensures TreeBinOk(m', marked, root, TreeBin(state, i), i, t, items')
  {
    hide TrieOk, Rep, TreeIndex, AgreeAt;
    forall c, s | Has(t, c, s)
      ensures AgreeAt(m, m', c)
    {
      assert c in items && items[c] == s && BinOf(s) == TreeRoot(i);
      assert !(own.SmallList? && c == SmallBin(state, own.i));
      assert !MayTouch(items, x, own, state, c);
    }
    RepFrame(m, m', root, TreeBin(state, i), i, t);
  }

  lemma OtherSmalls(m: Links, m': Links, items: Items, items': Items, x: nat, own: Bin, state: nat,
                    smallmap: nat, smallmap': nat, small: seq<seq<nat>>)
    requires LocalChange(m, m', items, items', x, own, state) && SmallsOk(m, smallmap, state, small, items)
    requires forall i: nat :: i < BINS && own != SmallList(i) ==> (BitAt(smallmap', i) <==> BitAt(smallmap, i))
    ensures forall i: nat :: i < BINS && own != SmallList(i) ==>
              SmallOk(m', BitAt(smallmap', i), SmallBin(state, i), i, small[i], items')
  {
    hide SmallOk, LocalChange, BitAt;
    forall i: nat | i < BINS && own != SmallList(i)
      ensures SmallOk(m', BitAt(smallmap', i), SmallBin(state, i), i, small[i], items')
    {
      SmallKept(m, m', items, items', x, own, state, BitAt(smallmap, i), i, small[i]);
    }
  }

  lemma OtherTrees(m: Links, m': Links, items: Items, items': Items, x: nat, own: Bin, state: nat,
                   treemap: nat, treemap': nat, roots: seq<nat>, trees: seq<Tree>)
    requires LocalChange(m, m', items, items', x, own, state) && TreesOk(m, treemap, roots, state, trees, items)
    requires forall i: nat :: i < BINS && own != TreeRoot(i) ==> (BitAt(treemap', i) <==> BitAt(treemap, i))
    ensures forall i: nat :: i < BINS && own != TreeRoot(i) ==>
              TreeBinOk(m', BitAt(treemap', i), roots[i], TreeBin(state, i), i, trees[i], items')
  {
    hide TreeBinOk, LocalChange, BitAt;
    forall i: nat | i < BINS && own != TreeRoot(i)
      ensures TreeBinOk(m', BitAt(treemap', i), roots[i], TreeBin(state, i), i, trees[i], items')
    {
      TreeKept(m, m', items, items', x, own, state, BitAt(treemap, i), roots[i], i, trees[i]);
    }
  }

  /** All small bins after a change to list i. */
  lemma SmallsAfter(m: Links, m': Links, items: Items, items': Items, x: nat, i: nat, state: nat,
                    smallmap: nat, smallmap': nat, small: seq<seq<nat>>, cs': seq<nat>)
    requires LocalChange(m, m', items, items', x, SmallList(i), state) && SmallsOk(m, smallmap, state, small, items)
    requires i < BINS && smallmap' < WORD && SmallOk(m', BitAt(smallmap', i), SmallBin(state, i), i, cs', items')
    requires forall j: nat :: j != i ==> (BitAt(smallmap', j) <==> BitAt(smallmap, j))
    ensures SmallsOk(m', smallmap', state, small[i := cs'], items')
  {
    hide SmallOk, LocalChange, BitAt;
    OtherSmalls(m, m', items, items', x, SmallList(i), state, smallmap, smallmap', small);
  }

  /** All tree bins after a change to tree i. */
  lemma TreesAfter(m: Links, m': Links, items: Items, items': Items, x: nat, i: nat, state: nat,
                   treemap: nat, treemap': nat, roots: seq<nat>, root': nat, trees: seq<Tree>, t': Tree)
    requires LocalChange(m, m', items, items', x, TreeRoot(i), state) && TreesOk(m, treemap, roots, state, trees, items)
    requires i < BINS && treemap' < WORD && TreeBinOk(m', BitAt(treemap', i), root', TreeBin(state, i), i, t', items')
    requires forall j: nat :: j != i ==> (BitAt(treemap', j) <==> BitAt(treemap, j))
    ensures TreesOk(m', treemap', roots[i := root'], state, trees[i := t'], items')
  {
    hide TreeBinOk, LocalChange, BitAt;
    OtherTrees(m, m', items, items', x, TreeRoot(i), state, treemap, treemap', roots, trees);
  }

  lemma SmallsUntouched(m: Links, m': Links, items: Items, items': Items, x: nat, i: nat, state: nat,
                        smallmap: nat, small: seq<seq<nat>>)
    requires LocalChange(m, m', items, items', x, TreeRoot(i), state) && SmallsOk(m, smallmap, state, small, items)
    ensures SmallsOk(m', smallmap, state, small, items')
  {
    hide SmallOk, LocalChange, BitAt;
    OtherSmalls(m, m', items, items', x, TreeRoot(i), state, smallmap, smallmap, small);
  }

  lemma TreesUntouched(m: Links, m': Links, items: Items, items': Items, x: nat, i: nat, state: nat,
                       treemap: nat, roots: seq<nat>, trees: seq<Tree>)
    requires LocalChange(m, m', items, items', x, SmallList(i), state) && TreesOk(m, treemap, roots, state, trees, items)
    ensures TreesOk(m', treemap, roots, state, trees, items')
  {
    hide TreeBinOk, LocalChange, BitAt;
    OtherTrees(m, m', items, items', x, SmallList(i), state, treemap, treemap, roots, trees);
  }
}
