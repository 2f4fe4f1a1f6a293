/** Chunk headers: the size word with its two in-use bits. */
module ChunkHeads {
  datatype Head = Head(size: nat, pinuse: bool, cinuse: bool)

  type Heads = map<nat, Head>

  function ChunkSize(heads: Heads, a: nat): nat {
    if a in heads then heads[a].size else 0
  }
}

/** The small lists and the large trees of free chunks, updated in place through their link words. */
module ChunkBins {
  import opened Bits
  import opened BinMaps
  import opened PopCounts
  import opened TreeIndexes
  import opened Tries
  import opened ChunkLinks
  import opened TreeLinks
  import opened TreeUnlink
  import opened BinSpec
  import opened ChunkHeads

  // ----- small lists, on values

  /** `B->_fd = p; F->_bk = p; p->_fd = F; p->_bk = B`. */
  function LinkBetween(m: Links, b: nat, f: nat, p: nat): Links {
    m.(fd := m.fd[b := p][p := f], bk := m.bk[f := p][p := b])
  }

  /** `F->_bk = B; B->_fd = F`. */
  function LinkPast(m: Links, f: nat, b: nat): Links {
    m.(bk := m.bk[f := b], fd := m.fd[b := f])
  }

  function WithoutAt(cs: seq<nat>, k: nat): seq<nat>
    requires k < |cs|
  {
    cs[..k] + cs[k + 1..]
  }

  lemma PushSmall(m: Links, marked: bool, state: nat, i: nat, cs: seq<nat>, items: Items, p: nat, s: nat)
    requires SmallOk(m, marked, SmallBin(state, i), i, cs, items) && ItemsOk(state, items) && i < BINS
    requires p !in items && IsItem(state, p, s) && InSmall(s, i)
    ensures var b := SmallBin(state, i);
            var m' := LinkBetween(m, b, if marked then At(m.fd, b) else b, p);
            && SmallOk(m', true, b, i, [p] + cs, items[p := s])
            && LocalChange(m, m', items, items[p := s], p, SmallList(i), state)
  {
    hide Ring, BinOf, LocalChange;
    PushRing(m, marked, state, i, cs, items, p, s);
    var b := SmallBin(state, i);
    var f := if marked then At(m.fd, b) else b;
    assert f == b || f in cs by {
      if marked {
        RingPut(m.fd, m.bk, [b] + cs, p);
      }
    }
    PushLocal(m, state, i, items, f, p, s);
  }

  lemma PushRing(m: Links, marked: bool, state: nat, i: nat, cs: seq<nat>, items: Items, p: nat, s: nat)
    requires SmallOk(m, marked, SmallBin(state, i), i, cs, items) && ItemsOk(state, items) && i < BINS
    requires p !in items && IsItem(state, p, s) && InSmall(s, i)
    ensures var b := SmallBin(state, i);
            SmallOk(LinkBetween(m, b, if marked then At(m.fd, b) else b, p), true, b, i, [p] + cs, items[p := s])
  {
    hide Ring, ItemsOk;
    var b := SmallBin(state, i);
    if marked {
      var ring := [b] + cs;
      RingPut(m.fd, m.bk, ring, p);
      assert PutAfterFirst(ring, p) == [b] + ([p] + cs);
    } else {
      TwoRing(m, b, p);
      assert [b] + ([p] + cs) == [b, p];
    }
  }

  lemma PushLocal(m: Links, state: nat, i: nat, items: Items, f: nat, p: nat, s: nat)
    requires ItemsOk(state, items) && p !in items && IsItem(state, p, s) && InSmall(s, i) && i < BINS
    requires f == SmallBin(state, i) || (f in items && InSmall(items[f], i))
    ensures LocalChange(m, LinkBetween(m, SmallBin(state, i), f, p), items, items[p := s], p, SmallList(i), state)
  {
    hide BinOf;
    SmallKeys(items, i, [], s);
  }

  lemma TwoRing(m: Links, b: nat, p: nat)
    requires b != p
    ensures var m' := LinkBetween(m, b, b, p); Ring(m'.fd, m'.bk, [b, p])
  {
    var m' := LinkBetween(m, b, b, p);
    assert RingStep(m'.fd, m'.bk, [b, p], 0) && RingStep(m'.fd, m'.bk, [b, p], 1);
  }

  lemma SmallKeys(items: Items, i: nat, cs: seq<nat>, s: nat)
    requires i < BINS && InSmall(s, i)
    ensures BinOf(s) == SmallList(i)
    ensures forall c :: c in items && InSmall(items[c], i) ==> BinOf(items[c]) == SmallList(i)
  {
  }

  /** Taking the k-th chunk out of a small list; the bin is empty exactly when both neighbours are the same. */
  lemma TakeSmall(m: Links, state: nat, i: nat, cs: seq<nat>, k: nat, items: Items)
    requires SmallOk(m, true, SmallBin(state, i), i, cs, items) && ItemsOk(state, items) && i < BINS && k < |cs|
    ensures var b := SmallBin(state, i);
            var p := cs[k];
            var f, bk := At(m.fd, p), At(m.bk, p);
            var m' := if bk == f then m else LinkPast(m, f, bk);
            && SmallOk(m', bk != f, b, i, WithoutAt(cs, k), items - {p})
            && LocalChange(m, m', items, items - {p}, p, SmallList(i), state)
            && (k == 0 ==> bk == b && At(m.fd, b) == p) && p in items && InSmall(items[p], i)
  {
    hide Ring, BinOf, LocalChange, WithoutAt;
    var b := SmallBin(state, i);
    var p := cs[k];
    var ring := [b] + cs;
    assert ring[k + 1] == p && p in cs;
    UnlinkLater(m.fd, m.bk, ring, k + 1);
    Neighbours(m, ring, k + 1);
    assert ring[..k + 1] + ring[k + 2..] == [b] + WithoutAt(cs, k) by {
      Spliced(b, cs, k);
    }
    RestOfList(cs, k);
    TakeLocal(m, state, i, items, p, At(m.fd, p), At(m.bk, p));
  }

  lemma Spliced(b: nat, cs: seq<nat>, k: nat)
    requires k < |cs|
    ensures var ring := [b] + cs; ring[..k + 1] + ring[k + 2..] == [b] + WithoutAt(cs, k) && |WithoutAt(cs, k)| == |cs| - 1
  {
  }

  lemma TakeLocal(m: Links, state: nat, i: nat, items: Items, p: nat, f: nat, bk: nat)
    requires ItemsOk(state, items) && p in items && InSmall(items[p], i) && i < BINS
    requires f == SmallBin(state, i) || (f in items && InSmall(items[f], i))
    requires bk == SmallBin(state, i) || (bk in items && InSmall(items[bk], i))
    ensures LocalChange(m, if bk == f then m else LinkPast(m, f, bk), items, items - {p}, p, SmallList(i), state)
  {
    hide BinOf;
    SmallKeys(items, i, [], items[p]);
  }

  lemma Neighbours(m: Links, ring: seq<nat>, k: nat)
    requires Ring(m.fd, m.bk, ring) && NoDup(ring) && 0 < k < |ring|
    ensures At(m.bk, ring[k]) == ring[k - 1] && At(m.fd, ring[k - 1]) == ring[k]
    ensures At(m.fd, ring[k]) == At(m.bk, ring[k]) <==> |ring| == 2
  {
    assert RingStep(m.fd, m.bk, ring, k - 1) && RingStep(m.fd, m.bk, ring, k);
  }

  lemma RestOfList(cs: seq<nat>, k: nat)
    requires NoDup(cs) && k < |cs|
    ensures NoDup(WithoutAt(cs, k)) && forall c :: c in WithoutAt(cs, k) <==> c in cs && c != cs[k]
  {
    var r := WithoutAt(cs, k);
    forall c | c in cs && c != cs[k]
      ensures c in r
    {
      var j :| 0 <= j < |cs| && cs[j] == c;
      assert r[if j < k then j else j - 1] == c;
    }
  }

  // ----- large trees, on values

  ghost function LargeLinks(m: Links, par: nat, i: nat, t: Tree, x: nat, s: nat): Links
    requires MIN_LARGE_SIZE <= s < WORD_LIMIT && TreeIndex(s) == i && TrieOk(t, BinBase(i), BinWidth(i))
  {
    BinRange(s);
    if t.Nil? then Hang(Blank(m, x, i), par, x) else InsertLinks(Blank(m, x, i), t, x, s, BinBase(i), BinWidth(i))
  }

  /** A large size lies in the interval its bin's trie is built over. */
  lemma BinRange(s: nat)
    requires MIN_LARGE_SIZE <= s < WORD_LIMIT
    ensures var i := TreeIndex(s);
            i < BINS && BinBase(i) * Pow2(BinWidth(i)) <= s < BinBase(i) * Pow2(BinWidth(i)) + Pow2(BinWidth(i))
  {
    hide Pow2, TreeIndex, BinLow;
    BinInterval(s);
    BinAligned(TreeIndex(s));
  }

  ghost function TreeWith(t: Tree, x: nat, s: nat): Tree
    requires MIN_LARGE_SIZE <= s < WORD_LIMIT && TrieOk(t, BinBase(TreeIndex(s)), BinWidth(TreeIndex(s)))
  {
    BinRange(s);
    Insert(t, x, s, BinBase(TreeIndex(s)), BinWidth(TreeIndex(s)))
  }

  lemma BlankRep(m: Links, x: nat, i: nat, root: nat, par: nat, t: Tree, items: Items)
    requires Rep(m, root, par, i, t) && SizedBy(t, items) && x !in items && x != 0
    ensures Rep(Blank(m, x, i), root, par, i, t) && IsBlank(Blank(m, x, i), x, i)
    ensures forall c :: c != x ==> AgreeAt(m, Blank(m, x, i), c)
  {
    hide Rep, Has;
    RepFrame(m, Blank(m, x, i), root, par, i, t);
  }

  lemma LargeChange(m: Links, m0: Links, m': Links, i: nat, t: Tree, items: Items, items': Items, x: nat, state: nat)
    requires forall c :: c != 0 && c != x && !Member(t, c, items) ==> AgreeAt(m0, m', c)
    requires forall c :: c != 0 && c != x ==> AgreeAt(m, m0, c)
    requires x != 0 && !(state <= x < state + BINS_END) && ItemsOk(state, items) && ItemsOk(state, items')
    requires forall c :: c != x ==> (c in items <==> c in items') && (c in items ==> items'[c] == items[c])
    requires (x in items ==> BinOf(items[x]) == TreeRoot(i)) && (x in items' ==> BinOf(items'[x]) == TreeRoot(i))
    requires forall c, s :: Has(t, c, s) ==> InTree(s, i)
    ensures LocalChange(m, m', items, items', x, TreeRoot(i), state)
  {
    hide AgreeAt, TreeIndex, IsItem;
    forall c | c != 0 && !MayTouch(items, x, TreeRoot(i), state, c)
      ensures AgreeAt(m, m', c)
    {
      assert !Member(t, c, items);
      assert AgreeAt(m, m0, c) && AgreeAt(m0, m', c);
      AgreeTransitive(m, m0, m', c);
    }
  }

  lemma AgreeTransitive(m: Links, m0: Links, m': Links, c: nat)
    requires AgreeAt(m, m0, c) && AgreeAt(m0, m', c)
    ensures AgreeAt(m, m', c)
  {
  }

  lemma AgreeSelf(m: Links, c: nat)
    ensures AgreeAt(m, m, c)
  {
  }

  /** Insertion into a tree bin. */
  lemma GrowTree(m: Links, marked: bool, root: nat, state: nat, i: nat, t: Tree, items: Items, x: nat, s: nat)
    requires TreeBinOk(m, marked, root, TreeBin(state, i), i, t, items) && ItemsOk(state, items)
    requires x !in items && IsItem(state, x, s) && !IsSmall(s) && TreeIndex(s) == i
    ensures var m' := LargeLinks(m, TreeBin(state, i), i, t, x, s);
            && TreeBinOk(m', true, if t.Nil? then x else root, TreeBin(state, i), i, TreeWith(t, x, s), items[x := s])
            && LocalChange(m, m', items, items[x := s], x, TreeRoot(i), state)
  {
    hide TrieOk, Rep, TreeIndex, RootRep, Pow2, AgreeAt, Insert, InsertLinks, Blank, Hang, LocalChange;
    var par := TreeBin(state, i);
    var q, w := BinBase(i), BinWidth(i);
    BinRange(s);
    BlankRep(m, x, i, root, par, t, items);
    var m0 := Blank(m, x, i);
    var m' := LargeLinks(m, par, i, t, x, s);
    if t.Nil? {
      HangFirst(m0, par, x, i, s);
      assert OnlyNear(m0, m', t, x, items);
      assert TreeWith(t, x, s) == Node(s, [x], Nil, Nil) by {
        InsertNil(x, s, q, w);
      }
    } else {
      InsertRep(m0, root, par, i, t, x, s, q, w, items);
    }
    InsertCorrect(t, x, s, q, w);
    LargeChange(m, m0, m', i, t, items, items[x := s], x, state);
  }

  lemma InsertNil(x: nat, s: nat, q: nat, w: nat)
    requires q * Pow2(w) <= s < q * Pow2(w) + Pow2(w)
    ensures Insert(Nil, x, s, q, w) == Node(s, [x], Nil, Nil)
  {
  }

  lemma HangFirst(m0: Links, par: nat, x: nat, i: nat, s: nat)
    requires IsBlank(m0, x, i)
    ensures Rep(Hang(m0, par, x), x, par, i, Node(s, [x], Nil, Nil))
    ensures forall c :: c != x ==> AgreeAt(m0, Hang(m0, par, x), c)
  {
    NewLeafRep(Hang(m0, par, x), x, par, i, s);
  }

  /** Removal from a tree bin, after the first stage. */
  lemma ShrinkTree(m: Links, m1: Links, root: nat, state: nat, i: nat, t: Tree, items: Items, x: nat, r: nat)
    requires TreeBinOk(m, true, root, TreeBin(state, i), i, t, items) && ItemsOk(state, items)
    requires x in items && InTree(items[x], i)
    requires Staged(m, m1, x, r, i, NodeHolding(t, x, BinBase(i), BinWidth(i), items), items)
    ensures var m' := Finish(m1, At(m.parent, x), root, x, r);
            var t' := Remove(t, x, items[x], BinBase(i), BinWidth(i));
            && TreeBinOk(m', Swap(root, x, r) != 0, Swap(root, x, r), TreeBin(state, i), i, t', items - {x})
            && LocalChange(m, m', items, items - {x}, x, TreeRoot(i), state)
  {
    hide TrieOk, Rep, TreeIndex, RootRep, Pow2, AgreeAt, Remove, Finish, Staged, NodeHolding, LocalChange;
    var q, w := BinBase(i), BinWidth(i);
    FinishRep(m, m1, root, TreeBin(state, i), i, t, x, r, q, w, items);
    var m' := Finish(m1, At(m.parent, x), root, x, r);
    var t' := Remove(t, x, items[x], q, w);
    RemoveCorrect(t, x, items[x], q, w);
    RootIsZero(m', Swap(root, x, r), TreeBin(state, i), i, t');
    forall c
      ensures AgreeAt(m, m, c)
    {
      AgreeSelf(m, c);
    }
    LargeChange(m, m, m', i, t, items, items - {x}, x, state);
  }

  lemma RootIsZero(m: Links, p: nat, par: nat, i: nat, t: Tree)
    requires Rep(m, p, par, i, t)
    ensures p != 0 <==> t.Node?
  {
    hide RootRep;
    if t.Node? {
      FirstInRing(m, p, par, i, t.ring);
    }
  }

  ghost predicate HeadsHold(heads: Heads, t: Tree) {
    forall c, z :: Has(t, c, z) ==> ChunkSize(heads, c) == z
  }

  lemma HeadsSides(heads: Heads, t: Tree, node: nat)
    requires t.Node? && HeadsHold(heads, t) && node in t.ring
    ensures ChunkSize(heads, node) == t.size && HeadsHold(heads, t.left) && HeadsHold(heads, t.right)
  {
    assert Has(t, node, t.size);
    assert forall c, z :: Has(t.left, c, z) ==> Has(t, c, z);
    assert forall c, z :: Has(t.right, c, z) ==> Has(t, c, z);
  }

  lemma ShiftOfBin(i: nat)
    requires i < BINS
    ensures LeftShift(i) == 64 - BinWidth(i) && BinWidth(i) <= 64
  {
  }

  lemma ItemRange(state: nat, items: Items, x: nat)
    requires ItemsOk(state, items) && x in items && !IsSmall(items[x])
    ensures TreeIndex(items[x]) < BINS && MIN_LARGE_SIZE <= items[x] < WORD_LIMIT && 0 !in items && x != 0
  {
    hide TreeIndex;
    BinRange(items[x]);
  }

  /** A large chunk in the bins: its tree, and its index word. */
  lemma ItemInTree(m: Links, marked: bool, root: nat, state: nat, i: nat, t: Tree, items: Items, x: nat)
    requires TreeBinOk(m, marked, root, TreeBin(state, i), i, t, items) && ItemsOk(state, items)
    requires x in items && InTree(items[x], i)
    ensures InTreeAt(m, root, TreeBin(state, i), i, t, x, BinBase(i), BinWidth(i), items) && At(m.index, x) == i && marked
    ensures root != 0 && (x == root ==> At(m.parent, x) != 0)
  {
    hide TrieOk, TreeIndex, Ring, Pow2;
    var qn, wn := NodeRep(m, root, TreeBin(state, i), i, t, x, items[x], BinBase(i), BinWidth(i));
    var n := NodeOf(t, x, items[x], BinBase(i), BinWidth(i));
    RootOf(m, n.ring[0], At(m.parent, n.ring[0]), i, n, qn, wn);
  }

  lemma IndexIn(m: Links, marked: bool, state: nat, i: nat, cs: seq<nat>, items: Items, p: nat) returns (k: nat)
    requires SmallOk(m, marked, SmallBin(state, i), i, cs, items) && p in items && InSmall(items[p], i)
    ensures k < |cs| && cs[k] == p && marked
  {
    hide Ring;
    assert p in cs;
    k :| k < |cs| && cs[k] == p;
  }

  lemma SmallNonempty(m: Links, marked: bool, b: nat, i: nat, cs: seq<nat>, items: Items)
    requires SmallOk(m, marked, b, i, cs, items)
    ensures marked <==> cs != []
  {
  }

  class Bins {
    const state: nat
    var links: Links
    var smallmap: nat
    var treemap: nat
    var roots: seq<nat>
    ghost var small: seq<seq<nat>>
    ghost var trees: seq<Tree>
    ghost var items: Items

    ghost predicate Valid()
      reads this
    {
      && ItemsOk(state, items)
      && SmallsOk(links, smallmap, state, small, items)
      && TreesOk(links, treemap, roots, state, trees, items)
    }

    /** `init_bins` on a state that is otherwise zero: every list header is its own ring. */
    constructor Init(address: nat)
      ensures Valid() && items == map[] && state == address
      ensures forall i :: 0 <= i < BINS ==> At(links.fd, SmallBin(address, i)) == At(links.bk, SmallBin(address, i)) == SmallBin(address, i)
    {
      state := address;
      var headers: Words := map[];
      for i := 0 to BINS
        invariant forall j :: 0 <= j < i ==> At(headers, SmallBin(address, j)) == SmallBin(address, j)
      {
        headers := headers[SmallBin(address, i) := SmallBin(address, i)];
      }
      links := Links(headers, headers, map[], map[], map[], map[]);
      smallmap, treemap, roots := 0, 0, seq(BINS, i => 0);
      small, trees, items := seq(BINS, i => []), seq(BINS, i => Nil), map[];
      new;
      forall i: nat
        ensures !BitAt(0, i)
      {
        BitOfZero(i);
      }
    }

    /** The header words of the chunks in bins hold their sizes. */
    ghost predicate SizesIn(heads: Heads)
      reads this
    {
      forall c :: c in items ==> ChunkSize(heads, c) == items[c]
    }

    /** `insert_small_chunk`: first in the list of its size. */
    method InsertSmallChunk(p: nat, s: nat)
      requires Valid() && p !in items && IsItem(state, p, s) && IsSmall(s)
      modifies this
      ensures Valid() && items == old(items)[p := s]
      ensures small == old(small)[s / 8 := [p] + old(small)[s / 8]] && trees == old(trees)
    {
      hide ItemsOk, SmallOk, TreesOk, Ring, And, Or, Pow2, BitAt, LocalChange, BinOf;
      var i := s / 8;
      var b := SmallBin(state, i);
      var f := b;
      MarkedIff(smallmap, i);
      MarkChanges(smallmap, i);
      PushSmall(links, BitAt(smallmap, i), state, i, small[i], items, p, s);
      if !Marked(smallmap, i) {
        smallmap := Or(smallmap, Pow2(i));
      } else {
        f := At(links.fd, b);
      }
      links := links.(fd := links.fd[b := p]);
      links := links.(bk := links.bk[f := p]);
      links := links.(fd := links.fd[p := f]);
      links := links.(bk := links.bk[p := b]);
      small := small[i := [p] + small[i]];
      items := items[p := s];
      SmallsAfter(old(links), links, old(items), items, p, i, state, old(smallmap), smallmap, old(small), small[i]);
      TreesUntouched(old(links), links, old(items), items, p, i, state, treemap, roots, trees);
      ItemsAfter(state, old(items), items, p);
    }

    /** `unlink_small_chunk`. */
    method UnlinkSmallChunk(p: nat, s: nat)
      requires Valid() && p in items && items[p] == s && IsSmall(s)
      modifies this
      ensures Valid() && items == old(items) - {p} && trees == old(trees)
    {
      hide ItemsOk, SmallOk, TreesOk, Ring, And, AndNot, Pow2, BitAt, LocalChange, BinOf, WithoutAt;
      var f := At(links.fd, p);
      var b := At(links.bk, p);
      var i := s / 8;
      ghost var k := IndexIn(links, BitAt(smallmap, i), state, i, small[i], items, p);
      TakeSmall(links, state, i, small[i], k, items);
      MarkChanges(smallmap, i);
      if b == f {
        smallmap := AndNot(smallmap, Pow2(i));
      } else {
        links := links.(bk := links.bk[f := b]);
        links := links.(fd := links.fd[b := f]);
      }
      small := small[i := WithoutAt(small[i], k)];
      items := items - {p};
      SmallsAfter(old(links), links, old(items), items, p, i, state, old(smallmap), smallmap, old(small), small[i]);
      TreesUntouched(old(links), links, old(items), items, p, i, state, treemap, roots, trees);
      ItemsAfter(state, old(items), items, p);
    }

    /** `unlink_first_small_chunk`: p is the first chunk of the list with header b. */
    method UnlinkFirstSmallChunk(b: nat, p: nat, i: nat)
      requires Valid() && i < BINS && b == SmallBin(state, i) && small[i] != [] && p == small[i][0]
      modifies this
      ensures Valid() && items == old(items) - {p} && trees == old(trees)
    {
      hide ItemsOk, SmallOk, TreesOk, Ring, And, AndNot, Pow2, BitAt, LocalChange, BinOf, WithoutAt;
      var f := At(links.fd, p);
      SmallNonempty(links, BitAt(smallmap, i), b, i, small[i], items);
      TakeSmall(links, state, i, small[i], 0, items);
      MarkChanges(smallmap, i);
      if b == f {
        smallmap := AndNot(smallmap, Pow2(i));
      } else {
        links := links.(bk := links.bk[f := b]);
        links := links.(fd := links.fd[b := f]);
      }
      small := small[i := WithoutAt(small[i], 0)];
      items := items - {p};
      SmallsAfter(old(links), links, old(items), items, p, i, state, old(smallmap), smallmap, old(small), small[i]);
      TreesUntouched(old(links), links, old(items), items, p, i, state, treemap, roots, trees);
      ItemsAfter(state, old(items), items, p);
    }

    /** The descent of `insert_large_chunk` in the nonempty tree t of bin i, steered by the shifted size. */
    method Descend(heads: Heads, x: nat, s: nat, i: nat, ghost par: nat, ghost t: Tree)
      requires t.Node? && MIN_LARGE_SIZE <= s < WORD_LIMIT && TreeIndex(s) == i < BINS && |roots| == BINS
      requires Rep(links, roots[i], par, i, t) && TrieOk(t, BinBase(i), BinWidth(i))
      requires HeadsHold(heads, t)
      requires BinBase(i) * Pow2(BinWidth(i)) <= s < BinBase(i) * Pow2(BinWidth(i)) + Pow2(BinWidth(i))
      modifies this`links
      ensures links == InsertLinks(old(links), t, x, s, BinBase(i), BinWidth(i))
    {
      hide HeadsHold, RootRep, Pow2, BitAt, TreeIndex, ShiftedKey, TopBit, JoinRing, Hang, SetChild;
      var node := roots[i];
      var key := ShiftedKey(s, LeftShift(i));
      ghost var cur, up: nat, q: nat, w: nat := t, par, BinBase(i), BinWidth(i);
      ShiftOfBin(i);
      while true
        invariant links == old(links) && Rep(links, node, up, i, cur) && TrieOk(cur, q, w) && cur.Node?
        invariant HeadsHold(heads, cur)
        invariant q * Pow2(w) <= s < q * Pow2(w) + Pow2(w) && w <= 64 && key == ShiftedKey(s, 64 - w)
        invariant InsertLinks(links, cur, x, s, q, w) == InsertLinks(links, t, x, s, BinBase(i), BinWidth(i))
        decreases cur
      {
        FirstInRing(links, node, up, i, cur.ring);
        HeadsSides(heads, cur, node);
        if ChunkSize(heads, node) != s {
          SingletonInterval(cur.size, s, q, w);
          HalfBit(s, q, w);
          Tries.Halves(q, w);
          KeyBit(s, 64 - w);
          KeyShifts(s, 64 - w);
          var bit := TopBit(key);
          var child := Child(links, node, bit);
          key := key * 2 % WORD_LIMIT;
          ghost var side := if bit then cur.right else cur.left;
          RootIsZero(links, child, node, i, side);
          if child != 0 {
            cur, up, q, w := side, node, if bit then 2 * q + 1 else 2 * q, w - 1;
            node := child;
          } else {
            links := SetChild(links, node, bit, x);
            links := Hang(links, node, x);
            break;
          }
        } else {
          links := JoinRing(links, node, x);
          break;
        }
      }
    }

    /** `insert_large_chunk`. */
    method InsertLargeChunk(heads: Heads, x: nat, s: nat)
      requires Valid() && SizesIn(heads) && x !in items && IsItem(state, x, s) && !IsSmall(s)
      modifies this
      ensures Valid() && items == old(items)[x := s] && small == old(small)
    {
      hide ItemsOk, SmallsOk, TrieOk, Rep, TreeIndex, And, Or, Pow2, BitAt, LocalChange, BinOf, Blank, Hang, InsertLinks, Insert;
      BinRange(s);
      var i := TreeIndex(s);
      MarkedIff(treemap, i);
      MarkChanges(treemap, i);
      ghost var t, par := trees[i], TreeBin(state, i);
      GrowTree(links, BitAt(treemap, i), roots[i], state, i, t, items, x, s);
      BlankRep(links, x, i, roots[i], par, t, items);
      links := Blank(links, x, i);
      if !Marked(treemap, i) {
        treemap := Or(treemap, Pow2(i));
        roots := roots[i := x];
        links := Hang(links, TreeBin(state, i), x);
      } else {
        Descend(heads, x, s, i, par, t);
      }
      trees := trees[i := TreeWith(t, x, s)];
      items := items[x := s];
      TreesAfter(old(links), links, old(items), items, x, i, state, old(treemap), treemap, old(roots), roots[i], old(trees), trees[i]);
      SmallsUntouched(old(links), links, old(items), items, x, i, state, smallmap, small);
      ItemsAfter(state, old(items), items, x);
    }

    /** The deepest leaf below x, preferring right children, with its link cleared; 0 when x has no children. */
    method DetachLeaf(x: nat, ghost xp: nat, i: nat, ghost n: Tree, ghost q: nat, ghost w: nat) returns (r: nat, ghost link: (nat, bool))
      requires n.Node? && Rep(links, x, xp, i, n) && TrieOk(n, q, w)
      modifies this`links
      ensures r == 0 <==> n.left.Nil? && n.right.Nil?
      ensures r == 0 ==> links == old(links)
      ensures r != 0 ==> LeafLink(n, x, link, r) && links == SetChild(old(links), link.0, link.1, 0)
    {
      hide RootRep, TrieOk, SetChild;
      TrieRings(n, q, w);
      FirstInRing(links, x, xp, i, n.ring);
      RootIsZero(links, At(links.right, x), x, i, n.right);
      RootIsZero(links, At(links.left, x), x, i, n.left);
      var from, bit := x, true;
      r := Child(links, x, true);
      if r == 0 {
        bit := false;
        r := Child(links, x, false);
      }
      link := (x, bit);
      if r != 0 {
        ghost var cur, up: nat := if bit then n.right else n.left, x;
        ghost var side := cur;
        FirstInRing(links, r, up, i, cur.ring);
        RootIsZero(links, At(links.right, r), r, i, cur.right);
        RootIsZero(links, At(links.left, r), r, i, cur.left);
        while Child(links, r, true) != 0 || Child(links, r, false) != 0
          invariant links == old(links) && Rep(links, r, up, i, cur) && cur.Node? && RingsOk(cur) && r == cur.ring[0]
          invariant (Child(links, r, true) != 0 <==> cur.right.Node?) && (Child(links, r, false) != 0 <==> cur.left.Node?)
          invariant DeepLink(cur, (from, bit)) == DeepLink(side, link) && Detach(cur).0 == Detach(side).0
          invariant r != 0
          decreases cur
        {
          from, bit := r, Child(links, r, true) != 0;
          cur, up := if bit then cur.right else cur.left, r;
          r := Child(links, r, bit);
          FirstInRing(links, r, up, i, cur.ring);
          RootIsZero(links, At(links.right, r), r, i, cur.right);
          RootIsZero(links, At(links.left, r), r, i, cur.left);
        }
        link := (from, bit);
        links := SetChild(links, from, bit, 0);
      }
    }

    /** The first part of `unlink_large_chunk`: x leaves its ring, or a leaf is detached to replace it. */
    method StageRemoval(x: nat, i: nat, ghost par: nat, ghost t: Tree) returns (r: nat)
      requires InTreeAt(links, if i < |roots| then roots[i] else 0, par, i, t, x, BinBase(i), BinWidth(i), items)
      modifies this`links
      ensures Staged(old(links), links, x, r, i, NodeHolding(t, x, BinBase(i), BinWidth(i), items), items)
    {
      hide RootRep, TrieOk, Rep, Staged, RingOut, NodeOf, SetChild, Has, Pow2;
      ghost var p, q, w := if i < |roots| then roots[i] else 0, BinBase(i), BinWidth(i);
      if At(links.bk, x) != x {
        StageRing(links, p, par, i, t, x, q, w, items);
        var f := At(links.fd, x);
        r := At(links.bk, x);
        links := RingOut(links, x);
      } else {
        ghost var n := NodeHolding(t, x, q, w, items);
        ghost var qn, wn := NodeRep(links, p, par, i, t, x, items[x], q, w);
        RingSize(links, n, i, x, qn, wn);
        ghost var link;
        r, link := DetachLeaf(x, At(links.parent, x), i, n, qn, wn);
        if r == 0 {
          StageLone(links, p, par, i, t, x, q, w, items);
        } else {
          StageLeaf(old(links), p, par, i, t, x, link, r, q, w, items);
        }
      }
    }

    /** The last part of `unlink_large_chunk`: r takes the place of x below its parent and above its children. */
    method Relink(xp: nat, h: nat, x: nat, r: nat)
      requires h < |roots| == BINS && (x == roots[h] ==> xp != 0)
      modifies this`links, this`roots, this`treemap
      ensures links == Finish(old(links), xp, old(roots)[h], x, r) && roots == old(roots)[h := Swap(old(roots)[h], x, r)]
      ensures treemap == if x == old(roots)[h] && r == 0 then AndNot(old(treemap), Pow2(h)) else old(treemap)
    {
      hide AndNot, Pow2;
      if xp != 0 {
        if x == roots[h] {
          roots := roots[h := r];
          if r == 0 {
            treemap := AndNot(treemap, Pow2(h));
          }
        } else if At(links.left, xp) == x {
          links := links.(left := links.left[xp := r]);
        } else {
          links := links.(right := links.right[xp := r]);
        }
        if r != 0 {
          links := links.(parent := links.parent[r := xp]);
          var c0 := At(links.left, x);
          if c0 != 0 {
            links := links.(left := links.left[r := c0]);
            links := links.(parent := links.parent[c0 := r]);
          }
          var c1 := At(links.right, x);
          if c1 != 0 {
            links := links.(right := links.right[r := c1]);
            links := links.(parent := links.parent[c1 := r]);
          }
        }
      }
    }

    /** `unlink_large_chunk`. */
    method UnlinkLargeChunk(x: nat)
      requires Valid() && x in items && !IsSmall(items[x])
      modifies this
      ensures Valid() && items == old(items) - {x} && small == old(small)
    {
      hide ItemsOk, SmallsOk, TrieOk, Rep, TreeIndex, And, AndNot, Pow2, BitAt, LocalChange, BinOf, Staged, NodeHolding, Remove, Has;
      ghost var i := TreeIndex(items[x]);
      ItemRange(state, items, x);
      ghost var t, par := trees[i], TreeBin(state, i);
      ItemInTree(links, BitAt(treemap, i), roots[i], state, i, t, items, x);
      var xp := At(links.parent, x);
      var h := At(links.index, x);
      var r := StageRemoval(x, h, par, t);
      MarkChanges(treemap, h);
      ghost var m1 := links;
      ShrinkTree(old(links), m1, roots[i], state, i, t, items, x, r);
      Relink(xp, h, x, r);
      trees := trees[i := Remove(t, x, items[x], BinBase(i), BinWidth(i))];
      items := items - {x};
      TreesAfter(old(links), links, old(items), items, x, i, state, old(treemap), treemap, old(roots), roots[i], old(trees), trees[i]);
      SmallsUntouched(old(links), links, old(items), items, x, i, state, smallmap, small);
      ItemsAfter(state, old(items), items, x);
    }

    /** `insert_chunk` and `unlink_chunk`. */
    method InsertChunk(heads: Heads, p: nat, s: nat)
      requires Valid() && SizesIn(heads) && p !in items && IsItem(state, p, s)
      modifies this
      ensures Valid() && items == old(items)[p := s]
    {
      if IsSmall(s) {
        InsertSmallChunk(p, s);
      } else {
        InsertLargeChunk(heads, p, s);
      }
    }

    method UnlinkChunk(p: nat, s: nat)
      requires Valid() && p in items && items[p] == s
      modifies this
      ensures Valid() && items == old(items) - {p}
    {
      if IsSmall(s) {
        UnlinkSmallChunk(p, s);
      } else {
        UnlinkLargeChunk(p);
      }
    }

    /** The first chunk of a marked small bin. */
    lemma FirstSmall(i: nat)
      requires Valid() && i < BINS && BitAt(smallmap, i)
      ensures |small| == BINS && small[i] != [] && At(links.fd, SmallBin(state, i)) == small[i][0]
      ensures small[i][0] in items && items[small[i][0]] == 8 * i
    {
      hide TreesOk, BitAt;
      var b, cs := SmallBin(state, i), small[i];
      assert SmallOk(links, true, b, i, cs, items);
      var ring := [b] + cs;
      assert RingStep(links.fd, links.bk, ring, 0);
      assert cs[0] in cs && IsItem(state, cs[0], items[cs[0]]);
    }
  }

  lemma ItemsAfter(state: nat, items: Items, items': Items, x: nat)
    requires ItemsOk(state, items) && (x in items' ==> IsItem(state, x, items'[x]))
    requires forall c :: c != x && c in items' ==> c in items && items'[c] == items[c]
    ensures ItemsOk(state, items')
  {
  }
}
