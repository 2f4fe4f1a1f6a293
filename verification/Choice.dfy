/** Which free chunk serves a request. */
module Choices {
  import opened Bits
  import opened PopCounts
  import opened BinMaps
  import opened TreeIndexes
  import opened Tries
  import opened ChunkLinks
  import opened TreeLinks
  import opened BinSpec
  import opened ChunkBins
  import opened BestFit
  import opened HeapSpec
  import opened HeapViews

  /** A smallest binned chunk among those of at least nb. */
  ghost predicate IsFit(items: Items, nb: nat, v: nat) {
    v in items && items[v] >= nb && forall c :: c in items && items[c] >= nb ==> items[v] <= items[c]
  }

  /** A best fit serves unless the designated victim comes first: before all but an exact fit of a small request, and before any fit of a large one that is not smaller. */
  ghost predicate FromBins(items: Items, dvsize: nat, nb: nat, v: nat) {
    IsFit(items, nb, v) && (dvsize < nb || if IsSmall(nb) then items[v] == nb else items[v] < dvsize)
  }

  /** The chunk p is the one to serve nb bytes: from the bins, else the designated victim, else top, else new memory. */
  ghost predicate Chosen(h: View, items: Items, nb: nat, p: nat) {
    if exists v :: FromBins(items, h.dvsize, nb, v) then FromBins(items, h.dvsize, nb, p)
    else if nb <= h.dvsize then p == h.dv
    else nb < h.topsize ==> p == h.top
  }

  /** Nothing that is free serves nb bytes. */
  ghost predicate Exhausted(h: View, items: Items, nb: nat) {
    (forall c :: c in items ==> items[c] < nb) && h.dvsize < nb && h.topsize <= nb
  }

  /** The designated victim afterwards: what remains of a binned chunk for a small request, or of the victim itself. */
  ghost function VictimAfter(h: View, items: Items, nb: nat, p: nat): nat {
    if p in items then (if IsSmall(nb) && items[p] >= nb + MIN_CHUNK_SIZE then p + nb else h.dv)
    else if h.dvsize != 0 && p == h.dv then (if h.dvsize >= nb + MIN_CHUNK_SIZE then p + nb else 0)
    else h.dv
  }

  lemma ItemsBelow(b: Bins)
    requires b.Valid()
    ensures forall c :: c in b.items ==> b.items[c] < WORD_LIMIT - 1
  {
    hide SmallsOk, TreesOk;
    assert forall c :: c in b.items ==> IsItem(b.state, c, b.items[c]);
  }

  lemma SmallMarks(b: Bins, i: nat)
    requires b.Valid() && i < BINS
    ensures b.smallmap < WORD && (BitAt(b.smallmap, i) <==> exists c :: c in b.items && InSmall(b.items[c], i))
  {
    hide TreesOk, BitAt, ItemsOk;
    assert SmallOk(b.links, BitAt(b.smallmap, i), SmallBin(b.state, i), i, b.small[i], b.items);
    if b.small[i] != [] {
      assert b.small[i][0] in b.small[i];
    }
  }

  lemma NoLarge(b: Bins)
    requires b.Valid() && b.treemap == 0
    ensures forall c :: c in b.items ==> IsSmall(b.items[c])
  {
    hide SmallsOk, BitAt, TreeIndex, Rep, TrieOk, Has;
    forall c | c in b.items
      ensures IsSmall(b.items[c])
    {
      var s := b.items[c];
      if !IsSmall(s) {
        assert IsItem(b.state, c, s);
        BinRange(s);
        var i := TreeIndex(s);
        assert TreeBinOk(b.links, BitAt(b.treemap, i), b.roots[i], TreeBin(b.state, i), i, b.trees[i], b.items);
        assert InTree(s, i) && Has(b.trees[i], c, s);
        BitOfZero(i);
        NilHasNone(c, s);
      }
    }
  }

  lemma NilHasNone(c: nat, s: nat)
    ensures !Has(Nil, c, s)
  {
  }

  // ----- the bin map and the small bins

  /** Chunk sizes are multiples of 16, so of the two bins that are looked at first only the one for nb can have chunks. */
  lemma ExactBin(b: Bins, nb: nat)
    requires b.Valid() && nb % 16 == 0 && nb <= 240
    ensures nb / 8 + 1 < BINS && !BitAt(b.smallmap, nb / 8 + 1)
    ensures BitAt(b.smallmap, nb / 8) <==> exists c :: c in b.items && b.items[c] == nb
  {
    hide TreesOk, SmallsOk, BitAt;
    SmallMarks(b, nb / 8);
    SmallMarks(b, nb / 8 + 1);
    assert forall c :: c in b.items ==> IsItem(b.state, c, b.items[c]);
  }

  /** A chunk of the least marked bin above is a best fit. */
  lemma LaterFit(b: Bins, nb: nat, n: nat, p: nat)
    requires b.Valid() && nb % 16 == 0 && nb <= 240 && !BitAt(b.smallmap, nb / 8) && nb / 8 < n < BINS
    requires (forall j: nat :: nb / 8 < j < n ==> !BitAt(b.smallmap, j)) && p in b.items && b.items[p] == 8 * n
    ensures IsFit(b.items, nb, p)
  {
    hide Bins.Valid, BitAt;
    forall c | c in b.items && b.items[c] >= nb
      ensures b.items[p] <= b.items[c]
    {
      var j := b.items[c] / 8;
      if j < n {
        SmallMarks(b, j);
        assert InSmall(b.items[c], j);
      }
    }
  }

  /** With no marked bin from nb on, only large chunks suffice. */
  lemma NoSmallFit(b: Bins, nb: nat)
    requires b.Valid() && forall j: nat :: nb / 8 <= j < BINS ==> !BitAt(b.smallmap, j)
    ensures forall c :: c in b.items && IsSmall(b.items[c]) ==> b.items[c] < nb
  {
    hide Bins.Valid, BitAt;
    forall c | c in b.items && IsSmall(b.items[c])
      ensures b.items[c] < nb
    {
      var j := b.items[c] / 8;
      SmallMarks(b, j);
      assert InSmall(b.items[c], j);
    }
  }

  /** A best fit among the large chunks is one among all when no small chunk suffices. */
  lemma LargeFit(items: Items, nb: nat, v: nat)
    requires IsBestFit(items, nb, v) && forall c :: c in items && IsSmall(items[c]) ==> items[c] < nb
    ensures IsFit(items, nb, v)
  {
  }

  lemma LaterFits(b: Bins, nb: nat, n: nat)
    requires b.Valid() && nb % 16 == 0 && nb <= 240 && !BitAt(b.smallmap, nb / 8) && nb / 8 < n < BINS
    requires forall j: nat :: nb / 8 < j < n ==> !BitAt(b.smallmap, j)
    ensures forall p :: p in b.items && b.items[p] == 8 * n ==> IsFit(b.items, nb, p)
  {
    hide Bins.Valid, BitAt, IsFit;
    forall p | p in b.items && b.items[p] == 8 * n
      ensures IsFit(b.items, nb, p)
    {
      LaterFit(b, nb, n, p);
    }
  }

  lemma NoBitLeft(b: Bins, nb: nat)
    requires b.Valid() && nb % 16 == 0 && nb <= 240 && ShiftRight(b.smallmap, nb / 8) == 0
    ensures forall c :: c in b.items && IsSmall(b.items[c]) ==> b.items[c] < nb
  {
    hide Bins.Valid, BitAt, ShiftRight, IsSmall;
    forall j: nat | nb / 8 <= j < BINS
      ensures !BitAt(b.smallmap, j)
    {
      ShiftedBit(b.smallmap, nb / 8, j - nb / 8);
      BitOfZero(j - nb / 8);
    }
    NoSmallFit(b, nb);
  }

  // ----- large requests

  /** What the tree search says, in terms of all bins. */
  lemma LargeChoice(h: View, items: Items, nb: nat, p: nat)
    requires nb >= 256 && p != 0 ==> IsBestFit(items, nb, p) && (nb <= h.dvsize ==> items[p] < h.dvsize)
    requires nb >= 256 && p == 0 ==> forall c :: c in items && !IsSmall(items[c]) && items[c] >= nb ==> nb <= h.dvsize <= items[c]
    requires nb >= 256
    ensures p != 0 ==> FromBins(items, h.dvsize, nb, p) && VictimAfter(h, items, nb, p) == h.dv
    ensures p == 0 ==> forall v :: !FromBins(items, h.dvsize, nb, v)
  {
    if p != 0 {
      LargeFit(items, nb, p);
    }
  }

  /** Without tree chunks, or beyond any size, the bins have nothing for a large request. */
  lemma NoLargeChoice(b: Bins, nb: nat, dvsize: nat)
    requires b.Valid() && nb >= 256 && (b.treemap == 0 || nb == WORD_LIMIT - 1)
    ensures forall v :: !FromBins(b.items, dvsize, nb, v)
  {
    hide SmallsOk, TreesOk;
    if b.treemap == 0 {
      NoLarge(b);
    } else {
      assert forall c :: c in b.items ==> IsItem(b.state, c, b.items[c]);
    }
  }

  // ----- the choice

  lemma ChosenFromBins(h: View, items: Items, nb: nat, p: nat)
    requires FromBins(items, h.dvsize, nb, p)
    ensures Chosen(h, items, nb, p) && !Exhausted(h, items, nb)
  {
  }

  lemma NotFromBins(h: View, items: Items, nb: nat)
    requires forall v :: !FromBins(items, h.dvsize, nb, v)
    ensures forall p :: Chosen(h, items, nb, p) <==> if nb <= h.dvsize then p == h.dv else nb < h.topsize ==> p == h.top
    ensures Exhausted(h, items, nb) <==> h.dvsize < nb && h.topsize <= nb
  {
    if h.dvsize < nb && exists c :: c in items && items[c] >= nb {
      var c :| c in items && items[c] >= nb;
      var v := SmallestFit(items, nb, c, items[c]);
      assert FromBins(items, h.dvsize, nb, v);
    }
  }

  lemma {:induction false} SmallestFit(items: Items, nb: nat, c: nat, s: nat) returns (v: nat)
    requires c in items && nb <= items[c] <= s
    ensures IsFit(items, nb, v)
    decreases s
  {
    if d :| d in items && nb <= items[d] < items[c] {
      v := SmallestFit(items, nb, d, items[c] - 1);
    } else {
      v := c;
    }
  }
}
