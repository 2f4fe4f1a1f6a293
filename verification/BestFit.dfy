/** The search for the best fitting large chunk: the descent by the bits of the request, then the leftmost path. */
module BestFit {
  import opened Bits
  import opened BinMaps
  import opened PopCounts
  import opened TreeIndexes
  import opened Tries
  import opened ChunkLinks
  import opened TreeLinks
  import opened BinSpec
  import opened ChunkHeads
  import opened ChunkBins

  /** Unsigned subtraction of 64-bit words. */
  function Minus(a: nat, b: nat): nat
    requires a < WORD_LIMIT && b <= WORD_LIMIT
  {
    (a + WORD_LIMIT - b) % WORD_LIMIT
  }

  lemma MinusCases(a: nat, b: nat)
    requires a < WORD_LIMIT && b < WORD_LIMIT
    ensures Minus(a, b) == if a >= b then a - b else a + WORD_LIMIT - b
  {
  }

  /** v is the best chunk so far and rsize what it leaves; with none yet, rsize is the negated request. */
  ghost predicate Best(t: Tree, nb: nat, v: nat, rsize: nat) {
    0 < nb < WORD_LIMIT && if v == 0 then rsize == WORD_LIMIT - nb else rsize < WORD_LIMIT - nb && Has(t, v, nb + rsize)
  }

  predicate Beaten(nb: nat, v: nat, rsize: nat, s: nat) {
    v != 0 && nb + rsize <= s
  }

  ghost predicate AtLeast(t: Tree, nb: nat) {
    forall s: nat :: HasSize(t, s) ==> s >= nb
  }

  /** Every sufficient size of t0 is matched by the best so far, or is still in cur, or beaten in rest. */
  ghost predicate Covers(t0: Tree, nb: nat, v: nat, rsize: nat, cur: Tree, rest: Tree) {
    forall s: nat :: HasSize(t0, s) && s >= nb ==> Beaten(nb, v, rsize, s) || HasSize(cur, s) || Beats(rest, s)
  }

  ghost predicate Covered(t0: Tree, nb: nat, v: nat, rsize: nat, rest: Tree) {
    forall s: nat :: HasSize(t0, s) && s >= nb ==> Beaten(nb, v, rsize, s) || Beats(rest, s)
  }

  ghost predicate Within(t: Tree, t0: Tree) {
    forall c, s :: Has(t, c, s) ==> Has(t0, c, s)
  }

  lemma WithinSides(t: Tree, t0: Tree)
    requires t.Node? && Within(t, t0)
    ensures Within(t.left, t0) && Within(t.right, t0) && forall c :: c in t.ring ==> Has(t0, c, t.size)
  {
    assert forall c, s :: Has(t.left, c, s) ==> Has(t, c, s);
    assert forall c, s :: Has(t.right, c, s) ==> Has(t, c, s);
    assert forall c :: c in t.ring ==> Has(t, c, t.size);
  }

  /** Comparing the wrapped remainders picks a sufficient chunk, and the smaller of two. */
  lemma Compare(t0: Tree, nb: nat, v: nat, rsize: nat, node: nat, size: nat)
    requires Best(t0, nb, v, rsize) && node != 0 && size < WORD_LIMIT && Has(t0, node, size)
    ensures var trem := Minus(size, nb);
            if trem < rsize then size >= nb && trem == size - nb && Best(t0, nb, node, trem)
            else size >= nb ==> Beaten(nb, v, rsize, size)
    ensures Minus(size, nb) < rsize ==> Beaten(nb, node, Minus(size, nb), size)
    ensures Minus(size, nb) < rsize ==> forall s: nat :: Beaten(nb, v, rsize, s) ==> Beaten(nb, node, Minus(size, nb), s)
  {
    hide Has;
    MinusCases(size, nb);
  }

  /** One step down the path of the request's bits. */
  lemma CoverStep(t0: Tree, nb: nat, v: nat, rsize: nat, cur: Tree, rest: Tree, q: nat, w: nat)
    requires TrieOk(cur, q, w) && cur.Node? && q * Pow2(w) <= nb < q * Pow2(w) + Pow2(w) && w > 0
    requires Covers(t0, nb, v, rsize, cur, rest) && (cur.size >= nb ==> Beaten(nb, v, rsize, cur.size))
    requires AtLeast(rest, q * Pow2(w) + Pow2(w))
    ensures var bit := BitAt(nb, w - 1);
            var side := if bit then cur.right else cur.left;
            var rest' := if cur.right.Node? && !bit then cur.right else rest;
            var q' := if bit then 2 * q + 1 else 2 * q;
            && Covers(t0, nb, v, rsize, side, rest')
            && q' * Pow2(w - 1) <= nb < q' * Pow2(w - 1) + Pow2(w - 1)
            && AtLeast(rest', q' * Pow2(w - 1) + Pow2(w - 1))
  {
    hide Pow2, BitAt, HasSize, Beats;
    HalfBit(nb, q, w);
    Tries.Halves(q, w);
    var bit := BitAt(nb, w - 1);
    var side := if bit then cur.right else cur.left;
    var rest' := if cur.right.Node? && !bit then cur.right else rest;
    SideBounds(cur, q, w);
    forall s: nat | HasSize(t0, s) && s >= nb
      ensures Beaten(nb, v, rsize, s) || HasSize(side, s) || Beats(rest', s)
    {
      if HasSize(cur, s) {
        SizeSides(cur, s);
        if !bit && HasSize(cur.right, s) {
          BeatsBy(cur.right, s, s);
        }
      } else if Beats(rest, s) && rest' != rest {
        RootBeats(cur.right, rest, q * Pow2(w) + Pow2(w), s);
      }
    }
  }

  lemma SizeSides(t: Tree, s: nat)
    requires HasSize(t, s)
    ensures t.Node? && (s == t.size || HasSize(t.left, s) || HasSize(t.right, s)) && (HasSize(t.right, s) ==> t.right.Node?)
  {
  }

  lemma SideBounds(t: Tree, q: nat, w: nat)
    requires TrieOk(t, q, w) && t.Node? && w > 0
    ensures forall s: nat :: HasSize(t.left, s) ==> s < q * Pow2(w) + Pow2(w - 1)
    ensures AtLeast(t.right, q * Pow2(w) + Pow2(w - 1)) && (t.right.Node? ==> t.right.size < q * Pow2(w) + Pow2(w))
  {
    hide Pow2;
    Tries.Halves(q, w);
    forall s: nat | HasSize(t.left, s)
      ensures s < q * Pow2(w) + Pow2(w - 1)
    {
      SizesInInterval(t.left, 2 * q, w - 1, s);
    }
    forall s: nat | HasSize(t.right, s)
      ensures s >= q * Pow2(w) + Pow2(w - 1)
    {
      SizesInInterval(t.right, 2 * q + 1, w - 1, s);
    }
  }

  /** What the larger subtree beats, the smaller one beats. */
  lemma RootBeats(t: Tree, rest: Tree, bound: nat, s: nat)
    requires t.Node? && t.size < bound && AtLeast(rest, bound) && Beats(rest, s)
    ensures Beats(t, s)
  {
    var s': nat :| HasSize(rest, s') && s' <= s;
    BeatsBy(t, t.size, s);
  }

  /** One step down the leftmost path. */
  lemma LeftStep(t0: Tree, nb: nat, v: nat, rsize: nat, t: Tree, q: nat, w: nat)
    requires TrieOk(t, q, w) && t.Node? && Covered(t0, nb, v, rsize, t)
    requires (v != 0 && rsize == 0) || Beaten(nb, v, rsize, t.size)
    ensures Covered(t0, nb, v, rsize, LeftmostChild(t))
  {
    hide Pow2, HasSize, Beats;
    forall s: nat | HasSize(t0, s) && s >= nb && !Beaten(nb, v, rsize, s)
      ensures Beats(LeftmostChild(t), s)
    {
      LeftmostBeats(t, q, w, s);
    }
  }

  lemma NilBeats(s: nat)
    ensures !Beats(Nil, s) && !HasSize(Nil, s)
  {
  }

  // ----- the search in the bins

  /** The subtree cur of t0 at the chunk node. */
  ghost predicate Subtree(m: Links, heads: Heads, node: nat, up: nat, i: nat, cur: Tree, q: nat, w: nat, t0: Tree) {
    && Rep(m, node, up, i, cur) && TrieOk(cur, q, w) && Within(cur, t0)
    && (forall c: nat, s: nat :: Has(cur, c, s) ==> s < WORD_LIMIT) && HeadsHold(heads, cur)
  }

  lemma SubtreeSides(m: Links, heads: Heads, node: nat, up: nat, i: nat, cur: Tree, q: nat, w: nat, t0: Tree)
    requires Subtree(m, heads, node, up, i, cur, q, w, t0) && cur.Node?
    ensures node != 0 && ChunkSize(heads, node) == cur.size < WORD_LIMIT && Has(t0, node, cur.size)
    ensures w == 0 ==> cur.left.Nil? && cur.right.Nil?
    ensures w > 0 ==> Subtree(m, heads, Child(m, node, false), node, i, cur.left, 2 * q, w - 1, t0)
    ensures w > 0 ==> Subtree(m, heads, Child(m, node, true), node, i, cur.right, 2 * q + 1, w - 1, t0)
    ensures Child(m, node, false) == 0 <==> cur.left.Nil?
    ensures Child(m, node, true) == 0 <==> cur.right.Nil?
  {
    hide RootRep, Pow2;
    FirstInRing(m, node, up, i, cur.ring);
    HeadsSides(heads, cur, node);
    WithinSides(cur, t0);
    WithinSides(cur, cur);
    RootIsZero(m, Child(m, node, false), node, i, cur.left);
    RootIsZero(m, Child(m, node, true), node, i, cur.right);
  }

  /** Two children of a node are different chunks. */
  lemma ChildrenDiffer(m: Links, heads: Heads, node: nat, up: nat, i: nat, cur: Tree, q: nat, w: nat, t0: Tree)
    requires Subtree(m, heads, node, up, i, cur, q, w, t0) && cur.Node? && cur.left.Node? && cur.right.Node?
    ensures Child(m, node, false) != Child(m, node, true)
  {
    hide Pow2, Subtree;
    SubtreeSides(m, heads, node, up, i, cur, q, w, t0);
    SubtreeSides(m, heads, Child(m, node, false), node, i, cur.left, 2 * q, w - 1, t0);
    SubtreeSides(m, heads, Child(m, node, true), node, i, cur.right, 2 * q + 1, w - 1, t0);
    assert TrieOk(cur, q, w) by {
      SubtreeTrie(m, heads, node, up, i, cur, q, w, t0);
    }
    SideBounds(cur, q, w);
    assert HasSize(cur.left, cur.left.size) && HasSize(cur.right, cur.right.size);
  }

  lemma SubtreeTrie(m: Links, heads: Heads, node: nat, up: nat, i: nat, cur: Tree, q: nat, w: nat, t0: Tree)
    requires Subtree(m, heads, node, up, i, cur, q, w, t0)
    ensures TrieOk(cur, q, w)
  {
  }

  lemma StartCover(t0: Tree, nb: nat, bound: nat)
    requires 0 < nb < WORD_LIMIT
    ensures Best(t0, nb, 0, WORD_LIMIT - nb) && Covers(t0, nb, 0, WORD_LIMIT - nb, t0, Nil) && AtLeast(Nil, bound)
  {
  }

  /** A better chunk covers what the former one did, and its own size. */
  lemma CoverBetter(t0: Tree, nb: nat, v: nat, rsize: nat, v': nat, rsize': nat, cur: Tree, rest: Tree)
    requires Covers(t0, nb, v, rsize, cur, rest) && forall s: nat :: Beaten(nb, v, rsize, s) ==> Beaten(nb, v', rsize', s)
    ensures Covers(t0, nb, v', rsize', cur, rest)
  {
    hide HasSize, Beats, Beaten;
  }

  lemma CoveredBetter(t0: Tree, nb: nat, v: nat, rsize: nat, v': nat, rsize': nat, rest: Tree)
    requires Covered(t0, nb, v, rsize, rest) && forall s: nat :: Beaten(nb, v, rsize, s) ==> Beaten(nb, v', rsize', s)
    ensures Covered(t0, nb, v', rsize', rest)
  {
    hide HasSize, Beats, Beaten;
  }

  lemma ExactCovers(t0: Tree, nb: nat, v: nat, rest: Tree)
    requires v != 0
    ensures Covered(t0, nb, v, 0, rest)
  {
    hide HasSize, Beats;
  }

  /** A node of no width holds the request's size. */
  lemma NoWidth(cur: Tree, nb: nat, q: nat, w: nat)
    requires TrieOk(cur, q, w) && cur.Node? && q * Pow2(w) <= nb < q * Pow2(w) + Pow2(w) && cur.size != nb
    ensures w > 0
  {
    SingletonInterval(cur.size, nb, q, w);
  }

  lemma EndCover(t0: Tree, nb: nat, v: nat, rsize: nat, rest: Tree, bound: nat)
    requires Covers(t0, nb, v, rsize, Nil, rest) && AtLeast(rest, bound) && nb <= bound
    ensures Covered(t0, nb, v, rsize, rest) && AtLeast(rest, nb)
  {
    hide Beaten;
    forall s: nat
      ensures !HasSize(Nil, s)
    {
      NilBeats(s);
    }
  }

  /** The search is at the chunk t, the deepest right subtree not taken is at rst, key is the request shifted. */
  ghost predicate OnPath(m: Links, heads: Heads, nb: nat, i: nat, t0: Tree, t: nat, key: nat, v: nat, rsize: nat, rst: nat, p: Path) {
    && p.cur.Node? && Subtree(m, heads, t, p.up, i, p.cur, p.q, p.w, t0)
    && (if p.rest.Nil? then rst == 0 else rst != 0 && Subtree(m, heads, rst, p.rup, i, p.rest, p.rq, p.rw, t0))
    && p.q * Pow2(p.w) <= nb < p.q * Pow2(p.w) + Pow2(p.w) && p.w <= 64 && key == ShiftedKey(nb, 64 - p.w)
    && Best(t0, nb, v, rsize) && rsize > 0 && Covers(t0, nb, v, rsize, p.cur, p.rest)
    && AtLeast(p.rest, p.q * Pow2(p.w) + Pow2(p.w))
  }

  /** The trees the search is in: the current subtree and the one to fall back on, each with its parent and interval. */
  datatype Path = Path(up: nat, cur: Tree, q: nat, w: nat, rup: nat, rest: Tree, rq: nat, rw: nat)

  ghost function Down(p: Path, node: nat, bit: bool): Path
    requires p.cur.Node? && p.w > 0
  {
    var side := if bit then p.cur.right else p.cur.left;
    var q := if bit then 2 * p.q + 1 else 2 * p.q;
    if p.cur.right.Node? && !bit then Path(node, side, q, p.w - 1, node, p.cur.right, 2 * p.q + 1, p.w - 1)
    else p.(up := node, cur := side, q := q, w := p.w - 1)
  }

  /** One iteration: the node is compared, then the next bit of the request chooses the child. */
  lemma PathNode(m: Links, heads: Heads, nb: nat, i: nat, t0: Tree, t: nat, key: nat, v: nat, rsize: nat, rst: nat, p: Path)
    requires OnPath(m, heads, nb, i, t0, t, key, v, rsize, rst, p) && 0 < nb < WORD_LIMIT
    ensures t != 0 && ChunkSize(heads, t) == p.cur.size < WORD_LIMIT
    ensures var trem := Minus(p.cur.size, nb);
            if trem < rsize then
              Best(t0, nb, t, trem) && (trem > 0 ==> OnPath(m, heads, nb, i, t0, t, key, t, trem, rst, p)) && Beaten(nb, t, trem, p.cur.size)
            else p.cur.size >= nb ==> Beaten(nb, v, rsize, p.cur.size)
    ensures Minus(p.cur.size, nb) == 0 <==> p.cur.size == nb
  {
    hide Pow2, Subtree, Best, Covers, AtLeast, Beaten, ShiftedKey, Minus;
    SubtreeSides(m, heads, t, p.up, i, p.cur, p.q, p.w, t0);
    Compare(t0, nb, v, rsize, t, p.cur.size);
    MinusCases(p.cur.size, nb);
    if Minus(p.cur.size, nb) < rsize {
      CoverBetter(t0, nb, v, rsize, t, Minus(p.cur.size, nb), p.cur, p.rest);
    }
  }

  lemma PathStep(m: Links, heads: Heads, nb: nat, i: nat, t0: Tree, t: nat, key: nat, v: nat, rsize: nat, rst: nat, p: Path)
    requires OnPath(m, heads, nb, i, t0, t, key, v, rsize, rst, p)
    requires p.cur.size != nb && (p.cur.size >= nb ==> Beaten(nb, v, rsize, p.cur.size))
    ensures p.w > 0
    ensures var bit := TopBit(key);
            var t', rt := Child(m, t, bit), Child(m, t, true);
            var rst' := if rt != 0 && rt != t' then rt else rst;
            var p' := Down(p, t, bit);
            && (t' == 0 <==> p'.cur.Nil?)
            && (t' != 0 ==> OnPath(m, heads, nb, i, t0, t', key * 2 % WORD_LIMIT, v, rsize, rst', p'))
            && (t' == 0 ==> AtLeast(p'.rest, nb) && Covered(t0, nb, v, rsize, p'.rest)
                            && if p'.rest.Nil? then rst' == 0
                               else rst' != 0 && Subtree(m, heads, rst', p'.rup, i, p'.rest, p'.rq, p'.rw, t0))
  {
    hide Pow2, Subtree, Best, Covers, Covered, AtLeast, Beaten, ShiftedKey, TopBit, BitAt;
    SubtreeSides(m, heads, t, p.up, i, p.cur, p.q, p.w, t0);
    SubtreeTrie(m, heads, t, p.up, i, p.cur, p.q, p.w, t0);
    NoWidth(p.cur, nb, p.q, p.w);
    CoverStep(t0, nb, v, rsize, p.cur, p.rest, p.q, p.w);
    KeyBit(nb, 64 - p.w);
    KeyShifts(nb, 64 - p.w);
    var bit := TopBit(key);
    if p.cur.left.Node? && p.cur.right.Node? {
      ChildrenDiffer(m, heads, t, p.up, i, p.cur, p.q, p.w, t0);
    }
    var p' := Down(p, t, bit);
    if p'.cur.Nil? {
      EndCover(t0, nb, v, rsize, p'.rest, p'.q * Pow2(p'.w) + Pow2(p'.w));
    }
  }

  /** The first loop of `tmalloc_large`: a path by the bits of nb, noting the deepest right subtree not taken. */
  method SearchPath(m: Links, heads: Heads, nb: nat, i: nat, root: nat, ghost par: nat, ghost t0: Tree)
    returns (t: nat, v: nat, rsize: nat, ghost up: nat, ghost cur: Tree, ghost q: nat, ghost w: nat)
    requires MIN_LARGE_SIZE <= nb < WORD_LIMIT && TreeIndex(nb) == i < BINS && t0.Node?
    requires Subtree(m, heads, root, par, i, t0, BinBase(i), BinWidth(i), t0)
    requires BinBase(i) * Pow2(BinWidth(i)) <= nb < BinBase(i) * Pow2(BinWidth(i)) + Pow2(BinWidth(i))
    ensures Best(t0, nb, v, rsize) && ((v != 0 && rsize == 0) || AtLeast(cur, nb)) && Covered(t0, nb, v, rsize, cur)
    ensures if cur.Nil? then t == 0 else t != 0 && Subtree(m, heads, t, up, i, cur, q, w, t0)
  {
    hide Pow2, TreeIndex, ShiftedKey, TopBit, Subtree, Best, Covers, Covered, AtLeast, Beaten, Minus;
    v, rsize := 0, WORD_LIMIT - nb;
    t := root;
    var key: nat := ShiftedKey(nb, LeftShift(i));
    var rst: nat := 0;
    ShiftOfBin(i);
    ghost var p := Path(par, t0, BinBase(i), BinWidth(i), 0, Nil, 0, 0);
    StartCover(t0, nb, p.q * Pow2(p.w) + Pow2(p.w));
    up, cur, q, w := p.up, p.cur, p.q, p.w;
    while true
      invariant OnPath(m, heads, nb, i, t0, t, key, v, rsize, rst, p)
      decreases p.cur
    {
      PathNode(m, heads, nb, i, t0, t, key, v, rsize, rst, p);
      var trem := Minus(ChunkSize(heads, t), nb);
      if trem < rsize {
        v, rsize := t, trem;
        if rsize == 0 {
          ExactCovers(t0, nb, v, p.cur);
          up, cur, q, w := p.up, p.cur, p.q, p.w;
          break;
        }
      }
      PathStep(m, heads, nb, i, t0, t, key, v, rsize, rst, p);
      var bit := TopBit(key);
      var rt := Child(m, t, true);
      p := Down(p, t, bit);
      t := Child(m, t, bit);
      if rt != 0 && rt != t {
        rst := rt;
      }
      if t == 0 {
        t := rst;
        up, cur, q, w := p.rup, p.rest, p.rq, p.rw;
        break;
      }
      key := key * 2 % WORD_LIMIT;
    }
  }

  /** The second loop: the smallest of a tree or subtree lies on its leftmost path. */
  method SearchLeft(m: Links, heads: Heads, nb: nat, ghost i: nat, t: nat, v: nat, rsize: nat,
                    ghost up: nat, ghost tree: Tree, ghost q: nat, ghost w: nat, ghost t0: Tree)
    returns (best: nat, remains: nat)
    requires 0 < nb < WORD_LIMIT && Best(t0, nb, v, rsize) && ((v != 0 && rsize == 0) || AtLeast(tree, nb)) && Covered(t0, nb, v, rsize, tree)
    requires if tree.Nil? then t == 0 else t != 0 && Subtree(m, heads, t, up, i, tree, q, w, t0)
    ensures v != 0 || tree.Node? ==> best != 0
    ensures Best(t0, nb, best, remains) && forall s: nat :: HasSize(t0, s) && s >= nb ==> Beaten(nb, best, remains, s)
  {
    hide Pow2, Subtree, Best, Covered, AtLeast, Beaten, Has, Minus;
    best, remains := v, rsize;
    var node: nat := t;
    ghost var at: nat, cur, q': nat, w': nat := up, tree, q, w;
    while node != 0
      invariant if cur.Nil? then node == 0 else node != 0 && Subtree(m, heads, node, at, i, cur, q', w', t0)
      invariant Best(t0, nb, best, remains) && ((best != 0 && remains == 0) || AtLeast(cur, nb)) && Covered(t0, nb, best, remains, cur)
      invariant v != 0 ==> best != 0
      decreases cur
    {
      SubtreeSides(m, heads, node, at, i, cur, q', w', t0);
      SubtreeTrie(m, heads, node, at, i, cur, q', w', t0);
      var trem := Minus(ChunkSize(heads, node), nb);
      Compare(t0, nb, best, remains, node, cur.size);
      AtLeastSides(cur, nb);
      if trem < remains {
        CoveredBetter(t0, nb, best, remains, node, trem, cur);
        best, remains := node, trem;
      }
      LeftStep(t0, nb, best, remains, cur, q', w');
      var left := Child(m, node, false);
      at, cur, q', w' := node, LeftmostChild(cur), if cur.left.Node? then 2 * q' else 2 * q' + 1, if w' > 0 then w' - 1 else 0;
      node := if left != 0 then left else Child(m, node, true);
    }
    NothingLeft(t0, nb, best, remains);
    if v == 0 && tree.Node? {
      SubtreeSides(m, heads, t, up, i, tree, q, w, t0);
      HasHasSize(t0, t, tree.size);
      AtLeastSides(tree, nb);
      assert Beaten(nb, best, remains, tree.size);
      BeatenExists(nb, best, remains, tree.size);
    }
  }

  lemma BeatenExists(nb: nat, v: nat, rsize: nat, s: nat)
    requires Beaten(nb, v, rsize, s)
    ensures v != 0
  {
  }

  lemma AtLeastSides(t: Tree, nb: nat)
    requires t.Node?
    ensures AtLeast(t, nb) ==> t.size >= nb && AtLeast(t.left, nb) && AtLeast(t.right, nb)
  {
    if AtLeast(t, nb) {
      assert HasSize(t, t.size);
      assert forall s: nat :: HasSize(t.left, s) ==> HasSize(t, s);
      assert forall s: nat :: HasSize(t.right, s) ==> HasSize(t, s);
    }
  }

  lemma NothingLeft(t0: Tree, nb: nat, v: nat, rsize: nat)
    requires Covered(t0, nb, v, rsize, Nil)
    ensures forall s: nat :: HasSize(t0, s) && s >= nb ==> Beaten(nb, v, rsize, s)
  {
    hide Beaten, HasSize;
    forall s: nat | HasSize(t0, s) && s >= nb
      ensures Beaten(nb, v, rsize, s)
    {
      NilBeats(s);
    }
  }

  // ----- over all bins

  /** v is a large chunk of at least nb in the bins, and no such chunk is smaller. */
  ghost predicate IsBestFit(items: Items, nb: nat, v: nat) {
    && v in items && !IsSmall(items[v]) && items[v] >= nb
    && forall c :: c in items && !IsSmall(items[c]) && items[c] >= nb ==> items[v] <= items[c]
  }

  ghost predicate NoFit(items: Items, nb: nat) {
    forall c :: c in items && !IsSmall(items[c]) ==> items[c] < nb
  }

  /** The chunks of bin i, as a subtree of themselves. */
  lemma WholeTree(m: Links, heads: Heads, marked: bool, root: nat, state: nat, i: nat, t: Tree, items: Items)
    requires TreeBinOk(m, marked, root, TreeBin(state, i), i, t, items) && ItemsOk(state, items)
    requires forall c :: c in items ==> ChunkSize(heads, c) == items[c]
    ensures Subtree(m, heads, root, TreeBin(state, i), i, t, BinBase(i), BinWidth(i), t) && (root == 0 <==> t.Nil?)
  {
    hide TrieOk, Rep, TreeIndex;
    RootIsZero(m, root, TreeBin(state, i), i, t);
  }

  lemma {:induction false} SizeHasChunk(t: Tree, s: nat, q: nat, w: nat)
    requires TrieOk(t, q, w) && HasSize(t, s)
    ensures exists c: nat :: Has(t, c, s)
  {
    hide Pow2;
    if t.size == s {
      assert Has(t, t.ring[0], s);
    } else if HasSize(t.left, s) {
      SizeHasChunk(t.left, s, 2 * q, w - 1);
      var c: nat :| Has(t.left, c, s);
      assert Has(t, c, s);
    } else {
      SizeHasChunk(t.right, s, 2 * q + 1, w - 1);
      var c: nat :| Has(t.right, c, s);
      assert Has(t, c, s);
    }
  }

  /** The sizes of a later bin all exceed the request, and so do all large sizes when the request is small. */
  lemma LaterBinSuffices(m: Links, marked: bool, root: nat, par: nat, i: nat, t: Tree, items: Items, nb: nat, rsize: nat)
    requires TreeBinOk(m, marked, root, par, i, t, items) && (nb <= MIN_LARGE_SIZE || TreeIndex(nb) < i)
    ensures AtLeast(t, nb) && Covered(t, nb, 0, rsize, t)
  {
    hide TrieOk, Rep, TreeIndex, Beats;
    forall s: nat | HasSize(t, s)
      ensures s >= nb && Beats(t, s)
    {
      SizeHasChunk(t, s, BinBase(i), BinWidth(i));
      if nb > MIN_LARGE_SIZE {
        IndexMonotone(nb, s);
      }
      BeatsBy(t, s, s);
    }
  }

  ghost predicate NoneBelow(items: Items, k: nat, nb: nat) {
    forall c :: c in items && !IsSmall(items[c]) && TreeIndex(items[c]) < k ==> items[c] < nb
  }

  /** The least sufficient size of the first bin that has one is the least of all. */
  lemma BestOverall(m: Links, marked: bool, root: nat, par: nat, k: nat, t: Tree, items: Items, nb: nat, v: nat, rsize: nat)
    requires TreeBinOk(m, marked, root, par, k, t, items) && Best(t, nb, v, rsize) && v != 0
    requires forall s: nat :: HasSize(t, s) && s >= nb ==> Beaten(nb, v, rsize, s)
    requires NoneBelow(items, k, nb)
    ensures IsBestFit(items, nb, v) && rsize == items[v] - nb
  {
    hide TrieOk, Rep, TreeIndex, HasSize, Has;
    assert InTree(items[v], k);
    forall c | c in items && !IsSmall(items[c]) && items[c] >= nb
      ensures items[v] <= items[c]
    {
      if TreeIndex(items[c]) == k {
        HasHasSize(t, c, items[c]);
      } else {
        IndexMonotone(items[v], items[c]);
      }
    }
  }

  lemma NoneInBin(m: Links, marked: bool, root: nat, par: nat, k: nat, t: Tree, items: Items, nb: nat)
    requires TreeBinOk(m, marked, root, par, k, t, items)
    requires forall s: nat :: HasSize(t, s) ==> s < nb
    ensures forall c :: c in items && InTree(items[c], k) ==> items[c] < nb
  {
    hide TrieOk, Rep, TreeIndex, HasSize, Has;
    forall c | c in items && InTree(items[c], k)
      ensures items[c] < nb
    {
      HasHasSize(t, c, items[c]);
    }
  }

  /** Bins below the request's hold only smaller chunks. */
  lemma LowerBins(items: Items, nb: nat)
    requires nb >= MIN_LARGE_SIZE
    ensures NoneBelow(items, TreeIndex(nb), nb)
  {
    hide TreeIndex;
    forall c | c in items && !IsSmall(items[c]) && TreeIndex(items[c]) < TreeIndex(nb)
      ensures items[c] < nb
    {
      IndexMonotone(items[c], nb);
    }
  }

  /** No sufficient chunk in bin idx or in the unmarked bins after it. */
  lemma NoneUpTo(b: Bins, idx: nat, k: nat, nb: nat)
    requires b.Valid() && idx < k <= BINS && NoneBelow(b.items, idx, nb)
    requires forall s: nat :: HasSize(b.trees[idx], s) ==> s < nb
    requires forall j: nat :: idx < j < k ==> !BitAt(b.treemap, j)
    ensures NoneBelow(b.items, k, nb)
  {
    hide TrieOk, Rep, TreeIndex, HasSize, Has, BitAt;
    forall c | c in b.items && !IsSmall(b.items[c]) && TreeIndex(b.items[c]) < k
      ensures b.items[c] < nb
    {
      var j := TreeIndex(b.items[c]);
      if j == idx {
        NoneInBin(b.links, BitAt(b.treemap, j), b.roots[j], TreeBin(b.state, j), j, b.trees[j], b.items, nb);
      } else if j > idx {
        EmptyBin(b.links, b.roots[j], TreeBin(b.state, j), j, b.trees[j], b.items, c);
      }
    }
  }

  lemma EmptyBin(m: Links, root: nat, par: nat, j: nat, t: Tree, items: Items, c: nat)
    requires TreeBinOk(m, false, root, par, j, t, items) && c in items && !IsSmall(items[c])
    ensures TreeIndex(items[c]) != j
  {
    hide TreeIndex;
    assert !Has(t, c, items[c]);
  }

  lemma AllBelow(items: Items, nb: nat, state: nat)
    requires NoneBelow(items, BINS, nb) && ItemsOk(state, items)
    ensures NoFit(items, nb)
  {
    hide TreeIndex;
    forall c | c in items && !IsSmall(items[c])
      ensures items[c] < nb
    {
      BinRange(items[c]);
    }
  }

  lemma NilCovers(t0: Tree, nb: nat, rsize: nat)
    requires Covered(t0, nb, 0, rsize, Nil)
    ensures forall s: nat :: HasSize(t0, s) ==> s < nb
  {
    hide HasSize;
    forall s: nat | HasSize(t0, s)
      ensures s < nb
    {
      NilBeats(s);
    }
  }

  /** The search part of `tmalloc_large`: the best fit over all tree bins, or none. */
  method FindLarge(b: Bins, heads: Heads, nb: nat) returns (v: nat, rsize: nat)
    requires b.Valid() && b.SizesIn(heads) && MIN_LARGE_SIZE <= nb < WORD_LIMIT
    ensures if v == 0 then NoFit(b.items, nb) else IsBestFit(b.items, nb, v) && rsize == b.items[v] - nb
  {
    hide Pow2, TreeIndex, TrieOk, Rep, SmallsOk, Subtree, Covers, Covered, AtLeast, And, LeftBits, BitAt, BitToIdxOfLeast, HasSize;
    BinRange(nb);
    var idx := TreeIndex(nb);
    var t: nat;
    t, v, rsize := b.roots[idx], 0, WORD_LIMIT - nb;
    ghost var up: nat, cur, q: nat, w: nat, k := 0, Nil, 0, 0, idx;
    BinTree(b, heads, idx);
    if t != 0 {
      t, v, rsize, up, cur, q, w := SearchPath(b.links, heads, nb, idx, t, TreeBin(b.state, idx), b.trees[idx]);
    } else {
      NilCovered(nb, rsize);
    }
    LowerBins(b.items, nb);
    if t == 0 && v == 0 {
      NilCovers(b.trees[idx], nb, rsize);
      NextMarked(b.treemap, idx);
      var left := And(LeftBits(Pow2(idx)), b.treemap);
      if left != 0 {
        var i := BitToIdxOfLeast(left);
        t := b.roots[i];
        k := i;
        BinTree(b, heads, i);
        LaterBinSuffices(b.links, BitAt(b.treemap, i), b.roots[i], TreeBin(b.state, i), i, b.trees[i], b.items, nb, rsize);
        up, cur, q, w := TreeBin(b.state, i), b.trees[i], BinBase(i), BinWidth(i);
        NoneUpTo(b, idx, k, nb);
      } else {
        NoneUpTo(b, idx, BINS, nb);
        AllBelow(b.items, nb, b.state);
      }
    }
    v, rsize := SearchLeft(b.links, heads, nb, k, t, v, rsize, up, cur, q, w, b.trees[k]);
    if v != 0 {
      BestOverall(b.links, BitAt(b.treemap, k), b.roots[k], TreeBin(b.state, k), k, b.trees[k], b.items, nb, v, rsize);
    }
  }

  lemma NilCovered(nb: nat, rsize: nat)
    ensures Covered(Nil, nb, 0, rsize, Nil) && AtLeast(Nil, nb)
  {
  }

  lemma BinTree(b: Bins, heads: Heads, i: nat)
    requires b.Valid() && b.SizesIn(heads) && i < BINS
    ensures |b.roots| == |b.trees| == BINS && b.treemap < WORD
    ensures Subtree(b.links, heads, b.roots[i], TreeBin(b.state, i), i, b.trees[i], BinBase(i), BinWidth(i), b.trees[i])
    ensures b.roots[i] == 0 <==> b.trees[i].Nil?
    ensures TreeBinOk(b.links, BitAt(b.treemap, i), b.roots[i], TreeBin(b.state, i), i, b.trees[i], b.items)
    ensures BitAt(b.treemap, i) <==> b.trees[i].Node?
  {
    hide SmallsOk, BitAt, Subtree, TrieOk, Rep, Has, TreeIndex;
    WholeTree(b.links, heads, BitAt(b.treemap, i), b.roots[i], b.state, i, b.trees[i], b.items);
  }

  lemma NoneBelowFirst(b: Bins, i: nat, nb: nat)
    requires b.Valid() && i < BINS && forall j: nat :: j < i ==> !BitAt(b.treemap, j)
    ensures NoneBelow(b.items, i, nb)
  {
    hide TrieOk, Rep, TreeIndex, HasSize, Has, BitAt;
    forall c | c in b.items && !IsSmall(b.items[c])
      ensures TreeIndex(b.items[c]) >= i
    {
      var j := TreeIndex(b.items[c]);
      if j < i {
        EmptyBin(b.links, b.roots[j], TreeBin(b.state, j), j, b.trees[j], b.items, c);
      }
    }
  }

  /** The search part of `tmalloc_small`: the smallest chunk of the first tree. */
  method FindSmallest(b: Bins, heads: Heads, nb: nat) returns (v: nat, rsize: nat)
    requires b.Valid() && b.SizesIn(heads) && b.treemap != 0 && 0 < nb <= MIN_LARGE_SIZE
    ensures IsBestFit(b.items, nb, v) && rsize == b.items[v] - nb
  {
    hide Pow2, TreeIndex, TrieOk, Rep, SmallsOk, Subtree, Covered, AtLeast, BitAt, HasSize, Has, LeastBit;
    BinTree(b, heads, 0);
    FirstMarked(b.treemap);
    var i := BitToIdx(LeastBit(b.treemap));
    BinTree(b, heads, i);
    ghost var t0, par := b.trees[i], TreeBin(b.state, i);
    var t := b.roots[i];
    SubtreeSides(b.links, heads, t, par, i, t0, BinBase(i), BinWidth(i), t0);
    LaterBinSuffices(b.links, BitAt(b.treemap, i), t, par, i, t0, b.items, nb, WORD_LIMIT - nb);
    Compare(t0, nb, 0, WORD_LIMIT - nb, t, t0.size);
    AtLeastSides(t0, nb);
    MinusCases(t0.size, nb);
    v, rsize := t, Minus(ChunkSize(heads, t), nb);
    CoveredBetter(t0, nb, 0, WORD_LIMIT - nb, v, rsize, t0);
    LeftStep(t0, nb, v, rsize, t0, BinBase(i), BinWidth(i));
    NoneBelowFirst(b, i, nb);
    var left := Child(b.links, t, false);
    var next := if left != 0 then left else Child(b.links, t, true);
    ghost var w := BinWidth(i);
    v, rsize := SearchLeft(b.links, heads, nb, i, next, v, rsize, t, LeftmostChild(t0),
                           if t0.left.Node? then 2 * BinBase(i) else 2 * BinBase(i) + 1, if w > 0 then w - 1 else 0, t0);
    BestOverall(b.links, BitAt(b.treemap, i), b.roots[i], par, i, t0, b.items, nb, v, rsize);
  }
}
