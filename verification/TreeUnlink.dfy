/** The pointer updates of a removal from a tree, put together. */
module TreeUnlink {
  import opened Bits
  import opened TreeIndexes
  import opened Tries
  import opened ChunkLinks
  import opened TreeLinks

  /** x is a chunk of the tree t whose root chunk p hangs off par. */
  ghost predicate InTreeAt(m: Links, p: nat, par: nat, idx: nat, t: Tree, x: nat, q: nat, w: nat, items: map<nat, nat>) {
    && Rep(m, p, par, idx, t) && TrieOk(t, q, w) && SizedBy(t, items) && Member(t, x, items)
    && par != 0 && par !in items && 0 !in items
  }

  ghost function NodeHolding(t: Tree, x: nat, q: nat, w: nat, items: map<nat, nat>): Tree
    requires TrieOk(t, q, w) && Member(t, x, items)
  {
    NodeOf(t, x, items[x], q, w)
  }

  lemma {:induction false} NodeRep(m: Links, p: nat, par: nat, idx: nat, t: Tree, x: nat, size: nat, q: nat, w: nat) returns (qn: nat, wn: nat)
    requires Rep(m, p, par, idx, t) && TrieOk(t, q, w) && Has(t, x, size)
    ensures var n := NodeOf(t, x, size, q, w);
            TrieOk(n, qn, wn) && n.ring != [] && x in n.ring && Rep(m, n.ring[0], At(m.parent, n.ring[0]), idx, n)
    decreases t
  {
    hide Pow2, BitAt, RootRep;
    HasInHalf(t, q, w, x, size);
    FirstInRing(m, p, par, idx, t.ring);
    if t.size == size {
      qn, wn := q, w;
    } else if BitAt(size, w - 1) {
      qn, wn := NodeRep(m, At(m.right, p), p, idx, t.right, x, size, 2 * q + 1, w - 1);
    } else {
      qn, wn := NodeRep(m, At(m.left, p), p, idx, t.left, x, size, 2 * q, w - 1);
    }
  }

  /** x is out of its ring, or the leaf r that replaces it is detached. */
  ghost predicate Staged(m: Links, m1: Links, x: nat, r: nat, idx: nat, n: Tree, items: map<nat, nat>) {
    && n.Node? && n.ring != [] && x in n.ring && OnlyNear(m, m1, n, 0, items)
    && if x != n.ring[0] then At(m.parent, x) == 0 && Rep(m1, n.ring[0], At(m.parent, n.ring[0]), idx, RemoveHere(n, x))
       else if r == 0 then RemoveHere(n, x).Nil? && m1 == m
       else Ready(m1, x, r, idx, RemoveHere(n, x))
  }

  lemma StageRing(m: Links, p: nat, par: nat, idx: nat, t: Tree, x: nat, q: nat, w: nat, items: map<nat, nat>)
    requires InTreeAt(m, p, par, idx, t, x, q, w, items) && At(m.bk, x) != x
    ensures Staged(m, RingOut(m, x), x, At(m.bk, x), idx, NodeHolding(t, x, q, w, items), items) && At(m.bk, x) in items
  {
    hide TrieOk, RootRep, Has, NodeOf, RingOut, OnlyNear, Ready, Drop;
    var n := NodeHolding(t, x, q, w, items);
    var qn, wn := NodeRep(m, p, par, idx, t, x, items[x], q, w);
    NodeSized(t, x, items[x], q, w, items);
    RingSize(m, n, idx, x, qn, wn);
    RingOutRep(m, n.ring[0], At(m.parent, n.ring[0]), idx, n, x, qn, wn, items);
    ParentOfMember(m, n, x, idx);
  }

  /** A chunk is its own back link just when its ring has no other. */
  lemma RingSize(m: Links, n: Tree, idx: nat, x: nat, q: nat, w: nat)
    requires n.Node? && n.ring != [] && x in n.ring && TrieOk(n, q, w) && Rep(m, n.ring[0], At(m.parent, n.ring[0]), idx, n)
    ensures At(m.bk, x) == x <==> |n.ring| == 1
  {
    hide RingStep, Rep;
    RootOf(m, n.ring[0], At(m.parent, n.ring[0]), idx, n, q, w);
    var i :| 0 <= i < |n.ring| && n.ring[i] == x;
    AloneIff(m.fd, m.bk, n.ring, i);
  }

  /** The link through which the deepest leaf below x is reached, and that leaf. */
  ghost predicate LeafLink(n: Tree, x: nat, link: (nat, bool), r: nat) {
    n.Node? && (n.left.Node? || n.right.Node?) &&
    var side := if n.right.Node? then n.right else n.left;
    RingsOk(side) && link == DeepLink(side, (x, n.right.Node?)) && Detach(side).0.ring != [] && r == Detach(side).0.ring[0]
  }

  lemma StageLeaf(m: Links, p: nat, par: nat, idx: nat, t: Tree, x: nat, link: (nat, bool), r: nat, q: nat, w: nat, items: map<nat, nat>)
    requires InTreeAt(m, p, par, idx, t, x, q, w, items) && At(m.bk, x) == x
    requires LeafLink(NodeHolding(t, x, q, w, items), x, link, r)
    ensures Staged(m, SetChild(m, link.0, link.1, 0), x, r, idx, NodeHolding(t, x, q, w, items), items)
  {
    hide TrieOk, RootRep, NodeOf, SetChild, AgreeLinks, RemoveRoot;
    var n := NodeHolding(t, x, q, w, items);
    var qn, wn := NodeRep(m, p, par, idx, t, x, items[x], q, w);
    NodeSized(t, x, items[x], q, w, items);
    RingSize(m, n, idx, x, qn, wn);
    NodeMembers(t, x, items[x], q, w, items);
    PartsDisjoint(n, qn, wn, items);
    LeafReady(m, n.ring[0], At(m.parent, n.ring[0]), idx, n, qn, wn, items);
    SetChildChanges(m, link.0, link.1, 0);
    assert n.ring[0] in n.ring && x == n.ring[0];
    var m1 := SetChild(m, link.0, link.1, 0);
    assert Member(n, link.0, items);
    FirstInRing(m1, r, At(m1.parent, r), idx, RemoveRoot(n).ring);
  }

  lemma StageLone(m: Links, p: nat, par: nat, idx: nat, t: Tree, x: nat, q: nat, w: nat, items: map<nat, nat>)
    requires InTreeAt(m, p, par, idx, t, x, q, w, items) && At(m.bk, x) == x
    requires NodeHolding(t, x, q, w, items).Node? && NodeHolding(t, x, q, w, items).left.Nil? && NodeHolding(t, x, q, w, items).right.Nil?
    ensures Staged(m, m, x, 0, idx, NodeHolding(t, x, q, w, items), items)
  {
    hide TrieOk, RootRep, NodeOf;
    var n := NodeHolding(t, x, q, w, items);
    var qn, wn := NodeRep(m, p, par, idx, t, x, items[x], q, w);
    RingSize(m, n, idx, x, qn, wn);
    assert RemoveHere(n, x) == RemoveRoot(n);
  }

  // ----- after staging

  /** The parent's link to x leads to r; the root pointer of a bin is none of the links. */
  function Redirect(m: Links, xp: nat, p: nat, x: nat, r: nat): Links {
    if x == p then m else SetChild(m, xp, At(m.left, xp) != x, r)
  }

  function Finish(m: Links, xp: nat, p: nat, x: nat, r: nat): Links {
    if xp == 0 then m
    else if r == 0 then Redirect(m, xp, p, x, r)
    else Adopt(Redirect(m, xp, p, x, r), x, r, xp)
  }

  /** What removal keeps of the node: a trie of the same chunks without x. */
  lemma RemainsOfNode(n: Tree, x: nat, q: nat, w: nat, items: map<nat, nat>)
    requires TrieOk(n, q, w) && n.Node? && x in n.ring && SizedBy(n, items)
    ensures var n' := RemoveHere(n, x);
            && TrieOk(n', q, w) && SizedBy(n', items) && !Member(n', x, items)
            && forall c :: Member(n', c, items) ==> Member(n, c, items)
  {
    hide TrieOk, Pow2;
    assert Has(n, x, n.size);
    RemoveCorrect(n, x, n.size, q, w);
  }

  lemma RedirectChanges(m: Links, m1: Links, p: nat, par: nat, idx: nat, t: Tree, x: nat, r: nat, q: nat, w: nat, items: map<nat, nat>)
    requires InTreeAt(m, p, par, idx, t, x, q, w, items) && Staged(m, m1, x, r, idx, NodeHolding(t, x, q, w, items), items)
    requires x == NodeHolding(t, x, q, w, items).ring[0]
    ensures var n := NodeHolding(t, x, q, w, items);
            var xp := At(m.parent, x);
            var m2 := Redirect(m1, xp, p, x, r);
            && xp != 0 && Redirected(m, m2, n, xp, x, r, items) && (r != 0 ==> Ready(m2, x, r, idx, RemoveHere(n, x)))
            && OnlyNear(m, m2, t, 0, items)
  {
    hide TrieOk, RootRep, NodeOf, SetChild, AgreeLinks, RemoveHere, Ready, Rep, Has;
    var n := NodeHolding(t, x, q, w, items);
    var xp := At(m.parent, x);
    var qn, wn := NodeRep(m, p, par, idx, t, x, items[x], q, w);
    NodeSized(t, x, items[x], q, w, items);
    NodeMembers(t, x, items[x], q, w, items);
    NodeLink(m, p, par, idx, t, x, items[x], q, w, items);
    NodeHead(t, x, items[x], q, w, items);
    RemainsOfNode(n, x, qn, wn, items);
    if x != p {
      RedirectStep(m, m1, t, n, xp, x, r, items);
      if r != 0 {
        ReadyFrame(m1, x, r, idx, RemoveHere(n, x), xp, At(m1.left, xp) != x, r, qn, wn, items);
      }
    }
  }

  lemma RedirectStep(m: Links, m1: Links, t: Tree, n: Tree, xp: nat, x: nat, r: nat, items: map<nat, nat>)
    requires OnlyNear(m, m1, n, 0, items) && xp in items && Member(t, xp, items) && !Member(n, xp, items) && 0 !in items
    requires (Child(m, xp, false) == x) != (Child(m, xp, true) == x) && forall c :: Member(n, c, items) ==> Member(t, c, items)
    ensures var m2 := SetChild(m1, xp, At(m1.left, xp) != x, r);
            Redirected(m, m2, n, xp, x, r, items) && OnlyNear(m, m2, t, 0, items)
  {
    hide Member, AgreeLinks, SetChild;
    assert AgreeAt(m, m1, xp);
    SetChildChanges(m1, xp, At(m1.left, xp) != x, r);
    var m2 := SetChild(m1, xp, At(m1.left, xp) != x, r);
    forall c | c != 0 && !Member(n, c, items)
      ensures AgreeLinks(m, m2, c) && (c != xp ==> AgreeChildren(m, m2, c))
    {
      assert AgreeAt(m, m1, c);
      assert c != xp ==> AgreeChildren(m1, m2, c);
      LinksTransitive(m, m1, m2, c);
    }
  }

  lemma LinksTransitive(m: Links, m1: Links, m2: Links, c: nat)
    requires AgreeLinks(m, m1, c) && AgreeLinks(m1, m2, c)
    ensures AgreeLinks(m, m2, c)
  {
  }

  lemma AdoptKeeps(m: Links, m2: Links, t: Tree, n: Tree, xp: nat, x: nat, r: nat, idx: nat, q: nat, w: nat, items: map<nat, nat>)
    requires TrieOk(n, q, w) && n.Node? && x in n.ring && SizedBy(n, items) && 0 !in items
    requires Ready(m2, x, r, idx, RemoveHere(n, x)) && Redirected(m, m2, n, xp, x, r, items) && !Member(n, xp, items)
    requires OnlyNear(m, m2, t, 0, items) && forall c :: Member(n, c, items) ==> Member(t, c, items)
    ensures var m' := Adopt(m2, x, r, xp);
            Redirected(m, m', n, xp, x, r, items) && OnlyNear(m, m', t, 0, items) && Rep(m', r, xp, idx, RemoveHere(n, x))
  {
    hide TrieOk, RootRep, Adopt, RemoveHere, Has;
    var n' := RemoveHere(n, x);
    RemainsOfNode(n, x, q, w, items);
    AdoptRep(m2, x, r, xp, idx, n', q, w, items);
    FirstInRing(m2, r, At(m2.parent, r), idx, n'.ring);
    RingInItems(n', items);
    PartsDisjoint(n', q, w, items);
    RootMember(m2, Child(m2, x, false), x, idx, n'.left, items);
    RootMember(m2, Child(m2, x, true), x, idx, n'.right, items);
    AdoptLocal(m, m2, t, n, xp, x, r, items);
  }

  lemma AdoptLocal(m: Links, m2: Links, t: Tree, n: Tree, xp: nat, x: nat, r: nat, items: map<nat, nat>)
    requires Redirected(m, m2, n, xp, x, r, items) && !Member(n, xp, items) && 0 !in items
    requires OnlyNear(m, m2, t, 0, items) && forall c :: Member(n, c, items) ==> Member(t, c, items)
    requires var a, b := Child(m2, x, false), Child(m2, x, true);
             x != r && Member(n, r, items) && (a == 0 || Member(n, a, items)) && (b == 0 || Member(n, b, items))
    ensures var m' := Adopt(m2, x, r, xp);
            Redirected(m, m', n, xp, x, r, items) && OnlyNear(m, m', t, 0, items)
  {
    hide Adopt, Member, AgreeAt, OnlyNear, Redirected;
    var m' := Adopt(m2, x, r, xp);
    AdoptAgree(m2, n, xp, x, r, items);
    RedirectedThen(m, m2, m', t, n, xp, x, r, items);
  }

  lemma AdoptAgree(m2: Links, n: Tree, xp: nat, x: nat, r: nat, items: map<nat, nat>)
    requires var a, b := Child(m2, x, false), Child(m2, x, true);
             x != r && Member(n, r, items) && (a == 0 || Member(n, a, items)) && (b == 0 || Member(n, b, items))
    ensures forall c :: c != 0 && !Member(n, c, items) ==> AgreeAt(m2, Adopt(m2, x, r, xp), c)
  {
    hide Adopt, Member;
    var m' := Adopt(m2, x, r, xp);
    AdoptChanges(m2, x, r, xp);
    forall c | c != 0 && !Member(n, c, items)
      ensures AgreeAt(m2, m', c)
    {
      assert ParentOnly(m2, m', c, At(m2.parent, c));
    }
  }

  lemma RedirectedThen(m: Links, m2: Links, m': Links, t: Tree, n: Tree, xp: nat, x: nat, r: nat, items: map<nat, nat>)
    requires Redirected(m, m2, n, xp, x, r, items) && OnlyNear(m, m2, t, 0, items) && !Member(n, xp, items) && 0 !in items
    requires forall c :: Member(n, c, items) ==> Member(t, c, items)
    requires forall c :: c != 0 && !Member(n, c, items) ==> AgreeAt(m2, m', c)
    ensures Redirected(m, m', n, xp, x, r, items) && OnlyNear(m, m', t, 0, items)
  {
    hide Member, AgreeLinks;
    forall c | c != 0 && !Member(n, c, items)
      ensures AgreeLinks(m, m2, c) ==> AgreeLinks(m, m', c)
      ensures AgreeChildren(m, m2, c) ==> AgreeChildren(m, m', c)
    {
      assert AgreeAt(m2, m', c);
      if AgreeLinks(m, m2, c) {
        LinksTransitive(m, m2, m', c);
      }
    }
    forall c | c != 0 && !Member(t, c, items)
      ensures AgreeAt(m, m', c)
    {
      assert AgreeAt(m, m2, c) && !Member(n, c, items);
    }
    assert xp in items ==> AgreeAt(m2, m', xp);
  }

  /** The whole removal: the link words represent the tree without x, and no other chunk's links differ. */
  lemma FinishRep(m: Links, m1: Links, p: nat, par: nat, idx: nat, t: Tree, x: nat, r: nat, q: nat, w: nat, items: map<nat, nat>)
    requires InTreeAt(m, p, par, idx, t, x, q, w, items) && Staged(m, m1, x, r, idx, NodeHolding(t, x, q, w, items), items)
    ensures var m' := Finish(m1, At(m.parent, x), p, x, r);
            && Rep(m', Swap(p, x, r), par, idx, Remove(t, x, items[x], q, w)) && OnlyNear(m, m', t, 0, items)
  {
    hide TrieOk, RootRep, NodeOf, Adopt, RemoveHere, Ready, Redirect, Redirected, Remove, Has;
    var n := NodeHolding(t, x, q, w, items);
    var xp := At(m.parent, x);
    var m' := Finish(m1, xp, p, x, r);
    var qn, wn := NodeRep(m, p, par, idx, t, x, items[x], q, w);
    NodeSized(t, x, items[x], q, w, items);
    NodeMembers(t, x, items[x], q, w, items);
    if x == n.ring[0] {
      RedirectChanges(m, m1, p, par, idx, t, x, r, q, w, items);
      if r != 0 {
        NodeLink(m, p, par, idx, t, x, items[x], q, w, items);
        AdoptKeeps(m, Redirect(m1, xp, p, x, r), t, n, xp, x, r, idx, qn, wn, items);
      }
    } else {
      ChainedRedirect(m, m1, n, x, r, items);
    }
    UnlinkUp(m, m', p, par, idx, t, x, r, items[x], q, w, items);
  }

  lemma ChainedRedirect(m: Links, m': Links, n: Tree, x: nat, r: nat, items: map<nat, nat>)
    requires OnlyNear(m, m', n, 0, items) && 0 !in items
    ensures Redirected(m, m', n, 0, x, r, items)
  {
    hide AgreeLinks, AgreeChildren, Member;
  }
}
