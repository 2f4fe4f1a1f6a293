/** How the link words of free chunks represent a tree, and what the pointer updates of insertion and removal do. */
module TreeLinks {
  import opened Bits
  import opened TreeIndexes
  import opened Tries
  import opened ChunkLinks

  /** A chunk in a ring but not in the tree has no parent and no children. */
  predicate Chained(m: Links, c: nat) {
    At(m.parent, c) == 0 && At(m.left, c) == 0 && At(m.right, c) == 0
  }

  /** p is the root chunk of t, hanging off the link holder par, in bin idx. */
  ghost predicate Rep(m: Links, p: nat, par: nat, idx: nat, t: Tree)
    decreases t
  {
    match t
    case Nil => p == 0
    case Node(_, ring, left, right) =>
      && RootRep(m, p, par, idx, ring)
      && Rep(m, At(m.left, p), p, idx, left)
      && Rep(m, At(m.right, p), p, idx, right)
  }

  ghost predicate RootRep(m: Links, p: nat, par: nat, idx: nat, ring: seq<nat>) {
    && p != 0 && Ring(m.fd, m.bk, ring) && ring[0] == p && At(m.parent, p) == par
    && (forall c :: c in ring ==> At(m.index, c) == idx && c != 0)
    && (forall i :: 1 <= i < |ring| ==> Chained(m, ring[i]))
  }

  /** The chunks of t, with their sizes, are among items. */
  ghost predicate SizedBy(t: Tree, items: map<nat, nat>) {
    forall c, s :: Has(t, c, s) ==> c in items && items[c] == s
  }

  ghost predicate Member(t: Tree, c: nat, items: map<nat, nat>) {
    c in items && Has(t, c, items[c])
  }

  predicate AgreeAt(m: Links, m': Links, c: nat) {
    AgreeLinks(m, m', c) && AgreeChildren(m, m', c)
  }

  predicate AgreeLinks(m: Links, m': Links, c: nat) {
    && At(m.fd, c) == At(m'.fd, c) && At(m.bk, c) == At(m'.bk, c)
    && At(m.parent, c) == At(m'.parent, c) && At(m.index, c) == At(m'.index, c)
  }

  predicate AgreeChildren(m: Links, m': Links, c: nat) {
    At(m.left, c) == At(m'.left, c) && At(m.right, c) == At(m'.right, c)
  }

  /** No difference on a ring, except perhaps in the children of its first chunk. */
  ghost predicate AgreeRing(m: Links, m': Links, ring: seq<nat>) {
    && (forall c :: c in ring ==> AgreeLinks(m, m', c))
    && (forall i :: 1 <= i < |ring| ==> AgreeChildren(m, m', ring[i]))
  }

  ghost predicate AgreeOn(m: Links, m': Links, t: Tree) {
    forall c, s :: Has(t, c, s) ==> AgreeAt(m, m', c)
  }

  /** Only x and the chunks of t may differ. */
  ghost predicate OnlyNear(m: Links, m': Links, t: Tree, x: nat, items: map<nat, nat>) {
    forall c :: c != x && !Member(t, c, items) ==> AgreeAt(m, m', c)
  }

  lemma {:induction false} RepFrame(m: Links, m': Links, p: nat, par: nat, idx: nat, t: Tree)
    requires Rep(m, p, par, idx, t) && AgreeOn(m, m', t)
    ensures Rep(m', p, par, idx, t)
    decreases t
  {
    hide RootRep, AgreeLinks;
    if t.Node? {
      AgreeParts(m, m', t);
      RootFrame(m, m', p, par, idx, t.ring);
      RepFrame(m, m', At(m.left, p), p, idx, t.left);
      RepFrame(m, m', At(m.right, p), p, idx, t.right);
      FirstInRing(m, p, par, idx, t.ring);
    }
  }

  lemma FirstInRing(m: Links, p: nat, par: nat, idx: nat, ring: seq<nat>)
    requires RootRep(m, p, par, idx, ring)
    ensures ring != [] && ring[0] == p && p in ring && p != 0 && At(m.parent, p) == par
  {
  }

  lemma AgreeParts(m: Links, m': Links, t: Tree)
    requires t.Node? && AgreeOn(m, m', t)
    ensures (forall c :: c in t.ring ==> AgreeAt(m, m', c)) && AgreeRing(m, m', t.ring)
    ensures AgreeOn(m, m', t.left) && AgreeOn(m, m', t.right)
  {
    hide AgreeLinks, AgreeChildren;
    assert forall c :: c in t.ring ==> Has(t, c, t.size);
    assert forall c, s :: Has(t.left, c, s) ==> Has(t, c, s);
    assert forall c, s :: Has(t.right, c, s) ==> Has(t, c, s);
    assert forall i :: 1 <= i < |t.ring| ==> t.ring[i] in t.ring;
  }

  lemma RootFrame(m: Links, m': Links, p: nat, par: nat, idx: nat, ring: seq<nat>)
    requires RootRep(m, p, par, idx, ring) && AgreeRing(m, m', ring)
    ensures RootRep(m', p, par, idx, ring)
  {
    hide RingStep;
    assert ring[0] in ring;
    RingFrame(m.fd, m.bk, m'.fd, m'.bk, ring);
    assert forall i :: 1 <= i < |ring| ==> ring[i] in ring;
  }

  /** The chunks of a node and of its two subtrees are three disjoint sets. */
  lemma PartsDisjoint(t: Tree, q: nat, w: nat, items: map<nat, nat>)
    requires TrieOk(t, q, w) && t.Node? && SizedBy(t, items)
    ensures SizedBy(t.left, items) && SizedBy(t.right, items)
    ensures forall c :: c in t.ring ==> Member(t, c, items) && !Member(t.left, c, items) && !Member(t.right, c, items)
    ensures forall c :: Member(t.left, c, items) ==> Member(t, c, items) && !Member(t.right, c, items)
    ensures forall c :: Member(t.right, c, items) ==> Member(t, c, items)
  {
    assert forall c, s :: Has(t.left, c, s) ==> Has(t, c, s);
    assert forall c, s :: Has(t.right, c, s) ==> Has(t, c, s);
    RootSizeUnique(t, q, w);
    assert forall c :: c in t.ring ==> Has(t, c, t.size);
    forall c | Member(t.left, c, items)
      ensures !Member(t.right, c, items)
    {
      HasHasSize(t.left, c, items[c]);
      if Member(t.right, c, items) {
        HasHasSize(t.right, c, items[c]);
        SizeInHalf(t, q, w, items[c]);
      }
    }
  }

  lemma NearAgree(m: Links, m': Links, t: Tree, x: nat, u: Tree, items: map<nat, nat>)
    requires OnlyNear(m, m', t, x, items) && SizedBy(u, items) && x !in items
    requires forall c :: Member(u, c, items) ==> !Member(t, c, items)
    ensures AgreeOn(m, m', u)
  {
    hide AgreeAt;
    assert forall c, s :: Has(u, c, s) ==> Member(u, c, items);
  }

  // ----- insertion

  /** X->_index = I; X->_child[0] = X->_child[1] = 0. */
  function Blank(m: Links, x: nat, idx: nat): Links {
    m.(index := m.index[x := idx], left := m.left[x := 0], right := m.right[x := 0])
  }

  predicate IsBlank(m: Links, x: nat, idx: nat) {
    x != 0 && At(m.index, x) == idx && At(m.left, x) == 0 && At(m.right, x) == 0
  }

  function JoinRing(m: Links, t: nat, x: nat): Links {
    var f := At(m.fd, t);
    m.(fd := m.fd[t := x][x := f], bk := m.bk[f := x][x := t], parent := m.parent[x := 0])
  }

  /** x becomes a node of its own below its parent. */
  function Hang(m: Links, par: nat, x: nat): Links {
    m.(parent := m.parent[x := par], fd := m.fd[x := x], bk := m.bk[x := x])
  }

  ghost function InsertLinks(m: Links, t: Tree, x: nat, size: nat, q: nat, w: nat): Links
    requires TrieOk(t, q, w) && t.Node? && q * Pow2(w) <= size < q * Pow2(w) + Pow2(w)
    decreases t
  {
    if t.size == size then JoinRing(m, t.ring[0], x)
    else
      SingletonInterval(t.size, size, q, w);
      HalfBit(size, q, w);
      Halves(q, w);
      var bit := BitAt(size, w - 1);
      var child := if bit then t.right else t.left;
      if child.Nil? then Hang(SetChild(m, t.ring[0], bit, x), t.ring[0], x)
      else InsertLinks(m, child, x, size, if bit then 2 * q + 1 else 2 * q, w - 1)
  }

  function Lone(t: Tree): Tree
    requires t.Node?
  {
    Node(t.size, t.ring, Nil, Nil)
  }

  lemma LoneMembers(t: Tree, items: map<nat, nat>)
    requires t.Node? && SizedBy(t, items)
    ensures forall c :: Member(Lone(t), c, items) <==> c in t.ring
  {
    RingInItems(t, items);
    forall c
      ensures Member(Lone(t), c, items) <==> c in t.ring
    {
      if c in items {
        assert !Has(Nil, c, items[c]);
      }
    }
  }

  /** Changes to the root's ring and to a foreign chunk leave both subtrees as they were. */
  lemma SidesFrame(m: Links, m': Links, p: nat, idx: nat, t: Tree, x: nat, q: nat, w: nat, items: map<nat, nat>)
    requires TrieOk(t, q, w) && t.Node? && SizedBy(t, items) && x !in items
    requires OnlyNear(m, m', Lone(t), x, items)
    ensures forall a :: Rep(m, a, p, idx, t.left) ==> Rep(m', a, p, idx, t.left)
    ensures forall a :: Rep(m, a, p, idx, t.right) ==> Rep(m', a, p, idx, t.right)
    ensures OnlyNear(m, m', t, x, items)
  {
    hide Rep, AgreeAt, TrieOk;
    PartsDisjoint(t, q, w, items);
    LoneMembers(t, items);
    NearAgree(m, m', Lone(t), x, t.left, items);
    NearAgree(m, m', Lone(t), x, t.right, items);
    forall a | Rep(m, a, p, idx, t.left)
      ensures Rep(m', a, p, idx, t.left)
    {
      RepFrame(m, m', a, p, idx, t.left);
    }
    forall a | Rep(m, a, p, idx, t.right)
      ensures Rep(m', a, p, idx, t.right)
    {
      RepFrame(m, m', a, p, idx, t.right);
    }
  }

  lemma JoinRoot(m: Links, p: nat, par: nat, idx: nat, ring: seq<nat>, x: nat)
    requires RootRep(m, p, par, idx, ring) && NoDup(ring) && x !in ring && IsBlank(m, x, idx)
    ensures At(m.fd, p) in ring && RootRep(JoinRing(m, p, x), p, par, idx, PutAfterFirst(ring, x))
  {
    hide Ring;
    FirstInRing(m, p, par, idx, ring);
    RingPut(m.fd, m.bk, ring, x);
    var m' := JoinRing(m, p, x);
    var r := PutAfterFirst(ring, x);
    assert forall c :: c in r ==> c in ring || c == x;
    forall i | 1 <= i < |r|
      ensures Chained(m', r[i])
    {
      if i > 1 {
        assert r[i] == ring[i - 1] && Chained(m, ring[i - 1]) && ring[i - 1] in ring;
      }
    }
  }

  lemma JoinRep(m: Links, p: nat, par: nat, idx: nat, t: Tree, x: nat, q: nat, w: nat, items: map<nat, nat>)
    requires Rep(m, p, par, idx, t) && TrieOk(t, q, w) && t.Node? && SizedBy(t, items)
    requires x !in items && IsBlank(m, x, idx)
    ensures var m' := JoinRing(m, p, x);
            Rep(m', p, par, idx, t.(ring := PutAfterFirst(t.ring, x))) && OnlyNear(m, m', t, x, items)
  {
    hide RootRep, PutAfterFirst;
    var m' := JoinRing(m, p, x);
    assert RootRep(m, p, par, idx, t.ring) && NoDup(t.ring);
    PartsDisjoint(t, q, w, items);
    FirstInRing(m, p, par, idx, t.ring);
    JoinRoot(m, p, par, idx, t.ring, x);
    LoneMembers(t, items);
    assert OnlyNear(m, m', Lone(t), x, items);
    SidesFrame(m, m', p, idx, t, x, q, w, items);
  }

  lemma RootOf(m: Links, p: nat, par: nat, idx: nat, t: Tree, q: nat, w: nat)
    requires Rep(m, p, par, idx, t) && TrieOk(t, q, w) && t.Node?
    ensures RootRep(m, p, par, idx, t.ring) && NoDup(t.ring)
  {
  }

  lemma HangFields(m: Links, p: nat, bit: bool, x: nat)
    requires x != p
    ensures var m' := Hang(SetChild(m, p, bit, x), p, x);
            && (forall c :: c != x ==> AgreeLinks(m, m', c)) && (forall c :: c != p ==> AgreeChildren(m, m', c))
            && Child(m', p, !bit) == Child(m, p, !bit) && Child(m', p, bit) == x
            && At(m'.parent, x) == p && At(m'.fd, x) == x && At(m'.bk, x) == x && At(m'.index, x) == At(m.index, x)
  {
  }

  lemma HangNear(m: Links, p: nat, par: nat, idx: nat, t: Tree, bit: bool, x: nat, items: map<nat, nat>)
    requires t.Node? && RootRep(m, p, par, idx, t.ring) && NoDup(t.ring) && SizedBy(t, items) && x !in items && x != 0
    ensures var m' := Hang(SetChild(m, p, bit, x), p, x);
            OnlyNear(m, m', Lone(t), x, items) && AgreeRing(m, m', t.ring) && Child(m', p, !bit) == Child(m, p, !bit)
            && x != p && Child(m', p, bit) == x
  {
    hide RootRep, SizedBy, Member, AgreeLinks, AgreeChildren, Hang, SetChild, Child;
    FirstInRing(m, p, par, idx, t.ring);
    LoneMembers(t, items);
    RingInItems(t, items);
    HangFields(m, p, bit, x);
    assert forall i :: 1 <= i < |t.ring| ==> t.ring[i] in t.ring && t.ring[i] != p;
  }

  lemma RingInItems(t: Tree, items: map<nat, nat>)
    requires t.Node? && SizedBy(t, items)
    ensures forall c :: c in t.ring ==> c in items && items[c] == t.size
  {
    assert forall c :: c in t.ring ==> Has(t, c, t.size);
  }

  /** A new leaf in an empty child place of p. */
  lemma HangRep(m: Links, p: nat, par: nat, idx: nat, t: Tree, bit: bool, x: nat, size: nat, q: nat, w: nat, items: map<nat, nat>)
    requires Rep(m, p, par, idx, t) && TrieOk(t, q, w) && t.Node? && SizedBy(t, items)
    requires x !in items && IsBlank(m, x, idx) && if bit then t.right.Nil? else t.left.Nil?
    ensures var m' := Hang(SetChild(m, p, bit, x), p, x);
            Rep(m', p, par, idx, if bit then t.(right := Node(size, [x], Nil, Nil)) else t.(left := Node(size, [x], Nil, Nil)))
            && OnlyNear(m, m', t, x, items)
  {
    hide RootRep;
    hide TrieOk, Member, SizedBy, OnlyNear, AgreeRing, Hang, SetChild;
    var m' := Hang(SetChild(m, p, bit, x), p, x);
    assert RootRep(m, p, par, idx, t.ring) && NoDup(t.ring) by {
      RootOf(m, p, par, idx, t, q, w);
    }
    HangNear(m, p, par, idx, t, bit, x, items);
    HangFields(m, p, bit, x);
    SidesFrame(m, m', p, idx, t, x, q, w, items);
    RootFrame(m, m', p, par, idx, t.ring);
    assert AgreeChildren(m, m', x);
    NewLeafRep(m', x, p, idx, size);
  }

  lemma NewLeafRep(m: Links, x: nat, par: nat, idx: nat, size: nat)
    requires IsBlank(m, x, idx) && At(m.parent, x) == par && At(m.fd, x) == x && At(m.bk, x) == x
    ensures Rep(m, x, par, idx, Node(size, [x], Nil, Nil))
  {
    assert RingStep(m.fd, m.bk, [x], 0);
  }

  /** The insertion's pointer updates represent the tree with the chunk added. */
  lemma {:induction false} InsertRep(m: Links, p: nat, par: nat, idx: nat, t: Tree, x: nat, size: nat, q: nat, w: nat, items: map<nat, nat>)
    requires Rep(m, p, par, idx, t) && TrieOk(t, q, w) && t.Node? && q * Pow2(w) <= size < q * Pow2(w) + Pow2(w)
    requires SizedBy(t, items) && x !in items && IsBlank(m, x, idx)
    ensures var m' := InsertLinks(m, t, x, size, q, w);
            Rep(m', p, par, idx, Insert(t, x, size, q, w)) && OnlyNear(m, m', t, x, items)
    decreases t
  {
    hide RootRep, Pow2, BitAt, JoinRing, Hang, SetChild;
    FirstInRing(m, p, par, idx, t.ring);
    if t.size == size {
      JoinRep(m, p, par, idx, t, x, q, w, items);
    } else {
      SingletonInterval(t.size, size, q, w);
      HalfBit(size, q, w);
      Halves(q, w);
      var bit := BitAt(size, w - 1);
      var child := if bit then t.right else t.left;
      if child.Nil? {
        HangRep(m, p, par, idx, t, bit, x, size, q, w, items);
      } else {
        PartsDisjoint(t, q, w, items);
        InsertRep(m, Child(m, p, bit), p, idx, child, x, size, if bit then 2 * q + 1 else 2 * q, w - 1, items);
        var m' := InsertLinks(m, child, x, size, if bit then 2 * q + 1 else 2 * q, w - 1);
        SideChange(m, m', p, par, idx, t, bit, x, q, w, items);
      }
    }
  }

  /** Changes inside one subtree of p leave the root's ring and the other subtree. */
  lemma SideChange(m: Links, m': Links, p: nat, par: nat, idx: nat, t: Tree, bit: bool, x: nat, q: nat, w: nat, items: map<nat, nat>)
    requires Rep(m, p, par, idx, t) && TrieOk(t, q, w) && t.Node? && SizedBy(t, items) && x !in items
    requires OnlyNear(m, m', if bit then t.right else t.left, x, items)
    ensures RootRep(m', p, par, idx, t.ring) && AgreeChildren(m, m', p)
    ensures if bit then Rep(m', At(m'.left, p), p, idx, t.left) else Rep(m', At(m'.right, p), p, idx, t.right)
    ensures OnlyNear(m, m', t, x, items)
  {
    hide RootRep, AgreeLinks, TrieOk;
    PartsDisjoint(t, q, w, items);
    FirstInRing(m, p, par, idx, t.ring);
    assert forall c :: c in t.ring ==> c in items && AgreeAt(m, m', c);
    assert AgreeRing(m, m', t.ring) by {
      assert forall i :: 1 <= i < |t.ring| ==> t.ring[i] in t.ring;
    }
    RootFrame(m, m', p, par, idx, t.ring);
    var other := if bit then t.left else t.right;
    NearAgree(m, m', if bit then t.right else t.left, x, other, items);
    RepFrame(m, m', Child(m, p, !bit), p, idx, other);
  }

  // ----- removal

  /** F->_bk = R; R->_fd = F with F and R the ring neighbours of x. */
  function RingOut(m: Links, x: nat): Links {
    var f, r := At(m.fd, x), At(m.bk, x);
    m.(bk := m.bk[f := r], fd := m.fd[r := f])
  }

  function AdoptChild(m: Links, x: nat, r: nat, bit: bool): Links {
    var c := Child(m, x, bit);
    if c == 0 then m else var m' := SetChild(m, r, bit, c); m'.(parent := m'.parent[c := r])
  }

  /** r takes over the parent and the children of x. */
  function Adopt(m: Links, x: nat, r: nat, xp: nat): Links {
    AdoptChild(AdoptChild(m.(parent := m.parent[r := xp]), x, r, false), x, r, true)
  }

  /** The link that leads to the deepest leaf, found by preferring right children. */
  ghost function DeepLink(t: Tree, at: (nat, bool)): (nat, bool)
    requires t.Node?
    requires RingsOk(t)
    decreases t
  {
    if t.right.Node? then DeepLink(t.right, (t.ring[0], true))
    else if t.left.Node? then DeepLink(t.left, (t.ring[0], false))
    else at
  }

  ghost predicate RingsOk(t: Tree) {
    t.Node? ==> t.ring != [] && RingsOk(t.left) && RingsOk(t.right)
  }

  lemma {:induction false} TrieRings(t: Tree, q: nat, w: nat)
    requires TrieOk(t, q, w)
    ensures RingsOk(t)
  {
    hide Pow2;
    if t.Node? && w > 0 {
      TrieRings(t.left, 2 * q, w - 1);
      TrieRings(t.right, 2 * q + 1, w - 1);
    }
  }

  ghost predicate LeafRep(m: Links, idx: nat, leaf: Tree) {
    && leaf.Node? && leaf.ring != [] && Child(m, leaf.ring[0], false) == 0 && Child(m, leaf.ring[0], true) == 0
    && RootRep(m, leaf.ring[0], At(m.parent, leaf.ring[0]), idx, leaf.ring)
  }

  /** Clearing the link to the deepest leaf detaches that leaf. */
  lemma {:induction false} DetachRep(m: Links, p: nat, par: nat, idx: nat, t: Tree, at: (nat, bool), q: nat, w: nat, items: map<nat, nat>)
    requires Rep(m, p, par, idx, t) && TrieOk(t, q, w) && t.Node? && SizedBy(t, items)
    requires RingsOk(t) && !Member(t, at.0, items) && Child(m, at.0, at.1) == p
    ensures var (leaf, rest) := Detach(t);
            var link := DeepLink(t, at);
            var m' := SetChild(m, link.0, link.1, 0);
            && LeafRep(m, idx, leaf) && LeafRep(m', idx, leaf) && Child(m, link.0, link.1) == leaf.ring[0]
            && Rep(m', Child(m', at.0, at.1), par, idx, rest)
            && (link == at || Member(t, link.0, items))
    decreases t
  {
    hide RootRep, Pow2, SetChild;
    FirstInRing(m, p, par, idx, t.ring);
    PartsDisjoint(t, q, w, items);
    if t.right.Node? || t.left.Node? {
      var bit := t.right.Node?;
      var side := if bit then t.right else t.left;
      DetachRep(m, Child(m, p, bit), p, idx, side, (p, bit), if bit then 2 * q + 1 else 2 * q, w - 1, items);
      var link := DeepLink(side, (p, bit));
      DetachUp(m, p, par, idx, t, bit, link, q, w, items);
      SetChildChanges(m, link.0, link.1, 0);
      assert AgreeChildren(m, SetChild(m, link.0, link.1, 0), at.0);
    } else {
      SetChildChanges(m, at.0, at.1, 0);
      var m' := SetChild(m, at.0, at.1, 0);
      RootOf(m, p, par, idx, t, q, w);
      assert AgreeChildren(m, m', p);
      assert forall i :: 1 <= i < |t.ring| ==> t.ring[i] in t.ring;
      RootFrame(m, m', p, par, idx, t.ring);
    }
  }

  lemma SetChildChanges(m: Links, a: nat, bit: bool, v: nat)
    ensures var m' := SetChild(m, a, bit, v);
            && Child(m', a, bit) == v && Child(m', a, !bit) == Child(m, a, !bit)
            && (forall c :: AgreeLinks(m, m', c)) && (forall c :: c != a ==> AgreeChildren(m, m', c))
  {
  }

  /** Above the cleared link: the root's ring and the other side stay. */
  lemma DetachUp(m: Links, p: nat, par: nat, idx: nat, t: Tree, bit: bool, link: (nat, bool), q: nat, w: nat, items: map<nat, nat>)
    requires Rep(m, p, par, idx, t) && TrieOk(t, q, w) && t.Node? && SizedBy(t, items)
    requires link == (p, bit) || Member(if bit then t.right else t.left, link.0, items)
    ensures var m' := SetChild(m, link.0, link.1, 0);
            && RootRep(m', p, par, idx, t.ring)
            && if bit then Rep(m', At(m'.left, p), p, idx, t.left) else Rep(m', At(m'.right, p), p, idx, t.right)
  {
    hide RootRep, SetChild, AgreeLinks, TrieOk;
    var m' := SetChild(m, link.0, link.1, 0);
    SetChildChanges(m, link.0, link.1, 0);
    RootOf(m, p, par, idx, t, q, w);
    FirstInRing(m, p, par, idx, t.ring);
    PartsDisjoint(t, q, w, items);
    assert forall i :: 1 <= i < |t.ring| ==> t.ring[i] in t.ring && t.ring[i] != p;
    RootFrame(m, m', p, par, idx, t.ring);
    assert link.0 != p ==> AgreeChildren(m, m', p);
    var other := if bit then t.left else t.right;
    assert AgreeOn(m, m', other) by {
      assert forall c, s :: Has(other, c, s) ==> Member(other, c, items);
    }
    RepFrame(m, m', Child(m, p, !bit), p, idx, other);
  }

  /** Nothing at c differs but the parent, given by par'. */
  predicate ParentOnly(m: Links, m': Links, c: nat, par': nat) {
    && At(m.fd, c) == At(m'.fd, c) && At(m.bk, c) == At(m'.bk, c) && At(m.index, c) == At(m'.index, c)
    && AgreeChildren(m, m', c) && At(m'.parent, c) == par'
  }

  lemma AdoptChildChanges(m: Links, x: nat, r: nat, bit: bool)
    requires x != r
    ensures var m' := AdoptChild(m, x, r, bit);
            var a := Child(m, x, bit);
            && Child(m', r, bit) == (if a == 0 then Child(m, r, bit) else a) && Child(m', r, !bit) == Child(m, r, !bit)
            && m'.fd == m.fd && m'.bk == m.bk && m'.index == m.index
            && (forall c :: c != r ==> AgreeChildren(m, m', c))
            && (forall c :: At(m'.parent, c) == if c == a && a != 0 then r else At(m.parent, c))
  {
  }

  /** What taking over parent and children changes: the new chunk's links and its children's parent. */
  lemma AdoptChanges(m: Links, x: nat, r: nat, xp: nat)
    requires x != r
    ensures var m' := Adopt(m, x, r, xp);
            var a, b := Child(m, x, false), Child(m, x, true);
            && Child(m', r, false) == (if a == 0 then Child(m, r, false) else a)
            && Child(m', r, true) == (if b == 0 then Child(m, r, true) else b)
            && (forall c :: c != r && (c == 0 || (c != a && c != b)) ==> ParentOnly(m, m', c, At(m.parent, c)))
            && (a != 0 && a != r ==> ParentOnly(m, m', a, r)) && (b != 0 && b != r ==> ParentOnly(m, m', b, r))
            && m'.fd == m.fd && m'.bk == m.bk && m'.index == m.index
            && (a != r && b != r ==> At(m'.parent, r) == xp)
  {
    hide AdoptChild;
    var m0 := m.(parent := m.parent[r := xp]);
    AdoptChildChanges(m0, x, r, false);
    var m1 := AdoptChild(m0, x, r, false);
    AdoptChildChanges(m1, x, r, true);
    var m' := AdoptChild(m1, x, r, true);
    assert AgreeChildren(m0, m1, x);
    var a, b := Child(m, x, false), Child(m, x, true);
    forall c: nat | c != r
      ensures c == 0 || (c != a && c != b) ==> ParentOnly(m, m', c, At(m.parent, c))
      ensures c != 0 && (c == a || c == b) ==> ParentOnly(m, m', c, r)
    {
      assert AgreeChildren(m0, m1, c) && AgreeChildren(m1, m', c);
    }
  }

  /** The subtree whose root gets another parent. */
  lemma Reparent(m: Links, m': Links, p: nat, par: nat, par': nat, idx: nat, t: Tree, q: nat, w: nat, items: map<nat, nat>)
    requires Rep(m, p, par, idx, t) && TrieOk(t, q, w) && SizedBy(t, items)
    requires forall c :: Member(t, c, items) && c != p ==> ParentOnly(m, m', c, At(m.parent, c))
    requires t.Node? ==> ParentOnly(m, m', p, par')
    ensures Rep(m', p, par', idx, t)
  {
    hide RootRep, TrieOk;
    if t.Node? {
      PartsDisjoint(t, q, w, items);
      RootOf(m, p, par, idx, t, q, w);
      FirstInRing(m, p, par, idx, t.ring);
      RootReparent(m, m', p, par, par', idx, t.ring);
      MembersAgree(m, m', t.left, items);
      MembersAgree(m, m', t.right, items);
      RepFrame(m, m', At(m.left, p), p, idx, t.left);
      RepFrame(m, m', At(m.right, p), p, idx, t.right);
    }
  }

  lemma MembersAgree(m: Links, m': Links, t: Tree, items: map<nat, nat>)
    requires SizedBy(t, items)
    requires forall c :: Member(t, c, items) ==> ParentOnly(m, m', c, At(m.parent, c))
    ensures AgreeOn(m, m', t)
  {
    assert forall c, s :: Has(t, c, s) ==> Member(t, c, items);
  }

  lemma RootReparent(m: Links, m': Links, p: nat, par: nat, par': nat, idx: nat, ring: seq<nat>)
    requires RootRep(m, p, par, idx, ring) && NoDup(ring) && At(m'.parent, p) == par'
    requires forall c :: c in ring ==> At(m.fd, c) == At(m'.fd, c) && At(m.bk, c) == At(m'.bk, c) && At(m.index, c) == At(m'.index, c)
    requires forall i :: 1 <= i < |ring| ==> ParentOnly(m, m', ring[i], At(m.parent, ring[i]))
    ensures RootRep(m', p, par', idx, ring)
  {
    hide RingStep;
    assert ring[0] in ring;
    RingFrame(m.fd, m.bk, m'.fd, m'.bk, ring);
    assert forall i :: 1 <= i < |ring| ==> ring[i] in ring && Chained(m, ring[i]);
  }

  /** The chunk r, with its ring but no children, takes the place of x. */
  lemma AdoptRep(m: Links, x: nat, r: nat, xp: nat, idx: nat, t: Tree, q: nat, w: nat, items: map<nat, nat>)
    requires TrieOk(t, q, w) && t.Node? && SizedBy(t, items) && !Member(t, x, items)
    requires RootRep(m, r, At(m.parent, r), idx, t.ring) && Child(m, r, false) == 0 && Child(m, r, true) == 0
    requires Rep(m, Child(m, x, false), x, idx, t.left) && Rep(m, Child(m, x, true), x, idx, t.right)
    ensures Rep(Adopt(m, x, r, xp), r, xp, idx, t)
  {
    hide RootRep, Adopt, ParentOnly, SizedBy;
    var m' := Adopt(m, x, r, xp);
    var a, b := Child(m, x, false), Child(m, x, true);
    assert NoDup(t.ring) && (w == 0 ==> t.left.Nil? && t.right.Nil?);
    FirstInRing(m, r, At(m.parent, r), idx, t.ring);
    PartsDisjoint(t, q, w, items);
    AdoptChanges(m, x, r, xp);
    RootMember(m, a, x, idx, t.left, items);
    RootMember(m, b, x, idx, t.right, items);
    assert forall i :: 1 <= i < |t.ring| ==> t.ring[i] in t.ring && t.ring[i] != r;
    RootReparent(m, m', r, At(m.parent, r), xp, idx, t.ring);
    assert Member(t, r, items);
    if w > 0 {
      SideAdopted(m, m', x, r, a, b, idx, t.left, 2 * q, w - 1, items);
      SideAdopted(m, m', x, r, b, a, idx, t.right, 2 * q + 1, w - 1, items);
    }
  }

  lemma SideAdopted(m: Links, m': Links, x: nat, r: nat, a: nat, b: nat, idx: nat, t: Tree, q: nat, w: nat, items: map<nat, nat>)
    requires Rep(m, a, x, idx, t) && TrieOk(t, q, w) && SizedBy(t, items) && !Member(t, r, items) && (b != 0 ==> !Member(t, b, items))
    requires forall c :: c != r && (c == 0 || (c != a && c != b)) ==> ParentOnly(m, m', c, At(m.parent, c))
    requires a != 0 ==> ParentOnly(m, m', a, r)
    ensures Rep(m', a, r, idx, t)
  {
    hide ParentOnly, SizedBy, TrieOk;
    RootMember(m, a, x, idx, t, items);
    Reparent(m, m', a, x, r, idx, t, q, w, items);
  }

  lemma RootMember(m: Links, p: nat, par: nat, idx: nat, t: Tree, items: map<nat, nat>)
    requires Rep(m, p, par, idx, t) && SizedBy(t, items)
    ensures if t.Node? then p != 0 && Member(t, p, items) else p == 0
  {
    hide RootRep;
    if t.Node? {
      FirstInRing(m, p, par, idx, t.ring);
      RingInItems(t, items);
    }
  }

  /** Before adoption: r carries the ring of the new root, the children still hang off x. */
  ghost predicate Ready(m: Links, x: nat, r: nat, idx: nat, t: Tree) {
    && t.Node? && RootRep(m, r, At(m.parent, r), idx, t.ring) && Child(m, r, false) == 0 && Child(m, r, true) == 0
    && Rep(m, Child(m, x, false), x, idx, t.left) && Rep(m, Child(m, x, true), x, idx, t.right)
  }

  /** Redirecting a foreign chunk's child link does not disturb the adoption. */
  lemma ReadyFrame(m: Links, x: nat, r: nat, idx: nat, t: Tree, a: nat, bit: bool, v: nat, q: nat, w: nat, items: map<nat, nat>)
    requires Ready(m, x, r, idx, t) && TrieOk(t, q, w) && SizedBy(t, items) && !Member(t, a, items) && a != x
    ensures Ready(SetChild(m, a, bit, v), x, r, idx, t)
  {
    hide RootRep, SetChild, TrieOk;
    var m' := SetChild(m, a, bit, v);
    SetChildChanges(m, a, bit, v);
    PartsDisjoint(t, q, w, items);
    FirstInRing(m, r, At(m.parent, r), idx, t.ring);
    assert AgreeChildren(m, m', x) && AgreeChildren(m, m', r);
    assert forall i :: 1 <= i < |t.ring| ==> t.ring[i] in t.ring;
    RootFrame(m, m', r, At(m.parent, r), idx, t.ring);
    ForeignFrame(m, m', Child(m, x, false), x, idx, t.left, a, items);
    ForeignFrame(m, m', Child(m, x, true), x, idx, t.right, a, items);
  }

  lemma ForeignFrame(m: Links, m': Links, p: nat, par: nat, idx: nat, t: Tree, a: nat, items: map<nat, nat>)
    requires Rep(m, p, par, idx, t) && SizedBy(t, items) && !Member(t, a, items)
    requires (forall c :: AgreeLinks(m, m', c)) && (forall c :: c != a ==> AgreeChildren(m, m', c))
    ensures Rep(m', p, par, idx, t)
  {
    hide Rep, AgreeLinks, AgreeChildren;
    assert forall c, s :: Has(t, c, s) ==> Member(t, c, items);
    RepFrame(m, m', p, par, idx, t);
  }

  /** A chunk leaves a ring of several. */
  lemma RingOutRep(m: Links, p: nat, par: nat, idx: nat, t: Tree, x: nat, q: nat, w: nat, items: map<nat, nat>)
    requires Rep(m, p, par, idx, t) && TrieOk(t, q, w) && t.Node? && SizedBy(t, items) && 0 !in items
    requires x in t.ring && |t.ring| > 1
    ensures var m' := RingOut(m, x);
            && At(m.bk, x) != x && Member(t, At(m.bk, x), items) && OnlyNear(m, m', t, 0, items)
            && if x == p then Ready(m', x, At(m.bk, x), idx, t.(ring := Drop(t.ring, x)))
               else Rep(m', p, par, idx, t.(ring := Drop(t.ring, x)))
  {
    hide RootRep, Drop, TrieOk;
    var m' := RingOut(m, x);
    RootOf(m, p, par, idx, t, q, w);
    PartsDisjoint(t, q, w, items);
    FirstInRing(m, p, par, idx, t.ring);
    RingOutRoot(m, p, par, idx, t.ring, x);
    LoneMembers(t, items);
    SidesFrame(m, m', p, idx, t, 0, q, w, items);
  }

  lemma RingOutRoot(m: Links, p: nat, par: nat, idx: nat, ring: seq<nat>, x: nat)
    requires RootRep(m, p, par, idx, ring) && NoDup(ring) && x in ring && |ring| > 1
    ensures At(m.bk, x) in ring && At(m.fd, x) in ring && At(m.bk, x) != x
    ensures var m' := RingOut(m, x);
            var r := At(m.bk, x);
            if x == p then RootRep(m', r, At(m'.parent, r), idx, Drop(ring, x)) && Chained(m', r)
            else RootRep(m', p, par, idx, Drop(ring, x))
  {
    hide RootRep, IndexOf;
    FirstInRing(m, p, par, idx, ring);
    var i := IndexOf(ring, x);
    if i == 0 {
      HeadOut(m, p, par, idx, ring);
    } else {
      ChainedOut(m, p, par, idx, ring, i);
    }
  }

  lemma HeadOut(m: Links, p: nat, par: nat, idx: nat, ring: seq<nat>)
    requires RootRep(m, p, par, idx, ring) && NoDup(ring) && |ring| > 1
    ensures var m' := RingOut(m, p);
            var r := At(m.bk, p);
            && r in ring && At(m.fd, p) in ring && r != p && Chained(m', r)
            && RootRep(m', r, 0, idx, [ring[|ring| - 1]] + ring[1..|ring| - 1])
  {
    hide RingStep;
    var n := |ring|;
    UnlinkFirst(m.fd, m.bk, ring);
    var d := [ring[n - 1]] + ring[1..n - 1];
    assert forall j :: 0 <= j < |d| ==> d[j] == ring[if j == 0 then n - 1 else j] && d[j] in ring && Chained(m, d[j]);
  }

  lemma ChainedOut(m: Links, p: nat, par: nat, idx: nat, ring: seq<nat>, i: nat)
    requires RootRep(m, p, par, idx, ring) && NoDup(ring) && 0 < i < |ring|
    ensures var x := ring[i];
            At(m.bk, x) in ring && At(m.fd, x) in ring && At(m.bk, x) != x
            && RootRep(RingOut(m, x), p, par, idx, ring[..i] + ring[i + 1..])
  {
    hide RingStep;
    UnlinkLater(m.fd, m.bk, ring, i);
    var d := ring[..i] + ring[i + 1..];
    assert forall j :: 0 <= j < |d| ==> d[j] == ring[if j < i then j else j + 1] && d[j] in ring;
    assert forall j :: 1 <= j < |d| ==> Chained(m, d[j]);
  }

  /** The last chunk of its size: the deepest leaf below it is ready to take its place. */
  lemma LeafReady(m: Links, p: nat, par: nat, idx: nat, t: Tree, q: nat, w: nat, items: map<nat, nat>)
    requires Rep(m, p, par, idx, t) && TrieOk(t, q, w) && t.Node? && SizedBy(t, items)
    requires t.left.Node? || t.right.Node?
    ensures var bit := t.right.Node?;
            var side := if bit then t.right else t.left;
            RingsOk(side) && Detach(side).0.ring != [] &&
            var link := DeepLink(side, (p, bit));
            var r := Detach(side).0.ring[0];
            && Child(m, link.0, link.1) == r && (link == (p, bit) || Member(side, link.0, items))
            && Ready(SetChild(m, link.0, link.1, 0), p, r, idx, RemoveRoot(t))
  {
    hide RootRep, SetChild, Pow2;
    var bit := t.right.Node?;
    var side := if bit then t.right else t.left;
    TrieRings(side, if bit then 2 * q + 1 else 2 * q, w - 1);
    PartsDisjoint(t, q, w, items);
    FirstInRing(m, p, par, idx, t.ring);
    assert Child(m, p, bit) == if bit then At(m.right, p) else At(m.left, p);
    DetachRep(m, Child(m, p, bit), p, idx, side, (p, bit), if bit then 2 * q + 1 else 2 * q, w - 1, items);
    var link := DeepLink(side, (p, bit));
    DetachUp(m, p, par, idx, t, bit, link, q, w, items);
  }

  /** The subtree whose root has the given size. */
  ghost function NodeOf(t: Tree, chunk: nat, size: nat, q: nat, w: nat): (n: Tree)
    requires TrieOk(t, q, w) && Has(t, chunk, size)
    ensures n.Node? && n.size == size
    decreases t
  {
    HasInHalf(t, q, w, chunk, size);
    if t.size == size then t
    else if BitAt(size, w - 1) then NodeOf(t.right, chunk, size, 2 * q + 1, w - 1)
    else NodeOf(t.left, chunk, size, 2 * q, w - 1)
  }

  /** Removal at the node of the chunk's size. */
  function RemoveHere(n: Tree, x: nat): Tree
    requires n.Node? && x in n.ring
  {
    if |n.ring| > 1 then n.(ring := Drop(n.ring, x)) else RemoveRoot(n)
  }

  lemma {:induction false} NodeMembers(t: Tree, x: nat, size: nat, q: nat, w: nat, items: map<nat, nat>)
    requires TrieOk(t, q, w) && Has(t, x, size) && SizedBy(t, items)
    ensures var n := NodeOf(t, x, size, q, w); n.ring != [] && x in n.ring && forall c :: Member(n, c, items) ==> Member(t, c, items)
    decreases t
  {
    hide Pow2, BitAt;
    HasInHalf(t, q, w, x, size);
    if t.size != size {
      PartsDisjoint(t, q, w, items);
      if BitAt(size, w - 1) {
        NodeMembers(t.right, x, size, 2 * q + 1, w - 1, items);
      } else {
        NodeMembers(t.left, x, size, 2 * q, w - 1, items);
      }
    }
  }

  /** The node's parent word is that of the whole tree, or a chunk of the tree. */
  lemma {:induction false} NodeParent(m: Links, p: nat, par: nat, idx: nat, t: Tree, x: nat, size: nat, q: nat, w: nat, items: map<nat, nat>)
    requires Rep(m, p, par, idx, t) && TrieOk(t, q, w) && Has(t, x, size) && SizedBy(t, items)
    ensures var n := NodeOf(t, x, size, q, w);
            n.ring != [] && var xp := At(m.parent, n.ring[0]); (xp == par || Member(t, xp, items)) && RootRep(m, n.ring[0], xp, idx, n.ring)
    decreases t
  {
    hide Pow2, BitAt, RootRep;
    HasInHalf(t, q, w, x, size);
    FirstInRing(m, p, par, idx, t.ring);
    if t.size != size {
      PartsDisjoint(t, q, w, items);
      if BitAt(size, w - 1) {
        NodeParent(m, At(m.right, p), p, idx, t.right, x, size, 2 * q + 1, w - 1, items);
      } else {
        NodeParent(m, At(m.left, p), p, idx, t.left, x, size, 2 * q, w - 1, items);
      }
    }
  }

  /** Outside the node n only the child link of xp to x may differ: it then leads to r. */
  ghost predicate Redirected(m: Links, m': Links, n: Tree, xp: nat, x: nat, r: nat, items: map<nat, nat>) {
    && (forall c :: c in items && !Member(n, c, items) ==> AgreeLinks(m, m', c))
    && (forall c :: c in items && !Member(n, c, items) && c != xp ==> AgreeChildren(m, m', c))
    && (xp in items ==> forall bit :: Child(m', xp, bit) == Swap(Child(m, xp, bit), x, r))
  }

  function Swap(a: nat, x: nat, r: nat): nat {
    if a == x then r else a
  }

  /** A removal done at its node is a removal from the whole tree. */
  lemma {:induction false} UnlinkUp(m: Links, m': Links, p: nat, par: nat, idx: nat, t: Tree, x: nat, r: nat, size: nat,
                 q: nat, w: nat, items: map<nat, nat>)
    requires Rep(m, p, par, idx, t) && TrieOk(t, q, w) && Has(t, x, size) && SizedBy(t, items) && 0 !in items
    requires var n := NodeOf(t, x, size, q, w);
             && n.ring != [] && x in n.ring
             && Rep(m', Swap(n.ring[0], x, r), At(m.parent, n.ring[0]), idx, RemoveHere(n, x))
             && Redirected(m, m', n, At(m.parent, x), x, r, items)
    ensures Rep(m', Swap(p, x, r), par, idx, Remove(t, x, size, q, w))
    decreases t
  {
    hide Pow2, BitAt, RootRep, Redirected, RemoveRoot, Drop;
    HasInHalf(t, q, w, x, size);
    FirstInRing(m, p, par, idx, t.ring);
    if t.size != size {
      var bit := BitAt(size, w - 1);
      var side := if bit then t.right else t.left;
      var q' := if bit then 2 * q + 1 else 2 * q;
      var n := NodeOf(side, x, size, q', w - 1);
      PartsDisjoint(t, q, w, items);
      UnlinkUp(m, m', Child(m, p, bit), p, idx, side, x, r, size, q', w - 1, items);
      UnlinkStep(m, m', p, par, idx, t, bit, n, x, r, size, q, w, items);
    }
  }

  lemma UnlinkStep(m: Links, m': Links, p: nat, par: nat, idx: nat, t: Tree, bit: bool, n: Tree, x: nat, r: nat, size: nat,
                   q: nat, w: nat, items: map<nat, nat>)
    requires Rep(m, p, par, idx, t) && TrieOk(t, q, w) && t.Node? && SizedBy(t, items) && 0 !in items && w > 0
    requires var side := if bit then t.right else t.left;
             var q' := if bit then 2 * q + 1 else 2 * q;
             Has(side, x, size) && n == NodeOf(side, x, size, q', w - 1) && Redirected(m, m', n, At(m.parent, x), x, r, items)
    ensures RootRep(m', p, par, idx, t.ring)
    ensures Child(m', p, bit) == Swap(Child(m, p, bit), x, r) && Child(m', p, !bit) == Child(m, p, !bit)
    ensures Rep(m', Child(m, p, !bit), p, idx, if bit then t.left else t.right)
  {
    hide Pow2, RootRep, AgreeLinks, NodeOf, TrieOk;
    var side, other := if bit then t.right else t.left, if bit then t.left else t.right;
    var q' := if bit then 2 * q + 1 else 2 * q;
    assert TrieOk(side, q', w - 1) by {
      SubTrie(t, q, w);
    }
    PartsDisjoint(t, q, w, items);
    RootOf(m, p, par, idx, t, q, w);
    FirstInRing(m, p, par, idx, t.ring);
    NodeMembers(side, x, size, q', w - 1, items);
    NodeParent(m, Child(m, p, bit), p, idx, side, x, size, q', w - 1, items);
    var xp := At(m.parent, x);
    ParentOfMember(m, n, x, idx);
    RootMember(m, Child(m, p, !bit), p, idx, other, items);
    RootMember(m, Child(m, p, bit), p, idx, side, items);
    FirstInRing(m, Child(m, p, bit), p, idx, side.ring);
    assert xp == 0 || xp == p || Member(side, xp, items);
    assert forall i :: 1 <= i < |t.ring| ==> t.ring[i] in t.ring && t.ring[i] != p;
    RootFrame(m, m', p, par, idx, t.ring);
    assert forall c, s :: Has(other, c, s) ==> Member(other, c, items);
    RepFrame(m, m', Child(m, p, !bit), p, idx, other);
  }

  lemma SubTrie(t: Tree, q: nat, w: nat)
    requires TrieOk(t, q, w) && t.Node? && w > 0
    ensures TrieOk(t.left, 2 * q, w - 1) && TrieOk(t.right, 2 * q + 1, w - 1)
  {
  }

  lemma ParentOfMember(m: Links, n: Tree, x: nat, idx: nat)
    requires n.Node? && n.ring != [] && x in n.ring && RootRep(m, n.ring[0], At(m.parent, n.ring[0]), idx, n.ring)
    ensures x != n.ring[0] ==> At(m.parent, x) == 0
  {
    hide Ring;
    var i :| 0 <= i < |n.ring| && n.ring[i] == x;
    assert i > 0 ==> Chained(m, n.ring[i]);
  }

  /** The node is the root, or exactly one child link of its parent leads to it. */
  lemma {:induction false} NodeLink(m: Links, p: nat, par: nat, idx: nat, t: Tree, x: nat, size: nat, q: nat, w: nat, items: map<nat, nat>)
    requires Rep(m, p, par, idx, t) && TrieOk(t, q, w) && Has(t, x, size) && SizedBy(t, items)
    ensures var n := NodeOf(t, x, size, q, w);
            n.ring != [] && var np := n.ring[0];
            var xp := At(m.parent, np);
            if t.size == size then n == t && np == p && xp == par
            else np != p && Member(t, xp, items) && !Member(n, xp, items) && (Child(m, xp, false) == np) != (Child(m, xp, true) == np)
    decreases t
  {
    hide Pow2, BitAt, RootRep;
    HasInHalf(t, q, w, x, size);
    FirstInRing(m, p, par, idx, t.ring);
    if t.size != size {
      PartsDisjoint(t, q, w, items);
      var bit := BitAt(size, w - 1);
      var side, other := if bit then t.right else t.left, if bit then t.left else t.right;
      var q' := if bit then 2 * q + 1 else 2 * q;
      NodeLink(m, Child(m, p, bit), p, idx, side, x, size, q', w - 1, items);
      NodeMembers(side, x, size, q', w - 1, items);
      RootMember(m, Child(m, p, bit), p, idx, side, items);
      RootMember(m, Child(m, p, !bit), p, idx, other, items);
      NodeHead(side, x, size, q', w - 1, items);
    }
  }

  lemma NodeHead(t: Tree, x: nat, size: nat, q: nat, w: nat, items: map<nat, nat>)
    requires TrieOk(t, q, w) && Has(t, x, size) && SizedBy(t, items)
    ensures var n := NodeOf(t, x, size, q, w); n.ring != [] && Member(n, n.ring[0], items) && Member(t, n.ring[0], items)
  {
    hide Pow2, BitAt;
    NodeMembers(t, x, size, q, w, items);
    var n := NodeOf(t, x, size, q, w);
    NodeSized(t, x, size, q, w, items);
    RingInItems(n, items);
    assert n.ring[0] in n.ring;
  }

  lemma {:induction false} NodeSized(t: Tree, x: nat, size: nat, q: nat, w: nat, items: map<nat, nat>)
    requires TrieOk(t, q, w) && Has(t, x, size) && SizedBy(t, items)
    ensures SizedBy(NodeOf(t, x, size, q, w), items)
    decreases t
  {
    hide Pow2, BitAt;
    HasInHalf(t, q, w, x, size);
    if t.size != size {
      PartsDisjoint(t, q, w, items);
      if BitAt(size, w - 1) {
        NodeSized(t.right, x, size, 2 * q + 1, w - 1, items);
      } else {
        NodeSized(t.left, x, size, 2 * q, w - 1, items);
      }
    }
  }
}
