/** A tree bin: a bitwise trie of unique chunk sizes, every node a ring of the free chunks of its size. */
module Tries {
  import opened Bits
  import opened TreeIndexes

  /** ring[0] is the chunk in the tree; the others follow it in forward-link order. */
  datatype Tree = Nil | Node(size: nat, ring: seq<nat>, left: Tree, right: Tree)

  ghost predicate NoDup(s: seq<nat>) {
    forall i, j :: 0 <= i < j < |s| ==> s[i] != s[j]
  }

  ghost predicate HasSize(t: Tree, size: nat) {
    t.Node? && (t.size == size || HasSize(t.left, size) || HasSize(t.right, size))
  }

  ghost predicate Has(t: Tree, chunk: nat, size: nat) {
    t.Node? && ((t.size == size && chunk in t.ring) || Has(t.left, chunk, size) || Has(t.right, chunk, size))
  }

  /** Every size lies in the interval of length 2 to the w from q * 2 to the w on; below a node the left subtree has
      the lower half and the right one the upper half, and no size occurs twice. */
  ghost predicate TrieOk(t: Tree, q: nat, w: nat)
  {
    t.Node? ==>
      && q * Pow2(w) <= t.size < q * Pow2(w) + Pow2(w)
      && t.ring != [] && NoDup(t.ring)
      && !HasSize(t.left, t.size) && !HasSize(t.right, t.size)
      && (w == 0 ==> t.left.Nil? && t.right.Nil?)
      && (w > 0 ==> TrieOk(t.left, 2 * q, w - 1) && TrieOk(t.right, 2 * q + 1, w - 1))
  }

  lemma Halves(q: nat, w: nat)
    requires w > 0
    ensures q * Pow2(w) == 2 * q * Pow2(w - 1)
    ensures q * Pow2(w) + Pow2(w - 1) == (2 * q + 1) * Pow2(w - 1)
    ensures Pow2(w) == 2 * Pow2(w - 1)
  {
    assert Pow2(w) == 2 * Pow2(w - 1);
  }

  lemma {:induction false} SizesInInterval(t: Tree, q: nat, w: nat, s: nat)
    requires TrieOk(t, q, w) && HasSize(t, s)
    ensures q * Pow2(w) <= s < q * Pow2(w) + Pow2(w)
  {
    hide Pow2;
    if t.size != s {
      Halves(q, w);
      if HasSize(t.left, s) {
        SizesInInterval(t.left, 2 * q, w - 1, s);
      } else {
        SizesInInterval(t.right, 2 * q + 1, w - 1, s);
      }
    }
  }

  lemma {:induction false} HasHasSize(t: Tree, chunk: nat, s: nat)
    requires Has(t, chunk, s)
    ensures HasSize(t, s)
  {
    if !(t.size == s && chunk in t.ring) {
      if Has(t.left, chunk, s) {
        HasHasSize(t.left, chunk, s);
      } else {
        HasHasSize(t.right, chunk, s);
      }
    }
  }

  /** A size other than the root's is in the half its next bit selects. */
  lemma SizeInHalf(t: Tree, q: nat, w: nat, s: nat)
    requires TrieOk(t, q, w) && t.Node? && HasSize(t, s) && s != t.size
    ensures w > 0 && (BitAt(s, w - 1) <==> HasSize(t.right, s)) && (!BitAt(s, w - 1) <==> HasSize(t.left, s))
  {
    hide Pow2, BitAt;
    SizesInInterval(t, q, w, s);
    HalfBit(s, q, w);
    Halves(q, w);
    if HasSize(t.left, s) {
      SizesInInterval(t.left, 2 * q, w - 1, s);
    }
    if HasSize(t.right, s) {
      SizesInInterval(t.right, 2 * q + 1, w - 1, s);
    }
  }

  // ----- insertion

  /** `insert_large_chunk`: follow the bits of the size; join the ring of an equal size, else take the free place. */
  function Insert(t: Tree, chunk: nat, size: nat, ghost q: nat, w: nat): Tree
    requires TrieOk(t, q, w) && q * Pow2(w) <= size < q * Pow2(w) + Pow2(w)
  {
    match t {
      case Nil => Node(size, [chunk], Nil, Nil)
      case Node(s, ring, l, r) =>
        if s == size then Node(s, ring[..1] + [chunk] + ring[1..], l, r)
        else
          SingletonInterval(s, size, q, w);
          HalfBit(size, q, w);
          Halves(q, w);
          if BitAt(size, w - 1) then Node(s, ring, l, Insert(r, chunk, size, 2 * q + 1, w - 1))
          else Node(s, ring, Insert(l, chunk, size, 2 * q, w - 1), r)
    }
  }

  /** When the distinguishing bits are used up, the sizes are equal. */
  lemma SingletonInterval(s: nat, t: nat, q: nat, w: nat)
    requires q * Pow2(w) <= s < q * Pow2(w) + Pow2(w) && q * Pow2(w) <= t < q * Pow2(w) + Pow2(w)
    ensures w == 0 ==> s == t
  {
    assert w == 0 ==> Pow2(w) == 1;
  }

  lemma {:induction false} InsertCorrect(t: Tree, chunk: nat, size: nat, q: nat, w: nat)
    requires TrieOk(t, q, w) && q * Pow2(w) <= size < q * Pow2(w) + Pow2(w) && !Has(t, chunk, size)
    ensures TrieOk(Insert(t, chunk, size, q, w), q, w)
    ensures forall c, s :: Has(Insert(t, chunk, size, q, w), c, s) <==> Has(t, c, s) || (c == chunk && s == size)
    ensures forall s :: HasSize(Insert(t, chunk, size, q, w), s) <==> HasSize(t, s) || s == size
  {
    hide Pow2, BitAt;
    if t.Node? && t.size != size {
      SingletonInterval(t.size, size, q, w);
      HalfBit(size, q, w);
      Halves(q, w);
      if BitAt(size, w - 1) {
        InsertCorrect(t.right, chunk, size, 2 * q + 1, w - 1);
      } else {
        InsertCorrect(t.left, chunk, size, 2 * q, w - 1);
      }
    } else if t.Node? {
      var ring := t.ring[..1] + [chunk] + t.ring[1..];
      assert forall c :: c in ring <==> c in t.ring || c == chunk;
    }
  }

  // ----- removal

  /** The deepest leaf on the path that prefers right children, and the tree without it. */
  function Detach(t: Tree): (r: (Tree, Tree))
    requires t.Node?
    ensures r.0.Node?
  {
    if t.right.Node? then
      var (leaf, rest) := Detach(t.right);
      (leaf, t.(right := rest))
    else if t.left.Node? then
      var (leaf, rest) := Detach(t.left);
      (leaf, t.(left := rest))
    else (t, Nil)
  }

  lemma {:induction false} DetachCorrect(t: Tree, q: nat, w: nat)
    requires TrieOk(t, q, w) && t.Node?
    ensures var (leaf, rest) := Detach(t);
            && leaf.Node? && leaf.left.Nil? && leaf.right.Nil? && TrieOk(leaf, q, w) && TrieOk(rest, q, w)
            && !HasSize(rest, leaf.size) && HasSize(t, leaf.size)
            && (forall c, s :: Has(t, c, s) <==> Has(rest, c, s) || (s == leaf.size && c in leaf.ring))
            && (forall s :: HasSize(t, s) <==> HasSize(rest, s) || s == leaf.size)
  {
    hide Pow2;
    if t.right.Node? {
      Halves(q, w);
      DetachCorrect(t.right, 2 * q + 1, w - 1);
      var (leaf, rest) := Detach(t.right);
      SizesInInterval(t.right, 2 * q + 1, w - 1, leaf.size);
      if HasSize(t.left, leaf.size) {
        SizesInInterval(t.left, 2 * q, w - 1, leaf.size);
      }
    } else if t.left.Node? {
      Halves(q, w);
      DetachCorrect(t.left, 2 * q, w - 1);
      var (leaf, rest) := Detach(t.left);
      SizesInInterval(t.left, 2 * q, w - 1, leaf.size);
    }
  }

  function IndexOf(s: seq<nat>, x: nat): (i: nat)
    requires x in s
    ensures i < |s| && s[i] == x
  {
    if s[0] == x then 0 else 1 + IndexOf(s[1..], x)
  }

  /** Unlinking from a ring of several: the chunk in the tree is succeeded by its back link. */
  function Drop(ring: seq<nat>, chunk: nat): seq<nat>
    requires chunk in ring && |ring| > 1
  {
    var i := IndexOf(ring, chunk);
    if i == 0 then [ring[|ring| - 1]] + ring[1..|ring| - 1] else ring[..i] + ring[i + 1..]
  }

  lemma DropCorrect(ring: seq<nat>, chunk: nat)
    requires chunk in ring && |ring| > 1 && NoDup(ring)
    ensures Drop(ring, chunk) != [] && NoDup(Drop(ring, chunk))
    ensures forall c :: c in Drop(ring, chunk) <==> c in ring && c != chunk
  {
    var i := IndexOf(ring, chunk);
    var d := Drop(ring, chunk);
    forall c | c in ring && c != chunk
      ensures c in d
    {
      var j :| 0 <= j < |ring| && ring[j] == c;
      if i == 0 {
        assert j == |ring| - 1 ==> d[0] == c;
        assert j < |ring| - 1 ==> d[j] == c;
      } else {
        assert j < i ==> d[j] == c;
        assert j > i ==> d[j - 1] == c;
      }
    }
  }

  /** The last chunk of the root's size goes: a leaf from below takes the root's place. */
  function RemoveRoot(t: Tree): Tree
    requires t.Node?
  {
    if t.right.Node? then
      var (leaf, rest) := Detach(t.right);
      Node(leaf.size, leaf.ring, t.left, rest)
    else if t.left.Node? then
      var (leaf, rest) := Detach(t.left);
      Node(leaf.size, leaf.ring, rest, Nil)
    else Nil
  }

  lemma RemoveRootCorrect(t: Tree, q: nat, w: nat)
    requires TrieOk(t, q, w) && t.Node?
    ensures TrieOk(RemoveRoot(t), q, w)
    ensures forall c, s :: Has(RemoveRoot(t), c, s) <==> Has(t, c, s) && s != t.size
    ensures forall s :: HasSize(RemoveRoot(t), s) <==> HasSize(t, s) && s != t.size
  {
    hide Pow2;
    RootSizeUnique(t, q, w);
    if t.right.Node? {
      Halves(q, w);
      DetachCorrect(t.right, 2 * q + 1, w - 1);
      var leaf := Detach(t.right).0;
      SizesInInterval(t.right, 2 * q + 1, w - 1, leaf.size);
      if HasSize(t.left, leaf.size) {
        SizesInInterval(t.left, 2 * q, w - 1, leaf.size);
      }
    } else if t.left.Node? {
      Halves(q, w);
      DetachCorrect(t.left, 2 * q, w - 1);
      var leaf := Detach(t.left).0;
      SizesInInterval(t.left, 2 * q, w - 1, leaf.size);
    }
  }

  /** Below the root no chunk has the root's size. */
  lemma RootSizeUnique(t: Tree, q: nat, w: nat)
    requires TrieOk(t, q, w) && t.Node?
    ensures forall c :: !Has(t.left, c, t.size) && !Has(t.right, c, t.size)
  {
    forall c
      ensures !Has(t.left, c, t.size) && !Has(t.right, c, t.size)
    {
      if Has(t.left, c, t.size) {
        HasHasSize(t.left, c, t.size);
      }
      if Has(t.right, c, t.size) {
        HasHasSize(t.right, c, t.size);
      }
    }
  }

  lemma HasInHalf(t: Tree, q: nat, w: nat, chunk: nat, size: nat)
    requires TrieOk(t, q, w) && Has(t, chunk, size)
    ensures t.size == size ==> chunk in t.ring
    ensures t.size != size ==>
              w > 0 && if BitAt(size, w - 1) then Has(t.right, chunk, size) && !Has(t.left, chunk, size)
                       else Has(t.left, chunk, size) && !Has(t.right, chunk, size)
  {
    hide Pow2, BitAt;
    RootSizeUnique(t, q, w);
    if t.size != size {
      HasHasSize(t, chunk, size);
      SizeInHalf(t, q, w, size);
      if Has(t.left, chunk, size) {
        HasHasSize(t.left, chunk, size);
      }
      if Has(t.right, chunk, size) {
        HasHasSize(t.right, chunk, size);
      }
    }
  }

  /** `unlink_large_chunk`, found by its size. */
  function Remove(t: Tree, chunk: nat, size: nat, ghost q: nat, w: nat): Tree
    requires TrieOk(t, q, w) && Has(t, chunk, size)
  {
    HasInHalf(t, q, w, chunk, size);
    if t.size == size then
      if |t.ring| > 1 then t.(ring := Drop(t.ring, chunk)) else RemoveRoot(t)
    else if BitAt(size, w - 1) then t.(right := Remove(t.right, chunk, size, 2 * q + 1, w - 1))
    else t.(left := Remove(t.left, chunk, size, 2 * q, w - 1))
  }

  /** Removal keeps the trie and takes out exactly the given chunk. */
  lemma {:induction false} RemoveCorrect(t: Tree, chunk: nat, size: nat, q: nat, w: nat)
    requires TrieOk(t, q, w) && Has(t, chunk, size)
    ensures TrieOk(Remove(t, chunk, size, q, w), q, w)
    ensures forall c, s :: Has(Remove(t, chunk, size, q, w), c, s) <==> Has(t, c, s) && !(c == chunk && s == size)
    ensures forall s :: HasSize(Remove(t, chunk, size, q, w), s) ==> HasSize(t, s)
  {
    hide Pow2, BitAt;
    HasInHalf(t, q, w, chunk, size);
    RootSizeUnique(t, q, w);
    if t.size == size {
      if |t.ring| > 1 {
        DropCorrect(t.ring, chunk);
      } else {
        RemoveRootCorrect(t, q, w);
        assert forall c :: c in t.ring ==> c == chunk;
      }
    } else if BitAt(size, w - 1) {
      RemoveCorrect(t.right, chunk, size, 2 * q + 1, w - 1);
    } else {
      RemoveCorrect(t.left, chunk, size, 2 * q, w - 1);
    }
  }

  // ----- the best fit

  /** The tree has a size no larger than s. */
  ghost predicate Beats(t: Tree, s: nat) {
    exists s': nat :: HasSize(t, s') && s' <= s
  }

  function LeftmostChild(t: Tree): Tree
    requires t.Node?
  {
    if t.left.Node? then t.left else t.right
  }

  lemma BeatsBy(t: Tree, s': nat, s: nat)
    requires HasSize(t, s') && s' <= s
    ensures Beats(t, s)
  {
  }

  /** The least size of a subtree lies on the path that prefers left children. */
  lemma LeftmostBeats(t: Tree, q: nat, w: nat, s: nat)
    requires TrieOk(t, q, w) && t.Node? && Beats(t, s)
    ensures t.size <= s || Beats(LeftmostChild(t), s)
  {
    var s': nat :| HasSize(t, s') && s' <= s;
    LeastOnPath(t, q, w, s');
    if t.size > s' {
      var s'': nat :| HasSize(LeftmostChild(t), s'') && s'' <= s';
      BeatsBy(LeftmostChild(t), s'', s);
    }
  }

  lemma LeastOnPath(t: Tree, q: nat, w: nat, s: nat)
    requires TrieOk(t, q, w) && t.Node? && HasSize(t, s)
    ensures t.size <= s || Beats(LeftmostChild(t), s)
  {
    hide Pow2, Beats;
    if s != t.size {
      if HasSize(t.left, s) {
        BeatsBy(t.left, s, s);
      } else {
        RightAboveLeft(t, q, w, s);
        BeatsBy(t.right, s, s);
        if t.left.Node? {
          BeatsBy(t.left, t.left.size, s);
        }
      }
    }
  }

  lemma RightAboveLeft(t: Tree, q: nat, w: nat, s: nat)
    requires TrieOk(t, q, w) && t.Node? && HasSize(t.right, s)
    ensures t.left.Node? ==> t.left.size < s
  {
    hide Pow2;
    if t.left.Node? {
      Halves(q, w);
      SizesInInterval(t.right, 2 * q + 1, w - 1, s);
      SizesInInterval(t.left, 2 * q, w - 1, t.left.size);
    }
  }
}
