/** The link words that free chunks hold: doubly linked rings, and the tree links of large chunks. */
module ChunkLinks {
  import opened Bits
  import opened TreeIndexes
  import opened Tries

  type Words = map<nat, nat>

  function At(m: Words, a: nat): nat {
    if a in m then m[a] else 0
  }

  /** One map for each link field, from the address of a chunk to the word stored there. */
  datatype Links = Links(fd: Words, bk: Words, left: Words, right: Words, parent: Words, index: Words)

  function Child(m: Links, a: nat, bit: bool): nat {
    if bit then At(m.right, a) else At(m.left, a)
  }

  function SetChild(m: Links, a: nat, bit: bool, v: nat): Links {
    if bit then m.(right := m.right[a := v]) else m.(left := m.left[a := v])
  }

  // ----- rings

  function Next(i: nat, n: nat): nat {
    if i + 1 == n then 0 else i + 1
  }

  /** The members of a nonempty ring follow each other in both directions. */
  ghost predicate Ring(fd: Words, bk: Words, ring: seq<nat>) {
    && ring != []
    && forall i :: 0 <= i < |ring| ==> RingStep(fd, bk, ring, i)
  }

  ghost predicate RingStep(fd: Words, bk: Words, ring: seq<nat>, i: nat)
    requires i < |ring|
  {
    At(fd, ring[i]) == ring[Next(i, |ring|)] && At(bk, ring[Next(i, |ring|)]) == ring[i]
  }

  ghost predicate SameOn(m: Words, m': Words, s: seq<nat>) {
    forall c :: c in s ==> At(m, c) == At(m', c)
  }

  lemma RingFrame(fd: Words, bk: Words, fd': Words, bk': Words, ring: seq<nat>)
    requires Ring(fd, bk, ring) && SameOn(fd, fd', ring) && SameOn(bk, bk', ring)
    ensures Ring(fd', bk', ring)
  {
    forall i | 0 <= i < |ring|
      ensures RingStep(fd', bk', ring, i)
    {
      assert RingStep(fd, bk, ring, i);
      assert ring[i] in ring && ring[Next(i, |ring|)] in ring;
    }
  }

  function PutAfterFirst(ring: seq<nat>, x: nat): seq<nat>
    requires ring != []
  {
    ring[..1] + [x] + ring[1..]
  }

  /** `T->_fd = F->_bk = X; X->_fd = F; X->_bk = T` with F the successor of T. */
  lemma RingPut(fd: Words, bk: Words, ring: seq<nat>, x: nat)
    requires Ring(fd, bk, ring) && NoDup(ring) && x !in ring
    ensures var t, f := ring[0], At(fd, ring[0]);
            Ring(fd[t := x][x := f], bk[f := x][x := t], PutAfterFirst(ring, x)) && f in ring
  {
    var n := |ring|;
    var t, f := ring[0], At(fd, ring[0]);
    assert RingStep(fd, bk, ring, 0);
    var fd', bk' := fd[t := x][x := f], bk[f := x][x := t];
    var r := PutAfterFirst(ring, x);
    forall i | 0 <= i < n + 1
      ensures RingStep(fd', bk', r, i)
    {
      if i > 1 {
        assert RingStep(fd, bk, ring, i - 1);
      }
    }
  }

  /** `F->_bk = B; B->_fd = F` with F and B the neighbours of the first of several: its back link becomes the first. */
  lemma UnlinkFirst(fd: Words, bk: Words, ring: seq<nat>)
    requires Ring(fd, bk, ring) && NoDup(ring) && |ring| > 1
    ensures var f, b := At(fd, ring[0]), At(bk, ring[0]);
            f in ring && f != ring[0] && b == ring[|ring| - 1] && b != ring[0]
            && Ring(fd[b := f], bk[f := b], [ring[|ring| - 1]] + ring[1..|ring| - 1])
  {
    var n := |ring|;
    assert RingStep(fd, bk, ring, 0) && RingStep(fd, bk, ring, n - 1);
    var f, b := ring[1], ring[n - 1];
    var r := [ring[n - 1]] + ring[1..n - 1];
    var fd', bk' := fd[b := f], bk[f := b];
    forall j | 0 <= j < n - 1
      ensures RingStep(fd', bk', r, j)
    {
      assert RingStep(fd, bk, ring, if j == 0 then n - 1 else j);
      assert r[j] == ring[if j == 0 then n - 1 else j] && r[Next(j, n - 1)] == ring[if j == n - 2 then n - 1 else j + 1];
    }
  }

  /** The same for any other member. */
  lemma UnlinkLater(fd: Words, bk: Words, ring: seq<nat>, i: nat)
    requires Ring(fd, bk, ring) && NoDup(ring) && 0 < i < |ring|
    ensures var f, b := At(fd, ring[i]), At(bk, ring[i]);
            f in ring && b in ring && f != ring[i] && b != ring[i] && Ring(fd[b := f], bk[f := b], ring[..i] + ring[i + 1..])
  {
    var n := |ring|;
    assert RingStep(fd, bk, ring, i) && RingStep(fd, bk, ring, i - 1);
    var f, b := ring[Next(i, n)], ring[i - 1];
    var r := ring[..i] + ring[i + 1..];
    var fd', bk' := fd[b := f], bk[f := b];
    forall j | 0 <= j < n - 1
      ensures RingStep(fd', bk', r, j)
    {
      var k: nat := if j < i then j else j + 1;
      assert RingStep(fd, bk, ring, k);
      assert r[j] == ring[k];
      assert r[Next(j, n - 1)] == if k == i - 1 then f else ring[Next(k, n)];
    }
  }

  /** A member is its own back link only when it is alone. */
  lemma AloneIff(fd: Words, bk: Words, ring: seq<nat>, i: nat)
    requires Ring(fd, bk, ring) && NoDup(ring) && i < |ring|
    ensures At(bk, ring[i]) == ring[i] <==> |ring| == 1
  {
    var p: nat := if i == 0 then |ring| - 1 else i - 1;
    assert RingStep(fd, bk, ring, p);
  }
}
