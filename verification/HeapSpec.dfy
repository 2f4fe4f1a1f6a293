/** The chunks of the heap between the segment ends, and what their boundary tags say. */
module HeapSpec {
  import opened TreeIndexes
  import opened ChunkLinks
  import opened ChunkHeads

  datatype Kind = Used | Free | Top

  datatype Chunk = Chunk(size: nat, kind: Kind)

  /** The chunks by address. */
  type Live = map<nat, Chunk>

  /** Aligned, large enough, and followed by a chunk or by the end of the segment's chunks. */
  ghost predicate ShapeAt(live: Live, ends: set<nat>, p: nat)
    requires p in live
  {
    var c := live[p];
    && p > 0 && p % 16 == 0 && c.size % 16 == 0 && c.size >= 16 && (c.kind != Top ==> c.size >= 32)
    && p + c.size < WORD_LIMIT
    && (p + c.size in ends || (p + c.size in live && c.kind != Top))
  }

  ghost predicate ShapeOk(live: Live, ends: set<nat>) {
    forall p {:trigger ShapeAt(live, ends, p)} :: p in live ==> ShapeAt(live, ends, p)
  }

  /** No two chunks overlap, and no segment end lies in a chunk. */
  ghost predicate Apart(live: Live, ends: set<nat>) {
    && (forall p, q :: p in live && q in live && p < q ==> p + live[p].size <= q)
    && (forall p, e :: p in live && e in ends ==> e < p || p + live[p].size <= e)
  }

  /** A chunk's header, the in-use bit after it and, when free, its foot; what follows a free chunk is in use. */
  ghost predicate TagsAt(live: Live, heads: Heads, feet: Words, p: nat)
    requires p in live
  {
    var c := live[p];
    var n := p + c.size;
    && p in heads && heads[p].size == c.size && heads[p].cinuse == c.kind.Used?
    && n in heads && heads[n].pinuse == c.kind.Used?
    && (c.kind.Free? ==> At(feet, n) == c.size)
    && (!c.kind.Used? && n in live ==> live[n].kind.Used?)
  }

  ghost predicate TagsOk(live: Live, heads: Heads, feet: Words) {
    forall p {:trigger TagsAt(live, heads, feet, p)} :: p in live ==> TagsAt(live, heads, feet, p)
  }

  /** Where the in-use bit of the predecessor is clear, the foot leads back to a free chunk. */
  ghost predicate BackAt(live: Live, heads: Heads, feet: Words, p: nat) {
    p in heads && (heads[p].pinuse || (At(feet, p) <= p && p - At(feet, p) in live && live[p - At(feet, p)] == Chunk(At(feet, p), Free)))
  }

  ghost predicate BackOk(live: Live, heads: Heads, feet: Words) {
    forall p {:trigger BackAt(live, heads, feet, p)} :: p in live ==> BackAt(live, heads, feet, p)
  }

  /** The heap invariant of the debugging checks, for all chunks but the bins. */
  ghost predicate Tagged(live: Live, ends: set<nat>, heads: Heads, feet: Words) {
    ShapeOk(live, ends) && Apart(live, ends) && TagsOk(live, heads, feet) && BackOk(live, heads, feet)
  }

  // ----- replacing the chunks of an interval

  /** The interval from a to b is made of whole chunks, or of none. */
  ghost predicate Hole(live: Live, ends: set<nat>, a: nat, b: nat) {
    && a < b && (b in live || b in ends)
    && (forall p :: p in live && p < a ==> p + live[p].size <= a)
    && (forall p :: p in live && a <= p < b ==> p + live[p].size <= b)
    && (forall e :: e in ends ==> e < a || b <= e)
  }

  function Outside(live: Live, a: nat, b: nat): Live {
    map p | p in live && !(a <= p < b) :: live[p]
  }

  /** One or two chunks in place of the interval: of kind u up to m, and of kind v from there on when m is before b. */
  function Placed(live: Live, a: nat, b: nat, u: Kind, m: nat, v: Kind): Live
    requires a < m <= b
  {
    if m == b then Outside(live, a, b)[a := Chunk(b - a, u)]
    else Outside(live, a, b)[a := Chunk(m - a, u)][m := Chunk(b - m, v)]
  }

  predicate SizesFit(a: nat, b: nat, u: Kind, m: nat, v: Kind) {
    && 0 < a < m <= b < WORD_LIMIT && a % 16 == 0 && m % 16 == 0 && b % 16 == 0
    && (u.Top? ==> m == b) && (u.Top? || m - a >= 32) && (m < b ==> v.Top? || b - m >= 32)
  }

  function Last(b: nat, u: Kind, m: nat, v: Kind): Kind {
    if m == b then u else v
  }

  /** The words written for the new chunks. */
  ghost predicate Written(live: Live, ends: set<nat>, heads: Heads, feet: Words, heads': Heads, feet': Words, a: nat, b: nat, u: Kind, m: nat, v: Kind)
    requires a < m <= b
  {
    var w := Last(b, u, m, v);
    && a in heads' && heads'[a].size == m - a && heads'[a].cinuse == u.Used?
    && (if a in live then a in heads && heads'[a].pinuse == heads[a].pinuse && At(feet', a) == At(feet, a)
        else heads'[a].pinuse && forall p :: p in live ==> p + live[p].size != a)
    && (!u.Used? ==> heads'[a].pinuse)
    && (m < b ==> m in heads' && heads'[m] == Head(b - m, u.Used?, v.Used?) && (u.Free? ==> At(feet', m) == m - a) && (!u.Used? ==> v.Used?))
    && b in heads && b in heads' && heads'[b] == heads[b].(pinuse := w.Used?)
    && (w.Free? ==> At(feet', b) == b - (if m == b then a else m))
    && (w.Top? ==> b in ends) && (!w.Used? && b in live ==> live[b].kind.Used?)
  }

  ghost predicate SameOutside(heads: Heads, feet: Words, heads': Heads, feet': Words, a: nat, b: nat) {
    forall x: nat :: x < a || b < x ==> (x in heads ==> x in heads' && heads'[x] == heads[x]) && At(feet', x) == At(feet, x)
  }

  lemma PlacedShape(live: Live, ends: set<nat>, a: nat, b: nat, u: Kind, m: nat, v: Kind)
    requires ShapeOk(live, ends) && Hole(live, ends, a, b) && SizesFit(a, b, u, m, v) && (Last(b, u, m, v).Top? ==> b in ends)
    ensures ShapeOk(Placed(live, a, b, u, m, v), ends)
  {
    hide Placed;
    var live' := Placed(live, a, b, u, m, v);
    PlacedKeys(live, a, b, u, m, v);
    AlignedDifference(a, m);
    AlignedDifference(m, b);
    forall p | p in live'
      ensures ShapeAt(live', ends, p)
    {
      if p != a && (p != m || m == b) {
        assert ShapeAt(live, ends, p);
      }
    }
  }

  lemma AlignedDifference(x: nat, y: nat)
    requires x <= y && x % 16 == 0 && y % 16 == 0
    ensures (y - x) % 16 == 0 && (y + x) % 16 == 0
  {
  }

  lemma PlacedKeys(live: Live, a: nat, b: nat, u: Kind, m: nat, v: Kind)
    requires a < m <= b
    ensures var live' := Placed(live, a, b, u, m, v);
            && a in live' && live'[a] == Chunk(m - a, u) && (m < b ==> m in live' && live'[m] == Chunk(b - m, v))
            && (forall p :: p in live' && p != a && (p != m || m == b) ==> p in live && !(a <= p < b))
            && (forall p :: p in live && !(a <= p < b) ==> p in live' && live'[p] == live[p])
  {
  }

  lemma PlacedApart(live: Live, ends: set<nat>, a: nat, b: nat, u: Kind, m: nat, v: Kind)
    requires Apart(live, ends) && Hole(live, ends, a, b) && SizesFit(a, b, u, m, v)
    ensures Apart(Placed(live, a, b, u, m, v), ends)
  {
    hide Placed;
    PlacedKeys(live, a, b, u, m, v);
  }

  /** A chunk that stays: its own tags, and those after it. */
  lemma TagsStay(live: Live, ends: set<nat>, heads: Heads, feet: Words, heads': Heads, feet': Words, a: nat, b: nat, u: Kind, m: nat, v: Kind, p: nat)
    requires a < m <= b && p in live && !(a <= p < b) && Hole(live, ends, a, b) && live[p].size > 0
    requires TagsAt(live, heads, feet, p)
    requires Written(live, ends, heads, feet, heads', feet', a, b, u, m, v) && SameOutside(heads, feet, heads', feet', a, b)
    ensures p in Placed(live, a, b, u, m, v) && TagsAt(Placed(live, a, b, u, m, v), heads', feet', p)
  {
    hide Placed;
    PlacedKeys(live, a, b, u, m, v);
    var n := p + live[p].size;
    assert n <= a || n > b;
  }

  /** The new chunks. */
  lemma TagsNew(live: Live, ends: set<nat>, heads: Heads, feet: Words, heads': Heads, feet': Words, a: nat, b: nat, u: Kind, m: nat, v: Kind)
    requires a < m <= b && Written(live, ends, heads, feet, heads', feet', a, b, u, m, v)
    ensures var live' := Placed(live, a, b, u, m, v);
            a in live' && TagsAt(live', heads', feet', a) && (m < b ==> m in live' && TagsAt(live', heads', feet', m))
  {
    hide Placed;
    PlacedKeys(live, a, b, u, m, v);
  }

  lemma PlacedTags(live: Live, ends: set<nat>, heads: Heads, feet: Words, heads': Heads, feet': Words, a: nat, b: nat, u: Kind, m: nat, v: Kind)
    requires Tagged(live, ends, heads, feet) && Hole(live, ends, a, b) && SizesFit(a, b, u, m, v)
    requires Written(live, ends, heads, feet, heads', feet', a, b, u, m, v) && SameOutside(heads, feet, heads', feet', a, b)
    ensures TagsOk(Placed(live, a, b, u, m, v), heads', feet')
  {
    hide Placed, TagsAt, Hole, Written, SameOutside, Apart, BackOk;
    var live' := Placed(live, a, b, u, m, v);
    PlacedKeys(live, a, b, u, m, v);
    TagsNew(live, ends, heads, feet, heads', feet', a, b, u, m, v);
    forall p | p in live'
      ensures TagsAt(live', heads', feet', p)
    {
      if p != a && (p != m || m == b) {
        assert ShapeAt(live, ends, p);
        TagsStay(live, ends, heads, feet, heads', feet', a, b, u, m, v, p);
      }
    }
  }

  lemma BackStay(live: Live, ends: set<nat>, heads: Heads, feet: Words, heads': Heads, feet': Words, a: nat, b: nat, u: Kind, m: nat, v: Kind, p: nat)
    requires a < m <= b && p in live && !(a < p < b) && Hole(live, ends, a, b) && (u.Top? ==> m == b)
    requires (forall e :: e in ends ==> e !in live) && BackAt(live, heads, feet, p)
    requires !heads[p].pinuse ==> At(feet, p) > 0
    requires Written(live, ends, heads, feet, heads', feet', a, b, u, m, v) && SameOutside(heads, feet, heads', feet', a, b)
    ensures BackAt(Placed(live, a, b, u, m, v), heads', feet', p)
  {
    hide Placed;
    PlacedKeys(live, a, b, u, m, v);
  }

  lemma PlacedBack(live: Live, ends: set<nat>, heads: Heads, feet: Words, heads': Heads, feet': Words, a: nat, b: nat, u: Kind, m: nat, v: Kind)
    requires Tagged(live, ends, heads, feet) && Hole(live, ends, a, b) && SizesFit(a, b, u, m, v)
    requires Written(live, ends, heads, feet, heads', feet', a, b, u, m, v) && SameOutside(heads, feet, heads', feet', a, b)
    ensures BackOk(Placed(live, a, b, u, m, v), heads', feet')
  {
    hide Placed, Hole, SameOutside, TagsOk, BackAt;
    var live' := Placed(live, a, b, u, m, v);
    PlacedKeys(live, a, b, u, m, v);
    forall p | p in live'
      ensures BackAt(live', heads', feet', p)
    {
      if p in live && !(a < p < b) {
        FootPositive(live, ends, heads, feet, p);
        BackStay(live, ends, heads, feet, heads', feet', a, b, u, m, v, p);
      } else {
        BackNew(live, ends, heads, feet, heads', feet', a, b, u, m, v);
      }
    }
  }

  lemma FootPositive(live: Live, ends: set<nat>, heads: Heads, feet: Words, p: nat)
    requires ShapeOk(live, ends) && Apart(live, ends) && BackOk(live, heads, feet) && p in live
    ensures BackAt(live, heads, feet, p) && (!heads[p].pinuse ==> At(feet, p) > 0) && forall e :: e in ends ==> e !in live
  {
    assert BackAt(live, heads, feet, p);
    if !heads[p].pinuse {
      assert ShapeAt(live, ends, p - At(feet, p));
    }
    forall e | e in ends
      ensures e !in live
    {
      assert e in live ==> ShapeAt(live, ends, e);
    }
  }

  lemma BackNew(live: Live, ends: set<nat>, heads: Heads, feet: Words, heads': Heads, feet': Words, a: nat, b: nat, u: Kind, m: nat, v: Kind)
    requires a < m <= b && (u.Top? ==> m == b) && Written(live, ends, heads, feet, heads', feet', a, b, u, m, v)
    ensures var live' := Placed(live, a, b, u, m, v);
            (a !in live ==> BackAt(live', heads', feet', a)) && (m < b ==> BackAt(live', heads', feet', m))
  {
    hide Placed;
    PlacedKeys(live, a, b, u, m, v);
  }

  /** Replacing the chunks of an interval keeps the invariant when the tags of the new ones are written. */
  lemma PlacedTagged(live: Live, ends: set<nat>, heads: Heads, feet: Words, heads': Heads, feet': Words, a: nat, b: nat, u: Kind, m: nat, v: Kind)
    requires Tagged(live, ends, heads, feet) && Hole(live, ends, a, b) && SizesFit(a, b, u, m, v)
    requires Written(live, ends, heads, feet, heads', feet', a, b, u, m, v) && SameOutside(heads, feet, heads', feet', a, b)
    ensures Tagged(Placed(live, a, b, u, m, v), ends, heads', feet')
  {
    hide ShapeOk, Apart, TagsOk, BackOk, Hole, SizesFit, SameOutside, Placed;
    PlacedShape(live, ends, a, b, u, m, v);
    PlacedApart(live, ends, a, b, u, m, v);
    PlacedTags(live, ends, heads, feet, heads', feet', a, b, u, m, v);
    PlacedBack(live, ends, heads, feet, heads', feet', a, b, u, m, v);
  }

  lemma HoleOne(live: Live, ends: set<nat>, p: nat)
    requires ShapeOk(live, ends) && Apart(live, ends) && p in live
    ensures Hole(live, ends, p, p + live[p].size)
  {
    assert ShapeAt(live, ends, p);
  }

  lemma HoleJoin(live: Live, ends: set<nat>, a: nat, b: nat, c: nat)
    requires Hole(live, ends, a, b) && Hole(live, ends, b, c)
    ensures Hole(live, ends, a, c)
  {
  }
}
