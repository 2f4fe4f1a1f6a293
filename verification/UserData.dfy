/** What callers keep in their chunks. */
module UserData {
  import opened ChunkLinks

  /** From the address `to` on, now holds the n bytes that was held from the address `from` on. */
  ghost predicate SameBytes(was: Words, from: nat, now: Words, to: nat, n: nat) {
    forall a: nat :: to <= a < to + n ==> At(now, a) == At(was, from + (a - to))
  }

  class Contents {
    var bytes: Words

    constructor () {
      bytes := map[];
    }

    /** `memcpy`, which demands that the two ranges do not overlap. */
    method Copy(to: nat, from: nat, n: nat)
      requires to + n <= from || from + n <= to
      modifies this
      ensures SameBytes(old(bytes), from, bytes, to, n)
      ensures forall a: nat :: !(to <= a < to + n) ==> At(bytes, a) == old(At(bytes, a))
    {
      for i := 0 to n
        invariant SameBytes(old(bytes), from, bytes, to, i)
        invariant forall a: nat :: !(to <= a < to + i) ==> At(bytes, a) == old(At(bytes, a))
      {
        ghost var before := bytes;
        bytes := bytes[to + i := At(bytes, from + i)];
        forall a: nat | to <= a < to + i + 1
          ensures At(bytes, a) == old(At(bytes, from + (a - to)))
        {
          assert a < to + i ==> At(bytes, a) == At(before, a);
        }
      }
    }
  }
}
