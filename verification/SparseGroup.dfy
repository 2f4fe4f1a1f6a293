/** A sparse group: 32 logical positions stored in a dense buffer indexed by the rank of a bitmap. */
module SparseGroups {
  import opened Bits
  import opened PopCounts

  const GROUP_SIZE: nat := 32

  /** What a logical position holds: nothing, the trace of an erased value, or a value. */
  datatype Slot<T> = Empty | Erased | Full(value: T)

  /** The buffer capacity used for n values. */
  function Sizing(n: nat): (c: nat)
    ensures n <= c
  {
    if n == 0 then 0 else if n <= 4 then 4 else if n <= 8 then 8 else n + n % 2
  }

  /** The allocation table the source builds once, entry n - 1 for n values. */
  method AllocationTable() returns (table: array<nat>)
    ensures fresh(table) && table.Length == GROUP_SIZE
    ensures forall n :: 1 <= n <= GROUP_SIZE ==> table[n - 1] == Sizing(n)
  {
    table := new nat[GROUP_SIZE](_ => 0);
    var groupSize, startAlloc := GROUP_SIZE / 4, GROUP_SIZE / 8;
    var allocSize := startAlloc;
    for i := 0 to 4
      invariant startAlloc == if i == 0 then 4 else 2
      invariant allocSize == if i == 0 then 4 else 8 * i + 2
      invariant forall n :: 1 <= n <= 8 * i ==> table[n - 1] == Sizing(n)
    {
      for j := 0 to groupSize
        invariant allocSize == if j == 0 then (if i == 0 then 4 else 8 * i + 2) else Sizing(8 * i + j)
        invariant forall n :: 1 <= n <= 8 * i + j ==> table[n - 1] == Sizing(n)
      {
        assert j % startAlloc == if i == 0 then j % 4 else j % 2;
        if j > 0 && j % startAlloc == 0 {
          allocSize := allocSize + startAlloc;
        }
        table[i * groupSize + j] := allocSize;
      }
      if startAlloc > 2 {
        startAlloc := startAlloc / 2;
      }
      allocSize := allocSize + startAlloc;
    }
  }

  function CountFull<T>(slots: seq<Slot<T>>): (n: nat)
    ensures n <= |slots|
  {
    if slots == [] then 0
    else CountFull(slots[..|slots| - 1]) + (if slots[|slots| - 1].Full? then 1 else 0)
  }

  function CountErased<T>(slots: seq<Slot<T>>): (n: nat)
    ensures n <= |slots|
  {
    if slots == [] then 0
    else CountErased(slots[..|slots| - 1]) + (if slots[|slots| - 1].Erased? then 1 else 0)
  }

  /** One changed slot changes the counts by what it was and what it becomes. */
  lemma {:induction false} CountsAfterUpdate<T>(slots: seq<Slot<T>>, i: nat, s: Slot<T>)
    requires i < |slots|
    ensures CountFull(slots[i := s]) + (if slots[i].Full? then 1 else 0) == CountFull(slots) + (if s.Full? then 1 else 0)
    ensures CountErased(slots[i := s]) + (if slots[i].Erased? then 1 else 0)
            == CountErased(slots) + (if s.Erased? then 1 else 0)
  {
    var last := |slots| - 1;
    if i < last {
      CountsAfterUpdate(slots[..last], i, s);
      assert slots[i := s][..last] == slots[..last][i := s];
    } else {
      assert slots[i := s][..last] == slots[..last];
    }
  }

  /** The k-th full slot. */
  lemma {:induction false} NthFull<T>(slots: seq<Slot<T>>, k: nat) returns (p: nat)
    requires k < CountFull(slots)
    ensures p < |slots| && slots[p].Full? && CountFull(slots[..p]) == k
  {
    var last := |slots| - 1;
    if k == CountFull(slots[..last]) {
      p := last;
    } else {
      p := NthFull(slots[..last], k);
      assert slots[..last][..p] == slots[..p];
    }
  }

  lemma {:induction false} CountFullGrows<T>(slots: seq<Slot<T>>, p: nat, q: nat)
    requires p <= q <= |slots|
    ensures CountFull(slots[..p]) <= CountFull(slots[..q])
    ensures forall r :: p <= r < q && slots[r].Full? ==> CountFull(slots[..p]) < CountFull(slots[..q])
  {
    if p < q {
      CountFullGrows(slots, p, q - 1);
      assert slots[..q][..q - 1] == slots[..q - 1];
    }
  }

  /** Between the k-th and the next full slot, or before the first, or after the last, no slot is full. */
  lemma NoneBetween<T>(slots: seq<Slot<T>>, p: nat, q: nat)
    requires p <= q <= |slots| && CountFull(slots[..p]) == CountFull(slots[..q])
    ensures forall r :: p <= r < q ==> !slots[r].Full?
  {
    CountFullGrows(slots, p, q);
  }

  lemma NothingBelow<T>(slots: seq<Slot<T>>)
    ensures CountFull(slots[..0]) == 0
  {
  }

  lemma CountStep<T>(slots: seq<Slot<T>>, p: nat)
    requires p < |slots|
    ensures CountFull(slots[..p + 1]) == CountFull(slots[..p]) + (if slots[p].Full? then 1 else 0)
    ensures slots[..|slots|] == slots
  {
    assert slots[..p + 1][..p] == slots[..p];
  }

  // ----- the meaning of a bitmap, a tombstone bitmap and the dense values

  function Lookup<T>(bm: nat, er: nat, items: seq<T>, j: nat): Slot<T>
    requires j < GROUP_SIZE && |items| == Rank(bm, GROUP_SIZE)
  {
    if BitAt(bm, j) then
      RankGrows(bm, j, GROUP_SIZE);
      Full(items[Rank(bm, j)])
    else if BitAt(er, j) then Erased
    else Empty
  }

  /** The slots that two bitmaps and the dense values stand for. */
  ghost function SlotsOf<T>(bm: nat, er: nat, items: seq<T>): (slots: seq<Slot<T>>)
    requires |items| == Rank(bm, GROUP_SIZE)
    ensures |slots| == GROUP_SIZE
  {
    seq(GROUP_SIZE, j requires 0 <= j < GROUP_SIZE => Lookup(bm, er, items, j))
  }

  /** Two bitmaps of a group never mark the same position. */
  ghost predicate Apart(bm: nat, er: nat) {
    bm < WORD && er < WORD && And(bm, er) == 0
  }

  function Inserted<T>(items: seq<T>, k: nat, v: T): seq<T>
    requires k <= |items|
  {
    items[..k] + [v] + items[k..]
  }

  function Removed<T>(items: seq<T>, k: nat): seq<T>
    requires k < |items|
  {
    items[..k] + items[k + 1..]
  }

  lemma IsInserted<T>(items: seq<T>, k: nat, v: T, s: seq<T>)
    requires k <= |items| && |s| == |items| + 1 && s[k] == v
    requires forall j :: 0 <= j < k ==> s[j] == items[j]
    requires forall j :: k < j < |s| ==> s[j] == items[j - 1]
    ensures s == Inserted(items, k, v)
  {
  }

  lemma IsRemoved<T>(items: seq<T>, k: nat, s: seq<T>)
    requires k < |items| && |s| == |items| - 1
    requires forall j :: 0 <= j < k ==> s[j] == items[j]
    requires forall j :: k <= j < |s| ==> s[j] == items[j + 1]
    ensures s == Removed(items, k)
  {
  }

  /** Storing at an unset position shifts the later values and leaves every other position as it was. */
  lemma InsertLookup<T>(bm: nat, er: nat, items: seq<T>, i: nat, v: T, j: nat)
    requires i < GROUP_SIZE && j < GROUP_SIZE && |items| == Rank(bm, GROUP_SIZE) && !BitAt(bm, i)
    ensures var bm' := Or(bm, Pow2(i));
            && Rank(bm, i) <= |items|
            && Rank(bm', GROUP_SIZE) == |items| + 1
            && Lookup(bm', AndNot(er, Pow2(i)), Inserted(items, Rank(bm, i), v), j)
               == if j == i then Full(v) else Lookup(bm, er, items, j)
  {
    hide Rank, BitAt, Or, AndNot, Pow2;
    RankGrows(bm, i, GROUP_SIZE);
    RankAfterSet(bm, i, GROUP_SIZE);
    RankAfterSet(bm, i, j);
    SetBit(bm, i, j);
    SetBit(er, i, j);
    if BitAt(bm, j) {
      RankGrows(bm, j, GROUP_SIZE);
      if j < i {
        RankGrows(bm, j, i);
      } else {
        RankGrows(bm, i, j);
      }
    }
  }

  lemma ReplaceLookup<T>(bm: nat, er: nat, items: seq<T>, i: nat, v: T, j: nat)
    requires i < GROUP_SIZE && j < GROUP_SIZE && |items| == Rank(bm, GROUP_SIZE) && BitAt(bm, i)
    ensures Rank(bm, i) < |items|
    ensures Lookup(bm, AndNot(er, Pow2(i)), items[Rank(bm, i) := v], j)
            == if j == i then Full(v) else Lookup(bm, er, items, j)
  {
    hide Rank, BitAt, Or, AndNot, Pow2;
    RankGrows(bm, i, GROUP_SIZE);
    SetBit(er, i, j);
    if BitAt(bm, j) {
      RankGrows(bm, j, GROUP_SIZE);
      if j != i && Rank(bm, i) == Rank(bm, j) {
        RankInjective(bm, i, j);
      }
    }
  }

  lemma EraseLookup<T>(bm: nat, er: nat, items: seq<T>, i: nat, j: nat)
    requires i < GROUP_SIZE && j < GROUP_SIZE && |items| == Rank(bm, GROUP_SIZE) && BitAt(bm, i)
    ensures var bm' := AndNot(bm, Pow2(i));
            && Rank(bm, i) < |items|
            && Rank(bm', GROUP_SIZE) == |items| - 1
            && Lookup(bm', Or(er, Pow2(i)), Removed(items, Rank(bm, i)), j)
               == if j == i then Erased else Lookup(bm, er, items, j)
  {
    hide Rank, BitAt, Or, AndNot, Pow2;
    RankGrows(bm, i, GROUP_SIZE);
    RankAfterClear(bm, i, GROUP_SIZE);
    RankAfterClear(bm, i, j);
    SetBit(bm, i, j);
    SetBit(er, i, j);
    if BitAt(bm, j) && j != i {
      RankGrows(bm, j, GROUP_SIZE);
      if j < i {
        RankGrows(bm, j, i);
      } else {
        RankGrows(bm, i, j);
      }
    }
  }

  /** A word with no ranks has no bits. */
  lemma NoBits(x: nat)
    requires x < WORD && Rank(x, GROUP_SIZE) == 0
    ensures x == 0
  {
    WordWidth();
    OnesIsRank(x, 32);
    OnesPositive(x);
  }

  lemma {:induction false} OnesPositive(x: nat)
    ensures x > 0 ==> Ones(x) > 0
  {
    if x > 1 {
      OnesPositive(x / 2);
    }
  }

  /** A bitmap with a clear bit has room for one more value. */
  lemma RoomForOne(bm: nat, i: nat)
    requires i < GROUP_SIZE && !BitAt(bm, i)
    ensures Rank(bm, GROUP_SIZE) < GROUP_SIZE
  {
    RankAfterSet(bm, i, GROUP_SIZE);
  }

  lemma {:induction false} NoCommonBit(x: nat, y: nat)
    ensures And(x, y) == 0 <==> forall j: nat :: !(BitAt(x, j) && BitAt(y, j))
  {
    if And(x, y) == 0 {
      forall j: nat
        ensures !(BitAt(x, j) && BitAt(y, j))
      {
        BitOfAnd(x, y, j);
        BitOfZero(j);
      }
    } else {
      var j := HasBit(And(x, y));
      BitOfAnd(x, y, j);
    }
  }

  lemma {:induction false} HasBit(x: nat) returns (j: nat)
    requires x > 0
    ensures BitAt(x, j)
  {
    if x % 2 == 1 {
      j := 0;
    } else {
      var k := HasBit(x / 2);
      j := k + 1;
    }
  }

  lemma ApartAfterSet(bm: nat, er: nat, i: nat)
    requires Apart(bm, er) && i < GROUP_SIZE
    ensures Apart(Or(bm, Pow2(i)), AndNot(er, Pow2(i))) && Apart(bm, AndNot(er, Pow2(i)))
  {
    hide BitAt, Or, AndNot, And, Pow2;
    WordsStayWords(bm, i);
    WordsStayWords(er, i);
    NoCommonBit(bm, er);
    forall j: nat
      ensures BitAt(AndNot(er, Pow2(i)), j) ==> !BitAt(Or(bm, Pow2(i)), j) && !BitAt(bm, j)
    {
      SetBit(bm, i, j);
      SetBit(er, i, j);
    }
    NoCommonBit(Or(bm, Pow2(i)), AndNot(er, Pow2(i)));
    NoCommonBit(bm, AndNot(er, Pow2(i)));
  }

  lemma ApartAfterErase(bm: nat, er: nat, i: nat)
    requires Apart(bm, er) && i < GROUP_SIZE
    ensures Apart(AndNot(bm, Pow2(i)), Or(er, Pow2(i)))
  {
    hide BitAt, Or, AndNot, And, Pow2;
    WordsStayWords(bm, i);
    WordsStayWords(er, i);
    NoCommonBit(bm, er);
    forall j: nat
      ensures BitAt(AndNot(bm, Pow2(i)), j) ==> !BitAt(Or(er, Pow2(i)), j)
    {
      SetBit(bm, i, j);
      SetBit(er, i, j);
    }
    NoCommonBit(AndNot(bm, Pow2(i)), Or(er, Pow2(i)));
  }

  lemma WordsStayWords(x: nat, i: nat)
    requires x < WORD && i < GROUP_SIZE
    ensures Or(x, Pow2(i)) < WORD && AndNot(x, Pow2(i)) < WORD
  {
    WordWidth();
    Pow2Increases(i, 32);
    WordBounds(x, Pow2(i), 32);
  }

  lemma SlotsInsert<T>(bm: nat, er: nat, items: seq<T>, i: nat, v: T)
    requires i < GROUP_SIZE && |items| == Rank(bm, GROUP_SIZE) && !BitAt(bm, i)
    ensures Rank(bm, i) <= |items| < GROUP_SIZE && Rank(Or(bm, Pow2(i)), GROUP_SIZE) == |items| + 1
    ensures SlotsOf(Or(bm, Pow2(i)), AndNot(er, Pow2(i)), Inserted(items, Rank(bm, i), v))
            == SlotsOf(bm, er, items)[i := Full(v)]
  {
    hide Rank, BitAt, Or, AndNot, Pow2, Lookup;
    RoomForOne(bm, i);
    InsertLookup(bm, er, items, i, v, 0);
    forall j | 0 <= j < GROUP_SIZE
      ensures Lookup(Or(bm, Pow2(i)), AndNot(er, Pow2(i)), Inserted(items, Rank(bm, i), v), j)
              == if j == i then Full(v) else Lookup(bm, er, items, j)
    {
      InsertLookup(bm, er, items, i, v, j);
    }
  }

  lemma SlotsReplace<T>(bm: nat, er: nat, items: seq<T>, i: nat, v: T)
    requires i < GROUP_SIZE && |items| == Rank(bm, GROUP_SIZE) && BitAt(bm, i)
    ensures Rank(bm, i) < |items|
    ensures SlotsOf(bm, AndNot(er, Pow2(i)), items[Rank(bm, i) := v]) == SlotsOf(bm, er, items)[i := Full(v)]
  {
    hide Rank, BitAt, AndNot, Pow2;
    ReplaceLookup(bm, er, items, i, v, 0);
    forall j | 0 <= j < GROUP_SIZE
      ensures Lookup(bm, AndNot(er, Pow2(i)), items[Rank(bm, i) := v], j)
              == if j == i then Full(v) else Lookup(bm, er, items, j)
    {
      ReplaceLookup(bm, er, items, i, v, j);
    }
  }

  lemma SlotsErase<T>(bm: nat, er: nat, items: seq<T>, i: nat)
    requires i < GROUP_SIZE && bm < WORD && |items| == Rank(bm, GROUP_SIZE) && BitAt(bm, i)
    ensures Rank(bm, i) < |items| && Rank(AndNot(bm, Pow2(i)), GROUP_SIZE) == |items| - 1
    ensures SlotsOf(AndNot(bm, Pow2(i)), Or(er, Pow2(i)), Removed(items, Rank(bm, i)))
            == SlotsOf(bm, er, items)[i := Erased]
    ensures |items| == 1 ==> AndNot(bm, Pow2(i)) == 0
  {
    hide Rank, BitAt, Or, AndNot, Pow2, Lookup;
    EraseLookup(bm, er, items, i, 0);
    forall j | 0 <= j < GROUP_SIZE
      ensures Lookup(AndNot(bm, Pow2(i)), Or(er, Pow2(i)), Removed(items, Rank(bm, i)), j)
              == if j == i then Erased else Lookup(bm, er, items, j)
    {
      EraseLookup(bm, er, items, i, j);
    }
    if |items| == 1 {
      WordsStayWords(bm, i);
      NoBits(AndNot(bm, Pow2(i)));
    }
  }

  /** Without values only the tombstones are left. */
  lemma SlotsCleared<T>(bm: nat, er: nat, items: seq<T>)
    requires |items| == Rank(bm, GROUP_SIZE) && Apart(bm, er)
    ensures Rank(0, GROUP_SIZE) == 0 && Apart(0, er) && Apart(0, 0)
    ensures SlotsOf<T>(0, er, []) == Tombstones(SlotsOf(bm, er, items))
    ensures SlotsOf<T>(0, 0, []) == seq(GROUP_SIZE, _ => Empty)
  {
    hide BitAt, Rank;
    RankOfZero(GROUP_SIZE);
    NoCommonBit(bm, er);
    forall j: nat | 0 <= j < GROUP_SIZE
      ensures Lookup<T>(0, er, [], j) == if Lookup(bm, er, items, j).Erased? then Erased else Empty
      ensures Lookup<T>(0, 0, [], j) == Empty
    {
      assert !(BitAt(bm, j) && BitAt(er, j));
      BitOfZero(j);
    }
  }

  /** The erased positions, without the values. */
  function Tombstones<T>(slots: seq<Slot<T>>): seq<Slot<T>> {
    seq(|slots|, j requires 0 <= j < |slots| => if slots[j].Erased? then Erased else Empty)
  }

  /** The rank of a position counts the full slots below it. */
  lemma {:induction false} RankCounts<T>(bm: nat, er: nat, items: seq<T>, pos: nat)
    requires |items| == Rank(bm, GROUP_SIZE) && pos <= GROUP_SIZE
    ensures CountFull(SlotsOf(bm, er, items)[..pos]) == Rank(bm, pos)
  {
    hide Rank, BitAt;
    if pos > 0 {
      RankCounts(bm, er, items, pos - 1);
      RankStep(bm, pos - 1);
      CountStep(SlotsOf(bm, er, items), pos - 1);
    } else {
      RankOfZeroPositions(bm);
    }
  }

  lemma RankOfZeroPositions(bm: nat)
    ensures Rank(bm, 0) == 0
  {
  }

  lemma FullBit<T>(bm: nat, er: nat, items: seq<T>, p: nat)
    requires |items| == Rank(bm, GROUP_SIZE) && p < GROUP_SIZE
    ensures SlotsOf(bm, er, items)[p].Full? <==> BitAt(bm, p)
  {
    hide Rank, BitAt;
  }

  lemma ApartFromNone(bm: nat)
    requires bm < WORD
    ensures Apart(bm, 0)
  {
  }

  lemma {:induction false} ClearUnset(x: nat, i: nat)
    requires !BitAt(x, i)
    ensures AndNot(x, Pow2(i)) == x
  {
    if x > 0 {
      if i > 0 {
        ClearUnset(x / 2, i - 1);
      } else {
        assert Pow2(0) == 1;
        AndNotZero(x / 2);
      }
    }
  }

  /** Clearing the tombstone of a full position changes nothing. */
  lemma NotErased(bm: nat, er: nat, i: nat)
    requires Apart(bm, er) && BitAt(bm, i)
    ensures AndNot(er, Pow2(i)) == er
  {
    hide AndNot, BitAt;
    NoCommonBit(bm, er);
    assert !(BitAt(bm, i) && BitAt(er, i));
    ClearUnset(er, i);
  }

  // ----- moving values inside a buffer

  /** `reallocate`: the first values keep their places in a buffer of the new size. */
  method Reallocate<T(0)>(a: array<T>, size: nat, keep: nat) returns (p: array<T>)
    requires keep <= size && keep <= a.Length
    ensures fresh(p) && p.Length == size && p[..keep] == a[..keep]
  {
    p := new T[size];
    for k := 0 to keep
      invariant p[..k] == a[..k]
    {
      p[k] := a[k];
    }
  }

  /** Move the values from offset on one place up, from the last one down. */
  method ShiftUp<T>(a: array<T>, offset: nat, n: nat)
    requires offset <= n < a.Length
    modifies a
    ensures forall k :: 0 <= k < a.Length && (k < offset || n < k) ==> a[k] == old(a[k])
    ensures forall k :: offset < k <= n ==> a[k] == old(a[k - 1])
  {
    var i := n;
    while i > offset
      invariant offset <= i <= n
      invariant forall k :: 0 <= k < a.Length && (k < i || n < k) ==> a[k] == old(a[k])
      invariant forall k :: i < k <= n ==> a[k] == old(a[k - 1])
    {
      a[i] := a[i - 1];
      i := i - 1;
    }
  }

  /** Move the values after offset one place down, from the first one up. */
  method ShiftDown<T>(a: array<T>, offset: nat, n: nat)
    requires offset < n <= a.Length
    modifies a
    ensures forall k :: 0 <= k < offset ==> a[k] == old(a[k])
    ensures forall k :: offset <= k < n - 1 ==> a[k] == old(a[k + 1])
  {
    var i := offset;
    while i < n - 1
      invariant offset <= i <= n - 1
      invariant forall k :: 0 <= k < offset || i <= k < n ==> a[k] == old(a[k])
      invariant forall k :: offset <= k < i ==> a[k] == old(a[k + 1])
    {
      a[i] := a[i + 1];
      i := i + 1;
    }
  }

  /** The buffer is full exactly when the next value needs a larger one. */
  lemma SizingSteps(n: nat)
    ensures n < Sizing(n) ==> Sizing(n + 1) == Sizing(n)
    ensures Sizing(0) == 0 && Sizing(n) <= Sizing(n + 1)
  {
  }

  /** A capacity is its own capacity, so rounding a second time changes nothing. */
  lemma SizingTwice(n: nat)
    ensures Sizing(Sizing(n)) == Sizing(n)
  {
  }

  /** `_set_aux`: make room at offset, growing the buffer when it is full, and put the value there. */
  method InsertItem<T(0)>(a: array<T>, n: nat, offset: nat, val: T) returns (p: array<T>)
    requires a.Length == Sizing(n) && offset <= n
    modifies a
    ensures (if n < Sizing(n) then p == a else fresh(p)) && p.Length == Sizing(n + 1)
    ensures p[..n + 1] == Inserted(old(a[..n]), offset, val) && p[offset] == val
  {
    hide Sizing, Inserted;
    SizingSteps(n);
    p := a;
    if n == Sizing(n) {
      p := Reallocate(a, Sizing(n + 1), n);
    }
    ghost var items := a[..n];
    assert forall k :: 0 <= k < n ==> p[k] == items[k] by {
      assert p[..n] == items;
    }
    ShiftUp(p, offset, n);
    p[offset] := val;
    IsInserted(items, offset, val, p[..n + 1]);
  }

  /** `_group_erase_aux`: close the gap at offset and shrink the buffer when its size class changes. */
  method RemoveItem<T(0)>(a: array<T>, n: nat, offset: nat) returns (p: array<T>)
    requires a.Length == Sizing(n) && offset < n
    modifies a
    ensures (if Sizing(n - 1) == Sizing(n) then p == a else fresh(p)) && p.Length == Sizing(n - 1)
    ensures p[..n - 1] == Removed(old(a[..n]), offset)
  {
    hide Sizing, Removed;
    SizingSteps(n - 1);
    ghost var items := a[..n];
    ShiftDown(a, offset, n);
    IsRemoved(items, offset, a[..n - 1]);
    p := a;
    if Sizing(n - 1) != Sizing(n) {
      p := Reallocate(a, Sizing(n - 1), n - 1);
    }
  }

  class SparseGroup<T(0)> {
    var group: array<T>
    var bitmap: nat
    var erased: nat
    ghost var slots: seq<Slot<T>>

    ghost predicate Valid()
      reads this, group
    {
      && Apart(bitmap, erased)
      && group.Length == Sizing(Rank(bitmap, GROUP_SIZE))
      && slots == SlotsOf(bitmap, erased, group[..Rank(bitmap, GROUP_SIZE)])
    }

    constructor ()
      ensures Valid() && fresh(group)
      ensures slots == seq(GROUP_SIZE, _ => Empty)
    {
      group := new T[0];
      bitmap, erased := 0, 0;
      slots := seq(GROUP_SIZE, _ => Empty);
      new;
      RankOfZero(GROUP_SIZE);
      SlotsCleared<T>(0, 0, []);
      assert group[..0] == [];
    }

    /** The number of values, counted from the bitmap. */
    method NumItems() returns (n: nat)
      requires bitmap < WORD
      ensures n == Rank(bitmap, GROUP_SIZE)
    {
      PopCountIsOnes(bitmap);
      n := PopCount(bitmap);
    }

    /** Where in the buffer the value of position i is, or would go. */
    method Offset(i: nat) returns (offset: nat)
      requires bitmap < WORD && i < GROUP_SIZE
      ensures offset == Rank(bitmap, i)
    {
      PosToOffsetIsRank(bitmap, i);
      offset := PosToOffset(bitmap, i);
    }

    predicate Test(i: nat)
      requires Valid() && i < GROUP_SIZE
      reads this, group
      ensures Test(i) <==> slots[i].Full?
      ensures Test(i) <==> BitAt(bitmap, i)
    {
      TestBit(bitmap, i);
      And(bitmap, Pow2(i)) != 0
    }

    predicate TestStrict(i: nat)
      requires Valid() && i < GROUP_SIZE
      reads this, group
      ensures TestStrict(i) <==> slots[i] != Empty
    {
      TestBit(Or(bitmap, erased), i);
      BitOfOr(bitmap, erased, i);
      And(Or(bitmap, erased), Pow2(i)) != 0
    }

    method UnsafeGet(i: nat) returns (v: T)
      requires Valid() && i < GROUP_SIZE && slots[i].Full?
      ensures slots[i] == Full(v)
    {
      var offset := Offset(i);
      RankGrows(bitmap, i, GROUP_SIZE);
      v := group[offset];
    }

    method NumNonempty() returns (n: nat)
      requires Valid()
      ensures n == CountFull(slots)
    {
      hide Rank, SlotsOf, And, BitAt;
      RankCounts(bitmap, erased, group[..Rank(bitmap, GROUP_SIZE)], GROUP_SIZE);
      assert slots[..GROUP_SIZE] == slots;
      n := NumItems();
    }

    /** The col-th value of the buffer is the col-th full position's. */
    method Item(col: nat, ghost p: nat) returns (v: T)
      requires Valid() && p < GROUP_SIZE && slots[p].Full? && col == CountFull(slots[..p])
      ensures slots[p] == Full(v)
    {
      hide Rank, And, BitAt;
      RankCounts(bitmap, erased, group[..Rank(bitmap, GROUP_SIZE)], p);
      RankGrows(bitmap, p, GROUP_SIZE);
      v := group[col];
    }

    /** `pos_to_offset` of a position. */
    method CountBelow(i: nat) returns (offset: nat)
      requires Valid() && i < GROUP_SIZE
      ensures offset == CountFull(slots[..i])
    {
      hide Rank, And, BitAt;
      RankCounts(bitmap, erased, group[..Rank(bitmap, GROUP_SIZE)], i);
      offset := Offset(i);
    }

    /** The position whose value is the col-th of the buffer. */
    method OffsetPosition(col: nat) returns (p: nat)
      requires Valid() && col < CountFull(slots)
      ensures p < GROUP_SIZE && slots[p].Full? && col == CountFull(slots[..p])
    {
      hide Rank, And, BitAt, Ones;
      ghost var items := group[..Rank(bitmap, GROUP_SIZE)];
      RankCounts(bitmap, erased, items, GROUP_SIZE);
      assert slots[..GROUP_SIZE] == slots;
      WordOnes(bitmap);
      p := OffsetToPos(bitmap, col);
      RankCounts(bitmap, erased, items, p);
    }

    /** Store val at position i; an erased position becomes a full one. */
    method Set(i: nat, val: T) returns (offset: nat)
      requires Valid() && i < GROUP_SIZE
      modifies this, group
      ensures Valid() && (group == old(group) || fresh(group))
      ensures slots == old(slots)[i := Full(val)]
      ensures offset < group.Length && group[offset] == val && offset == CountFull(slots[..i])
    {
      hide Rank, BitAt, And, Or, AndNot, Pow2, Lookup, SlotsOf, Sizing, Inserted;
      ghost var items := group[..Rank(bitmap, GROUP_SIZE)];
      RankGrows(bitmap, i, GROUP_SIZE);
      ApartAfterSet(bitmap, erased, i);
      offset := Offset(i);
      if !Test(i) {
        SlotsInsert(bitmap, erased, items, i, val);
        RankAfterSet(bitmap, i, i);
        var numItems := NumItems();
        group := InsertItem(group, numItems, offset, val);
        bitmap := Or(bitmap, Pow2(i));
      } else {
        SlotsReplace(bitmap, erased, items, i, val);
        group[offset] := val;
        assert group[..Rank(bitmap, GROUP_SIZE)] == items[offset := val];
      }
      erased := AndNot(erased, Pow2(i));
      slots := slots[i := Full(val)];
      RankCounts(bitmap, erased, group[..Rank(bitmap, GROUP_SIZE)], i);
    }

    /** Forget every value, and the tombstones as well when all is set. */
    method Clear(all: bool)
      requires Valid()
      modifies this
      ensures Valid() && fresh(group)
      ensures slots == if all then seq(GROUP_SIZE, _ => Empty) else Tombstones(old(slots))
      ensures bitmap == 0 && group.Length == 0 && erased == if all then 0 else old(erased)
    {
      hide Rank, BitAt, And, Lookup, SlotsOf;
      SlotsCleared(bitmap, erased, group[..Rank(bitmap, GROUP_SIZE)]);
      group := new T[0];
      slots := if all then seq(GROUP_SIZE, _ => Empty) else Tombstones(slots);
      bitmap := 0;
      if all {
        erased := 0;
      }
      assert group[..0] == [];
    }

    /** Erase position i if it is full, leaving a tombstone. */
    method Erase(i: nat)
      requires Valid() && i < GROUP_SIZE
      modifies this, group
      ensures Valid() && (group == old(group) || fresh(group))
      ensures slots == if old(slots)[i].Full? then old(slots)[i := Erased] else old(slots)
    {
      hide Rank, BitAt, And, Or, AndNot, Pow2, Lookup, SlotsOf, Tombstones;
      if Test(i) {
        ghost var bm, was := bitmap, slots;
        ghost var items := group[..Rank(bitmap, GROUP_SIZE)];
        SlotsErase(bm, erased, items, i);
        ApartAfterErase(bm, erased, i);
        var numItems := NumItems();
        if numItems == 1 {
          Clear(false);
          assert Removed(items, Rank(bm, i)) == [];
          assert group[..0] == [];
        } else {
          var offset := Offset(i);
          group := RemoveItem(group, numItems, offset);
          bitmap := AndNot(bitmap, Pow2(i));
        }
        erased := Or(erased, Pow2(i));
        slots := was[i := Erased];
      }
    }

    /** `read_metadata`, once the bitmap has been read: room for its values, which are still to come. */
    method TakeBitmap(bm: nat)
      requires Valid() && bm < WORD
      modifies this
      ensures Valid() && fresh(group) && |slots| == GROUP_SIZE
      ensures forall i: nat :: i < GROUP_SIZE ==> (slots[i].Full? <==> BitAt(bm, i)) && !slots[i].Erased?
    {
      hide Rank, BitAt, And, Sizing;
      Clear(true);
      bitmap := bm;
      var n := NumItems();
      group := new T[Sizing(n)];
      slots := SlotsOf(bitmap, erased, group[..n]);
      ApartFromNone(bm);
      forall i: nat | i < GROUP_SIZE
        ensures (slots[i].Full? <==> BitAt(bm, i)) && !slots[i].Erased?
      {
        BitOfZero(i);
      }
    }

    /** Overwrite the col-th value of the buffer, that of position p. */
    method PutItem(col: nat, v: T, ghost p: nat)
      requires Valid() && p < GROUP_SIZE && slots[p].Full? && col == CountFull(slots[..p])
      modifies this`slots, group
      ensures Valid() && slots == old(slots)[p := Full(v)]
    {
      hide Rank, BitAt, And, AndNot, Lookup, SlotsOf, Sizing;
      ghost var items := group[..Rank(bitmap, GROUP_SIZE)];
      FullBit(bitmap, erased, items, p);
      RankCounts(bitmap, erased, items, p);
      SlotsReplace(bitmap, erased, items, p, v);
      NotErased(bitmap, erased, p);
      group[col] := v;
      assert group[..Rank(bitmap, GROUP_SIZE)] == items[col := v];
      slots := slots[p := Full(v)];
    }
  }
}
