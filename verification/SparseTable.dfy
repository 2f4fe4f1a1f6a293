/** A sparse table: an index space of any size split over sparse groups. */
module SparseTables {
  import opened Bits
  import opened SparseGroups

  /** How many groups hold num buckets. */
  function NumGroups(num: nat): (n: nat)
    ensures 32 * n < num + 32 && num <= 32 * n
  {
    if num == 0 then 0 else (num - 1) / 32 + 1
  }

  function Empties<T>(n: nat): seq<Slot<T>> {
    seq(n, _ => Empty)
  }

  lemma {:induction false} CountsAfterGrowth<T>(slots: seq<Slot<T>>, n: nat)
    ensures CountFull(slots + Empties(n)) == CountFull(slots) && CountErased(slots + Empties(n)) == CountErased(slots)
  {
    if n > 0 {
      CountsAfterGrowth(slots, n - 1);
      assert (slots + Empties(n))[..|slots| + n - 1] == slots + Empties(n - 1);
    } else {
      assert slots + Empties(0) == slots;
    }
  }

  // ----- the rows of groups as one index space

  ghost predicate FullRows<T>(rows: seq<seq<Slot<T>>>) {
    forall g :: 0 <= g < |rows| ==> |rows[g]| == 32
  }

  /** The first n positions of the rows, laid end to end. */
  ghost function Flat<T>(rows: seq<seq<Slot<T>>>, n: nat): (slots: seq<Slot<T>>)
    requires FullRows(rows) && n <= 32 * |rows|
    ensures |slots| == n
  {
    seq(n, i requires 0 <= i < n => rows[i / 32][i % 32])
  }

  /** The positions from n on are empty. */
  ghost predicate EmptyFrom<T>(rows: seq<seq<Slot<T>>>, n: nat) {
    forall g, j :: 0 <= g < |rows| && 0 <= j < |rows[g]| && n <= 32 * g + j ==> rows[g][j] == Empty
  }

  lemma FlatUpdate<T>(rows: seq<seq<Slot<T>>>, n: nat, i: nat, s: Slot<T>)
    requires FullRows(rows) && n <= 32 * |rows| && i < n && EmptyFrom(rows, n)
    ensures var rows' := rows[i / 32 := rows[i / 32][i % 32 := s]];
            && FullRows(rows') && EmptyFrom(rows', n)
            && Flat(rows', n) == Flat(rows, n)[i := s]
    ensures Flat(rows, n)[i] == rows[i / 32][i % 32]
  {
    var rows' := rows[i / 32 := rows[i / 32][i % 32 := s]];
    forall k | 0 <= k < n
      ensures rows'[k / 32][k % 32] == if k == i then s else rows[k / 32][k % 32]
    {
    }
    forall g, j | 0 <= g < |rows'| && 0 <= j < |rows'[g]| && n <= 32 * g + j
      ensures rows'[g][j] == Empty
    {
      assert rows[g][j] == Empty;
      assert 32 * g + j != i;
    }
  }

  lemma FlatGrows<T>(rows: seq<seq<Slot<T>>>, rows': seq<seq<Slot<T>>>, n: nat, n': nat)
    requires FullRows(rows) && FullRows(rows') && n <= 32 * |rows| && n <= n' <= 32 * |rows'| && EmptyFrom(rows, n)
    requires rows <= rows' && forall g :: |rows| <= g < |rows'| ==> rows'[g] == Empties(32)
    ensures EmptyFrom(rows', n') && Flat(rows', n') == Flat(rows, n) + Empties(n' - n)
  {
    forall g, j | 0 <= g < |rows'| && 0 <= j < |rows'[g]| && n <= 32 * g + j
      ensures rows'[g][j] == Empty
    {
      if g < |rows| {
        assert rows[g][j] == Empty;
      }
    }
    forall k | 0 <= k < n'
      ensures rows'[k / 32][k % 32] == if k < n then rows[k / 32][k % 32] else Empty
    {
    }
  }

  class SparseTable<T(0)> {
    var groups: seq<SparseGroup<T>>
    var tableSize: nat
    var numBuckets: nat
    ghost var rows: seq<seq<Slot<T>>>
    ghost var slots: seq<Slot<T>>
    ghost var Repr: set<object>

    /** The groups are distinct valid objects with distinct buffers, and rows are their contents. */
    ghost predicate Separate()
      reads this, Repr
      ensures Separate() ==> this in Repr && |rows| == |groups|
    {
      && this in Repr
      && |rows| == |groups|
      && (forall g :: 0 <= g < |groups| ==>
            groups[g] in Repr && groups[g].group in Repr && groups[g].Valid() && groups[g].slots == rows[g])
      && (forall g, h :: 0 <= g < h < |groups| ==> groups[g] != groups[h] && groups[g].group != groups[h].group)
    }

    ghost predicate Valid()
      reads this, Repr
      ensures Valid() ==> Separate() && |slots| == tableSize
      ensures Valid() ==> |rows| == |groups| && FullRows(rows) && EmptyFrom(rows, tableSize)
      ensures Valid() ==> tableSize <= 32 * |rows| && slots == Flat(rows, tableSize)
    {
      && Separate()
      && |groups| == NumGroups(tableSize)
      && FullRows(rows) && EmptyFrom(rows, tableSize)
      && slots == Flat(rows, tableSize)
      && numBuckets == CountFull(slots)
    }

    constructor (sz: nat)
      ensures Valid() && fresh(Repr)
      ensures slots == Empties(sz)
    {
      groups, tableSize, numBuckets := [], 0, 0;
      slots, rows := [], [];
      Repr := {this};
      new;
      Resize(sz);
      assert slots == Empties(sz);
    }

    method AddGroup()
      requires Separate()
      modifies this`groups, this`rows, this`Repr
      ensures Separate() && rows == old(rows) + [Empties(32)]
      ensures fresh(Repr - old(Repr)) && old(Repr) <= Repr
    {
      hide Rank, SlotsOf, SparseGroup.Valid;
      var g := new SparseGroup<T>();
      groups := groups + [g];
      rows := rows + [g.slots];
      Repr := Repr + {g, g.group};
    }

    /** Grow to n buckets; the new ones are empty. */
    method Resize(n: nat)
      requires Valid() && tableSize <= n
      modifies this
      ensures Valid() && fresh(Repr - old(Repr)) && old(Repr) <= Repr
      ensures slots == old(slots) + Empties(n - old(tableSize))
    {
      hide CountFull, Flat, EmptyFrom, SparseGroup.Valid;
      var sz := NumGroups(n);
      ghost var was := rows;
      while |groups| < sz
        invariant Separate() && fresh(Repr - old(Repr)) && old(Repr) <= Repr
        invariant |was| <= |groups| <= sz && FullRows(rows)
        invariant was <= rows && forall g :: |was| <= g < |rows| ==> rows[g] == Empties(32)
        invariant tableSize == old(tableSize) && slots == old(slots) && numBuckets == old(numBuckets)
      {
        AddGroup();
      }
      FlatGrows(was, rows, tableSize, n);
      CountsAfterGrowth(slots, n - tableSize);
      slots := slots + Empties(n - tableSize);
      tableSize := n;
    }

    predicate Test(i: nat)
      requires Valid() && i < tableSize
      reads this, Repr
      ensures Test(i) <==> slots[i].Full?
    {
      groups[i / 32].Test(i % 32)
    }

    predicate TestStrict(i: nat)
      requires Valid() && i < tableSize
      reads this, Repr
      ensures TestStrict(i) <==> slots[i] != Empty
    {
      groups[i / 32].TestStrict(i % 32)
    }

    method UnsafeGet(i: nat) returns (v: T)
      requires Valid() && i < tableSize && slots[i].Full?
      ensures slots[i] == Full(v)
    {
      v := groups[i / 32].UnsafeGet(i % 32);
    }

    /** Group g may have changed; the others are as they were. */
    twostate predicate OthersKept(g: nat)
      requires groups == old(groups)
      reads this, groups
      reads set o | o in groups :: o.group
    {
      forall h :: 0 <= h < |groups| && h != g ==>
        groups[h].Valid() && groups[h].slots == old(groups[h].slots) && groups[h].group == old(groups[h].group)
    }

    /** How many values group g holds. */
    method RowItems(g: nat) returns (n: nat)
      requires Separate() && g < |groups|
      ensures n == CountFull(rows[g])
    {
      hide SparseGroup.Valid, CountFull, EmptyFrom, Flat;
      n := groups[g].NumNonempty();
    }

    /** The value of group g at offset col, which is the one of position p. */
    method RowItem(g: nat, col: nat, ghost p: nat) returns (v: T)
      requires Separate() && FullRows(rows) && g < |groups| && p < 32 && rows[g][p].Full? && col == CountFull(rows[g][..p])
      ensures rows[g][p] == Full(v)
    {
      hide SparseGroup.Valid, CountFull, EmptyFrom, Flat;
      v := groups[g].Item(col, p);
    }

    /** Empty group g and free its buffer; the counters are left as they are. */
    method ClearGroup(g: nat)
      requires Separate() && g < |groups|
      modifies Repr
      ensures Separate() && fresh(Repr - old(Repr)) && groups == old(groups) && tableSize == old(tableSize)
      ensures rows == old(rows)[g := Empties(32)]
    {
      hide SparseGroup.Valid;
      var group := groups[g];
      group.Clear(true);
      Repr := Repr + {group.group};
      rows := rows[g := group.slots];
      assert rows[g] == Empties(32);
      assert forall h :: 0 <= h < |groups| ==> old(groups[h].group) in old(Repr);
    }

    lemma SlotInGroup(i: nat)
      requires Valid() && i < tableSize
      ensures i / 32 < |groups| && |groups[i / 32].slots| == 32 && slots[i] == groups[i / 32].slots[i % 32]
    {
      hide SparseGroup.Valid, CountFull, EmptyFrom;
    }

    /** One slot of one group changed, and the bookkeeping with it: the table is again consistent. */
    twostate lemma SlotChanged(i: nat, new s: Slot<T>)
      requires old(Valid()) && i < tableSize == old(tableSize) && groups == old(groups) && i / 32 < |groups|
      requires groups[i / 32].Valid()
      requires groups[i / 32].group == old(groups[i / 32].group) || fresh(groups[i / 32].group)
      requires |old(groups[i / 32].slots)| == 32 && groups[i / 32].slots == old(groups[i / 32].slots)[i % 32 := s]
      requires Repr == old(Repr) + {groups[i / 32].group} && rows == old(rows)[i / 32 := groups[i / 32].slots]
      requires OthersKept(i / 32)
      requires slots == old(slots)[i := s]
      requires numBuckets + (if old(slots[i]).Full? then 1 else 0) == old(numBuckets) + (if s.Full? then 1 else 0)
      ensures Valid()
    {
      hide SparseGroup.Valid, CountFull, EmptyFrom, Flat, NumGroups;
      assert forall h :: 0 <= h < |groups| ==> old(groups[h].group) in old(Repr);
      FlatUpdate(old(rows), tableSize, i, s);
      CountsAfterUpdate(old(slots), i, s);
    }

    /** Store val in bucket i. */
    method Set(i: nat, val: T)
      requires Valid() && i < tableSize
      modifies Repr
      ensures Valid() && fresh(Repr - old(Repr)) && tableSize == old(tableSize)
      ensures slots == old(slots)[i := Full(val)]
    {
      hide Rank, SlotsOf, CountFull, SparseGroup.Valid, Flat, EmptyFrom, NumGroups;
      SlotInGroup(i);
      var group := groups[i / 32];
      CountsAfterUpdate(group.slots, i % 32, Full(val));
      var oldItems := group.NumNonempty();
      var offset := group.Set(i % 32, val);
      var newItems := group.NumNonempty();
      numBuckets := numBuckets + (newItems - oldItems);
      Repr := Repr + {group.group};
      rows := rows[i / 32 := group.slots];
      slots := slots[i := Full(val)];
      SlotChanged(i, Full(val));
    }

    /** Store val in bucket i, which holds no value, and count it. */
    method Move(i: nat, val: T)
      requires Valid() && i < tableSize && !slots[i].Full?
      modifies Repr
      ensures Valid() && fresh(Repr - old(Repr)) && tableSize == old(tableSize)
      ensures slots == old(slots)[i := Full(val)]
    {
      hide Rank, SlotsOf, CountFull, SparseGroup.Valid, Flat, EmptyFrom, NumGroups;
      SlotInGroup(i);
      var group := groups[i / 32];
      var offset := group.Set(i % 32, val);
      numBuckets := numBuckets + 1;
      Repr := Repr + {group.group};
      rows := rows[i / 32 := group.slots];
      slots := slots[i := Full(val)];
      SlotChanged(i, Full(val));
    }

    /** Take the value out of bucket i, which holds one, leaving a tombstone. */
    method Erase(i: nat)
      requires Valid() && i < tableSize && slots[i].Full?
      modifies Repr
      ensures Valid() && fresh(Repr - old(Repr)) && tableSize == old(tableSize)
      ensures slots == old(slots)[i := Erased]
    {
      hide Rank, SlotsOf, CountFull, SparseGroup.Valid, Flat, EmptyFrom, NumGroups;
      SlotInGroup(i);
      CountsAfterUpdate(slots, i, Erased);
      var group := groups[i / 32];
      group.Erase(i % 32);
      numBuckets := numBuckets - 1;
      Repr := Repr + {group.group};
      rows := rows[i / 32 := group.slots];
      slots := slots[i := Erased];
      SlotChanged(i, Erased);
    }

    /** Give up all groups. */
    method Clear()
      requires Valid()
      modifies this
      ensures Valid() && fresh(Repr - old(Repr)) && slots == []
    {
      groups, numBuckets, tableSize := [], 0, 0;
      Repr, rows, slots := {this}, [], [];
    }

    /** The number of values, as a file states it. */
    method TakeCount(num: nat)
      requires Separate()
      modifies this`numBuckets
      ensures Separate() && numBuckets == num
    {
      hide SparseGroup.Valid;
      numBuckets := num;
    }

    /** Rows and count agree: the table is consistent again. */
    ghost method Settle()
      requires Separate() && |groups| == NumGroups(tableSize) && FullRows(rows) && EmptyFrom(rows, tableSize)
      requires numBuckets == CountFull(Flat(rows, tableSize))
      modifies this`slots
      ensures Valid() && slots == Flat(rows, tableSize)
    {
      hide SparseGroup.Valid, CountFull, EmptyFrom, Flat;
      slots := Flat(rows, tableSize);
    }

    /** Group g takes a bitmap that has been read. */
    method TakeBitmap(g: nat, bm: nat)
      requires Separate() && g < |groups| && bm < WORD
      modifies Repr
      ensures Separate() && fresh(Repr - old(Repr)) && groups == old(groups) && tableSize == old(tableSize) && numBuckets == old(numBuckets)
      ensures rows == old(rows)[g := rows[g]] && |rows[g]| == 32
      ensures forall i: nat :: i < 32 ==> (rows[g][i].Full? <==> BitAt(bm, i)) && !rows[g][i].Erased?
    {
      hide SparseGroup.Valid, BitAt;
      var group := groups[g];
      group.TakeBitmap(bm);
      Repr := Repr + {group.group};
      rows := rows[g := group.slots];
      assert forall h :: 0 <= h < |groups| ==> old(groups[h].group) in old(Repr);
    }

    /** Overwrite the value of bucket i, given by its group and offset. */
    method Overwrite(row: nat, col: nat, v: T, ghost i: nat)
      requires Valid() && i < tableSize && i / 32 == row < |groups| && slots[i].Full?
      requires rows[row][i % 32].Full? && col == CountFull(rows[row][..i % 32])
      modifies Repr
      ensures Valid() && Repr == old(Repr) && groups == old(groups) && tableSize == old(tableSize)
      ensures slots == old(slots)[i := Full(v)] && rows == old(rows)[row := old(rows)[row][i % 32 := Full(v)]]
    {
      hide Rank, SlotsOf, CountFull, SparseGroup.Valid, Flat, EmptyFrom, NumGroups;
      SlotInGroup(i);
      var group := groups[row];
      group.PutItem(col, v, i % 32);
      rows := rows[row := group.slots];
      slots := slots[i := Full(v)];
      SlotChanged(i, Full(v));
    }
  }
}
