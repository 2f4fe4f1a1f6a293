/** Walking the non-empty buckets of a sparse table, group by group, plainly or freeing groups on the way. */
module SparseIterators {
  import opened Bits
  import opened SparseGroups
  import opened SparseTables

  /** No bucket from lo on and below hi holds a value. */
  ghost predicate NoneFull<T>(slots: seq<Slot<T>>, lo: nat, hi: nat) {
    hi <= |slots| && forall k :: lo <= k < hi ==> !slots[k].Full?
  }

  /** What the rows say about a stretch of one row. */
  lemma RowStretch<T>(rows: seq<seq<Slot<T>>>, n: nat, row: nat, p: nat, q: nat)
    requires FullRows(rows) && n <= 32 * |rows| && EmptyFrom(rows, n) && row < |rows| && p <= q <= 32
    requires CountFull(rows[row][..p]) == CountFull(rows[row][..q])
    ensures NoneFull(Flat(rows, n), 32 * row + p, if 32 * row + q <= n then 32 * row + q else n)
  {
    hide CountFull, EmptyFrom;
    NoneBetween(rows[row], p, q);
    forall k | 32 * row + p <= k < 32 * row + q && k < n
      ensures !Flat(rows, n)[k].Full?
    {
      assert k / 32 == row && p <= k % 32 < q;
    }
  }

  lemma FullInRow<T>(rows: seq<seq<Slot<T>>>, n: nat, row: nat, p: nat)
    requires FullRows(rows) && n <= 32 * |rows| && EmptyFrom(rows, n) && row < |rows| && p < 32 && rows[row][p].Full?
    ensures 32 * row + p < n && Flat(rows, n)[32 * row + p] == rows[row][p]
  {
    assert (32 * row + p) / 32 == row && (32 * row + p) % 32 == p;
  }

  /** The first full position of a row at or after position p, when one is left. */
  lemma NextInRow<T>(rows: seq<seq<Slot<T>>>, n: nat, row: nat, p: nat, col: nat) returns (q: nat)
    requires FullRows(rows) && n <= 32 * |rows| && EmptyFrom(rows, n) && row < |rows| && p <= 32
    requires col == CountFull(rows[row][..p]) < CountFull(rows[row])
    ensures p <= q < 32 && 32 * row + q < n && rows[row][q].Full? && col == CountFull(rows[row][..q])
    ensures Flat(rows, n)[32 * row + q] == rows[row][q] && NoneFull(Flat(rows, n), 32 * row + p, 32 * row + q)
  {
    hide CountFull, EmptyFrom, Flat;
    q := NthFull(rows[row], col);
    if q < p {
      CountStep(rows[row], q);
      CountFullGrows(rows[row], q + 1, p);
    }
    RowStretch(rows, n, row, p, q);
    FullInRow(rows, n, row, q);
  }

  class NeIterator<T(0)> {
    const table: SparseTable<T>
    var row: nat
    var col: nat
    ghost var pos: nat

    ghost predicate Valid()
      reads this, table, table.Repr
      ensures Valid() ==> table in table.Repr
    {
      && table.Valid() && this !in table.Repr && row <= |table.groups|
      && pos <= table.tableSize
      && (row == |table.groups| ==> pos == table.tableSize)
      && (row < |table.groups| ==>
            && 32 * row <= pos < 32 * row + 32 && pos < table.tableSize && table.slots[pos].Full?
            && table.rows[row][pos - 32 * row] == table.slots[pos]
            && col == CountFull(table.rows[row][..pos - 32 * row]))
    }

    /** At the first non-empty bucket. */
    constructor Begin(t: SparseTable<T>)
      requires t.Valid()
      ensures Valid() && table == t && NoneFull(t.slots, 0, pos)
    {
      table := t;
      row, col, pos := 0, 0, 0;
      new;
      hide SparseGroup.Valid;
      if |t.groups| > 0 {
        AdvancePastEnd(0);
      }
    }

    /** At the non-empty bucket i (`get_iter`). */
    constructor At(t: SparseTable<T>, i: nat)
      requires t.Valid() && i < t.tableSize && t.slots[i].Full?
      ensures Valid() && table == t && pos == i && row < |t.groups|
    {
      t.SlotInGroup(i);
      var offset := t.groups[i / 32].CountBelow(i % 32);
      table := t;
      row, col, pos := i / 32, offset, i;
    }

    predicate AtEnd()
      requires Valid()
      reads this, table, table.Repr
      ensures AtEnd() <==> pos == table.tableSize
    {
      row == |table.groups|
    }

    method Value() returns (v: T)
      requires Valid() && !AtEnd()
      ensures table.slots[pos] == Full(v)
    {
      hide SparseTable.Valid, SparseTable.Separate, CountFull, Flat, EmptyFrom;
      v := table.RowItem(row, col, pos - 32 * row);
    }

    /** The bucket number (`get_pos`), recovered from the group and the offset alone. */
    method GetPos() returns (i: nat)
      requires Valid() && !AtEnd()
      ensures i == pos
    {
      hide Flat, EmptyFrom, SparseGroup.Valid;
      ghost var s, p := table.rows[row], pos - 32 * row;
      CountStep(s, p);
      CountFullGrows(s, p + 1, 32);
      CountStep(s, 0);
      var q := table.groups[row].OffsetPosition(col);
      CountStep(s, q);
      if p < q {
        CountFullGrows(s, p + 1, q);
      } else if q < p {
        CountFullGrows(s, q + 1, p);
      }
      i := 32 * row + q;
    }

    /** On to the next non-empty bucket. */
    method Next()
      requires Valid() && !AtEnd()
      modifies this
      ensures Valid() && old(pos) < pos
      ensures NoneFull(table.slots, old(pos) + 1, pos)
    {
      hide SparseTable.Valid, SparseTable.Separate, Flat, EmptyFrom;
      CountStep(table.rows[row], pos - 32 * row);
      col := col + 1;
      AdvancePastEnd(pos + 1);
    }

    /** `advance_past_end`: from the end of a row go on to the next one that holds something. */
    method AdvancePastEnd(ghost start: nat)
      requires table.Valid() && this !in table.Repr && row < |table.groups|
      requires 32 * row <= start <= 32 * row + 32 && start <= table.tableSize
      requires col == CountFull(table.rows[row][..start - 32 * row])
      modifies this
      ensures Valid() && start <= pos
      ensures NoneFull(table.slots, start, pos)
    {
      hide SparseTable.Valid, SparseTable.Separate, CountFull, Flat, EmptyFrom;
      ghost var lo := start;
      var n := table.RowItems(row);
      ghost var rows, size := table.rows, table.tableSize;
      CountStep(rows[row], 0);
      while col == n
        invariant row < |table.groups| && n == CountFull(rows[row])
        invariant start <= lo && 32 * row <= lo <= 32 * row + 32
        invariant col == CountFull(rows[row][..lo - 32 * row])
        invariant NoneFull(table.slots, start, if lo <= size then lo else size)
        decreases |table.groups| - row
      {
        assert rows[row][..32] == rows[row];
        RowStretch(rows, size, row, lo - 32 * row, 32);
        row := row + 1;
        lo := 32 * row;
        if row == |table.groups| {
          pos := size;
          return;
        }
        col := 0;
        NothingBelow(rows[row]);
        n := table.RowItems(row);
      }
      CountFullGrows(rows[row], lo - 32 * row, 32);
      assert rows[row][..32] == rows[row];
      ghost var q := NextInRow(rows, size, row, lo - 32 * row, col);
      pos := 32 * row + q;
    }
  }

  /** The walk used for rehashing: a group is freed as soon as its last value has been passed. */
  class DestructiveIterator<T(0)> {
    const table: SparseTable<T>
    ghost const source: seq<seq<Slot<T>>>
    ghost const size: nat
    var row: nat
    var col: nat
    ghost var pos: nat

    /** Groups before the current row are gone; from the current row on they are still as they were. */
    ghost predicate Draining()
      reads this, table, table.Repr
    {
      && table.Separate() && this !in table.Repr
      && |source| == |table.groups| && FullRows(source) && EmptyFrom(source, size) && size <= 32 * |source|
      && row <= |source| && pos <= size
      && FullRows(table.rows) && (forall g :: row <= g < |source| ==> table.rows[g] == source[g])
      && (forall g :: 0 <= g < row ==> table.rows[g] == Empties(32))
    }

    ghost predicate Valid()
      reads this, table, table.Repr
      ensures Valid() ==> size <= 32 * |source| && FullRows(source) && table in table.Repr && pos <= size
    {
      && Draining()
      && (row == |source| ==> pos == size)
      && (row < |source| ==>
            && 32 * row <= pos < 32 * row + 32 && pos < size && Flat(source, size)[pos].Full?
            && source[row][pos - 32 * row] == Flat(source, size)[pos]
            && col == CountFull(source[row][..pos - 32 * row]))
    }

    constructor Begin(t: SparseTable<T>)
      requires t.Valid()
      modifies t.Repr
      ensures Valid() && table == t && size == old(t.tableSize) && Flat(source, size) == old(t.slots)
      ensures NoneFull(Flat(source, size), 0, pos) && fresh(t.Repr - old(t.Repr))
    {
      table := t;
      source, size := t.rows, t.tableSize;
      row, col, pos := 0, 0, 0;
      new;
      hide SparseTable.Separate, CountFull, Flat, EmptyFrom;
      if |t.groups| > 0 {
        NothingBelow(source[0]);
        AdvancePastEnd(0);
      }
    }

    predicate AtEnd()
      requires Valid()
      reads this, table, table.Repr
      ensures AtEnd() <==> pos == size
    {
      row == |table.groups|
    }

    method Value() returns (v: T)
      requires Valid() && !AtEnd()
      ensures Flat(source, size)[pos] == Full(v)
    {
      hide SparseTable.Separate, CountFull, Flat, EmptyFrom;
      v := table.RowItem(row, col, pos - 32 * row);
    }

    method Next()
      requires Valid() && !AtEnd()
      modifies this, table.Repr
      ensures Valid() && old(pos) < pos
      ensures NoneFull(Flat(source, size), old(pos) + 1, pos) && fresh(table.Repr - old(table.Repr))
    {
      hide SparseTable.Separate, CountFull, Flat, EmptyFrom;
      CountStep(source[row], pos - 32 * row);
      col := col + 1;
      AdvancePastEnd(pos + 1);
    }

    /** Free the group that has been passed and step to the next. */
    method LeaveRow()
      requires Draining() && row < |source|
      modifies this`row, table.Repr
      ensures Draining() && row == old(row) + 1 && fresh(table.Repr - old(table.Repr))
    {
      hide SparseTable.Separate, CountFull, Flat, EmptyFrom;
      table.ClearGroup(row);
      row := row + 1;
    }

    method AdvancePastEnd(ghost start: nat)
      requires Draining() && row < |source|
      requires 32 * row <= start <= 32 * row + 32 && start <= size
      requires col == CountFull(source[row][..start - 32 * row])
      modifies this, table.Repr
      ensures Valid() && start <= pos
      ensures NoneFull(Flat(source, size), start, pos) && fresh(table.Repr - old(table.Repr))
    {
      hide SparseTable.Separate, CountFull, Flat, EmptyFrom;
      ghost var lo := start;
      var n := table.RowItems(row);
      CountStep(source[row], 0);
      while col == n
        invariant Draining() && fresh(table.Repr - old(table.Repr))
        invariant row < |source| && n == CountFull(source[row])
        invariant start <= lo && 32 * row <= lo <= 32 * row + 32
        invariant col == CountFull(source[row][..lo - 32 * row])
        invariant NoneFull(Flat(source, size), start, if lo <= size then lo else size)
        decreases |source| - row
      {
        assert source[row][..32] == source[row];
        RowStretch(source, size, row, lo - 32 * row, 32);
        LeaveRow();
        lo := 32 * row;
        if row == |table.groups| {
          pos := size;
          return;
        }
        col := 0;
        NothingBelow(source[row]);
        n := table.RowItems(row);
      }
      CountFullGrows(source[row], lo - 32 * row, 32);
      assert source[row][..32] == source[row];
      ghost var q := NextInRow(source, size, row, lo - 32 * row, col);
      pos := 32 * row + q;
    }
  }
}
