/**
 * The program table (`ProgramTableWidget`): an ordered list of rows, each
 * with a name cell carrying the program's path and a delay cell holding the
 * delay as text. A row's identity is its position.
 *
 * Cells are optional because Qt allows a row without items: a drag-reorder
 * that starts with no current row inserts one (see `Reordered`).
 */
module ProgramTable {
  import opened Wrappers

  /** The first column's item: the displayed name, with the path stored as its user data. */
  datatype NameItem = NameItem(text: string, path: string)

  datatype Row = Row(nameItem: Option<NameItem>, delayItem: Option<string>) {
    /** Both cells hold an item. */
    predicate Complete() {
      nameItem.Some? && delayItem.Some?
    }
  }

  /** A freshly inserted row, before any item is set. */
  const EmptyRow := Row(None, None)

  /** The row `add_program_item(name, path, delay)` fills in. */
  function ItemRow(name: string, path: string, delay: string): Row {
    Row(Some(NameItem(name, path)), Some(delay))
  }

  /** Where the drop indicator was shown when a drag ended. */
  datatype DropIndicator = OnItem | AboveItem | BelowItem | OnViewport

  /**
   * The insertion point of an internal drop: `hitRow` is the row under the
   * cursor, -1 for none. A miss on the viewport means "after the last row",
   * a drop below a row means the slot after it, anything else that row.
   */
  function DropTarget(hitRow: int, indicator: DropIndicator, rowCount: nat): int {
    if hitRow == -1 then
      if indicator == OnViewport then rowCount else -1
    else if indicator == BelowItem then hitRow + 1
    else hitRow
  }

  /**
   * For a hit row the view can report, the computed insertion point is a
   * slot of the table exactly when the drop is on a row or on the viewport;
   * it is the slot after the last row exactly for a viewport miss or a drop
   * below the last row.
   */
  lemma DropTargetSlot(hitRow: int, indicator: DropIndicator, rowCount: nat)
    requires -1 <= hitRow < rowCount
    ensures var t := DropTarget(hitRow, indicator, rowCount);
      && (0 <= t <= rowCount <==> hitRow != -1 || indicator == OnViewport)
      && (t == rowCount <==> (hitRow == -1 && indicator == OnViewport) || (0 <= hitRow == rowCount - 1 && indicator == BelowItem))
  {
  }

  function RemoveAt<T>(s: seq<T>, i: nat): seq<T>
    requires i < |s|
  {
    s[..i] + s[i + 1..]
  }

  function InsertAt<T>(s: seq<T>, i: nat, x: T): seq<T>
    requires i <= |s|
  {
    s[..i] + [x] + s[i..]
  }

  /** A drop onto the slot a row already occupies, or the slot just after it, moves nothing. */
  predicate IsNoOpMove(source: int, target: int) {
    source == target || source + 1 == target
  }

  /** The row a move leaves at position `target` once the source row is gone. */
  function SettledIndex(source: int, target: int): int {
    if source < target then target - 1 else target
  }

  /**
   * The table after the internal-move branch of `dropEvent` moves the
   * current row `source` (-1 for none) to the insertion point `target`: the
   * source row's items are taken, the row is removed, the target is shifted
   * down by one if it lay after the source, and a row holding the taken
   * items is inserted there. With no current row nothing is taken or
   * removed, so an empty row is inserted.
   */
  function Reordered(rows: seq<Row>, source: int, target: int): seq<Row>
    requires -1 <= source < |rows| && 0 <= target <= |rows|
  {
    if IsNoOpMove(source, target) then rows
    else
      var moved := if source >= 0 then rows[source] else EmptyRow;
      var rest := if source >= 0 then RemoveAt(rows, source) else rows;
      InsertAt(rest, SettledIndex(source, target), moved)
  }

  /** Inserting `x` at `i` and removing position `i` again gives back `s`; the multiset gains exactly `x`. */
  lemma InsertThenRemove<T>(s: seq<T>, i: nat, x: T)
    requires i <= |s|
    ensures var r := InsertAt(s, i, x);
      && |r| == |s| + 1 && r[i] == x
      && RemoveAt(r, i) == s
      && multiset(r) == multiset(s) + multiset{x}
  {
    var r := InsertAt(s, i, x);
    assert r[..i] == s[..i] && r[i + 1..] == s[i..];
    assert s == s[..i] + s[i..];
  }

  /** Overwriting the inserted element is inserting the new one. */
  lemma InsertAtUpdate<T>(s: seq<T>, i: nat, x: T, y: T)
    requires i <= |s|
    ensures InsertAt(s, i, x)[i := y] == InsertAt(s, i, y)
  {
  }

  /** Removing position `i` takes exactly `s[i]` out of the multiset. */
  lemma RemoveAtMultiset<T>(s: seq<T>, i: nat)
    requires i < |s|
    ensures multiset(RemoveAt(s, i)) + multiset{s[i]} == multiset(s)
  {
    assert s == s[..i] + [s[i]] + s[i + 1..];
  }

  /**
   * Moving a real row keeps the row count and the multiset of rows, puts the
   * moved row at `target - 1` when it came from above the target and at
   * `target` otherwise, and keeps every other row in its relative order.
   */
  lemma ReorderedMovesRow(rows: seq<Row>, source: int, target: int)
    requires 0 <= source < |rows| && 0 <= target <= |rows|
    requires !IsNoOpMove(source, target)
    ensures var r := Reordered(rows, source, target);
      var t := SettledIndex(source, target);
      && |r| == |rows|
      && 0 <= t < |r|
      && r[t] == rows[source]
      && RemoveAt(r, t) == RemoveAt(rows, source)
      && multiset(r) == multiset(rows)
  {
    var rest := RemoveAt(rows, source);
    var t := SettledIndex(source, target);
    assert Reordered(rows, source, target) == InsertAt(rest, t, rows[source]);
    InsertThenRemove(rest, t, rows[source]);
    RemoveAtMultiset(rows, source);
  }

  /**
   * With no current row, a drop that is not a no-op inserts one empty row
   * just before the insertion point and leaves every existing row in order.
   */
  lemma ReorderedWithoutSource(rows: seq<Row>, target: int)
    requires 0 <= target <= |rows| && !IsNoOpMove(-1, target)
    ensures var r := Reordered(rows, -1, target);
      && |r| == |rows| + 1
      && 1 <= target && r[target - 1] == EmptyRow
      && RemoveAt(r, target - 1) == rows
  {
    var r := Reordered(rows, -1, target);
    assert r == rows[..target - 1] + [EmptyRow] + rows[target - 1..];
    assert r[..target - 1] == rows[..target - 1];
    assert r[target..] == rows[target - 1..];
    assert rows[..target - 1] + rows[target - 1..] == rows;
  }

  /** The table widget's rows, changed in place by Qt's row primitives. */
  class Table {
    var rows: seq<Row>

    constructor ()
      ensures rows == []
    {
      rows := [];
    }

    /** `setRowCount(0)`: removes every row. */
    method Clear()
      modifies this
      ensures rows == []
    {
      rows := [];
    }

    /** `insertRow(row)`: an empty row at a position in `0..rowCount`; any other position is ignored. */
    method InsertRow(row: int)
      modifies this
      ensures rows == if 0 <= row <= |old(rows)| then InsertAt(old(rows), row, EmptyRow) else old(rows)
    {
      if 0 <= row <= |rows| {
        rows := rows[..row] + [EmptyRow] + rows[row..];
      }
    }

    /** `removeRow(row)`: a row position out of range is ignored. */
    method RemoveRow(row: int)
      modifies this
      ensures rows == if 0 <= row < |old(rows)| then RemoveAt(old(rows), row) else old(rows)
    {
      if 0 <= row < |rows| {
        rows := rows[..row] + rows[row + 1..];
      }
    }

    /** `setItem(row, 0, name)` and `setItem(row, 1, delay)`, where an absent item clears the cell. */
    method SetItems(row: int, name: Option<NameItem>, delay: Option<string>)
      requires 0 <= row < |rows|
      modifies this
      ensures rows == old(rows)[row := Row(name, delay)]
    {
      rows := rows[row := Row(name, delay)];
    }

    /** `add_program_item`: appends one row holding the given name, path and delay text. */
    method AddProgramItem(name: string, path: string, delay: string)
      modifies this
      ensures rows == old(rows) + [ItemRow(name, path, delay)]
    {
      var rowPosition := |rows|;
      InsertRow(rowPosition);
      SetItems(rowPosition, Some(NameItem(name, path)), Some(delay));
    }

    /**
     * The internal-move branch of `dropEvent`: `currentRow` is the row being
     * dragged (-1 when none is current), `hitRow` and `indicator` where it was
     * dropped. Returns whether the table changed, i.e. whether `itemDropped`
     * is emitted.
     */
    method DropMove(currentRow: int, hitRow: int, indicator: DropIndicator) returns (dropped: bool)
      requires -1 <= currentRow < |rows| && -1 <= hitRow < |rows|
      requires hitRow == -1 ==> indicator == OnViewport
      modifies this
      ensures dropped == !IsNoOpMove(currentRow, DropTarget(hitRow, indicator, |old(rows)|))
      ensures rows == Reordered(old(rows), currentRow, DropTarget(hitRow, indicator, |old(rows)|))
    {
      DropTargetSlot(hitRow, indicator, |rows|);
      var sourceRow := currentRow;
      var targetRow := hitRow;
      if targetRow == -1 {
        if indicator == OnViewport {
          targetRow := |rows|;
        }
      } else if indicator == BelowItem {
        targetRow := targetRow + 1;
      }
      assert targetRow == DropTarget(hitRow, indicator, |rows|);

      if sourceRow == targetRow || sourceRow + 1 == targetRow {
        return false;
      }
      MoveRow(sourceRow, targetRow);
      dropped := true;
    }

    /**
     * The row move of `dropEvent` once the target is known and is not a
     * no-op: take the source row's items, remove the row, shift the target
     * down if it lay after the source, insert a row there and put the items in.
     */
    method MoveRow(sourceRow: int, targetRow: int)
      requires -1 <= sourceRow < |rows| && 0 <= targetRow <= |rows|
      requires !IsNoOpMove(sourceRow, targetRow)
      modifies this
      ensures rows == Reordered(old(rows), sourceRow, targetRow)
    {
      var takenName, takenDelay := None, None;
      if 0 <= sourceRow {
        takenName, takenDelay := rows[sourceRow].nameItem, rows[sourceRow].delayItem;
      }
      ghost var rest := if sourceRow >= 0 then RemoveAt(rows, sourceRow) else rows;
      RemoveRow(sourceRow);
      assert rows == rest;
      var slot := targetRow;
      if sourceRow < slot {
        slot := slot - 1;
      }
      assert slot == SettledIndex(sourceRow, targetRow) && 0 <= slot <= |rest|;
      InsertRow(slot);
      assert rows == InsertAt(rest, slot, EmptyRow);
      InsertAtUpdate(rest, slot, EmptyRow, Row(takenName, takenDelay));
      SetItems(slot, takenName, takenDelay);
    }
  }
}
