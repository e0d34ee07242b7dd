/**
  Moving cells within a screen: a copy between overlapping rectangles in place,
  and scrolling built on it.
 */
module Cells {
  import opened Basics

  datatype Rect = Rect(startRow: int, endRow: int, startCol: int, endCol: int)

  predicate In(rect: Rect, row: int, col: int) {
    rect.startRow <= row < rect.endRow && rect.startCol <= col < rect.endCol
  }

  predicate Within<T>(rect: Rect, cells: array2<T>) {
    && 0 <= rect.startRow <= rect.endRow <= cells.Length0
    && 0 <= rect.startCol <= rect.endCol <= cells.Length1
  }

  predicate OnScreen<T>(cells: array2<T>, row: int, col: int) {
    0 <= row < cells.Length0 && 0 <= col < cells.Length1
  }

  /** A loop that has come to `at` in steps of `inc` was at `x` before. */
  predicate Passed(inc: int, x: int, at: int) {
    if inc == 1 then x < at else x > at
  }

  /** Copies one row of the destination, towards the side from which the source comes. */
  method CopyRow<T>(cells: array2<T>, dest: Rect, row: int, downward: int, rightward: int)
    requires Within(dest, cells) && dest.startRow <= row < dest.endRow && 0 <= row + downward < cells.Length0
    requires 0 <= dest.startCol + rightward && dest.endCol + rightward <= cells.Length1
    modifies cells
    ensures forall c :: dest.startCol <= c < dest.endCol ==> cells[row, c] == old(cells[row + downward, c + rightward])
    ensures forall r, c :: OnScreen(cells, r, c) && !(r == row && In(dest, r, c)) ==>
      cells[r, c] == old(cells[r, c])
  {
    var col, test, inc := dest.startCol, dest.endCol, 1;
    if rightward < 0 {
      col, test, inc := dest.endCol - 1, dest.startCol - 1, -1;
    }
    while col != test
      invariant dest.startCol - 1 <= col <= dest.endCol
      invariant if inc == 1 then rightward >= 0 && dest.startCol <= col && test == dest.endCol
                else inc == -1 && rightward < 0 && col < dest.endCol && test == dest.startCol - 1
      invariant forall c :: dest.startCol <= c < dest.endCol && Passed(inc, c, col) ==>
        cells[row, c] == old(cells[row + downward, c + rightward])
      invariant forall r, c :: OnScreen(cells, r, c) && !(r == row && In(dest, r, c) && Passed(inc, c, col)) ==>
        cells[r, c] == old(cells[r, c])
      decreases Abs(test - col)
    {
      cells[row, col] := cells[row + downward, col + rightward];
      col := col + inc;
    }
  }

  /** Every cell of the destination gets what its source held before; no other cell changes. */
  method CopyCells<T>(cells: array2<T>, dest: Rect, src: Rect)
    requires Within(dest, cells) && Within(src, cells)
    requires src.endRow - src.startRow == dest.endRow - dest.startRow
    requires src.endCol - src.startCol == dest.endCol - dest.startCol
    modifies cells
    ensures forall r, c :: In(dest, r, c) ==>
      cells[r, c] == old(cells[r + src.startRow - dest.startRow, c + src.startCol - dest.startCol])
    ensures forall r, c :: OnScreen(cells, r, c) && !In(dest, r, c) ==>
      cells[r, c] == old(cells[r, c])
  {
    var downward, rightward := src.startRow - dest.startRow, src.startCol - dest.startCol;
    var row, test, inc := dest.startRow, dest.endRow, 1;
    if downward < 0 {
      row, test, inc := dest.endRow - 1, dest.startRow - 1, -1;
    }
    while row != test
      invariant dest.startRow - 1 <= row <= dest.endRow
      invariant if inc == 1 then downward >= 0 && dest.startRow <= row && test == dest.endRow
                else inc == -1 && downward < 0 && row < dest.endRow && test == dest.startRow - 1
      invariant forall r, c :: In(dest, r, c) && Passed(inc, r, row) ==>
        cells[r, c] == old(cells[r + downward, c + rightward])
      invariant forall r, c :: OnScreen(cells, r, c) && !(In(dest, r, c) && Passed(inc, r, row)) ==>
        cells[r, c] == old(cells[r, c])
      decreases Abs(test - row)
    {
      CopyRow(cells, dest, row, downward, rightward);
      row := row + inc;
    }
  }

  method EraseRect<T>(cells: array2<T>, rect: Rect, blank: T)
    requires Within(rect, cells)
    modifies cells
    ensures forall r, c :: OnScreen(cells, r, c) ==> cells[r, c] == if In(rect, r, c) then blank else old(cells[r, c])
  {
    forall r, c | rect.startRow <= r < rect.endRow && rect.startCol <= c < rect.endCol {
      cells[r, c] := blank;
    }
  }

  // --- Scrolling ---

  /** Where the contents of a cell come from. */
  datatype Origin = Blank | From(row: int, col: int)

  predicate MoreThanArea(rect: Rect, downward: int, rightward: int) {
    Abs(downward) >= rect.endRow - rect.startRow || Abs(rightward) >= rect.endCol - rect.startCol
  }

  /** The cells from which the contents go away, which are then erased. */
  function Erased(rect: Rect, downward: int, rightward: int): Rect {
    Rect(if downward > 0 then rect.endRow - downward else rect.startRow,
         if downward < 0 then rect.startRow - downward else rect.endRow,
         if rightward > 0 then rect.endCol - rightward else rect.startCol,
         if rightward < 0 then rect.startCol - rightward else rect.endCol)
  }

  /** What scrolling by so many cells should show: what was there, if that is in the rectangle, and blanks elsewhere. */
  function Shifted(rect: Rect, downward: int, rightward: int, row: int, col: int): Origin {
    if !In(rect, row, col) then From(row, col)
    else if In(rect, row + downward, col + rightward) then From(row + downward, col + rightward)
    else Blank
  }

  /** What it does show. */
  function Scrolled(rect: Rect, downward: int, rightward: int, row: int, col: int): Origin {
    if !In(rect, row, col) then From(row, col)
    else if MoreThanArea(rect, downward, rightward) || In(Erased(rect, downward, rightward), row, col) then Blank
    else if In(rect, row + downward, col + rightward) then From(row + downward, col + rightward)
    else From(row, col)
  }

  /** Scrolling is a shift exactly along one axis, or by more than the area. */
  lemma ScrollIsShiftIff(rect: Rect, downward: int, rightward: int)
    ensures (forall row, col ::
               Scrolled(rect, downward, rightward, row, col) == Shifted(rect, downward, rightward, row, col))
            <==> MoreThanArea(rect, downward, rightward) || (downward == 0) != (rightward == 0)
  {
    var row := if downward > 0 then rect.startRow else rect.endRow - 1;
    var col := if rightward > 0 then rect.endCol - 1 else rect.startCol;
    if !MoreThanArea(rect, downward, rightward) && (downward == 0) == (rightward == 0) {
      assert Scrolled(rect, downward, rightward, row, col) != Shifted(rect, downward, rightward, row, col);
    }
  }

  /** Scrolling by nothing erases, and scrolling along both axes leaves a corner as it was. */
  lemma ScrollExample(rect: Rect)
    requires rect == Rect(0, 3, 0, 3)
    ensures Scrolled(rect, 0, 0, 1, 1) == Blank && Shifted(rect, 0, 0, 1, 1) == From(1, 1)
    ensures Scrolled(rect, 1, 1, 2, 0) == From(2, 0) && Shifted(rect, 1, 1, 2, 0) == Blank
  {
  }

  /** The part of the rectangle that is filled from the rest of it, and where that comes from. */
  method Halves(rect: Rect, downward: int, rightward: int) returns (dest: Rect, src: Rect)
    requires !MoreThanArea(rect, downward, rightward)
    ensures forall r, c :: In(dest, r, c) <==> In(rect, r, c) && In(rect, r + downward, c + rightward)
    ensures rect.startRow <= dest.startRow < dest.endRow <= rect.endRow
    ensures rect.startCol <= dest.startCol < dest.endCol <= rect.endCol
    ensures src == Rect(dest.startRow + downward, dest.endRow + downward, dest.startCol + rightward,
                        dest.endCol + rightward)
    ensures rect.startRow <= src.startRow < src.endRow <= rect.endRow
    ensures rect.startCol <= src.startCol < src.endCol <= rect.endCol
  {
    dest, src := rect, rect;
    if rightward >= 0 {
      dest := dest.(endCol := rect.endCol - rightward);
      src := src.(startCol := rect.startCol + rightward);
    } else {
      dest := dest.(startCol := rect.startCol - rightward);
      src := src.(endCol := rect.endCol + rightward);
    }
    if downward >= 0 {
      dest := dest.(endRow := rect.endRow - downward);
      src := src.(startRow := rect.startRow + downward);
    } else {
      dest := dest.(startRow := rect.startRow - downward);
      src := src.(endRow := rect.endRow + downward);
    }
    forall r, c
      ensures In(dest, r, c) <==> In(rect, r, c) && In(rect, r + downward, c + rightward)
    {
      assert dest.startRow <= r < dest.endRow <==>
        rect.startRow <= r < rect.endRow && rect.startRow <= r + downward < rect.endRow;
      assert dest.startCol <= c < dest.endCol <==>
        rect.startCol <= c < rect.endCol && rect.startCol <= c + rightward < rect.endCol;
    }
  }

  method ScrollRect<T>(cells: array2<T>, rect: Rect, downward: int, rightward: int, blank: T)
    requires Within(rect, cells)
    modifies cells
    ensures forall r, c :: OnScreen(cells, r, c) ==>
      match Scrolled(rect, downward, rightward, r, c)
      case Blank => cells[r, c] == blank
      case From(r', c') => OnScreen(cells, r', c') && cells[r, c] == old(cells[r', c'])
  {
    if MoreThanArea(rect, downward, rightward) {
      EraseRect(cells, rect, blank);
    } else {
      var dest, src := Halves(rect, downward, rightward);
      CopyCells(cells, dest, src);
      EraseRect(cells, Erased(rect, downward, rightward), blank);
    }
  }
}
