/** The Sudoku solution checker (hw01-sudoku-h3ic/field-checker.cpp), as
    written. Two of its checks are weaker than its comments say, and the
    model keeps them that way:
    - `is_unique` runs `std::unique` on an unsorted copy, so it rejects only
      equal NEIGHBOURS, not every repeated value;
    - the block loop stops at `col < FIELD_SIZE - 3`, so the three blocks of
      the right-hand block column are never looked at. */
module FieldChecker {
  import opened Grids

  /** What `std::unique` keeps of `e`: every run of equal neighbours
      collapsed to one element. It is shorter than `e` exactly when two
      neighbours are equal. */
  function Unique(e: seq<int>): (u: seq<int>)
    ensures |u| <= |e|
    ensures |u| == |e| <==> forall i :: 0 <= i < |e| - 1 ==> e[i] != e[i + 1]
  {
    if |e| <= 1 then e
    else if e[0] == e[1] then Unique(e[1..])
    else [e[0]] + Unique(e[1..])
  }

  /** `is_unique`: `std::unique` returns the end of the sequence, that is,
      it removed nothing. */
  function IsUnique(element: seq<int>): (b: bool)
    ensures b <==> forall i :: 0 <= i < |element| - 1 ==> element[i] != element[i + 1]
  {
    |Unique(element)| == |element|
  }

  /** No value occurs twice, adjacent or not. */
  ghost predicate AllDistinct(e: seq<int>) {
    forall i, j :: 0 <= i < j < |e| ==> e[i] != e[j]
  }

  /** Sequences without repeats pass `is_unique`... */
  lemma DistinctIsUnique(e: seq<int>)
    requires AllDistinct(e)
    ensures IsUnique(e)
  {
  }

  /** ...but so do some with repeats: a repeat that is not adjacent goes
      unnoticed. */
  lemma IsUniqueMissesDistantRepeat()
    ensures IsUnique([1, 2, 1]) && !AllDistinct([1, 2, 1])
  {
    assert [1, 2, 1][0] == [1, 2, 1][2];
  }

  /** Cell (`r`, `c`) of `solution` holds a digit and keeps the given of
      `initField`, if any. */
  predicate CellOk(initField: Field, solution: Field, r: nat, c: nat)
    requires IsGrid(initField) && IsGrid(solution) && r < FieldSize && c < FieldSize
  {
    0 < solution[r][c] <= FieldSize && (initField[r][c] != 0 ==> solution[r][c] == initField[r][c])
  }

  /** The block corners the block loop visits: rows 0, 3, 6 (`row <=
      FIELD_SIZE - 3`) and columns 0, 3 only (`col < FIELD_SIZE - 3`). */
  predicate CheckedCorner(br: int, bc: int) {
    0 <= br <= FieldSize - 3 && br % 3 == 0 && 0 <= bc < FieldSize - 3 && bc % 3 == 0
  }

  /** Every cell holds a digit and keeps its given. */
  predicate CellsOk(initField: Field, solution: Field)
    requires IsGrid(initField) && IsGrid(solution)
  {
    forall r, c :: 0 <= r < FieldSize && 0 <= c < FieldSize ==> CellOk(initField, solution, r, c)
  }

  /** Every row passes `is_unique`. */
  predicate RowsPass(solution: Field)
    requires IsGrid(solution)
  {
    forall r :: 0 <= r < FieldSize ==> IsUnique(solution[r])
  }

  /** Every column passes `is_unique`. */
  predicate ColumnsPass(solution: Field)
    requires IsGrid(solution)
  {
    forall c :: 0 <= c < FieldSize ==> IsUnique(Column(solution, c))
  }

  /** Every block the block loop visits passes `is_unique`. */
  predicate BlocksPass(solution: Field)
    requires IsGrid(solution)
  {
    forall br, bc :: 0 <= br < FieldSize && 0 <= bc < FieldSize && CheckedCorner(br, bc) ==>
      IsUnique(Block(solution, br, bc))
  }

  /** What `check_field` accepts: every cell a digit that keeps its given,
      and every row, every column and each visited block passing
      `is_unique`. */
  predicate Accepted(initField: Field, solution: Field)
    requires IsGrid(initField) && IsGrid(solution)
  {
    CellsOk(initField, solution) && RowsPass(solution) && ColumnsPass(solution) && BlocksPass(solution)
  }

  /** The first loop nest of `check_field`: a cell outside 1..9, or one that
      overwrites a given, fails the check. */
  method CheckCells(initField: Field, solution: Field) returns (ok: bool)
    requires IsGrid(initField) && IsGrid(solution)
    ensures ok == CellsOk(initField, solution)
  {
    var i := 0;
    while i < FieldSize
      invariant 0 <= i <= FieldSize
      invariant forall r, c :: 0 <= r < i && 0 <= c < FieldSize ==> CellOk(initField, solution, r, c)
    {
      var j := 0;
      while j < FieldSize
        invariant 0 <= j <= FieldSize
        invariant forall c :: 0 <= c < j ==> CellOk(initField, solution, i, c)
      {
        if solution[i][j] <= 0 || solution[i][j] > FieldSize {
          assert !CellOk(initField, solution, i, j);
          return false;
        }
        if initField[i][j] != 0 && solution[i][j] != initField[i][j] {
          assert !CellOk(initField, solution, i, j);
          return false;
        }
        j := j + 1;
      }
      i := i + 1;
    }
    return true;
  }

  /** The row loop of `check_field`. */
  method CheckRows(solution: Field) returns (ok: bool)
    requires IsGrid(solution)
    ensures ok == RowsPass(solution)
  {
    var row := 0;
    while row < FieldSize
      invariant 0 <= row <= FieldSize
      invariant forall r :: 0 <= r < row ==> IsUnique(solution[r])
    {
      if !IsUnique(solution[row]) {
        return false;
      }
      row := row + 1;
    }
    return true;
  }

  /** The column vector `check_field` builds by `push_back`, top to bottom. */
  method CollectColumn(solution: Field, col: nat) returns (column: seq<int>)
    requires IsGrid(solution) && col < FieldSize
    ensures column == Column(solution, col)
  {
    column := [];
    var row := 0;
    while row < FieldSize
      invariant 0 <= row <= FieldSize
      invariant column == Column(solution, col)[..row]
    {
      column := column + [solution[row][col]];
      row := row + 1;
    }
  }

  /** The column loop of `check_field`. */
  method CheckColumns(solution: Field) returns (ok: bool)
    requires IsGrid(solution)
    ensures ok == ColumnsPass(solution)
  {
    var col := 0;
    while col < FieldSize
      invariant 0 <= col <= FieldSize
      invariant forall c :: 0 <= c < col ==> IsUnique(Column(solution, c))
    {
      var column := CollectColumn(solution, col);
      if !IsUnique(column) {
        return false;
      }
      col := col + 1;
    }
    return true;
  }

  /** The block vector `check_field` builds by `push_back`, row by row. */
  method CollectBlock(solution: Field, row: nat, col: nat) returns (block: seq<int>)
    requires IsGrid(solution) && row + 3 <= FieldSize && col + 3 <= FieldSize
    ensures block == Block(solution, row, col)
  {
    block := [];
    var bi := 0;
    while bi < 3
      invariant 0 <= bi <= 3
      invariant block == BlockRows(solution, row, col, bi)
    {
      var bj := 0;
      while bj < 3
        invariant 0 <= bj <= 3
        invariant block == BlockRows(solution, row, col, bi) + solution[row + bi][col..col + bj]
      {
        assert solution[row + bi][col..col + bj + 1]
            == solution[row + bi][col..col + bj] + [solution[row + bi][col + bj]];
        block := block + [solution[row + bi][col + bj]];
        bj := bj + 1;
      }
      bi := bi + 1;
    }
  }

  /** The block loop of `check_field`, with its bounds as written: block
      rows 0, 3, 6 and block columns 0, 3. */
  method CheckBlocks(solution: Field) returns (ok: bool)
    requires IsGrid(solution)
    ensures ok == BlocksPass(solution)
  {
    var row := 0;
    while row <= FieldSize - 3
      invariant 0 <= row <= FieldSize && row % 3 == 0
      invariant forall br, bc :: CheckedCorner(br, bc) && br < row ==> IsUnique(Block(solution, br, bc))
    {
      var col := 0;
      while col < FieldSize - 3
        invariant 0 <= col <= FieldSize - 3 && col % 3 == 0
        invariant forall br, bc :: CheckedCorner(br, bc) && br < row ==> IsUnique(Block(solution, br, bc))
        invariant forall bc :: CheckedCorner(row, bc) && bc < col ==> IsUnique(Block(solution, row, bc))
      {
        var block := CollectBlock(solution, row, col);
        assert CheckedCorner(row, col);
        if !IsUnique(block) {
          return false;
        }
        col := col + 3;
      }
      row := row + 3;
    }
    return true;
  }

  /** `check_field`: the four checks in the source's order, the first
      failure deciding. */
  method CheckField(initField: Field, solution: Field) returns (ok: bool)
    requires IsGrid(initField) && IsGrid(solution)
    ensures ok == Accepted(initField, solution)
  {
    ok := CheckCells(initField, solution);
    if !ok {
      return;
    }
    ok := CheckRows(solution);
    if !ok {
      return;
    }
    ok := CheckColumns(solution);
    if !ok {
      return;
    }
    ok := CheckBlocks(solution);
  }

  /** A proper Sudoku solution of `initField`: digits only, the givens
      kept, and no value twice in any row, any column or any of the nine
      blocks. */
  ghost predicate IsSolution(initField: Field, solution: Field)
    requires IsGrid(initField) && IsGrid(solution)
  {
    CellsOk(initField, solution) &&
    (forall r :: 0 <= r < FieldSize ==> AllDistinct(solution[r])) &&
    (forall c :: 0 <= c < FieldSize ==> AllDistinct(Column(solution, c))) &&
    (forall br, bc :: 0 <= br < FieldSize && 0 <= bc < FieldSize && br % 3 == 0 && bc % 3 == 0 ==>
       AllDistinct(Block(solution, br, bc)))
  }

  /** `check_field` accepts every proper solution. */
  lemma SolutionsAccepted(initField: Field, solution: Field)
    requires IsGrid(initField) && IsGrid(solution) && IsSolution(initField, solution)
    ensures Accepted(initField, solution)
  {
    forall r | 0 <= r < FieldSize
      ensures IsUnique(solution[r])
    {
      DistinctIsUnique(solution[r]);
    }
    forall c | 0 <= c < FieldSize
      ensures IsUnique(Column(solution, c))
    {
      DistinctIsUnique(Column(solution, c));
    }
    forall br, bc | 0 <= br < FieldSize && 0 <= bc < FieldSize && CheckedCorner(br, bc)
      ensures IsUnique(Block(solution, br, bc))
    {
      DistinctIsUnique(Block(solution, br, bc));
    }
  }

  /** A grid of digits whose rows, columns and left-hand blocks alternate,
      but whose upper-right block holds two 4s side by side in reading
      order (cells (0, 8) and (1, 6)). */
  function SkippedBlockGrid(): (g: Field)
    ensures IsGrid(g)
    ensures forall r, c :: 0 <= r < FieldSize && 0 <= c < FieldSize ==> g[r][c] == SkippedCell(r, c)
  {
    seq(FieldSize, r => seq(FieldSize, c => SkippedCell(r, c)))
  }

  /** Left of column 6 a chessboard of 1s and 2s; then columns 3|4, 5|6 and 4|3. */
  function SkippedCell(r: int, c: int): int {
    if c < 6 then 1 + (r + c) % 2
    else if c == 6 then 3 + r % 2
    else if c == 7 then 5 + r % 2
    else 4 - r % 2
  }

  /** The empty puzzle: every cell 0. */
  function EmptyGrid(): (g: Field)
    ensures IsGrid(g) && forall r, c :: 0 <= r < FieldSize && 0 <= c < FieldSize ==> g[r][c] == 0
  {
    seq(FieldSize, _ => seq(FieldSize, _ => 0))
  }

  /** Every cell of the grid is a digit, and the empty puzzle has no givens. */
  lemma SkippedBlockGridCells()
    ensures CellsOk(EmptyGrid(), SkippedBlockGrid())
  {
  }

  /** Neighbouring cells of the grid differ, along a row and down a column. */
  lemma SkippedCellNeighbours(r: int, c: int)
    requires 0 <= r && 0 <= c
    ensures c < FieldSize - 1 ==> SkippedCell(r, c) != SkippedCell(r, c + 1)
    ensures SkippedCell(r, c) != SkippedCell(r + 1, c)
  {
  }

  /** Neighbours in each row differ. */
  lemma SkippedBlockGridRows()
    ensures RowsPass(SkippedBlockGrid())
  {
    var g := SkippedBlockGrid();
    forall r, i | 0 <= r < FieldSize && 0 <= i < FieldSize - 1
      ensures g[r][i] != g[r][i + 1]
    {
      SkippedCellNeighbours(r, i);
    }
  }

  /** Neighbours in each column differ. */
  lemma SkippedBlockGridColumns()
    ensures ColumnsPass(SkippedBlockGrid())
  {
    var g := SkippedBlockGrid();
    forall c, i | 0 <= c < FieldSize && 0 <= i < FieldSize - 1
      ensures Column(g, c)[i] != Column(g, c)[i + 1]
    {
      SkippedCellNeighbours(i, c);
    }
  }

  /** A block whose rows read x, y, x / y, x, y / x, y, x with x != y
      passes `is_unique`. */
  lemma ChessBlockUnique(g: Field, br: nat, bc: nat, x: int, y: int)
    requires IsGrid(g) && br + 3 <= FieldSize && bc + 3 <= FieldSize && x != y
    requires g[br][bc..bc + 3] == g[br + 2][bc..bc + 3] == [x, y, x]
    requires g[br + 1][bc..bc + 3] == [y, x, y]
    ensures IsUnique(Block(g, br, bc))
  {
    BlockAsRows(g, br, bc);
    var b := Block(g, br, bc);
    assert b == [x, y, x, y, x, y, x, y, x];
    AlternatingUnique(b, x, y);
  }

  /** A sequence alternating between two different values passes
      `is_unique`. */
  lemma AlternatingUnique(e: seq<int>, x: int, y: int)
    requires x != y
    requires forall i :: 0 <= i < |e| ==> e[i] == if i % 2 == 0 then x else y
    ensures IsUnique(e)
  {
    forall i | 0 <= i < |e| - 1
      ensures e[i] != e[i + 1]
    {
      assert (i + 1) % 2 != i % 2;
    }
  }

  /** Three neighbouring cells of one row of the grid. */
  lemma SkippedTriple(r: nat, c: nat)
    requires r < FieldSize && c + 3 <= FieldSize
    ensures SkippedBlockGrid()[r][c..c + 3] == [SkippedCell(r, c), SkippedCell(r, c + 1), SkippedCell(r, c + 2)]
  {
  }

  /** Left of column 6 the cells alternate like a chessboard. */
  lemma SkippedChess(r: nat, c: nat)
    requires c + 3 <= 6
    ensures SkippedCell(r, c) != SkippedCell(r, c + 1)
    ensures SkippedCell(r, c) == SkippedCell(r, c + 2) == SkippedCell(r + 1, c + 1)
         == SkippedCell(r + 2, c) == SkippedCell(r + 2, c + 2)
    ensures SkippedCell(r, c + 1) == SkippedCell(r + 1, c) == SkippedCell(r + 1, c + 2)
         == SkippedCell(r + 2, c + 1)
  {
  }

  /** Each visited block of the grid is such a chessboard block. */
  lemma SkippedBlockGridBlock(br: nat, bc: nat)
    requires CheckedCorner(br, bc)
    ensures IsUnique(Block(SkippedBlockGrid(), br, bc))
  {
    SkippedTriple(br, bc);
    SkippedTriple(br + 1, bc);
    SkippedTriple(br + 2, bc);
    SkippedChess(br, bc);
    ChessBlockUnique(SkippedBlockGrid(), br, bc, SkippedCell(br, bc), SkippedCell(br, bc + 1));
  }

  /** Every visited block passes `is_unique`. */
  lemma SkippedBlockGridBlocks()
    ensures BlocksPass(SkippedBlockGrid())
  {
    forall br, bc | 0 <= br < FieldSize && 0 <= bc < FieldSize && CheckedCorner(br, bc)
      ensures IsUnique(Block(SkippedBlockGrid(), br, bc))
    {
      SkippedBlockGridBlock(br, bc);
    }
  }

  /** The right-hand block column is never checked: `check_field` accepts
      a grid whose upper-right block fails `is_unique`. */
  lemma RightBlockColumnUnchecked()
    ensures Accepted(EmptyGrid(), SkippedBlockGrid())
    ensures !IsUnique(Block(SkippedBlockGrid(), 0, 6))
  {
    SkippedBlockGridCells();
    SkippedBlockGridRows();
    SkippedBlockGridColumns();
    SkippedBlockGridBlocks();
    var g := SkippedBlockGrid();
    var b := Block(g, 0, 6);
    assert b == g[0][6..9] + g[1][6..9] + g[2][6..9];
    assert b[2] == g[0][8] == 4 == g[1][6] == b[3];
  }
}
