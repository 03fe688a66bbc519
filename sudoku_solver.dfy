/** The brute-force Sudoku solution counter (hw01-sudoku-h3ic/sudoku-solver.cpp):
    find the first empty cell in row-major order, try every value that its
    row, column and 3×3 block do not already hold, and add up the number of
    completions of each choice. */
module SudokuSolver {
  import opened Grids

  datatype Option<T> = None | Some(value: T)

  /** The grid with cell (`r`, `c`) set to `v`. */
  function Place(g: Field, r: nat, c: nat, v: int): (h: Field)
    requires IsGrid(g) && r < FieldSize && c < FieldSize
    ensures IsGrid(h)
  {
    g[r := g[r][c := v]]
  }

  /** `v` is allowed at (`r`, `c`): a digit that occurs nowhere in row `r`,
      in column `c`, or in the 3×3 block holding the cell. */
  predicate IsCandidate(g: Field, r: nat, c: nat, v: int)
    requires IsGrid(g) && r < FieldSize && c < FieldSize
  {
    1 <= v <= FieldSize && v !in g[r] && v !in Column(g, c) && v !in Block(g, r - r % 3, c - c % 3)
  }

  /** The row-and-column loop of `find_possible_values`: erases every value
      of row `row` and of column `col`. */
  method EraseRowAndColumn(values: set<int>, field: Field, row: nat, col: nat) returns (rest: set<int>)
    requires IsGrid(field) && row < FieldSize && col < FieldSize
    ensures forall v :: v in rest <==> v in values && v !in field[row] && v !in Column(field, col)
  {
    rest := values;
    var i := 0;
    while i < FieldSize
      invariant 0 <= i <= FieldSize
      invariant forall v :: v in rest <==>
        v in values && v !in field[row][..i] && v !in Column(field, col)[..i]
    {
      assert field[row][..i + 1] == field[row][..i] + [field[row][i]];
      assert Column(field, col)[..i + 1] == Column(field, col)[..i] + [field[i][col]];
      rest := rest - {field[row][i]};
      rest := rest - {field[i][col]};
      i := i + 1;
    }
    assert field[row][..FieldSize] == field[row];
    assert Column(field, col)[..FieldSize] == Column(field, col);
  }

  /** The block loop of `find_possible_values`: erases every value of the
      3×3 block whose upper-left corner is (`rowCorner`, `colCorner`), row by
      row. */
  method EraseBlock(values: set<int>, field: Field, rowCorner: nat, colCorner: nat) returns (rest: set<int>)
    requires IsGrid(field) && rowCorner + 3 <= FieldSize && colCorner + 3 <= FieldSize
    ensures forall v :: v in rest <==> v in values && v !in Block(field, rowCorner, colCorner)
  {
    rest := values;
    var i := rowCorner;
    while i < rowCorner + 3
      invariant rowCorner <= i <= rowCorner + 3
      invariant forall v :: v in rest <==> v in values && v !in BlockRows(field, rowCorner, colCorner, i - rowCorner)
    {
      var j := colCorner;
      ghost var before := rest;
      while j < colCorner + 3
        invariant colCorner <= j <= colCorner + 3
        invariant forall v :: v in rest <==> v in before && v !in field[i][colCorner..j]
      {
        assert field[i][colCorner..j + 1] == field[i][colCorner..j] + [field[i][j]];
        rest := rest - {field[i][j]};
        j := j + 1;
      }
      i := i + 1;
    }
  }

  /** `find_possible_values`: start from the set {1..9}, then erase every
      value seen in the row, the column and the block of the cell. */
  method FindPossibleValues(field: Field, emptyPos: (int, int)) returns (values: set<int>)
    requires IsGrid(field) && 0 <= emptyPos.0 < FieldSize && 0 <= emptyPos.1 < FieldSize
    ensures forall v :: v in values <==> IsCandidate(field, emptyPos.0, emptyPos.1, v)
    ensures forall v :: v in values ==> 1 <= v <= FieldSize
  {
    values := {};
    var i := 1;
    while i <= FieldSize
      invariant 1 <= i <= FieldSize + 1
      invariant forall v :: v in values <==> 1 <= v < i
    {
      values := values + {i};
      i := i + 1;
    }
    var row, col := emptyPos.0, emptyPos.1;
    values := EraseRowAndColumn(values, field, row, col);
    var rowBlockCorner := row - row % 3;
    var colBlockCorner := col - col % 3;
    values := EraseBlock(values, field, rowBlockCorner, colBlockCorner);
  }

  /** Cell (`r1`, `c1`) comes before cell (`r2`, `c2`) in row-major order. */
  predicate Before(r1: int, c1: int, r2: int, c2: int) {
    r1 < r2 || (r1 == r2 && c1 < c2)
  }

  /** The scan of `find_empty_position` from cell (`row`, `col`) on: the first
      empty cell at or after it, or (-1, -1) when there is none. */
  function FindEmptyFrom(field: Field, row: nat, col: nat): (p: (int, int))
    requires IsGrid(field) && row <= FieldSize && col <= FieldSize
    ensures p == (-1, -1) <==>
      forall r, c :: 0 <= r < FieldSize && 0 <= c < FieldSize && !Before(r, c, row, col) ==> field[r][c] != 0
    ensures p != (-1, -1) ==>
      0 <= p.0 < FieldSize && 0 <= p.1 < FieldSize && field[p.0][p.1] == 0 && !Before(p.0, p.1, row, col) &&
      forall r, c :: 0 <= r < FieldSize && 0 <= c < FieldSize && !Before(r, c, row, col) && Before(r, c, p.0, p.1)
        ==> field[r][c] != 0
    decreases FieldSize - row, FieldSize - col
  {
    if row == FieldSize then (-1, -1)
    else if col == FieldSize then FindEmptyFrom(field, row + 1, 0)
    else if field[row][col] == 0 then (row, col)
    else FindEmptyFrom(field, row, col + 1)
  }

  /** `find_empty_position`: the first cell holding 0 in row-major order, or
      (-1, -1) when every cell is filled. */
  function FindEmptyPosition(field: Field): (p: (int, int))
    requires IsGrid(field)
    ensures p == (-1, -1) <==>
      forall r, c :: 0 <= r < FieldSize && 0 <= c < FieldSize ==> field[r][c] != 0
    ensures p != (-1, -1) ==>
      0 <= p.0 < FieldSize && 0 <= p.1 < FieldSize && field[p.0][p.1] == 0 &&
      forall r, c :: 0 <= r < FieldSize && 0 <= c < FieldSize && Before(r, c, p.0, p.1) ==> field[r][c] != 0
  {
    FindEmptyFrom(field, 0, 0)
  }

  /** The scan of `is_complete` from cell (`row`, `col`) on. */
  function CompleteFrom(field: Field, row: nat, col: nat): (b: bool)
    requires IsGrid(field) && row <= FieldSize && col <= FieldSize
    ensures b <==>
      forall r, c :: 0 <= r < FieldSize && 0 <= c < FieldSize && !Before(r, c, row, col) ==> field[r][c] != 0
    decreases FieldSize - row, FieldSize - col
  {
    if row == FieldSize then true
    else if col == FieldSize then CompleteFrom(field, row + 1, 0)
    else if field[row][col] == 0 then false
    else CompleteFrom(field, row, col + 1)
  }

  /** `is_complete`: no cell holds 0; equivalently, `find_empty_position`
      finds nothing. */
  function IsComplete(field: Field): (b: bool)
    requires IsGrid(field)
    ensures b <==> forall r, c :: 0 <= r < FieldSize && 0 <= c < FieldSize ==> field[r][c] != 0
    ensures b <==> FindEmptyPosition(field) == (-1, -1)
  {
    CompleteFrom(field, 0, 0)
  }

  /** The number of empty cells in a row. */
  function ZerosIn(row: seq<int>): nat {
    if |row| == 0 then 0 else (if row[0] == 0 then 1 else 0) + ZerosIn(row[1..])
  }

  /** The number of empty cells in a grid: the measure that the recursion of
      the solver decreases. */
  function ZeroCount(g: seq<seq<int>>): nat {
    if |g| == 0 then 0 else ZerosIn(g[0]) + ZeroCount(g[1..])
  }

  lemma {:induction false} ZerosInUpdate(row: seq<int>, c: nat, v: int)
    requires c < |row| && row[c] == 0 && v != 0
    ensures ZerosIn(row[c := v]) + 1 == ZerosIn(row)
  {
    if c > 0 {
      ZerosInUpdate(row[1..], c - 1, v);
      assert row[c := v][1..] == row[1..][c - 1 := v];
    } else {
      assert row[c := v][1..] == row[1..];
    }
  }

  lemma {:induction false} ZeroCountUpdate(g: seq<seq<int>>, r: nat, newRow: seq<int>)
    requires r < |g|
    ensures ZeroCount(g[r := newRow]) + ZerosIn(g[r]) == ZeroCount(g) + ZerosIn(newRow)
  {
    if r > 0 {
      ZeroCountUpdate(g[1..], r - 1, newRow);
      assert g[r := newRow][1..] == g[1..][r - 1 := newRow];
    } else {
      assert g[r := newRow][1..] == g[1..];
    }
  }

  /** Writing a cell twice keeps the second value. */
  lemma PlaceTwice(g: Field, r: nat, c: nat, a: int, b: int)
    requires IsGrid(g) && r < FieldSize && c < FieldSize
    ensures Place(Place(g, r, c, a), r, c, b) == Place(g, r, c, b)
  {
    assert g[r][c := a][c := b] == g[r][c := b];
  }

  /** Filling an empty cell with a digit leaves exactly one empty cell
      fewer: this is why the solver terminates. */
  lemma PlaceFillsOne(g: Field, r: nat, c: nat, v: int)
    requires IsGrid(g) && r < FieldSize && c < FieldSize && g[r][c] == 0 && v != 0
    ensures ZeroCount(Place(g, r, c, v)) + 1 == ZeroCount(g)
  {
    ZerosInUpdate(g[r], c, v);
    ZeroCountUpdate(g, r, g[r][c := v]);
  }

  /** The number of completions the solver counts for `field`: 1 for a
      complete field, otherwise the sum over the candidates at the first
      empty cell of the count for the field with that candidate placed. */
  function Count(field: Field): nat
    requires IsGrid(field)
    decreases ZeroCount(field), 10
  {
    if IsComplete(field) then 1
    else
      var p := FindEmptyPosition(field);
      SumFrom(field, p.0, p.1, 1)
  }

  /** The sum over the candidates `w >= v` at (`r`, `c`), in increasing
      order as `std::set` yields them, of the count for `field` with `w`
      placed there. */
  function SumFrom(field: Field, r: nat, c: nat, v: nat): nat
    requires IsGrid(field) && r < FieldSize && c < FieldSize && field[r][c] == 0 && 1 <= v <= FieldSize + 1
    decreases ZeroCount(field), FieldSize + 1 - v
  {
    if v > FieldSize then 0
    else
      var here := if IsCandidate(field, r, c, v)
        then PlaceFillsOne(field, r, c, v); Count(Place(field, r, c, v))
        else 0;
      here + SumFrom(field, r, c, v + 1)
  }

  /** One step of the sum: the candidate `v`, if it is one, plus the rest. */
  lemma SumFromStep(field: Field, r: nat, c: nat, v: nat)
    requires IsGrid(field) && r < FieldSize && c < FieldSize && field[r][c] == 0 && 1 <= v <= FieldSize
    ensures SumFrom(field, r, c, v)
         == (if IsCandidate(field, r, c, v) then Count(Place(field, r, c, v)) else 0) + SumFrom(field, r, c, v + 1)
  {
  }

  /** A cell with no candidates contributes nothing. */
  lemma {:induction false} SumFromNoCandidates(field: Field, r: nat, c: nat, v: nat)
    requires IsGrid(field) && r < FieldSize && c < FieldSize && field[r][c] == 0 && 1 <= v <= FieldSize + 1
    requires forall w :: !IsCandidate(field, r, c, w)
    ensures SumFrom(field, r, c, v) == 0
    decreases FieldSize + 1 - v
  {
    if v <= FieldSize {
      SumFromNoCandidates(field, r, c, v + 1);
    }
  }

  /** `solve_recursively` returns 0 when the first empty cell of an
      incomplete field has no candidates: the search is dead there. */
  lemma DeadEndCountsZero(field: Field)
    requires IsGrid(field) && !IsComplete(field)
    requires forall w :: !IsCandidate(field, FindEmptyPosition(field).0, FindEmptyPosition(field).1, w)
    ensures Count(field) == 0
  {
    var p := FindEmptyPosition(field);
    SumFromNoCandidates(field, p.0, p.1, 1);
  }

  /** `solve_recursively`: 1 for a complete field; otherwise the field's own
      copy gets each candidate written into its first empty cell in turn,
      and the counts of the recursive calls are added up. The caller's grid
      is a value and is never changed. */
  method SolveRecursively(field: Field) returns (sum: nat)
    requires IsGrid(field)
    ensures sum == Count(field)
    ensures IsComplete(field) ==> sum == 1
    decreases ZeroCount(field)
  {
    if IsComplete(field) {
      return 1;
    }
    sum := 0;
    var emptyPos := FindEmptyPosition(field);
    var possibleValues := FindPossibleValues(field, emptyPos);
    var row, col := emptyPos.0, emptyPos.1;
    var work := field;
    assert field == Place(field, row, col, 0) by {
      assert field[row][col := 0] == field[row];
    }
    ghost var last := 0;
    // The loop over the std::set: it yields its members in increasing
    // order, all of them within 1..9.
    var value := 1;
    while value <= FieldSize
      invariant 1 <= value <= FieldSize + 1
      invariant work == Place(field, row, col, last)
      invariant sum + SumFrom(field, row, col, value) == SumFrom(field, row, col, 1)
    {
      SumFromStep(field, row, col, value);
      if value in possibleValues {
        PlaceTwice(field, row, col, last, value);
        work := Place(work, row, col, value);  // field[row][col] = value
        last := value;
        PlaceFillsOne(field, row, col, value);
        var s := SolveRecursively(work);
        sum := sum + s;
      }
      value := value + 1;
    }
  }

  /** The count half of `sudoku_solve`: a complete field is returned as its
      own single solution; otherwise the solver counts. The solution grid of
      the incomplete case is not modelled (None). */
  method SudokuSolve(field: Field) returns (count: nat, solution: Option<Field>)
    requires IsGrid(field)
    ensures count == Count(field)
    ensures IsComplete(field) ==> count == 1 && solution == Some(field)
  {
    if IsComplete(field) {
      return 1, Some(field);
    }
    var nonConstField := field;
    count := SolveRecursively(nonConstField);
    solution := None;
  }
}
