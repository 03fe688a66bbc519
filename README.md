# vector_t and the Sudoku solver, modelled in Dafny

This project models two parts of a C++ course repository and proves properties of them.

**The growable array `vector_t<T>`** (hw06-vector-h3ic/vector.h). The
header is an unfinished skeleton. Its test suite (hw06-vector-h3ic/main.cpp)
pins down the behaviour: every mutator is run in lockstep with `std::vector`,
and exact capacities are asserted. The model is the container those tests
require, instantiated at `int`:

- `Vectors.Vector` is a class with the fields `capacity`, `arr` (the owned buffer; a buffer of length 0 stands for `nullptr`) and `size` (the source's `pos_`).
- `Valid()` is its invariant: `capacity == arr.Length`, `size <= capacity`, and the capacity is 0 or a power of two.
- `Elements()` is the sequence of live elements, `arr[..size]`.
- Every mutator states its new `Elements()` as the `std::vector` result, and its new capacity through the growth functions of module `Growth`.
- `insert` and `erase` shift the buffer in place (`SpliceFill`, `ShiftLeft`).
- The six comparisons are specified by the lexicographic order of module `Lexicographic`.
- Module `VectorScenarios` replays, against the contracts alone, the suite's deterministic tests: DefaultConstructor, ValueConstructor, CopyConstructor, CopyAssignment, BracketOperator, Front, Back, Empty, Size, Capacity, Reserve, Clear, SwapEmpty, SwapNonEmpty and Comparisions. Their ASSERT lines become `assert`s in client methods; the few extra asserts, among them the sizes the suite only notes in comments, are marked as proof steps. The Data test and the lockstep, random and stress tests are not replayed.

Where the skeleton and the tests disagree, the model follows the tests, and the member's comment says so:

- the sized constructor fills the buffer and sets the size;
- `swap` exchanges all three fields;
- the copy constructor copies deeply;
- `empty()` tests the size, not the buffer.

**The Sudoku solver and checker** (hw01-sudoku-h3ic):

- `SudokuSolver.FindPossibleValues` computes the candidate values of a cell with the source's `std::set` erase loops.
- `FindEmptyPosition` and `IsComplete` are the row-major scans.
- `SolveRecursively` is the backtracking counter. It is proved equal to the recursive specification `Count`, and it terminates because each recursion fills one empty cell (`ZeroCount` decreases).
- `FieldChecker.CheckField` is the validator, modelled with its two quirks exactly as written:
  - `is_unique` is `std::unique` without sorting, so it only rejects *adjacent* repeats (`IsUniqueMissesDistantRepeat`);
  - the block loop's bound `col < FIELD_SIZE - 3` never checks the right-hand block column, so a grid whose top-right block repeats a value is accepted (`RightBlockColumnUnchecked`).
- `SolutionsAccepted` proves that every true solution is still accepted.

`FIELD_SIZE` is defined in a header that is not part of this model. The 3×3 block arithmetic fixes it at 9 (`Grids.FieldSize`).

## Model

| member | source | states |
|---|---|---|
| Growth.NextPow2 | hw06-vector-h3ic/vector.h:13-16 | the result is a power of two and at least `n` |
| Growth.NextPow2Least | hw06-vector-h3ic/vector.h:13-16 | `NextPow2(n)` is at most every power of two that is at least `n`: it is the smallest one |
| Growth.NextPow2Below | hw06-vector-h3ic/vector.h:13-16 | for `n >= 1`, `NextPow2(n) < 2n`: the doubling loop never overshoots by a factor of two |
| Growth.NextPow2Exact | hw06-vector-h3ic/vector.h:13-16 | the only power of two in `[n, 2n)` is `NextPow2(n)` (e.g. 10 → 16, 1023 → 1024) |
| Growth.Pow2Gap | hw06-vector-h3ic/vector.h:13-16 | two distinct powers of two differ at least by a factor of two |
| Growth.TightCapacity | hw06-vector-h3ic/vector.h:8-17 | the capacity the sized constructor chooses is 0 or a power of two, holds `len`, and is 0 exactly when `len` is 0 |
| Growth.GrownCapacity | hw06-vector-h3ic/main.cpp:503-534 | growing for `needed` keeps the capacity when `needed` fits and otherwise jumps straight to `NextPow2(needed)`; it never shrinks, always holds `needed`, and keeps the 0-or-power-of-two invariant |
| Growth.ComputeCapacity | hw06-vector-h3ic/vector.h:8-17 | the doubling loop computes `TightCapacity(elemNum)` |
| Growth.TightWithin | hw06-vector-h3ic/main.cpp:553-554 | a valid capacity that holds `len` is at least the tight capacity of `len`, so shrink_to_fit never grows |
| Growth.GrowthLaw | hw06-vector-h3ic/main.cpp:503-534 | growing a tight buffer for `m` elements to hold `needed` gives the tight capacity of the larger length: repeated growth lands on the smallest power of two that holds the longest length reached |
| Lexicographic.Less | hw06-vector-h3ic/main.cpp:885-898 | definition, not a model of code: the order the comparisons are checked against; no sequence is below itself, and a strict prefix is below the longer sequence |
| Lexicographic.LessCharacterised | hw06-vector-h3ic/main.cpp:885-898 | `Less(a, b)` iff `a` is a strict prefix of `b` or they first differ at an index where `a` is smaller |
| Lexicographic.Trichotomy | hw06-vector-h3ic/main.cpp:891 | `a == b` iff neither is less than the other, and never both are less |
| Lexicographic.LessTransitive | hw06-vector-h3ic/main.cpp:885-898 | `<` is transitive |
| Vectors.Repeat | hw06-vector-h3ic/main.cpp:205-221 | definition, not a model of code: `count` copies of a value |
| Vectors.FilledBuffer | hw06-vector-h3ic/vector.h:19 | a fresh buffer of the requested capacity whose first `n` slots hold the value, as the tests require of the sized constructor |
| Vectors.CopyPrefix | hw06-vector-h3ic/main.cpp:223-269 | the element-by-element copy into a fresh buffer leaves the first `n` slots equal to the source's |
| Vectors.ShiftRight | hw06-vector-h3ic/main.cpp:26-41 | moving from the back, the slots from `pos` on move `count` places right and the prefix is kept |
| Vectors.FillRange | hw06-vector-h3ic/main.cpp:38-41 | the filled range holds copies of `x` and everything else is unchanged |
| Vectors.SpliceFill | hw06-vector-h3ic/main.cpp:38-41 | the first `len + count` slots become prefix, `count` copies of `x`, suffix |
| Vectors.ShiftLeft | hw06-vector-h3ic/main.cpp:60-63 | the first `len - (last - first)` slots become the slots before `first` followed by the slots from `last` on |
| Vectors.Vector.constructor | hw06-vector-h3ic/vector.h:6 | the default container has no elements and no buffer |
| Vectors.Vector.Filled | hw06-vector-h3ic/vector.h:7-21 | `elemNum` copies of `value`, with the tight capacity (0 → no buffer, 10 → 16) |
| Vectors.Vector.FilledDefault | hw06-vector-h3ic/vector.h:7 | `vector_t(elem_num)` with the default argument `T()`: `elemNum` zeros with the tight capacity |
| Vectors.Vector.Copy | hw06-vector-h3ic/vector.h:29 | a fresh buffer holding the same elements, its capacity re-tightened to the length (7 in 16 → 8; empty → none) |
| Vectors.Vector.Swap | hw06-vector-h3ic/vector.h:23-27 | the two containers exchange buffer, size and capacity as a whole |
| Vectors.Vector.Assign | hw06-vector-h3ic/vector.h:31-35 | copy-and-swap: the elements become the source's (also under self-assignment), the capacity is the tight capacity of the length, the buffer is fresh, and a distinct source is untouched |
| Vectors.Vector.Get | hw06-vector-h3ic/vector.h:39-40 | `operator[]` reads element `index` |
| Vectors.Vector.Set | hw06-vector-h3ic/vector.h:39-40 | writing through `operator[]` changes exactly that element |
| Vectors.Vector.Front | hw06-vector-h3ic/vector.h:41-42 | the first element |
| Vectors.Vector.Back | hw06-vector-h3ic/vector.h:43-44 | the last element |
| Vectors.Vector.Data | hw06-vector-h3ic/vector.h:45-46 | null exactly when the capacity is 0; otherwise the buffer, whose first `size` slots are the elements |
| Vectors.Vector.Empty | hw06-vector-h3ic/vector.h:47 | true iff there are no elements, even while a buffer is held |
| Vectors.Vector.Size | hw06-vector-h3ic/vector.h:48 | the number of elements |
| Vectors.Vector.Capacity | hw06-vector-h3ic/vector.h:49 | the buffer length, 0 or a power of two, at least the size |
| Vectors.Vector.Reallocate | hw06-vector-h3ic/vector.h:19 | moving to a fresh buffer of a valid capacity keeps the elements |
| Vectors.Vector.Reserve | hw06-vector-h3ic/main.cpp:592-638 | no change when `n` fits; otherwise capacity `NextPow2(n)`; size and elements always kept |
| Vectors.Vector.PushBack | hw06-vector-h3ic/main.cpp:72-75 | appends `x` and grows to `NextPow2(size + 1)` only when full |
| Vectors.Vector.PopBack | hw06-vector-h3ic/main.cpp:81-83 | drops the last element and keeps buffer and capacity |
| Vectors.Vector.Insert | hw06-vector-h3ic/main.cpp:26-29 | `x` goes before position `pos`, with growth as for one more element |
| Vectors.Vector.InsertCount | hw06-vector-h3ic/main.cpp:38-41 | `count` copies of `x` go before `pos`, and the capacity jumps in one step to fit the new length |
| Vectors.Vector.EraseRange | hw06-vector-h3ic/main.cpp:60-63 | removes `[first, last)` and keeps buffer and capacity; `first == last` changes nothing |
| Vectors.Vector.Erase | hw06-vector-h3ic/main.cpp:51-54 | removes the element at `pos` and keeps buffer and capacity |
| Vectors.Vector.Resize | hw06-vector-h3ic/main.cpp:88-92 | truncates or pads with copies of `x`; the capacity only grows, to `NextPow2(n)` when needed |
| Vectors.Vector.ResizeDefault | hw06-vector-h3ic/main.cpp:88-92 | as Resize, padding with `T()`, which is 0 |
| Vectors.Vector.Clear | hw06-vector-h3ic/main.cpp:642-653 | no elements, capacity 0, no buffer |
| Vectors.Vector.ShrinkToFit | hw06-vector-h3ic/main.cpp:553-578 | the capacity becomes the tight capacity of the size (0 when empty), never grows, the elements are kept, and an already tight buffer is kept |
| Vectors.Vector.Less | hw06-vector-h3ic/main.cpp:885-890 | the comparison loop computes the lexicographic order of the elements, with capacity playing no part |
| Vectors.Vector.Equal | hw06-vector-h3ic/main.cpp:891 | equal iff the element sequences are equal (iff neither is less) |
| Vectors.Vector.NotEqual | hw06-vector-h3ic/main.cpp:892 | unequal iff the element sequences differ |
| Vectors.Vector.Greater | hw06-vector-h3ic/main.cpp:893 | `other < this`, which excludes equality and `this < other` |
| Vectors.Vector.LessOrEqual | hw06-vector-h3ic/main.cpp:894 | less or equal |
| Vectors.Vector.GreaterOrEqual | hw06-vector-h3ic/main.cpp:895 | greater or equal |
| Grids.Column | hw01-sudoku-h3ic/field-checker.cpp:36-39 | definition, not a model of code: column `c` read top to bottom |
| Grids.BlockRows | hw01-sudoku-h3ic/field-checker.cpp:50-54 | definition, not a model of code: the first `n` row segments of a 3-wide block, `3n` cells |
| Grids.Block | hw01-sudoku-h3ic/field-checker.cpp:49-54 | definition, not a model of code: the 3×3 block read row by row, 9 cells |
| Grids.BlockAsRows | hw01-sudoku-h3ic/field-checker.cpp:50-54 | a block is its three 3-cell row segments, top to bottom |
| Grids.InBlockRows | hw01-sudoku-h3ic/sudoku-solver.cpp:25-29 | a value is in a block iff one of its cells holds it |
| SudokuSolver.Place | hw01-sudoku-h3ic/sudoku-solver.cpp:69 | definition of the one-cell write on a grid value; it keeps a 9×9 grid |
| SudokuSolver.EraseRowAndColumn | hw01-sudoku-h3ic/sudoku-solver.cpp:15-18 | exactly the values that occur in neither row `row` nor column `col` are kept |
| SudokuSolver.EraseBlock | hw01-sudoku-h3ic/sudoku-solver.cpp:22-29 | exactly the values that occur nowhere in the block are kept |
| SudokuSolver.FindPossibleValues | hw01-sudoku-h3ic/sudoku-solver.cpp:4-31 | `v` is returned iff `v` is in 1..9 and occurs neither in the row, nor the column, nor the block with corner `(r - r%3, c - c%3)`; the result is a subset of 1..9 |
| SudokuSolver.FindEmptyFrom | hw01-sudoku-h3ic/sudoku-solver.cpp:33-43 | the first empty cell at or after a position in row-major order, or (-1, -1) iff there is none |
| SudokuSolver.FindEmptyPosition | hw01-sudoku-h3ic/sudoku-solver.cpp:33-43 | the first cell holding 0 in row-major order, or (-1, -1) iff every cell is filled |
| SudokuSolver.CompleteFrom | hw01-sudoku-h3ic/sudoku-solver.cpp:45-54 | no empty cell at or after a position |
| SudokuSolver.IsComplete | hw01-sudoku-h3ic/sudoku-solver.cpp:45-54 | true iff no cell holds 0, iff `FindEmptyPosition` returns (-1, -1) |
| SudokuSolver.ZerosInUpdate | hw01-sudoku-h3ic/sudoku-solver.cpp:69 | filling an empty cell of a row removes exactly one empty cell |
| SudokuSolver.ZeroCountUpdate | hw01-sudoku-h3ic/sudoku-solver.cpp:69 | replacing one row changes the grid's empty-cell count by the rows' difference |
| SudokuSolver.PlaceTwice | hw01-sudoku-h3ic/sudoku-solver.cpp:68-71 | writing the same cell twice leaves only the second value: the loop's successive writes agree with placing each candidate on the original grid |
| SudokuSolver.PlaceFillsOne | hw01-sudoku-h3ic/sudoku-solver.cpp:69-70 | each recursive grid has exactly one empty cell fewer (termination) |
| SudokuSolver.SumFromStep | hw01-sudoku-h3ic/sudoku-solver.cpp:68-71 | one loop step adds the count of candidate `v`, if it is one, to the sum over the rest |
| SudokuSolver.SumFromNoCandidates | hw01-sudoku-h3ic/sudoku-solver.cpp:68-71 | a cell with no candidates sums to 0 |
| SudokuSolver.DeadEndCountsZero | hw01-sudoku-h3ic/sudoku-solver.cpp:62-72 | an incomplete grid whose first empty cell has no candidates counts 0 |
| SudokuSolver.SolveRecursively | hw01-sudoku-h3ic/sudoku-solver.cpp:57-73 | returns `Count(field)`: 1 on a complete grid, otherwise the sum over the candidates at the first empty cell of the counts with each placed; the caller's grid is a value and is unchanged |
| SudokuSolver.SudokuSolve | hw01-sudoku-h3ic/sudoku-solver.cpp:75-84 | the count is `Count(field)`; a complete grid yields count 1 and itself as the solution |
| FieldChecker.Unique | hw01-sudoku-h3ic/field-checker.cpp:7 | `std::unique` collapses runs: the result is no longer than the input, and has the same length iff no two adjacent entries are equal |
| FieldChecker.IsUnique | hw01-sudoku-h3ic/field-checker.cpp:5-9 | true iff no two adjacent entries are equal |
| FieldChecker.DistinctIsUnique | hw01-sudoku-h3ic/field-checker.cpp:5-9 | pairwise distinct entries pass `is_unique` |
| FieldChecker.IsUniqueMissesDistantRepeat | hw01-sudoku-h3ic/field-checker.cpp:7-8 | `[1, 2, 1]` passes `is_unique` though it repeats a value |
| FieldChecker.CheckCells | hw01-sudoku-h3ic/field-checker.cpp:14-25 | true iff every solution cell is in 1..9 and every given of the initial grid is kept |
| FieldChecker.CheckRows | hw01-sudoku-h3ic/field-checker.cpp:27-32 | true iff every row passes `is_unique` |
| FieldChecker.CollectColumn | hw01-sudoku-h3ic/field-checker.cpp:36-39 | the pushed column is column `col` read top to bottom |
| FieldChecker.CheckColumns | hw01-sudoku-h3ic/field-checker.cpp:34-44 | true iff every column passes `is_unique` |
| FieldChecker.CollectBlock | hw01-sudoku-h3ic/field-checker.cpp:49-54 | the pushed block is the 3×3 block read row by row |
| FieldChecker.CheckBlocks | hw01-sudoku-h3ic/field-checker.cpp:46-60 | true iff every block with corner row in {0, 3, 6} and corner column in {0, 3} passes `is_unique` |
| FieldChecker.CheckField | hw01-sudoku-h3ic/field-checker.cpp:11-61 | true iff the cell, row, column and (partial) block checks all pass |
| FieldChecker.SolutionsAccepted | hw01-sudoku-h3ic/field-checker.cpp:11-61 | every grid with cells in 1..9, givens kept, and pairwise distinct rows, columns and all nine blocks is accepted |
| FieldChecker.SkippedBlockGrid | hw01-sudoku-h3ic/field-checker.cpp:47-48 | counterexample input, not a model of code: a 9×9 grid whose cells are given by a closed formula |
| FieldChecker.EmptyGrid | hw01-sudoku-h3ic/field-checker.cpp:21 | counterexample input, not a model of code: the 9×9 grid with no givens |
| FieldChecker.SkippedBlockGridCells | hw01-sudoku-h3ic/field-checker.cpp:14-25 | that grid passes the cell checks |
| FieldChecker.SkippedCellNeighbours | hw01-sudoku-h3ic/field-checker.cpp:27-44 | horizontally and vertically adjacent cells of that grid differ |
| FieldChecker.SkippedBlockGridRows | hw01-sudoku-h3ic/field-checker.cpp:27-32 | that grid passes the row checks |
| FieldChecker.SkippedBlockGridColumns | hw01-sudoku-h3ic/field-checker.cpp:34-44 | that grid passes the column checks |
| FieldChecker.AlternatingUnique | hw01-sudoku-h3ic/field-checker.cpp:5-9 | a sequence alternating two distinct values passes `is_unique` |
| FieldChecker.ChessBlockUnique | hw01-sudoku-h3ic/field-checker.cpp:49-55 | a block laid out as a 3×3 chessboard of two values passes `is_unique` |
| FieldChecker.SkippedTriple | hw01-sudoku-h3ic/field-checker.cpp:50-52 | a 3-cell row segment of that grid is its three formula values |
| FieldChecker.SkippedChess | hw01-sudoku-h3ic/field-checker.cpp:50-52 | in the left six columns the formula is a chessboard of two values |
| FieldChecker.SkippedBlockGridBlock | hw01-sudoku-h3ic/field-checker.cpp:46-60 | each checked block of that grid passes `is_unique` |
| FieldChecker.SkippedBlockGridBlocks | hw01-sudoku-h3ic/field-checker.cpp:46-60 | that grid passes the block checks |
| FieldChecker.RightBlockColumnUnchecked | hw01-sudoku-h3ic/field-checker.cpp:48 | `check_field` accepts that grid against the empty grid, although its block at corner (0, 6), which is never checked, fails `is_unique` |

## Left out

- Element type: the container is modelled for `int` only. Generic `T`, `std::string` elements and a user-supplied order for the comparisons are not modelled; `T()` is 0.
- Integer width: `size_t` and `int` are unbounded integers here. The overflow of `int power` in the doubling loop for lengths beyond 2^30 is not modelled.
- Allocation: allocation failure and exception safety are not modelled. Neither is the lifetime of raw memory: the destructor, `delete[]` and the checker's leaked `column`/`block` vectors, which become sequences.
- Slots beyond the size: the contents of slots `[size, capacity)` are unspecified. The model states nothing about them.
- Unchecked preconditions: `operator[]`, `front` and `back` are unchecked in vector.h, so their bounds are `requires` clauses. `pop_back`, `insert` and `erase` are absent from vector.h; the tests call them only in range, as `std::vector` requires. Their bounds are `requires` clauses too, and error results for an empty container or an out-of-range index are not modelled.
- Test plumbing: the suite's lockstep harness, virtual dispatch, stream dumps, random generators, and the stress and timing tests are not modelled. Their assertions are the contracts, and `VectorScenarios` replays the deterministic tests other than Data (main.cpp:373-398), whose writes through the raw `data()` pointer are not replayed.
- Capacity and Reserve scenarios: each part of these two tests starts from a fresh sized construction with the size and capacity the suite has reached at that point, instead of continuing from the previous part. The element values may differ, but capacities do not depend on them.
- VectorScenarios.EmptiedCopy: erases everything from a fresh container of 7 elements in 8 slots. In the suite this is the narrowing copy, which has the same size and capacity.
- VectorScenarios.ComparisonsShorter and VectorScenarios.ComparisonsFirstDifference: build their starting contents by pushes (`Counting`) instead of continuing from the previous block. The contents are the same as in the suite.
- VectorScenarios.CapacityAfterShrink: reaches the suite's state of 31 elements in 128 slots by one range erase from 65 elements. The suite uses a pop and 33 single erases, and `CapacityAfterRemovals` replays those separately.
- SudokuSolver.SudokuSolve: the second component of `sudoku_solve` is not modelled for an incomplete grid; it is `None`. The source dereferences a `std::vector` there, which does not compile, and never records a solution.
- Grid shape: grids are required to be 9×9. `FIELD_SIZE` comes from a header that is not part of this model.
- Iteration order: the iteration over the `std::set` of candidates is a scan of 1..9 with a membership test. `std::set` yields its members in that ascending order.
