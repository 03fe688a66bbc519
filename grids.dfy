/** The 9×9 Sudoku grid shared by the solver and the field checker
    (hw01-sudoku-h3ic). `FIELD_SIZE` comes from a header that is not part of
    this model; the 3×3 block arithmetic fixes it at 9. A cell holding 0 is
    empty. */
module Grids {

  const FieldSize: nat := 9

  type Field = seq<seq<int>>

  /** Nine rows of nine cells each. */
  predicate IsGrid(g: Field) {
    |g| == FieldSize && forall r :: 0 <= r < FieldSize ==> |g[r]| == FieldSize
  }

  /** The cells of column `c`, read top to bottom. */
  function Column(g: Field, c: nat): (col: seq<int>)
    requires IsGrid(g) && c < FieldSize
    ensures |col| == FieldSize && forall r :: 0 <= r < FieldSize ==> col[r] == g[r][c]
  {
    seq(FieldSize, r requires 0 <= r < FieldSize => g[r][c])
  }

  /** The first `n` rows of the 3-wide block whose upper-left corner is
      (`br`, `bc`), read row by row. */
  function BlockRows(g: Field, br: nat, bc: nat, n: nat): (cells: seq<int>)
    requires IsGrid(g) && br + n <= FieldSize && bc + 3 <= FieldSize
    ensures |cells| == 3 * n
  {
    if n == 0 then [] else BlockRows(g, br, bc, n - 1) + g[br + n - 1][bc..bc + 3]
  }

  /** The 3×3 block whose upper-left corner is (`br`, `bc`), read row by
      row. */
  function Block(g: Field, br: nat, bc: nat): (cells: seq<int>)
    requires IsGrid(g) && br + 3 <= FieldSize && bc + 3 <= FieldSize
    ensures |cells| == 9
  {
    BlockRows(g, br, bc, 3)
  }

  /** A block is its three 3-cell row segments, top to bottom. */
  lemma BlockAsRows(g: Field, br: nat, bc: nat)
    requires IsGrid(g) && br + 3 <= FieldSize && bc + 3 <= FieldSize
    ensures Block(g, br, bc) == g[br][bc..bc + 3] + g[br + 1][bc..bc + 3] + g[br + 2][bc..bc + 3]
  {
    assert BlockRows(g, br, bc, 1) == g[br][bc..bc + 3];
    assert BlockRows(g, br, bc, 2) == g[br][bc..bc + 3] + g[br + 1][bc..bc + 3];
  }

  /** A value occurs in a block exactly when it occurs in one of the block's
      nine cells. */
  lemma {:induction false} InBlockRows(g: Field, br: nat, bc: nat, n: nat, v: int)
    requires IsGrid(g) && br + n <= FieldSize && bc + 3 <= FieldSize
    ensures v in BlockRows(g, br, bc, n)
        <==> exists i, j :: br <= i < br + n && bc <= j < bc + 3 && g[i][j] == v
  {
    if n > 0 {
      InBlockRows(g, br, bc, n - 1, v);
      var row := g[br + n - 1];
      assert v in row[bc..bc + 3] <==> exists j :: bc <= j < bc + 3 && row[j] == v by {
        if v in row[bc..bc + 3] {
          var k :| 0 <= k < 3 && row[bc..bc + 3][k] == v;
          assert row[bc + k] == v;
        }
      }
    }
  }
}
