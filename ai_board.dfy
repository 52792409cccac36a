/**
 * The `Board` class of 2048ai.js: a 4x4 grid updated in place, with the four
 * directional moves, the cell queries the search uses, and a bounded undo
 * history. Every method is proved to compute the value-level rule of the
 * same name in grid_spec.dfy.
 */
module AiBoard {
  import opened GridSpec

  /** `MAX_HISTORY`: the undo history keeps at most this many snapshots. */
  const MAX_HISTORY := 10

  /**
   * One step of `Merge` from position `i` of a packed line, taken after the
   * values `done` have been produced: either a pair merges or one value moves.
   */
  lemma MergeAdvance(s: seq<int>, i: int, done: seq<int>)
    requires 0 <= i < |s| && done + Merge(s[i..]) == Merge(s)
    ensures |done| < |Merge(s)| <= |s|
    ensures i < |s| - 1 && s[i] == s[i + 1] ==> done + [s[i] * 2] + Merge(s[i + 2..]) == Merge(s)
    ensures !(i < |s| - 1 && s[i] == s[i + 1]) ==> done + [s[i]] + Merge(s[i + 1..]) == Merge(s)
  {
    MergeLen(s);
    var t := s[i..];
    MergeLen(t);
    assert t[1..] == s[i + 1..];
    if i < |s| - 1 && s[i] == s[i + 1] {
      assert t[2..] == s[i + 2..];
      assert Merge(t) == [s[i] * 2] + Merge(s[i + 2..]);
    } else {
      assert Merge(t) == [s[i]] + Merge(s[i + 1..]);
    }
  }

  lemma PadPush(done: seq<int>, x: int)
    requires |done| < 4
    ensures Pad(done + [x], 4) == Pad(done, 4)[|done| := x]
  {
    assert Zeros(4 - |done|) == [0] + Zeros(3 - |done|);
  }

  /** `history` after `saveState` pushed `snapshot`: the oldest entry goes once there are more than ten. */
  function Pushed(history: seq<Grid>, snapshot: Grid): (h: seq<Grid>)
    requires |history| <= MAX_HISTORY
    ensures |h| <= MAX_HISTORY && h != [] && h[|h| - 1] == snapshot
  {
    var pushed := history + [snapshot];
    if |pushed| > MAX_HISTORY then pushed[1..] else pushed
  }

  class Board {
    var grid: Grid
    var history: seq<Grid>

    ghost predicate Valid()
      reads this
    {
      IsGrid(grid) && |history| <= MAX_HISTORY && forall i :: 0 <= i < |history| ==> IsGrid(history[i])
    }

    /** `new Board(grid)`: the cells given, no history. */
    constructor (g: Grid)
      requires IsGrid(g)
      ensures Valid() && grid == g && history == []
    {
      grid := g;
      history := [];
    }

    /** `clone()`: a board with a copy of the cells and an empty history. */
    method Clone() returns (b: Board)
      requires Valid()
      ensures fresh(b) && b.Valid() && b.grid == grid && b.history == []
    {
      b := new Board(grid);
    }

    /** `get`: the value at one cell. */
    function Get(row: int, col: int): int
      reads this
      requires Valid() && 0 <= row < 4 && 0 <= col < 4
    {
      grid[row][col]
    }

    /** `set`: one cell takes a new value. */
    method Set(row: int, col: int, value: int)
      requires Valid() && 0 <= row < 4 && 0 <= col < 4
      modifies this
      ensures Valid() && history == old(history)
      ensures grid == old(grid)[row := old(grid)[row][col := value]]
    {
      grid := grid[row := grid[row][col := value]];
    }

    /**
     * `moveAndMergeArray`: slide the non-zero values of a line to the front
     * and merge equal neighbours once each.
     */
    method MoveAndMergeArray(line: seq<int>) returns (result: seq<int>)
      requires |line| == 4
      ensures result == MergeLine(line)
    {
      var nonZeroValues := NonZero(line);
      result := [0, 0, 0, 0];
      var resultIdx := 0;
      ghost var done: seq<int> := [];
      assert Pad(done, 4) == result;
      var i := 0;
      while i < |nonZeroValues|
        invariant 0 <= i <= |nonZeroValues| && resultIdx == |done| <= 4
        invariant done + Merge(nonZeroValues[i..]) == Merge(nonZeroValues)
        invariant result == Pad(done, 4)
      {
        MergeAdvance(nonZeroValues, i, done);
        if i < |nonZeroValues| - 1 && nonZeroValues[i] == nonZeroValues[i + 1] {
          PadPush(done, nonZeroValues[i] * 2);
          result := result[resultIdx := nonZeroValues[i] * 2];
          done := done + [nonZeroValues[i] * 2];
          resultIdx := resultIdx + 1;
          i := i + 2;
        } else {
          PadPush(done, nonZeroValues[i]);
          result := result[resultIdx := nonZeroValues[i]];
          done := done + [nonZeroValues[i]];
          resultIdx := resultIdx + 1;
          i := i + 1;
        }
      }
      assert nonZeroValues[i..] == [];
    }

    /**
     * The inner loop of `moveUp`/`moveDown`: write `newColumn` into column
     * `col`, cell by cell, noting whether any cell changed.
     */
    method StoreColumn(col: int, newColumn: seq<int>) returns (changed: bool)
      requires Valid() && 0 <= col < 4 && |newColumn| == 4
      modifies this
      ensures Valid() && history == old(history)
      ensures forall r :: 0 <= r < 4 ==> grid[r][col] == newColumn[r]
      ensures forall r, c :: 0 <= r < 4 && 0 <= c < 4 && c != col ==> grid[r][c] == old(grid)[r][c]
      ensures changed == (newColumn != Col(old(grid), col))
    {
      changed := false;
      for row := 0 to 4
        invariant Valid() && history == old(history)
        invariant forall r :: 0 <= r < row ==> grid[r][col] == newColumn[r]
        invariant forall r, c :: 0 <= r < 4 && 0 <= c < 4 && (c != col || r >= row) ==> grid[r][c] == old(grid)[r][c]
        invariant changed <==> exists r :: 0 <= r < row && old(grid)[r][col] != newColumn[r]
      {
        if grid[row][col] != newColumn[row] {
          changed := true;
          grid := grid[row := grid[row][col := newColumn[row]]];
        }
      }
      assert changed == (newColumn != Col(old(grid), col)) by {
        if changed {
          var r :| 0 <= r < 4 && old(grid)[r][col] != newColumn[r];
          assert newColumn[r] != Col(old(grid), col)[r];
        }
      }
    }

    /** `moveUp`: merge every column towards row 0; report whether a cell changed. */
    method MoveUp() returns (moved: bool)
      requires Valid()
      modifies this
      ensures Valid() && history == old(history) && grid == MoveGrid(old(grid), 0)
      ensures moved == (grid != old(grid))
    {
      ghost var g := grid;
      moved := false;
      for col := 0 to 4
        invariant Valid() && history == old(history)
        invariant forall r, c :: 0 <= r < 4 && 0 <= c < col ==> grid[r][c] == MovedLine(g, 0, c)[r]
        invariant forall r, c :: 0 <= r < 4 && col <= c < 4 ==> grid[r][c] == g[r][c]
        invariant moved <==> exists c :: 0 <= c < col && MovedLine(g, 0, c) != Line(g, 0, c)
      {
        var column := [grid[0][col], grid[1][col], grid[2][col], grid[3][col]];
        var newColumn := MoveAndMergeArray(column);
        assert newColumn == MovedLine(g, 0, col) && column == Line(g, 0, col) by {
          assert column == Line(g, 0, col);
        }
        var changed := StoreColumn(col, newColumn);
        moved := moved || changed;
      }
      MoveGridFromCells(g, 0, grid);
      MoveGridChanged(g, 0);
    }

    /** `moveDown`: as `moveUp` on each column read bottom to top. */
    method MoveDown() returns (moved: bool)
      requires Valid()
      modifies this
      ensures Valid() && history == old(history) && grid == MoveGrid(old(grid), 1)
      ensures moved == (grid != old(grid))
    {
      ghost var g := grid;
      moved := false;
      for col := 0 to 4
        invariant Valid() && history == old(history)
        invariant forall r, c :: 0 <= r < 4 && 0 <= c < col ==> grid[r][c] == MovedLine(g, 1, c)[r]
        invariant forall r, c :: 0 <= r < 4 && col <= c < 4 ==> grid[r][c] == g[r][c]
        invariant moved <==> exists c :: 0 <= c < col && MovedLine(g, 1, c) != Line(g, 1, c)
      {
        var column := [grid[0][col], grid[1][col], grid[2][col], grid[3][col]];
        var merged := MoveAndMergeArray(Reverse(column));
        var newColumn := Reverse(merged);
        assert newColumn == MovedLine(g, 1, col) && column == Line(g, 1, col) by {
          assert column == Line(g, 1, col);
        }
        var changed := StoreColumn(col, newColumn);
        moved := moved || changed;
      }
      MoveGridFromCells(g, 1, grid);
      MoveGridChanged(g, 1);
    }

    /** The inner loop of `moveLeft`/`moveRight`: write `newRow` into row `row`. */
    method StoreRow(row: int, newRow: seq<int>) returns (changed: bool)
      requires Valid() && 0 <= row < 4 && |newRow| == 4
      modifies this
      ensures Valid() && history == old(history)
      ensures forall c :: 0 <= c < 4 ==> grid[row][c] == newRow[c]
      ensures forall r, c :: 0 <= r < 4 && 0 <= c < 4 && r != row ==> grid[r][c] == old(grid)[r][c]
      ensures changed == (newRow != old(grid)[row])
    {
      changed := false;
      for col := 0 to 4
        invariant Valid() && history == old(history)
        invariant forall c :: 0 <= c < col ==> grid[row][c] == newRow[c]
        invariant forall r, c :: 0 <= r < 4 && 0 <= c < 4 && (r != row || c >= col) ==> grid[r][c] == old(grid)[r][c]
        invariant changed <==> exists c :: 0 <= c < col && old(grid)[row][c] != newRow[c]
      {
        if grid[row][col] != newRow[col] {
          changed := true;
          grid := grid[row := grid[row][col := newRow[col]]];
        }
      }
      assert changed == (newRow != old(grid)[row]) by {
        if changed {
          var c :| 0 <= c < 4 && old(grid)[row][c] != newRow[c];
          assert newRow[c] != old(grid)[row][c];
        }
      }
    }

    /** `moveLeft`: merge every row towards column 0. */
    method MoveLeft() returns (moved: bool)
      requires Valid()
      modifies this
      ensures Valid() && history == old(history) && grid == MoveGrid(old(grid), 2)
      ensures moved == (grid != old(grid))
    {
      ghost var g := grid;
      moved := false;
      for row := 0 to 4
        invariant Valid() && history == old(history)
        invariant forall r, c :: 0 <= r < row && 0 <= c < 4 ==> grid[r][c] == MovedLine(g, 2, r)[c]
        invariant forall r, c :: row <= r < 4 && 0 <= c < 4 ==> grid[r][c] == g[r][c]
        invariant moved <==> exists r :: 0 <= r < row && MovedLine(g, 2, r) != Line(g, 2, r)
      {
        assert grid[row] == Line(g, 2, row);
        var newRow := MoveAndMergeArray(grid[row]);
        var changed := StoreRow(row, newRow);
        moved := moved || changed;
      }
      MoveGridFromCells(g, 2, grid);
      MoveGridChanged(g, 2);
    }

    /** `moveRight`: as `moveLeft` on each row read right to left. */
    method MoveRight() returns (moved: bool)
      requires Valid()
      modifies this
      ensures Valid() && history == old(history) && grid == MoveGrid(old(grid), 3)
      ensures moved == (grid != old(grid))
    {
      ghost var g := grid;
      moved := false;
      for row := 0 to 4
        invariant Valid() && history == old(history)
        invariant forall r, c :: 0 <= r < row && 0 <= c < 4 ==> grid[r][c] == MovedLine(g, 3, r)[c]
        invariant forall r, c :: row <= r < 4 && 0 <= c < 4 ==> grid[r][c] == g[r][c]
        invariant moved <==> exists r :: 0 <= r < row && MovedLine(g, 3, r) != Line(g, 3, r)
      {
        assert grid[row] == Line(g, 3, row);
        var merged := MoveAndMergeArray(Reverse(grid[row]));
        var newRow := Reverse(merged);
        assert newRow == MovedLine(g, 3, row);
        var changed := StoreRow(row, newRow);
        moved := moved || changed;
      }
      MoveGridFromCells(g, 3, grid);
      MoveGridChanged(g, 3);
    }

    /** `saveState`: push a copy of the cells, dropping the oldest once more than ten are kept. */
    method SaveState()
      requires Valid()
      modifies this
      ensures Valid() && grid == old(grid)
      ensures history == Pushed(old(history), old(grid))
    {
      var state := grid;
      history := history + [state];
      if |history| > MAX_HISTORY {
        history := history[1..];
      }
    }

    /**
     * `undo`: false and no change on an empty history; otherwise the most
     * recent snapshot becomes the grid and leaves the history.
     */
    method Undo() returns (ok: bool)
      requires Valid()
      modifies this
      ensures Valid()
      ensures ok == (old(history) != [])
      ensures !ok ==> grid == old(grid) && history == old(history)
      ensures ok ==> grid == old(history)[|old(history)| - 1]
                     && history == old(history)[..|old(history)| - 1]
    {
      if |history| == 0 {
        return false;
      }
      var previousState := history[|history| - 1];
      history := history[..|history| - 1];
      grid := previousState;
      return true;
    }

    /** `move`: save the state, then apply move `m`; codes other than 0..3 move nothing. */
    method Move(m: int) returns (moved: bool)
      requires Valid()
      modifies this
      ensures Valid()
      ensures history == Pushed(old(history), old(grid))
      ensures grid == MoveGrid(old(grid), m)
      ensures moved == (0 <= m < 4 && grid != old(grid))
    {
      SaveState();
      if m == 0 {
        moved := MoveUp();
      } else if m == 1 {
        moved := MoveDown();
      } else if m == 2 {
        moved := MoveLeft();
      } else if m == 3 {
        moved := MoveRight();
      } else {
        moved := false;
      }
    }

    /**
     * `clone()` followed by `move(m)` on the copy, as the search does it: a
     * fresh board holding the moved grid, whose history is this board's
     * cells, and whether the move changed anything.
     */
    method MovedCopy(m: int) returns (b: Board, moved: bool)
      requires Valid()
      ensures fresh(b) && b.Valid() && b.history == [grid]
      ensures b.grid == MoveGrid(grid, m)
      ensures moved == (0 <= m < 4 && MoveGrid(grid, m) != grid)
    {
      b := Clone();
      moved := b.Move(m);
    }

    /** `countEmpty`: the number of zero cells. */
    method CountEmpty() returns (count: int)
      requires Valid()
      ensures count == EmptyCount(grid)
    {
      ghost var f := Flatten(grid);
      assert f[0..] == f;
      count := 0;
      for row := 0 to 4
        invariant count + CountZeros(f[4 * row..]) == CountZeros(f)
      {
        for col := 0 to 4
          invariant count + CountZeros(f[4 * row + col..]) == CountZeros(f)
        {
          CountZerosStep(f, Index(Pos(row, col)));
          PosOfIndex(Pos(row, col));
          if grid[row][col] == 0 {
            count := count + 1;
          }
        }
      }
    }

    /** `countDistinctTiles`: how many different non-zero values the grid holds. */
    method CountDistinctTiles() returns (n: int)
      requires Valid()
      ensures n == |DistinctTiles(grid)|
    {
      ghost var g := grid;
      var uniqueTiles: set<int> := {};
      for row := 0 to 4
        invariant uniqueTiles == set r, c | 0 <= r < row && 0 <= c < 4 && g[r][c] != 0 :: g[r][c]
      {
        for col := 0 to 4
          invariant uniqueTiles == (set r, c | 0 <= r < row && 0 <= c < 4 && g[r][c] != 0 :: g[r][c])
                                 + (set c | 0 <= c < col && g[row][c] != 0 :: g[row][c])
        {
          if grid[row][col] != 0 {
            uniqueTiles := uniqueTiles + {grid[row][col]};
          }
        }
        assert (set r, c | 0 <= r < row + 1 && 0 <= c < 4 && g[r][c] != 0 :: g[r][c])
            == (set r, c | 0 <= r < row && 0 <= c < 4 && g[r][c] != 0 :: g[r][c])
               + (set c | 0 <= c < 4 && g[row][c] != 0 :: g[row][c]);
      }
      n := |uniqueTiles|;
    }

    /** `getEmptyPositions`: the zero cells in row-major order. */
    method GetEmptyPositions() returns (empty: seq<Pos>)
      requires Valid()
      ensures empty == EmptyPositions(grid)
    {
      ghost var g := grid;
      EmptyFromStart(g);
      empty := [];
      for row := 0 to 4
        invariant empty + EmptyFrom(g, 4 * row) == EmptyPositions(g)
      {
        for col := 0 to 4
          invariant empty + EmptyFrom(g, 4 * row + col) == EmptyPositions(g)
        {
          EmptyScanStep(g, row, col, empty);
          if grid[row][col] == 0 {
            empty := empty + [Pos(row, col)];
          }
        }
      }
    }

    /** `isGameOver`: no empty cell and no cell equal to its right or lower neighbour. */
    method IsGameOver() returns (over: bool)
      requires Valid()
      ensures over == GameOver(grid)
    {
      ghost var g := grid;
      var empty := CountEmpty();
      if empty > 0 {
        return false;
      }
      for row := 0 to 4
        invariant forall r, c :: 0 <= r < row && 0 <= c < 4 ==> !EqualNeighbourAt(g, r, c)
      {
        for col := 0 to 4
          invariant forall r, c :: 0 <= r < row && 0 <= c < 4 ==> !EqualNeighbourAt(g, r, c)
          invariant forall c :: 0 <= c < col ==> !EqualNeighbourAt(g, row, c)
        {
          var value := grid[row][col];
          if (col < 3 && grid[row][col + 1] == value) || (row < 3 && grid[row + 1][col] == value) {
            assert EqualNeighbourAt(g, row, col);
            return false;
          }
        }
      }
      return true;
    }

    /** `hash`: the cells in row-major order as decimal numbers joined by commas. */
    function HashKey(): string
      reads this
      requires Valid() && NonNegative(grid)
    {
      Hash(grid)
    }
  }
}
