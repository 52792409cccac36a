/**
 * The value-level rules of the readable board in 2048ai.js: a 4x4 grid of
 * tile values (0 is an empty cell), the compress-and-merge rule for one line,
 * the four directional moves, and the queries the search asks of a board.
 * The class in ai_board.dfy is proved to compute exactly these functions.
 */
module GridSpec {

  /** grid[row][col], row 0 at the top, as `Board.grid` in 2048ai.js. */
  type Grid = seq<seq<int>>

  predicate IsGrid(g: Grid) {
    |g| == 4 && forall r :: 0 <= r < 4 ==> |g[r]| == 4
  }

  // ---------------------------------------------------------------------------
  // Tiles: 0 (empty) or a power of two of at least 2.

  function Pow2(k: nat): (p: nat)
    ensures p >= 1
  {
    if k == 0 then 1 else 2 * Pow2(k - 1)
  }

  predicate IsPow2(v: int)
    decreases if v < 0 then 0 else v
  {
    v == 1 || (v > 1 && v % 2 == 0 && IsPow2(v / 2))
  }

  predicate IsTile(v: int) {
    v == 0 || (v >= 2 && IsPow2(v))
  }

  predicate AllTiles(g: Grid)
    requires IsGrid(g)
  {
    forall r, c :: 0 <= r < 4 && 0 <= c < 4 ==> IsTile(g[r][c])
  }

  /** Math.log2 of a power of two: the tile's rank. */
  function Log2(v: int): (k: nat)
    requires v >= 1
    decreases v
  {
    if v <= 1 then 0 else 1 + Log2(v / 2)
  }

  lemma {:induction false} Log2OfPow2(k: nat)
    ensures IsPow2(Pow2(k)) && Log2(Pow2(k)) == k
  {
    if k > 0 {
      Log2OfPow2(k - 1);
      assert Pow2(k) / 2 == Pow2(k - 1);
    }
  }

  lemma {:induction false} Pow2OfLog2(v: int)
    requires v >= 1 && IsPow2(v)
    ensures Pow2(Log2(v)) == v
  {
    if v > 1 {
      Pow2OfLog2(v / 2);
    }
  }

  /** Doubling a tile gives a tile, with rank one higher. */
  lemma DoubleTile(v: int)
    requires IsTile(v) && v != 0
    ensures IsTile(2 * v) && 2 * v != 0
  {
    assert (2 * v) / 2 == v;
  }

  // ---------------------------------------------------------------------------
  // Sequences of cells.

  function Sum(s: seq<int>): int {
    if s == [] then 0 else s[0] + Sum(s[1..])
  }

  /** A line read from the other end (`array.reverse()` on the four cells). */
  function Reverse(s: seq<int>): (r: seq<int>)
    requires |s| == 4
    ensures |r| == 4
  {
    [s[3], s[2], s[1], s[0]]
  }

  /** The non-zero values of `s`, in order (`array.filter(val => val !== 0)`). */
  function NonZero(s: seq<int>): (r: seq<int>)
    ensures |r| <= |s|
    ensures forall i :: 0 <= i < |r| ==> r[i] != 0
  {
    if s == [] then [] else (if s[0] != 0 then [s[0]] else []) + NonZero(s[1..])
  }

  /**
   * The pairwise merge of a packed line: two equal neighbours become one
   * cell of double the value, and the result of a merge is not merged again.
   */
  function Merge(s: seq<int>): seq<int> {
    if |s| <= 1 then s
    else if s[0] == s[1] then [s[0] * 2] + Merge(s[2..])
    else [s[0]] + Merge(s[1..])
  }

  /** `n` empty cells. */
  function Zeros(n: nat): (z: seq<int>)
    ensures |z| == n && forall i :: 0 <= i < n ==> z[i] == 0
  {
    if n == 0 then [] else [0] + Zeros(n - 1)
  }

  function Pad(s: seq<int>, n: nat): (r: seq<int>)
    requires |s| <= n
    ensures |r| == n
    ensures forall i :: 0 <= i < |s| ==> r[i] == s[i]
    ensures forall i :: |s| <= i < n ==> r[i] == 0
  {
    s + Zeros(n - |s|)
  }

  /** The rule `moveAndMergeArray` implements: slide to the front, then merge. */
  function MergeLine(line: seq<int>): (r: seq<int>)
    requires |line| == 4
    ensures |r| == 4
  {
    MergeLen(NonZero(line));
    Pad(Merge(NonZero(line)), 4)
  }

  lemma {:induction false} MergeLen(s: seq<int>)
    ensures |Merge(s)| <= |s|
    ensures 2 * |Merge(s)| >= |s|
    ensures |s| > 0 ==> |Merge(s)| > 0
  {
    if |s| > 1 {
      if s[0] == s[1] { MergeLen(s[2..]); } else { MergeLen(s[1..]); }
    }
  }

  lemma {:induction false} MergeNonZero(s: seq<int>)
    requires forall i :: 0 <= i < |s| ==> s[i] != 0
    ensures forall i :: 0 <= i < |Merge(s)| ==> Merge(s)[i] != 0
  {
    if |s| > 1 {
      if s[0] == s[1] { MergeNonZero(s[2..]); } else { MergeNonZero(s[1..]); }
    }
  }

  lemma {:induction false} MergeSum(s: seq<int>)
    ensures Sum(Merge(s)) == Sum(s)
  {
    if |s| > 1 {
      if s[0] == s[1] {
        MergeSum(s[2..]);
        assert s[1..][1..] == s[2..];
      } else {
        MergeSum(s[1..]);
      }
    }
  }

  lemma {:induction false} SumAppend(a: seq<int>, b: seq<int>)
    ensures Sum(a + b) == Sum(a) + Sum(b)
  {
    if a == [] {
      assert a + b == b;
    } else {
      SumAppend(a[1..], b);
      assert (a + b)[0] == a[0];
      assert (a + b)[1..] == a[1..] + b;
    }
  }

  lemma {:induction false} SumZeros(n: nat)
    ensures Sum(Zeros(n)) == 0
  {
    if n > 0 {
      assert Zeros(n)[1..] == Zeros(n - 1);
      SumZeros(n - 1);
    }
  }

  lemma {:induction false} NonZeroSum(s: seq<int>)
    ensures Sum(NonZero(s)) == Sum(s)
  {
    if s != [] {
      NonZeroSum(s[1..]);
      SumAppend(if s[0] != 0 then [s[0]] else [], NonZero(s[1..]));
    }
  }

  /**
   * `moveAndMergeArray` returns four cells with every non-zero value packed
   * to the front and zeros behind, keeps the sum of the line, and never has
   * fewer than half as many tiles as it was given (each tile merges at most
   * once).
   */
  lemma MergeLineShape(line: seq<int>)
    requires |line| == 4
    ensures var r := MergeLine(line);
      |r| == 4 && Sum(r) == Sum(line)
      && |Merge(NonZero(line))| <= 4
      && (forall i :: 0 <= i < |Merge(NonZero(line))| ==> r[i] != 0)
      && (forall i :: |Merge(NonZero(line))| <= i < 4 ==> r[i] == 0)
      && 2 * |Merge(NonZero(line))| >= |NonZero(line)|
  {
    var nz := NonZero(line);
    MergeLen(nz);
    MergeNonZero(nz);
    MergeSum(nz);
    NonZeroSum(line);
    PadSum(Merge(nz), 4);
  }

  lemma PadSum(s: seq<int>, n: nat)
    requires |s| <= n
    ensures Sum(Pad(s, n)) == Sum(s)
  {
    SumAppend(s, Zeros(n - |s|));
    SumZeros(n - |s|);
  }

  lemma {:induction false} MergeTiles(s: seq<int>)
    requires forall i :: 0 <= i < |s| ==> IsTile(s[i]) && s[i] != 0
    ensures forall i :: 0 <= i < |Merge(s)| ==> IsTile(Merge(s)[i])
  {
    if |s| > 1 {
      if s[0] == s[1] { DoubleTile(s[0]); MergeTiles(s[2..]); } else { MergeTiles(s[1..]); }
    }
  }

  lemma {:induction false} NonZeroElements(s: seq<int>, x: int)
    ensures x in NonZero(s) <==> x in s && x != 0
  {
    if s != [] {
      NonZeroElements(s[1..], x);
      assert s == [s[0]] + s[1..];
      assert x in s <==> x == s[0] || x in s[1..];
      assert NonZero(s) == (if s[0] != 0 then [s[0]] else []) + NonZero(s[1..]);
    }
  }

  /** A merged line of tiles is a line of tiles. */
  lemma MergeLineTiles(line: seq<int>)
    requires |line| == 4 && forall i :: 0 <= i < 4 ==> IsTile(line[i])
    ensures forall i :: 0 <= i < 4 ==> IsTile(MergeLine(line)[i])
  {
    var nz := NonZero(line);
    forall i | 0 <= i < |nz| ensures IsTile(nz[i]) && nz[i] != 0 {
      NonZeroElements(line, nz[i]);
    }
    MergeTiles(nz);
    MergeLen(nz);
  }

  lemma MergeLineExamples()
    ensures MergeLine([2, 2, 2, 2]) == [4, 4, 0, 0]
    ensures MergeLine([2, 2, 4, 4]) == [4, 8, 0, 0]
    ensures MergeLine([0, 0, 2, 2]) == [4, 0, 0, 0]
  {
    assert NonZero([2, 2, 2, 2]) == [2, 2, 2, 2];
    assert NonZero([2, 2, 4, 4]) == [2, 2, 4, 4];
    assert NonZero([0, 0, 2, 2]) == [2, 2];
  }

  lemma MergeLinePartialExamples()
    ensures MergeLine([2, 2, 4, 0]) == [4, 4, 0, 0]
    ensures MergeLine([4, 4, 0, 0]) == [8, 0, 0, 0]
  {
    assert NonZero([2, 2, 4, 0]) == [2, 2, 4];
    assert NonZero([4, 4, 0, 0]) == [4, 4];
  }

  // ---------------------------------------------------------------------------
  // Whole-grid moves. Move codes are the engine's: 0 up, 1 down, 2 left, 3 right.

  function Col(g: Grid, c: int): (col: seq<int>)
    requires IsGrid(g) && 0 <= c < 4
    ensures |col| == 4 && forall r :: 0 <= r < 4 ==> col[r] == g[r][c]
  {
    [g[0][c], g[1][c], g[2][c], g[3][c]]
  }

  /** Line `i` that move `m` works on: a column for up/down, a row for left/right. */
  function Line(g: Grid, m: int, i: int): (line: seq<int>)
    requires IsGrid(g) && 0 <= i < 4
    ensures |line| == 4
  {
    if m <= 1 then Col(g, i) else g[i]
  }

  /** The new content of line `i` after move `m`. */
  function MovedLine(g: Grid, m: int, i: int): (line: seq<int>)
    requires IsGrid(g) && 0 <= m < 4 && 0 <= i < 4
    ensures |line| == 4
  {
    if m == 0 || m == 2 then MergeLine(Line(g, m, i))
    else Reverse(MergeLine(Reverse(Line(g, m, i))))
  }

  /** The cell at (r, c) after move `m`. */
  function MovedCell(g: Grid, m: int, r: int, c: int): int
    requires IsGrid(g) && 0 <= m < 4 && 0 <= r < 4 && 0 <= c < 4
  {
    if m <= 1 then MovedLine(g, m, c)[r] else MovedLine(g, m, r)[c]
  }

  /** The grid after move `m`; any other code leaves the grid as it is. */
  function MoveGrid(g: Grid, m: int): (h: Grid)
    requires IsGrid(g)
    ensures IsGrid(h)
  {
    if 0 <= m < 4 then
      seq(4, r requires 0 <= r < 4 => seq(4, c requires 0 <= c < 4 => MovedCell(g, m, r, c)))
    else g
  }

  lemma MoveGridCell(g: Grid, m: int, r: int, c: int)
    requires IsGrid(g) && 0 <= m < 4 && 0 <= r < 4 && 0 <= c < 4
    ensures MoveGrid(g, m)[r][c] == MovedCell(g, m, r, c)
  {
  }

  /** A grid whose every cell is the moved cell is the moved grid. */
  lemma MoveGridFromCells(g: Grid, m: int, h: Grid)
    requires IsGrid(g) && IsGrid(h) && 0 <= m < 4
    requires forall r, c :: 0 <= r < 4 && 0 <= c < 4 ==> h[r][c] == MovedCell(g, m, r, c)
    ensures h == MoveGrid(g, m)
  {
    forall r, c | 0 <= r < 4 && 0 <= c < 4 ensures h[r][c] == MoveGrid(g, m)[r][c] {
      MoveGridCell(g, m, r, c);
    }
    GridsDiffer(h, MoveGrid(g, m));
  }

  /** A move changes the grid exactly when it changes one of the four lines it works on. */
  lemma MoveGridChanged(g: Grid, m: int)
    requires IsGrid(g) && 0 <= m < 4
    ensures MoveGrid(g, m) != g <==> exists i :: 0 <= i < 4 && MovedLine(g, m, i) != Line(g, m, i)
  {
    if MoveGrid(g, m) != g {
      ChangedGridChangedLine(g, m);
    }
    if exists i :: 0 <= i < 4 && MovedLine(g, m, i) != Line(g, m, i) {
      var i :| 0 <= i < 4 && MovedLine(g, m, i) != Line(g, m, i);
      ChangedLineChangedGrid(g, m, i);
    }
  }

  lemma ChangedGridChangedLine(g: Grid, m: int)
    requires IsGrid(g) && 0 <= m < 4 && MoveGrid(g, m) != g
    ensures exists i :: 0 <= i < 4 && MovedLine(g, m, i) != Line(g, m, i)
  {
    GridsDiffer(MoveGrid(g, m), g);
    var r, c :| 0 <= r < 4 && 0 <= c < 4 && MoveGrid(g, m)[r][c] != g[r][c];
    MoveGridCell(g, m, r, c);
    if m <= 1 {
      assert MovedLine(g, m, c)[r] != Line(g, m, c)[r];
    } else {
      assert MovedLine(g, m, r)[c] != Line(g, m, r)[c];
    }
  }

  lemma ChangedLineChangedGrid(g: Grid, m: int, i: int)
    requires IsGrid(g) && 0 <= m < 4 && 0 <= i < 4 && MovedLine(g, m, i) != Line(g, m, i)
    ensures MoveGrid(g, m) != g
  {
    var j :| 0 <= j < 4 && MovedLine(g, m, i)[j] != Line(g, m, i)[j];
    if m <= 1 {
      MoveGridCell(g, m, j, i);
      assert MoveGrid(g, m)[j][i] != g[j][i];
    } else {
      MoveGridCell(g, m, i, j);
      assert MoveGrid(g, m)[i][j] != g[i][j];
    }
  }

  /** Moves keep every cell a tile. */
  lemma MoveGridTiles(g: Grid, m: int)
    requires IsGrid(g) && AllTiles(g)
    ensures AllTiles(MoveGrid(g, m))
  {
    if 0 <= m < 4 {
      forall r, c | 0 <= r < 4 && 0 <= c < 4 ensures IsTile(MoveGrid(g, m)[r][c]) {
        MoveGridCell(g, m, r, c);
        var i := if m <= 1 then c else r;
        if m == 0 {
          MergeLineTiles(Col(g, i));
        } else if m == 1 {
          MergeLineTiles(Reverse(Col(g, i)));
        } else if m == 2 {
          MergeLineTiles(g[i]);
        } else {
          MergeLineTiles(Reverse(g[i]));
        }
      }
    }
  }

  /** Two 4x4 grids differ exactly when some cell differs. */
  lemma GridsDiffer(g: Grid, h: Grid)
    requires IsGrid(g) && IsGrid(h)
    ensures g != h <==> exists r, c :: 0 <= r < 4 && 0 <= c < 4 && g[r][c] != h[r][c]
  {
    if g != h {
      var r :| 0 <= r < 4 && g[r] != h[r];
      var c :| 0 <= c < 4 && g[r][c] != h[r][c];
    }
  }

  // ---------------------------------------------------------------------------
  // Queries. Cell k of the row-major scan is at row k / 4, column k % 4.

  /** A cell position, `{ row, col }` in 2048ai.js. */
  datatype Pos = Pos(row: int, col: int)

  function Index(p: Pos): int {
    4 * p.row + p.col
  }

  predicate OnBoard(p: Pos) {
    0 <= p.row < 4 && 0 <= p.col < 4
  }

  /** The position of cell `k` of the row-major scan. */
  function PosOf(k: int): (p: Pos)
    requires 0 <= k < 16
    ensures OnBoard(p) && Index(p) == k
  {
    if k < 4 then Pos(0, k) else var q := PosOf(k - 4); Pos(q.row + 1, q.col)
  }

  lemma PosOfIndex(p: Pos)
    requires OnBoard(p)
    ensures PosOf(Index(p)) == p
  {
  }

  /** The sixteen positions in row-major order. */
  function AllPositions(): (ps: seq<Pos>)
    ensures |ps| == 16 && forall k :: 0 <= k < 16 ==> ps[k] == PosOf(k)
  {
    seq(16, k requires 0 <= k < 16 => PosOf(k))
  }

  /** The sixteen cells in row-major order. */
  function Flatten(g: Grid): (cells: seq<int>)
    requires IsGrid(g)
    ensures |cells| == 16
    ensures forall p :: OnBoard(p) ==> cells[Index(p)] == g[p.row][p.col]
  {
    g[0] + g[1] + g[2] + g[3]
  }

  function CountZeros(s: seq<int>): (n: nat)
    ensures n <= |s|
  {
    if s == [] then 0 else (if s[0] == 0 then 1 else 0) + CountZeros(s[1..])
  }

  lemma CountZerosStep(s: seq<int>, k: int)
    requires 0 <= k < |s|
    ensures CountZeros(s[k..]) == (if s[k] == 0 then 1 else 0) + CountZeros(s[k + 1..])
  {
    assert s[k..][1..] == s[k + 1..];
  }

  function CountNonZeros(s: seq<int>): (n: nat) {
    if s == [] then 0 else (if s[0] != 0 then 1 else 0) + CountNonZeros(s[1..])
  }

  /** Number of empty cells. */
  function EmptyCount(g: Grid): nat
    requires IsGrid(g)
  {
    CountZeros(Flatten(g))
  }

  /** Number of occupied cells. */
  function OccupiedCount(g: Grid): nat
    requires IsGrid(g)
  {
    CountNonZeros(Flatten(g))
  }

  lemma {:induction false} ZerosAndNonZeros(s: seq<int>)
    ensures CountZeros(s) + CountNonZeros(s) == |s|
  {
    if s != [] { ZerosAndNonZeros(s[1..]); }
  }

  /** Empty and occupied cells together are the sixteen cells of the board. */
  lemma EmptyPlusOccupied(g: Grid)
    requires IsGrid(g)
    ensures EmptyCount(g) + OccupiedCount(g) == 16
  {
    ZerosAndNonZeros(Flatten(g));
  }

  lemma {:induction false} CountZerosPositive(s: seq<int>)
    ensures CountZeros(s) > 0 <==> exists i :: 0 <= i < |s| && s[i] == 0
  {
    if s != [] {
      CountZerosPositive(s[1..]);
      if CountZeros(s[1..]) > 0 {
        var i :| 0 <= i < |s[1..]| && s[1..][i] == 0;
        assert s[i + 1] == 0;
      } else if s[0] != 0 {
        forall i | 0 <= i < |s| ensures s[i] != 0 {
          if i > 0 { assert s[i] == s[1..][i - 1]; }
        }
      }
    }
  }

  /** `countEmpty() > 0` exactly when some cell is zero. */
  lemma EmptyCountPositive(g: Grid)
    requires IsGrid(g)
    ensures EmptyCount(g) > 0 <==> exists r, c :: 0 <= r < 4 && 0 <= c < 4 && g[r][c] == 0
  {
    CountZerosPositive(Flatten(g));
    if EmptyCount(g) > 0 {
      var k :| 0 <= k < 16 && Flatten(g)[k] == 0;
      var p := PosOf(k);
      assert g[p.row][p.col] == 0;
    }
    if exists r, c :: 0 <= r < 4 && 0 <= c < 4 && g[r][c] == 0 {
      var r, c :| 0 <= r < 4 && 0 <= c < 4 && g[r][c] == 0;
      PosOfIndex(Pos(r, c));
      assert Flatten(g)[Index(Pos(r, c))] == 0;
    }
  }

  predicate AllOnBoard(ps: seq<Pos>) {
    forall i :: 0 <= i < |ps| ==> OnBoard(ps[i])
  }

  /** The positions of `ps` whose cell is zero, in the order of `ps`. */
  function ZeroCells(g: Grid, ps: seq<Pos>): (e: seq<Pos>)
    requires IsGrid(g) && AllOnBoard(ps)
  {
    if ps == [] then []
    else (if g[ps[0].row][ps[0].col] == 0 then [ps[0]] else []) + ZeroCells(g, ps[1..])
  }

  /** The zero cells from cell `k` of the row-major scan on. */
  function EmptyFrom(g: Grid, k: int): seq<Pos>
    requires IsGrid(g) && 0 <= k <= 16
  {
    ZeroCells(g, AllPositions()[k..])
  }

  /** All zero cells in row-major order, the list `getEmptyPositions` returns. */
  function EmptyPositions(g: Grid): seq<Pos>
    requires IsGrid(g)
  {
    ZeroCells(g, AllPositions())
  }

  lemma EmptyFromStart(g: Grid)
    requires IsGrid(g)
    ensures EmptyFrom(g, 0) == EmptyPositions(g)
  {
    assert AllPositions()[0..] == AllPositions();
  }

  /** One cell of the scan: the zero cells from (row, col) on. */
  lemma EmptyFromStep(g: Grid, row: int, col: int)
    requires IsGrid(g) && 0 <= row < 4 && 0 <= col < 4
    ensures EmptyFrom(g, 4 * row + col)
      == (if g[row][col] == 0 then [Pos(row, col)] else []) + EmptyFrom(g, 4 * row + col + 1)
  {
    ZeroCellsStep(g, 4 * row + col);
    PosOfIndex(Pos(row, col));
  }

  /** A row-major scan that has collected the zero cells before (row, col) takes one more step. */
  lemma EmptyScanStep(g: Grid, row: int, col: int, found: seq<Pos>)
    requires IsGrid(g) && 0 <= row < 4 && 0 <= col < 4
    requires found + EmptyFrom(g, 4 * row + col) == EmptyPositions(g)
    ensures (if g[row][col] == 0 then found + [Pos(row, col)] else found) + EmptyFrom(g, 4 * row + col + 1)
      == EmptyPositions(g)
  {
    EmptyFromStep(g, row, col);
    if g[row][col] == 0 {
      assert found + EmptyFrom(g, 4 * row + col) == (found + [Pos(row, col)]) + EmptyFrom(g, 4 * row + col + 1);
    }
  }

  lemma ZeroCellsStep(g: Grid, k: int)
    requires IsGrid(g) && 0 <= k < 16
    ensures ZeroCells(g, AllPositions()[k..])
      == (if g[PosOf(k).row][PosOf(k).col] == 0 then [PosOf(k)] else []) + ZeroCells(g, AllPositions()[k + 1..])
  {
    assert AllPositions()[k..][1..] == AllPositions()[k + 1..];
  }

  /** The scan from cell `k` on finds as many positions as there are zeros left. */
  lemma {:induction false} ZeroCellsCount(g: Grid, k: int)
    requires IsGrid(g) && 0 <= k <= 16
    ensures |ZeroCells(g, AllPositions()[k..])| == CountZeros(Flatten(g)[k..])
    decreases 16 - k
  {
    if k < 16 {
      ZeroCellsStep(g, k);
      ZeroCellsCount(g, k + 1);
      CountZerosStep(Flatten(g), k);
      assert Flatten(g)[Index(PosOf(k))] == g[PosOf(k).row][PosOf(k).col];
    }
  }

  /** The scan from cell `k` on finds only zero cells at `k` or later, in increasing order. */
  lemma {:induction false} ZeroCellsSound(g: Grid, k: int)
    requires IsGrid(g) && 0 <= k <= 16
    ensures var e := ZeroCells(g, AllPositions()[k..]);
      (forall i :: 0 <= i < |e| ==> OnBoard(e[i]) && k <= Index(e[i]) && g[e[i].row][e[i].col] == 0)
      && (forall i, j :: 0 <= i < j < |e| ==> Index(e[i]) < Index(e[j]))
    decreases 16 - k
  {
    if k < 16 {
      ZeroCellsStep(g, k);
      ZeroCellsSound(g, k + 1);
    }
  }

  /** The scan from cell `k` on finds every zero cell at `k` or later. */
  lemma {:induction false} ZeroCellsComplete(g: Grid, k: int, p: Pos)
    requires IsGrid(g) && 0 <= k <= 16
    requires OnBoard(p) && k <= Index(p) && g[p.row][p.col] == 0
    ensures p in ZeroCells(g, AllPositions()[k..])
    decreases 16 - k
  {
    ZeroCellsStep(g, k);
    if Index(p) == k {
      PosOfIndex(p);
    } else {
      ZeroCellsComplete(g, k + 1, p);
    }
  }

  /**
   * `getEmptyPositions` lists exactly the zero cells, in strictly increasing
   * row-major order (so each once), and there are `countEmpty` of them.
   */
  lemma EmptyPositionsSpec(g: Grid)
    requires IsGrid(g)
    ensures |EmptyPositions(g)| == EmptyCount(g)
    ensures forall p :: p in EmptyPositions(g) <==> OnBoard(p) && g[p.row][p.col] == 0
    ensures forall i, j :: 0 <= i < j < |EmptyPositions(g)| ==>
      Index(EmptyPositions(g)[i]) < Index(EmptyPositions(g)[j])
  {
    ZeroCellsCount(g, 0);
    ZeroCellsSound(g, 0);
    assert AllPositions()[0..] == AllPositions();
    assert Flatten(g)[0..] == Flatten(g);
    forall p | OnBoard(p) && g[p.row][p.col] == 0 ensures p in EmptyPositions(g) {
      ZeroCellsComplete(g, 0, p);
    }
  }

  /** The distinct non-zero values on the grid (`countDistinctTiles` counts them). */
  function DistinctTiles(g: Grid): set<int>
    requires IsGrid(g)
  {
    set r, c | 0 <= r < 4 && 0 <= c < 4 && g[r][c] != 0 :: g[r][c]
  }

  /** Some cell equals its right or lower neighbour. */
  predicate HasEqualNeighbours(g: Grid)
    requires IsGrid(g)
  {
    exists r, c :: 0 <= r < 4 && 0 <= c < 4 && EqualNeighbourAt(g, r, c)
  }

  /** The cell at (r, c) equals the cell to its right or the cell below it. */
  predicate EqualNeighbourAt(g: Grid, r: int, c: int)
    requires IsGrid(g) && 0 <= r < 4 && 0 <= c < 4
  {
    (c < 3 && g[r][c + 1] == g[r][c]) || (r < 3 && g[r + 1][c] == g[r][c])
  }

  /** No empty cell and no two equal neighbours: the game cannot continue. */
  predicate GameOver(g: Grid)
    requires IsGrid(g)
  {
    EmptyCount(g) == 0 && !HasEqualNeighbours(g)
  }

  /** A line with no empty cell and no two equal neighbours. */
  predicate Stuck(line: seq<int>) {
    |line| == 4 && (forall i :: 0 <= i < 4 ==> line[i] != 0) && (forall i :: 0 <= i < 3 ==> line[i] != line[i + 1])
  }

  lemma {:induction false} NonZeroKeeps(s: seq<int>)
    requires forall i :: 0 <= i < |s| ==> s[i] != 0
    ensures NonZero(s) == s
  {
    if s != [] {
      NonZeroKeeps(s[1..]);
    }
  }

  lemma {:induction false} MergeNoPairs(s: seq<int>)
    requires forall i :: 0 <= i < |s| - 1 ==> s[i] != s[i + 1]
    ensures Merge(s) == s
  {
    if |s| > 1 {
      MergeNoPairs(s[1..]);
    }
  }

  /** Neither end of a stuck line moves: sliding and merging towards either end leaves it as it is. */
  lemma StuckLine(line: seq<int>)
    requires Stuck(line)
    ensures MergeLine(line) == line && Reverse(MergeLine(Reverse(line))) == line
  {
    var rev := Reverse(line);
    NonZeroKeeps(line);
    MergeNoPairs(line);
    NonZeroKeeps(rev);
    MergeNoPairs(rev);
    assert line + Zeros(0) == line && rev + Zeros(0) == rev;
    assert Reverse(rev) == line;
  }

  /** On a grid where the game is over, no move changes the grid. */
  lemma GameOverNoMove(g: Grid, m: int)
    requires IsGrid(g) && GameOver(g)
    ensures MoveGrid(g, m) == g
  {
    if 0 <= m < 4 {
      EmptyCountPositive(g);
      forall i | 0 <= i < 4
        ensures MovedLine(g, m, i) == Line(g, m, i)
      {
        var line := Line(g, m, i);
        forall k | 0 <= k < 3
          ensures line[k] != line[k + 1]
        {
          if m <= 1 {
            assert !EqualNeighbourAt(g, k, i);
          } else {
            assert !EqualNeighbourAt(g, i, k);
          }
        }
        StuckLine(line);
      }
      MoveGridChanged(g, m);
    }
  }

  // ---------------------------------------------------------------------------
  // The string key `hash()` builds: the cells in row-major order, as decimal
  // numbers joined by commas.

  function DigitChar(d: int): char
    requires 0 <= d < 10
  {
    "0123456789"[d]
  }

  /** `String(n)` for a non-negative integer. */
  function Decimal(n: nat): (s: string)
    ensures |s| > 0 && ',' !in s
    decreases n
  {
    if n < 10 then [DigitChar(n)] else Decimal(n / 10) + [DigitChar(n % 10)]
  }

  /** `values.join(',')`. */
  function Join(values: seq<nat>): string {
    if values == [] then ""
    else if |values| == 1 then Decimal(values[0])
    else Decimal(values[0]) + "," + Join(values[1..])
  }

  function Naturals(s: seq<int>): (r: seq<nat>)
    requires forall i :: 0 <= i < |s| ==> s[i] >= 0
    ensures r == s
  {
    if s == [] then [] else [s[0] as nat] + Naturals(s[1..])
  }

  predicate NonNegative(g: Grid)
    requires IsGrid(g)
  {
    forall r, c :: 0 <= r < 4 && 0 <= c < 4 ==> g[r][c] >= 0
  }

  function Hash(g: Grid): string
    requires IsGrid(g) && NonNegative(g)
  {
    Join(Naturals(Flatten(g)))
  }

  lemma {:induction false} DigitCharInjective(a: int, b: int)
    requires 0 <= a < 10 && 0 <= b < 10 && DigitChar(a) == DigitChar(b)
    ensures a == b
  {
  }

  lemma {:induction false} DecimalInjective(a: nat, b: nat)
    requires Decimal(a) == Decimal(b)
    ensures a == b
    decreases a + b
  {
    var s := Decimal(a);
    if a < 10 && b < 10 {
      DigitCharInjective(a, b);
    } else if a >= 10 && b >= 10 {
      assert Decimal(a / 10) == s[..|s| - 1] == Decimal(b / 10);
      DecimalInjective(a / 10, b / 10);
      DigitCharInjective(a % 10, b % 10);
    }
  }

  /** Index of the first comma of `u`, or |u| if there is none. */
  function FirstComma(u: string): (i: nat)
    ensures i <= |u|
  {
    if u == [] || u[0] == ',' then 0 else 1 + FirstComma(u[1..])
  }

  lemma {:induction false} FirstCommaAfter(x: string, s: string)
    requires ',' !in x
    ensures FirstComma(x + "," + s) == |x|
  {
    if x != [] {
      assert (x + "," + s)[0] == x[0];
      assert (x + "," + s)[1..] == x[1..] + "," + s;
      FirstCommaAfter(x[1..], s);
    }
  }

  /** Text up to a first comma pins down the prefix before it. */
  lemma {:induction false} SplitAtComma(x: string, y: string, s: string, t: string)
    requires ',' !in x && ',' !in y && x + "," + s == y + "," + t
    ensures x == y && s == t
  {
    var u := x + "," + s;
    FirstCommaAfter(x, s);
    FirstCommaAfter(y, t);
    assert x == u[..|x|] == y;
    assert s == u[|x| + 1..] == t;
  }

  lemma {:induction false} JoinInjective(a: seq<nat>, b: seq<nat>)
    requires |a| == |b| && Join(a) == Join(b)
    ensures a == b
    decreases |a|
  {
    if |a| == 1 {
      DecimalInjective(a[0], b[0]);
    } else if |a| > 1 {
      SplitAtComma(Decimal(a[0]), Decimal(b[0]), Join(a[1..]), Join(b[1..]));
      DecimalInjective(a[0], b[0]);
      JoinInjective(a[1..], b[1..]);
      assert a == [a[0]] + a[1..] && b == [b[0]] + b[1..];
    }
  }

  /** Equal grids have equal keys, and different grids different keys. */
  lemma HashInjective(g: Grid, h: Grid)
    requires IsGrid(g) && NonNegative(g) && IsGrid(h) && NonNegative(h)
    ensures Hash(g) == Hash(h) <==> g == h
  {
    if Hash(g) == Hash(h) {
      JoinInjective(Naturals(Flatten(g)), Naturals(Flatten(h)));
      assert Flatten(g) == Flatten(h);
      forall r, c | 0 <= r < 4 && 0 <= c < 4 ensures g[r][c] == h[r][c] {
        var k := Index(Pos(r, c));
        assert g[r][c] == Flatten(g)[k] == Flatten(h)[k] == h[r][c];
      }
      GridsDiffer(g, h);
    }
  }
}
