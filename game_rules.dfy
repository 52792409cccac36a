/**
 * The self-contained rules of `GameManager` in js/game_manager.js: the
 * power-of-two check used when a tile is edited, direction vectors and
 * traversal order, the mapping from the engine's move codes to the game's,
 * the click cycle for editing a cell, undo, and the replay controls.
 */
module GameRules {
  import opened Wrappers
  import opened SaveStore
  import GridSpec

  // ---------------------------------------------------------------------------
  // `isPowerOfTwo`: `value > 0 && (value & (value - 1)) === 0`.

  /**
   * The low `n` bits of the bitwise AND of `a` and `b`, read as a number.
   * JavaScript's `&` converts both operands to 32-bit two's complement
   * (`ToInt32`), so `a & b` is 0 exactly when `LowAnd(a, b, 32)` is 0. Dafny's
   * `/` and `%` by 2 are floor division and the low bit, also for negative operands.
   */
  function LowAnd(a: int, b: int, n: nat): (r: nat)
    ensures r < GridSpec.Pow2(n)
    decreases n
  {
    if n == 0 then 0 else 2 * LowAnd(a / 2, b / 2, n - 1) + (a % 2) * (b % 2)
  }

  /**
   * `isPowerOfTwo` as written, with `value - 1` computed exactly: the 32-bit
   * `&` is modelled, the double-precision rounding of `value - 1` above 2^53
   * is not.
   */
  predicate IsPowerOfTwo(value: int) {
    value > 0 && LowAnd(value, value - 1, 32) == 0
  }

  lemma {:induction false} LowAndZero(a: int, n: nat)
    ensures LowAnd(a, 0, n) == 0
    decreases n
  {
    if n > 0 {
      LowAndZero(a / 2, n - 1);
    }
  }

  lemma {:induction false} LowAndSelf(a: int, n: nat)
    requires 0 <= a < GridSpec.Pow2(n)
    ensures LowAnd(a, a, n) == a
  {
    if n > 0 {
      LowAndSelf(a / 2, n - 1);
    }
  }

  /** Below 2^n, the bit test accepts exactly the powers of two. */
  lemma {:induction false} LowAndPow2(v: int, n: nat)
    requires 0 < v < GridSpec.Pow2(n)
    ensures LowAnd(v, v - 1, n) == 0 <==> GridSpec.IsPow2(v)
  {
    if v == 1 {
      LowAndZero(1, n);
    } else if v % 2 == 0 {
      assert (v - 1) / 2 == v / 2 - 1;
      LowAndPow2(v / 2, n - 1);
    } else {
      assert (v - 1) / 2 == v / 2;
      LowAndSelf(v / 2, n - 1);
    }
  }

  lemma {:induction false} Pow2Sum(a: nat, b: nat)
    ensures GridSpec.Pow2(a + b) == GridSpec.Pow2(a) * GridSpec.Pow2(b)
    decreases a
  {
    if a > 0 {
      Pow2Sum(a - 1, b);
    }
  }

  lemma Pow2Of32()
    ensures GridSpec.Pow2(32) == 0x1_0000_0000
  {
    assert GridSpec.Pow2(8) == 0x100;
    Pow2Sum(8, 8);
    Pow2Sum(16, 16);
  }

  /** `isPowerOfTwo` is the power-of-two test for every value below 2^32. */
  lemma IsPowerOfTwoBelow32(value: int)
    requires value < 0x1_0000_0000
    ensures IsPowerOfTwo(value) <==> value > 0 && GridSpec.IsPow2(value)
  {
    if value > 0 {
      Pow2Of32();
      LowAndPow2(value, 32);
    }
  }

  /** A multiple of 2^n has no bits among the low `n`, so its AND with anything is 0 there. */
  lemma {:induction false} LowAndMultiple(k: int, b: int, n: nat)
    ensures LowAnd(k * GridSpec.Pow2(n), b, n) == 0
    decreases n
  {
    if n > 0 {
      var x := k * GridSpec.Pow2(n - 1);
      assert k * GridSpec.Pow2(n) == 2 * x;
      LowAndMultiple(k, b / 2, n - 1);
    }
  }

  lemma {:induction false} ThreeTimesPow2(k: nat)
    ensures !GridSpec.IsPow2(3 * GridSpec.Pow2(k))
    decreases k
  {
    if k > 0 {
      ThreeTimesPow2(k - 1);
      assert 3 * GridSpec.Pow2(k) == 2 * (3 * GridSpec.Pow2(k - 1));
    }
  }

  /**
   * The 32-bit conversion makes the check accept 3 * 2^32, which is not a
   * power of two: its low 32 bits are all zero.
   */
  lemma IsPowerOfTwoAcceptsThreeTimes2To32()
    ensures IsPowerOfTwo(3 * 0x1_0000_0000) && !GridSpec.IsPow2(3 * 0x1_0000_0000)
  {
    Pow2Of32();
    LowAndMultiple(3, 3 * 0x1_0000_0000 - 1, 32);
    ThreeTimesPow2(32);
  }

  /** The check restricted to the 32-bit range it was written for. */
  predicate IsPowerOfTwoChecked(value: int) {
    0 < value < 0x1_0000_0000 && LowAnd(value, value - 1, 32) == 0
  }

  /** The corrected check accepts exactly the powers of two below 2^32, and nothing else. */
  lemma IsPowerOfTwoCheckedExact(value: int)
    ensures IsPowerOfTwoChecked(value) <==> 0 < value < 0x1_0000_0000 && GridSpec.IsPow2(value)
  {
    if 0 < value < 0x1_0000_0000 {
      IsPowerOfTwoBelow32(value);
    }
  }

  // ---------------------------------------------------------------------------
  // Directions.

  /** A step on the game grid: `x` is the column, `y` the row, growing downwards. */
  datatype Vector = Vector(x: int, y: int)

  /** `getVector`: 0 up, 1 right, 2 down, 3 left; any other code is not in the map. */
  function GetVector(direction: int): (v: Option<Vector>)
    ensures v.Some? <==> 0 <= direction < 4
    ensures v.Some? ==> (v.value.x == 0) != (v.value.y == 0) &&
                        -1 <= v.value.x <= 1 && -1 <= v.value.y <= 1
  {
    if direction == 0 then Some(Vector(0, -1))
    else if direction == 1 then Some(Vector(1, 0))
    else if direction == 2 then Some(Vector(0, 1))
    else if direction == 3 then Some(Vector(-1, 0))
    else None
  }

  /** The four vectors are different, and directions two apart are opposite. */
  lemma VectorsOpposite(d: int)
    requires 0 <= d < 4
    ensures var u := GetVector(d).value; var w := GetVector((d + 2) % 4).value;
      w == Vector(-u.x, -u.y)
    ensures forall e :: 0 <= e < 4 && e != d ==> GetVector(e) != GetVector(d)
  {
  }

  /** The remapping in `aiStep` from the engine's codes (0 up, 1 down, 2 left, 3 right) to the game's. */
  const MOVE_MAP: seq<int> := [0, 2, 3, 1]

  /** The row step and column step of engine move `m` on `Board.grid[row][col]`, as a game vector. */
  function EngineVector(m: int): Vector
    requires 0 <= m < 4
  {
    if m == 0 then Vector(0, -1) else if m == 1 then Vector(0, 1)
    else if m == 2 then Vector(-1, 0) else Vector(1, 0)
  }

  /**
   * The remapping is a bijection on 0..3, and each engine move lands on the
   * game move with the same direction (`getAIBoard` puts game column x at
   * engine column x and game row y at engine row y).
   */
  lemma MoveMapMatches()
    ensures forall m :: 0 <= m < 4 ==> 0 <= MOVE_MAP[m] < 4
    ensures forall m, n :: 0 <= m < n < 4 ==> MOVE_MAP[m] != MOVE_MAP[n]
    ensures forall d :: 0 <= d < 4 ==> d in MOVE_MAP
    ensures forall m :: 0 <= m < 4 ==> GetVector(MOVE_MAP[m]) == Some(EngineVector(m))
  {
  }

  /** A grid holding one tile `v` at (r, c) and nothing else. */
  function Lone(v: int, r: int, c: int): (g: GridSpec.Grid)
    ensures GridSpec.IsGrid(g)
  {
    seq(4, i => seq(4, j => if i == r && j == c then v else 0))
  }

  /** Where a coordinate ends up when pushed by step `d` all the way to the edge. */
  function Edge(p: int, d: int): int {
    if d < 0 then 0 else if d > 0 then 3 else p
  }

  /** The non-zero cells from `k` on of a line whose only tile is `v` at `p` (`p` = -1: no tile). */
  lemma {:induction false} NonZeroLone(line: seq<int>, v: int, p: int, k: int)
    requires |line| == 4 && -1 <= p < 4 && v != 0 && 0 <= k <= 4
    requires forall i :: 0 <= i < 4 ==> line[i] == (if i == p then v else 0)
    ensures GridSpec.NonZero(line[k..]) == if k <= p then [v] else []
    decreases 4 - k
  {
    if k < 4 {
      NonZeroLone(line, v, p, k + 1);
      assert line[k..][1..] == line[k + 1..];
    }
  }

  /** A line whose only tile is `v` at `p` merges to `v` at the front; a line with no tile stays empty. */
  lemma LoneLine(line: seq<int>, v: int, p: int)
    requires |line| == 4 && -1 <= p < 4 && v != 0
    requires forall i :: 0 <= i < 4 ==> line[i] == (if i == p then v else 0)
    ensures GridSpec.MergeLine(line) == if p >= 0 then [v, 0, 0, 0] else [0, 0, 0, 0]
  {
    NonZeroLone(line, v, p, 0);
    assert line[0..] == line;
    assert GridSpec.Zeros(3) == [0, 0, 0];
    assert GridSpec.Zeros(4) == [0, 0, 0, 0];
  }

  /**
   * `EngineVector` is the direction the engine's moves push tiles: a lone tile
   * slides to the edge it points at and keeps its other coordinate.
   */
  lemma LoneTileFollowsVector(v: int, r: int, c: int, m: int)
    requires v != 0 && 0 <= r < 4 && 0 <= c < 4 && 0 <= m < 4
    ensures var d := EngineVector(m);
      GridSpec.MoveGrid(Lone(v, r, c), m) == Lone(v, Edge(r, d.y), Edge(c, d.x))
  {
    var g := Lone(v, r, c);
    var d := EngineVector(m);
    var h := Lone(v, Edge(r, d.y), Edge(c, d.x));
    forall i | 0 <= i < 4
      ensures GridSpec.MovedLine(g, m, i) == GridSpec.Line(h, m, i)
    {
      var line := GridSpec.Line(g, m, i);
      var lined := if m == 0 || m == 2 then line else GridSpec.Reverse(line);
      var at := if m <= 1 then r else c;
      var at' := if m == 0 || m == 2 then at else 3 - at;
      if (m <= 1 && i == c) || (m >= 2 && i == r) {
        LoneLine(lined, v, at');
      } else {
        LoneLine(lined, v, -1);
      }
    }
    forall i, j | 0 <= i < 4 && 0 <= j < 4
      ensures h[i][j] == GridSpec.MovedCell(g, m, i, j)
    {
      if m <= 1 {
        assert GridSpec.MovedLine(g, m, j) == GridSpec.Line(h, m, j);
      } else {
        assert GridSpec.MovedLine(g, m, i) == GridSpec.Line(h, m, i);
      }
    }
    GridSpec.MoveGridFromCells(g, m, h);
  }

  // ---------------------------------------------------------------------------
  // `buildTraversals`.

  /** The traversal of one axis: ascending, or descending when the step on that axis is +1. */
  function Traversal(size: nat, step: int): (t: seq<int>)
    ensures |t| == size
  {
    seq(size, i => if step == 1 then size - 1 - i else i)
  }

  /**
   * A traversal lists every position 0..size-1 exactly once, in descending
   * order when the step is +1 and in ascending order otherwise.
   */
  lemma TraversalOrder(size: nat, step: int)
    ensures var t := Traversal(size, step);
      (forall p :: 0 <= p < size <==> p in t) &&
      (forall i, j :: 0 <= i < j < size ==> t[i] != t[j]) &&
      (step == 1 ==> forall i, j :: 0 <= i < j < size ==> t[i] > t[j]) &&
      (step != 1 ==> forall i, j :: 0 <= i < j < size ==> t[i] < t[j])
  {
    var t := Traversal(size, step);
    forall p | 0 <= p < size ensures p in t {
      if step == 1 {
        assert t[size - 1 - p] == p;
      } else {
        assert t[p] == p;
      }
    }
  }

  /** `array.reverse()`. */
  function Reversed(s: seq<int>): (r: seq<int>)
    ensures |r| == |s| && forall i :: 0 <= i < |s| ==> r[i] == s[|s| - 1 - i]
  {
    if s == [] then [] else Reversed(s[1..]) + [s[0]]
  }

  /** `buildTraversals` for a grid of `size`: both axes pushed in a loop, then reversed where the step is +1. */
  method BuildTraversals(vector: Vector, size: int) returns (xs: seq<int>, ys: seq<int>)
    ensures xs == Traversal(if size < 0 then 0 else size, vector.x)
    ensures ys == Traversal(if size < 0 then 0 else size, vector.y)
  {
    xs, ys := [], [];
    var pos := 0;
    while pos < size
      invariant 0 <= pos && (size >= 0 ==> pos <= size) && (size < 0 ==> pos == 0)
      invariant xs == ys && |xs| == pos && forall i :: 0 <= i < pos ==> xs[i] == i
      decreases size - pos
    {
      xs := xs + [pos];
      ys := ys + [pos];
      pos := pos + 1;
    }
    ghost var n := if size < 0 then 0 else size;
    assert |xs| == n;
    if vector.x == 1 {
      xs := Reversed(xs);
    }
    if vector.y == 1 {
      ys := Reversed(ys);
    }
    assert forall i :: 0 <= i < n ==> xs[i] == Traversal(n, vector.x)[i];
    assert forall i :: 0 <= i < n ==> ys[i] == Traversal(n, vector.y)[i];
  }

  // ---------------------------------------------------------------------------
  // Editing a cell by clicking.

  /** The click cycle: empty -> 2 -> 4 -> empty; any other tile stays as it is. */
  function ClickCycle(cell: Option<Tile>): (r: Option<Tile>)
    ensures cell.Some? && cell.value.value != 2 && cell.value.value != 4 ==> r == cell
  {
    if cell.None? then Some(Tile(2))
    else if cell.value.value == 2 then Some(Tile(4))
    else if cell.value.value == 4 then None
    else cell
  }

  /**
   * An empty cell becomes a 2, a 2 a 4 and a 4 empty again; three clicks
   * bring a cell back to where it started, and no fewer do for empty, 2 or 4.
   */
  lemma ClickCycleOrder(cell: Option<Tile>)
    ensures ClickCycle(None) == Some(Tile(2)) && ClickCycle(Some(Tile(2))) == Some(Tile(4)) &&
            ClickCycle(Some(Tile(4))) == None
    ensures ClickCycle(ClickCycle(ClickCycle(cell))) == cell
    ensures (cell.None? || cell.value.value == 2 || cell.value.value == 4) ==>
            ClickCycle(cell) != cell && ClickCycle(ClickCycle(cell)) != cell
  {
  }

  /** The values `cycleReplaySpeed` steps through. */
  const SPEEDS: seq<real> := [0.5, 1.0, 2.0, 5.0, 10.0]

  /** `speeds.indexOf(speed)`: the first index holding `speed`, or -1. */
  function IndexOf(s: seq<real>, x: real): (i: int)
    ensures -1 <= i < |s|
    ensures i >= 0 ==> s[i] == x && forall j :: 0 <= j < i ==> s[j] != x
    ensures i == -1 ==> x !in s
  {
    if s == [] then -1
    else if s[0] == x then 0
    else
      var k := IndexOf(s[1..], x);
      if k == -1 then -1 else k + 1
  }

  /** The speed after `cycleReplaySpeed`. */
  function NextSpeed(speed: real): real {
    SPEEDS[(IndexOf(SPEEDS, speed) + 1) % |SPEEDS|]
  }

  /**
   * Each listed speed is followed by the next one in the list, the last by
   * the first, so five steps return to the start; an unlisted speed goes to 0.5.
   */
  lemma NextSpeedCycle(speed: real)
    ensures NextSpeed(speed) in SPEEDS
    ensures speed !in SPEEDS ==> NextSpeed(speed) == 0.5
    ensures forall i :: 0 <= i < 5 ==> NextSpeed(SPEEDS[i]) == SPEEDS[(i + 1) % 5]
  {
    forall i | 0 <= i < 5 ensures NextSpeed(SPEEDS[i]) == SPEEDS[(i + 1) % 5] {
      IndexOfDistinct(SPEEDS, i);
    }
  }

  /** In a list without repeats, `indexOf` finds each entry at its own index. */
  lemma {:induction false} IndexOfDistinct(s: seq<real>, i: int)
    requires 0 <= i < |s| && forall j, k :: 0 <= j < k < |s| ==> s[j] != s[k]
    ensures IndexOf(s, s[i]) == i
  {
    if i > 0 {
      assert s[1..][i - 1] == s[i];
      IndexOfDistinct(s[1..], i - 1);
    }
  }

  // ---------------------------------------------------------------------------
  // The manager's state.

  /** The columns of a grid: `cells[x][y]`, a tile or empty. */
  type Cells = seq<seq<Option<Tile>>>

  /** A state that `undo` and the replay reset can rebuild a grid from. */
  predicate Restorable(s: GameState) {
    s.grid.Some? && s.grid.value.cells.Some?
  }

  class GameManager {
    var size: int
    var cells: Cells
    var score: int
    var over: bool
    var won: bool
    var keepPlaying: bool
    /** Snapshots taken before each change, for `undo`; not bounded. */
    var history: seq<GameState>
    var initialState: GameState
    var moveHistory: seq<int>
    var replayMode: bool
    var replayIndex: int
    var replaySpeed: real

    /** `serialize`: the grid and the flags as one state. */
    function Serialize(): (s: GameState)
      reads this
      ensures Restorable(s)
    {
      GameState(Some(SavedGrid(size, Some(cells))), score, over, won, keepPlaying)
    }

    /** Every snapshot can be restored, and the replay index stays within the recorded moves. */
    predicate Valid()
      reads this
    {
      (forall i :: 0 <= i < |history| ==> Restorable(history[i])) &&
      Restorable(initialState) &&
      0 <= replayIndex <= |moveHistory|
    }

    /**
     * The manager after `setup`: the grid and flags of the stored game
     * `previous` when there is one, otherwise a fresh grid of the given
     * size holding `startCells` (the start tiles already placed) with a
     * zero score. Recording starts from the resulting state.
     */
    constructor (size: int, startCells: Cells, previous: Option<GameState>)
      requires previous.Some? ==> Restorable(previous.value)
      ensures Valid()
      ensures previous.Some? ==> Serialize() == previous.value
      ensures previous.None? ==>
                this.size == size && cells == startCells && score == 0 && !over && !won && !keepPlaying
      ensures history == [] && moveHistory == [] && !replayMode && replayIndex == 0 && replaySpeed == 2.0
      ensures initialState == Serialize()
    {
      if previous.Some? {
        var s := previous.value;
        this.size := s.grid.value.size;
        cells := s.grid.value.cells.value;
        score := s.score;
        over := s.over;
        won := s.won;
        keepPlaying := s.keepPlaying;
      } else {
        this.size := size;
        cells := startCells;
        score := 0;
        over := false;
        won := false;
        keepPlaying := false;
      }
      history := [];
      moveHistory := [];
      replayMode := false;
      replayIndex := 0;
      replaySpeed := 2.0;
      initialState := GameState(Some(SavedGrid(this.size, Some(cells))), score, over, won, keepPlaying);
    }

    /** Puts the grid and the flags of a snapshot back. */
    method Restore(s: GameState)
      requires Restorable(s)
      modifies this
      ensures Serialize() == s
      ensures history == old(history) && initialState == old(initialState)
      ensures moveHistory == old(moveHistory) && replayMode == old(replayMode)
      ensures replayIndex == old(replayIndex) && replaySpeed == old(replaySpeed)
    {
      size := s.grid.value.size;
      cells := s.grid.value.cells.value;
      score := s.score;
      over := s.over;
      won := s.won;
      keepPlaying := s.keepPlaying;
    }

    /** `saveToHistory`: pushes a copy of the current state. */
    method SaveToHistory()
      requires Valid()
      modifies this
      ensures Valid()
      ensures history == old(history) + [Serialize()]
      ensures Serialize() == old(Serialize()) && initialState == old(initialState)
      ensures moveHistory == old(moveHistory) && replayMode == old(replayMode)
      ensures replayIndex == old(replayIndex) && replaySpeed == old(replaySpeed)
    {
      history := history + [Serialize()];
    }

    /**
     * `undo`: nothing on an empty history; otherwise the last snapshot is
     * removed from the history and becomes the current state.
     */
    method Undo()
      requires Valid()
      modifies this
      ensures Valid()
      ensures old(history) == [] ==> history == [] && Serialize() == old(Serialize())
      ensures old(history) != [] ==>
                history == old(history)[..|old(history)| - 1] && Serialize() == old(history)[|old(history)| - 1]
      ensures initialState == old(initialState) && moveHistory == old(moveHistory)
      ensures replayMode == old(replayMode) && replayIndex == old(replayIndex) && replaySpeed == old(replaySpeed)
    {
      if |history| == 0 {
        return;
      }
      var previousState := history[|history| - 1];
      history := history[..|history| - 1];
      Restore(previousState);
    }

    /**
     * `handleCellClick`: ignored once the game is over or during a replay;
     * otherwise the current state is saved for undo and the clicked cell
     * steps through the click cycle.
     */
    method HandleCellClick(x: int, y: int)
      requires Valid() && 0 <= x < |cells| && 0 <= y < |cells[x]|
      modifies this
      ensures Valid()
      ensures old(over) || old(replayMode) ==> history == old(history) && Serialize() == old(Serialize())
      ensures !old(over) && !old(replayMode) ==>
                history == old(history) + [old(Serialize())] &&
                cells == old(cells)[x := old(cells)[x][y := ClickCycle(old(cells)[x][y])]] &&
                size == old(size) && score == old(score) && over == old(over) &&
                won == old(won) && keepPlaying == old(keepPlaying)
      ensures initialState == old(initialState) && moveHistory == old(moveHistory)
      ensures replayMode == old(replayMode) && replayIndex == old(replayIndex) && replaySpeed == old(replaySpeed)
    {
      if over || replayMode {
        return;
      }
      SaveToHistory();
      cells := cells[x := cells[x][y := ClickCycle(cells[x][y])]];
    }

    /** A click followed by `undo` leaves the game as it was. */
    method ClickThenUndo(x: int, y: int)
      requires Valid() && 0 <= x < |cells| && 0 <= y < |cells[x]|
      modifies this
      ensures Valid()
      ensures !old(over) && !old(replayMode) ==> Serialize() == old(Serialize()) && history == old(history)
    {
      var editable := !over && !replayMode;
      HandleCellClick(x, y);
      if editable {
        Undo();
      }
    }

    /** `cycleReplaySpeed`: the next speed of the list (the timer restart is not modelled). */
    method CycleReplaySpeed()
      modifies this
      ensures replaySpeed == NextSpeed(old(replaySpeed))
      ensures Serialize() == old(Serialize()) && history == old(history) && initialState == old(initialState)
      ensures moveHistory == old(moveHistory) && replayMode == old(replayMode) && replayIndex == old(replayIndex)
    {
      var currentIndex := IndexOf(SPEEDS, replaySpeed);
      currentIndex := (currentIndex + 1) % |SPEEDS|;
      replaySpeed := SPEEDS[currentIndex];
    }

    /**
     * `replayNextMove`: at the end of the recording nothing happens; otherwise
     * the index moves on by one and the move it passed is returned, for
     * `replayMove` to play.
     */
    method ReplayNextMove() returns (played: Option<int>)
      requires Valid()
      modifies this
      ensures Valid()
      ensures old(replayIndex) >= |moveHistory| ==> played == None && replayIndex == old(replayIndex)
      ensures old(replayIndex) < |moveHistory| ==>
                played == Some(moveHistory[old(replayIndex)]) && replayIndex == old(replayIndex) + 1
      ensures Serialize() == old(Serialize()) && history == old(history) && initialState == old(initialState)
      ensures moveHistory == old(moveHistory) && replayMode == old(replayMode) && replaySpeed == old(replaySpeed)
    {
      if replayIndex >= |moveHistory| {
        return None;
      }
      var direction := moveHistory[replayIndex];
      replayIndex := replayIndex + 1;
      played := Some(direction);
    }

    /**
     * `replayPrevMove`: at the start nothing happens; otherwise the index goes
     * back by one, the grid and flags are reset to the initial state, and the
     * moves before the new index are returned, for `replayMove` to replay.
     */
    method ReplayPrevMove() returns (replayed: seq<int>)
      requires Valid()
      modifies this
      ensures Valid()
      ensures old(replayIndex) <= 0 ==>
                replayIndex == old(replayIndex) && Serialize() == old(Serialize()) && replayed == []
      ensures old(replayIndex) > 0 ==>
                replayIndex == old(replayIndex) - 1 && Serialize() == initialState &&
                replayed == moveHistory[..replayIndex]
      ensures history == old(history) && initialState == old(initialState)
      ensures moveHistory == old(moveHistory) && replayMode == old(replayMode) && replaySpeed == old(replaySpeed)
    {
      if replayIndex <= 0 {
        return [];
      }
      if replayIndex == 1 {
        replayIndex := 0;
        Restore(initialState);
        replayed := [];
      } else {
        replayIndex := replayIndex - 1;
        Restore(initialState);
        replayed := [];
        for i := 0 to replayIndex
          invariant replayed == moveHistory[..i]
        {
          replayed := replayed + [moveHistory[i]];
        }
      }
    }
  }
}
