/**
 * Scans over the 64-bit board of 2048.cpp: `get_max_rank`,
 * `count_distinct_tiles` and `insert_tile_rand`. Each walks the board one
 * nibble at a time, shifting right by 4; the loops are proved against
 * specifications on the sixteen ranks.
 */
module BitScan {
  import opened GridSpec
  import opened BitRow
  import opened BitBoard

  // ---------------------------------------------------------------------------
  // Walking the nibbles. After j shifts by 4 the board holds the cells from
  // j on, followed by j empty cells.

  /** Within the board, the low nibble is cell j and shifting moves on to cell j + 1. */
  lemma ScanAt(b: Board, s: seq<int>, j: int)
    requires |s| == 16 && 0 <= j < 16 && Cells(b) == s[j..] + Zeros(j)
    ensures (b & 0xf) as int == s[j] && (b & 0xf == 0 <==> s[j] == 0)
    ensures Cells(b >> 4) == s[j + 1..] + Zeros(j + 1)
  {
    CellsShift(b);
    ShiftSuffix(s, j);
    FirstCell(b);
  }

  /** One step of a scan that has not finished: the low nibble is cell j. */
  lemma ScanStep(b: Board, s: seq<int>, j: int)
    requires |s| == 16 && 0 <= j <= 16 && Cells(b) == s[j..] + Zeros(j) && b != 0
    ensures j < 16 && (b & 0xf) as int == s[j] && 0 <= s[j] < 16
    ensures Cells(b >> 4) == s[j + 1..] + Zeros(j + 1)
  {
    CellsEmpty(b);
    CellsShift(b);
    ShiftSuffix(s, j);
    FirstCell(b);
  }

  lemma FirstCell(b: Board)
    ensures Cells(b)[0] == (b & 0xf) as int && (b & 0xf == 0 <==> Cells(b)[0] == 0) && (b & 0xf) as int < 16
  {
  }

  lemma ShiftSuffix(s: seq<int>, j: int)
    requires 0 <= j < |s|
    ensures (s[j..] + Zeros(j))[1..] + [0] == s[j + 1..] + Zeros(j + 1)
    ensures (s[j..] + Zeros(j))[0] == s[j]
  {
    assert Zeros(j + 1) == Zeros(j) + [0];
  }

  /** A finished scan: every cell from j on is empty. */
  lemma ScanDone(b: Board, s: seq<int>, j: int)
    requires |s| == 16 && 0 <= j <= 16 && Cells(b) == s[j..] + Zeros(j) && b == 0
    ensures forall i :: j <= i < 16 ==> s[i] == 0
  {
    CellsEmpty(b);
    forall i | j <= i < 16 ensures s[i] == 0 {
      assert s[i] == (s[j..] + Zeros(j))[i - j];
    }
  }

  // ---------------------------------------------------------------------------
  // get_max_rank (2048.cpp:293-300)

  /** The largest rank in s, 0 when s is empty. */
  function MaxRank(s: seq<int>): int
  {
    if s == [] then 0
    else
      var m := MaxRank(s[..|s| - 1]);
      if s[|s| - 1] > m then s[|s| - 1] else m
  }

  /** For ranks, MaxRank is an upper bound of every cell and is 0 or one of the cells. */
  lemma {:induction false} MaxRankIsMax(s: seq<int>)
    requires forall i :: 0 <= i < |s| ==> s[i] >= 0
    ensures forall i :: 0 <= i < |s| ==> s[i] <= MaxRank(s)
    ensures MaxRank(s) == 0 || exists i :: 0 <= i < |s| && s[i] == MaxRank(s)
  {
    if s != [] {
      var init := s[..|s| - 1];
      MaxRankIsMax(init);
      forall i | 0 <= i < |s| ensures s[i] <= MaxRank(s) {
        if i < |s| - 1 { assert s[i] == init[i]; }
      }
      if MaxRank(s) != 0 && MaxRank(s) != s[|s| - 1] {
        var i :| 0 <= i < |init| && init[i] == MaxRank(init);
        assert s[i] == MaxRank(s);
      }
    }
  }

  /** Empty cells after the scanned prefix do not raise the maximum. */
  lemma {:induction false} MaxRankZeros(s: seq<int>, n: nat)
    requires n <= |s| && forall i :: n <= i < |s| ==> s[i] == 0
    requires forall i :: 0 <= i < |s| ==> s[i] >= 0
    ensures MaxRank(s) == MaxRank(s[..n])
    decreases |s|
  {
    if |s| > n {
      assert s[..|s| - 1][..n] == s[..n];
      MaxRankZeros(s[..|s| - 1], n);
      MaxRankIsMax(s[..|s| - 1]);
    } else {
      assert s[..n] == s;
    }
  }

  lemma MaxRankStep(s: seq<int>, j: int, m: int)
    requires 0 <= j < |s| && m == MaxRank(s[..j])
    ensures MaxRank(s[..j + 1]) == if s[j] > m then s[j] else m
  {
    assert s[..j + 1][..j] == s[..j];
  }

  /** Scans the nibbles from the lowest, keeping the largest rank seen. */
  method GetMaxRank(board: Board) returns (maxrank: int)
    ensures maxrank == MaxRank(Cells(board))
  {
    ghost var s := Cells(board);
    ghost var j := 0;
    maxrank := 0;
    var b := board;
    while b != 0
      invariant 0 <= j <= 16 && Cells(b) == s[j..] + Zeros(j)
      invariant maxrank == MaxRank(s[..j])
      decreases 16 - j
    {
      ScanStep(b, s, j);
      MaxRankStep(s, j, maxrank);
      maxrank := if (b & 0xf) as int > maxrank then (b & 0xf) as int else maxrank;
      b := b >> 4;
      j := j + 1;
    }
    ScanDone(b, s, j);
    CellsRanks(board);
    MaxRankZeros(s, j);
  }

  // ---------------------------------------------------------------------------
  // count_distinct_tiles (2048.cpp:302-320). The 16-bit set is held as
  // sixteen flags, flag r standing for bit r.

  /** Number of ranks from r up to 15 that occur in s. */
  function RanksFrom(s: seq<int>, r: int): (n: nat)
    ensures n <= 16 - r || r > 16
    decreases 16 - r
  {
    if r >= 16 then 0 else (if r in s then 1 else 0) + RanksFrom(s, r + 1)
  }

  /** The number of distinct tiles: ranks 1 .. 15 that occur on the board. */
  function DistinctTiles(s: seq<int>): (n: nat)
    ensures n <= 15
  {
    RanksFrom(s, 1)
  }

  /** The ranks at least r that occur in s. */
  function RankSet(s: seq<int>, r: int): set<int>
  {
    set x | x in s && r <= x <= 15
  }

  lemma {:induction false} RanksFromSet(s: seq<int>, r: int)
    requires r <= 16
    ensures RanksFrom(s, r) == |RankSet(s, r)|
    decreases 16 - r
  {
    if r >= 16 {
      assert RankSet(s, r) == {};
    } else {
      RanksFromSet(s, r + 1);
      if r in s {
        assert RankSet(s, r) == RankSet(s, r + 1) + {r};
      } else {
        assert RankSet(s, r) == RankSet(s, r + 1);
      }
    }
  }

  /** On a board, DistinctTiles is the number of distinct non-zero ranks. */
  lemma DistinctTilesCount(s: seq<int>)
    requires RankCells(s)
    ensures DistinctTiles(s) == |set x | x in s && x != 0|
  {
    RanksFromSet(s, 1);
    assert (set x | x in s && x != 0) == RankSet(s, 1);
  }

  /** The number of set flags. */
  function CountTrue(f: seq<bool>): (n: nat)
    ensures n <= |f|
  {
    if f == [] then 0 else (if f[0] then 1 else 0) + CountTrue(f[1..])
  }

  lemma {:induction false} CountTrueNone(f: seq<bool>)
    ensures CountTrue(f) == 0 <==> true !in f
  {
    if f != [] {
      CountTrueNone(f[1..]);
      assert f == [f[0]] + f[1..];
    }
  }

  /** The lowest set flag. */
  function Lowest(f: seq<bool>): (i: nat)
    requires true in f
    ensures i < |f| && f[i] && forall j :: 0 <= j < i ==> !f[j]
  {
    if f[0] then 0 else
      assert f == [f[0]] + f[1..];
      1 + Lowest(f[1..])
  }

  /** Clearing a set flag lowers the count by one: the step of `bitset &= bitset - 1`. */
  lemma {:induction false} ClearFlag(f: seq<bool>, i: int)
    requires 0 <= i < |f| && f[i]
    ensures CountTrue(f[i := false]) + 1 == CountTrue(f)
  {
    if i == 0 {
      assert f[i := false][1..] == f[1..];
    } else {
      ClearFlag(f[1..], i - 1);
      assert f[i := false][1..] == f[1..][i - 1 := false];
    }
  }

  /** Flags for ranks 1 .. 15, flag r standing for rank r + 1, count the distinct tiles. */
  lemma {:induction false} FlagsCount(s: seq<int>, f: seq<bool>, i: int)
    requires |f| == 16 && 0 <= i <= 16 && !f[15]
    requires forall r :: 0 <= r < 15 ==> (f[r] <==> r + 1 in s)
    ensures CountTrue(f[i..]) == RanksFrom(s, i + 1)
    decreases 16 - i
  {
    if i < 16 {
      FlagsCount(s, f, i + 1);
      assert f[i..][1..] == f[i + 1..];
    }
  }

  /** Once the rest of the board is empty, the tiles seen are those on the board. */
  lemma SeenAll(s: seq<int>, j: int)
    requires |s| == 16 && 0 <= j <= 16 && forall i :: j <= i < 16 ==> s[i] == 0
    ensures forall r :: 1 <= r < 16 ==> (r in s[..j] <==> r in s)
    ensures 0 in s[..j] ==> 0 in s
  {
    forall r | 1 <= r < 16 && r in s ensures r in s[..j] {
      var i :| 0 <= i < 16 && s[i] == r;
      assert s[..j][i] == r;
    }
  }

  /** Sixteen flags, flag r set exactly when rank r occurs in p. */
  predicate FlagsOf(f: seq<bool>, p: seq<int>)
  {
    |f| == 16 && forall r :: 0 <= r < 16 ==> (f[r] <==> r in p)
  }

  /** Setting the flag of cell j keeps the flags equal to the ranks seen. */
  lemma FlagsStep(f: seq<bool>, s: seq<int>, j: int)
    requires 0 <= j < |s| && 0 <= s[j] < 16 && FlagsOf(f, s[..j])
    ensures FlagsOf(f[s[j] := true], s[..j + 1])
  {
    assert s[..j + 1] == s[..j] + [s[j]];
  }

  /** When the scan ends, the flags of the tiles are those of the board. */
  lemma FlagsDone(f: seq<bool>, b: Board, s: seq<int>, j: int)
    requires |s| == 16 && 0 <= j <= 16 && Cells(b) == s[j..] + Zeros(j) && b == 0 && FlagsOf(f, s[..j])
    ensures forall r :: 1 <= r < 16 ==> (f[r] <==> r in s)
    ensures f[0] ==> 0 in s
  {
    ScanDone(b, s, j);
    SeenAll(s, j);
  }

  /** The first loop: flag r is set exactly when rank r is on the board. */
  method CollectRanks(board: Board) returns (bitset: seq<bool>)
    ensures |bitset| == 16 && forall r :: 1 <= r < 16 ==> (bitset[r] <==> r in Cells(board))
    ensures bitset[0] ==> 0 in Cells(board)
  {
    ghost var s := Cells(board);
    ghost var j := 0;
    bitset := seq(16, _ => false);
    assert s[..0] == [];
    var b := board;
    while b != 0
      invariant 0 <= j <= 16 && Cells(b) == s[j..] + Zeros(j)
      invariant FlagsOf(bitset, s[..j])
      decreases 16 - j
    {
      ScanStep(b, s, j);
      FlagsStep(bitset, s, j);
      bitset := bitset[(b & 0xf) as int := true];
      b := b >> 4;
      j := j + 1;
    }
    FlagsDone(bitset, b, s, j);
  }

  /** The second loop: clears the lowest set flag until none is left. */
  method CountFlags(flags: seq<bool>) returns (count: int)
    ensures count == CountTrue(flags)
  {
    var bitset := flags;
    count := 0;
    while true in bitset
      invariant count + CountTrue(bitset) == CountTrue(flags)
      decreases CountTrue(bitset)
    {
      ClearFlag(bitset, Lowest(bitset));
      bitset := bitset[Lowest(bitset) := false];
      count := count + 1;
    }
    CountTrueNone(bitset);
  }

  /**
   * Collects the ranks present as flags, drops rank 0 by shifting the flags
   * down one place, then counts the flags that remain.
   */
  method CountDistinctTiles(board: Board) returns (count: int)
    ensures count == DistinctTiles(Cells(board))
  {
    var bitset := CollectRanks(board);
    bitset := bitset[1..] + [false];
    FlagsCount(Cells(board), bitset, 0);
    count := CountFlags(bitset);
  }

  // ---------------------------------------------------------------------------
  // insert_tile_rand (2048.cpp:608-622). The random index is a parameter.

  /** The tile shifted up to nibble k. */
  function TileAt(tile: Board, k: nat): Board
  {
    if k == 0 then tile else TileAt(tile, k - 1) << 4
  }

  lemma TileNext(tile: Board, k: nat, t: Board)
    requires t == TileAt(tile, k)
    ensures t << 4 == TileAt(tile, k + 1)
  {
    TileUnfold(tile, k);
  }

  lemma TileUnfold(tile: Board, k: nat)
    ensures TileAt(tile, k + 1) == TileAt(tile, k) << 4
  {
  }

  lemma {:induction false} CountZerosPrefix(s: seq<int>, k: int)
    requires 0 <= k < |s|
    ensures CountZeros(s[..k + 1]) == CountZeros(s[..k]) + (if s[k] == 0 then 1 else 0)
  {
    if k > 0 {
      CountZerosPrefix(s[1..], k - 1);
      assert s[1..][..k] == s[..k + 1][1..];
      assert s[1..][..k - 1] == s[..k][1..];
    }
  }

  /** A low nibble and a board shifted up by one nibble: cell 0, then the first fifteen cells. */
  lemma CellsJoin(x: Board, y: Board)
    ensures Cells((x & 0xf) | (y << 4)) == [(x & 0xf) as int] + Cells(y)[..15]
  {
    var z := (x & 0xf) | (y << 4);
    JoinLow(x, y);
    JoinHigh(x, y);
    CellsShift(z);
    CellsTopCleared(y);
    JoinSeq(Cells(z), Cells(z >> 4), Cells(y & 0x0FFF_FFFF_FFFF_FFFF), Cells(y), (x & 0xf) as int);
  }

  /** A cell and the first fifteen cells of another sequence. */
  lemma JoinSeq(c: seq<int>, next: seq<int>, cleared: seq<int>, high: seq<int>, v: int)
    requires |c| == 16 && |high| == 16 && c[0] == v && next == c[1..] + [0]
    requires next == cleared && cleared[..15] == high[..15]
    ensures c == [v] + high[..15]
  {
    assert c == [c[0]] + c[1..];
    assert c[1..] == next[..15];
  }

  lemma JoinLow(x: Board, y: Board)
    ensures Cells((x & 0xf) | (y << 4))[0] == (x & 0xf) as int
  {
    var z := (x & 0xf) | (y << 4);
    JoinBits(x, y, z);
    FirstCell(z);
  }

  lemma JoinHigh(x: Board, y: Board)
    ensures Cells(((x & 0xf) | (y << 4)) >> 4) == Cells(y & 0x0FFF_FFFF_FFFF_FFFF)
  {
    JoinBits(x, y, (x & 0xf) | (y << 4));
  }

  lemma JoinBits(x: Board, y: Board, z: Board)
    requires z == (x & 0xf) | (y << 4)
    ensures z & 0xf == x & 0xf && z >> 4 == y & 0x0FFF_FFFF_FFFF_FFFF
  {
  }

  /** Clearing the top nibble keeps the first fifteen cells. */
  lemma CellsTopCleared(y: Board)
    ensures Cells(y & 0x0FFF_FFFF_FFFF_FFFF)[..15] == Cells(y)[..15]
  {
  }

  /** OR-ing into the upper nibbles leaves the low nibble and moves with the shift. */
  lemma OrShifted(board: Board, u: Board, t: Board, down: Board)
    requires t == u << 4 && down == Down(board)
    ensures board | t == (board & 0xf) | ((down | u) << 4)
  {
  }

  /** A tile of at most 15 OR-ed into an empty low nibble. */
  lemma OrLow(board: Board, tile: Board)
    requires tile <= 0xf && board & 0xf == 0
    ensures board | tile == (tile & 0xf) | ((board >> 4) << 4) && (tile & 0xf) as int == tile as int
  {
  }

  /** A tile OR-ed into an empty cell 0. */
  lemma PlaceLow(board: Board, tile: Board)
    requires tile <= 0xf && Cells(board)[0] == 0
    ensures Cells(board | tile) == [tile as int] + Cells(board)[1..]
  {
    FirstCell(board);
    OrLow(board, tile);
    CellsJoin(tile, board >> 4);
    CellsShift(board);
  }

  /** The board shifted down by one nibble. */
  function Down(b: Board): Board {
    b >> 4
  }

  lemma DownCells(b: Board, down: Board)
    requires down == Down(b)
    ensures Cells(down) == Cells(b)[1..] + [0]
  {
    CellsShift(b);
  }

  /** OR-ing above cell 0 is OR-ing into the board shifted down by a nibble. */
  lemma PlaceHigh(board: Board, u: Board, t: Board, down: Board)
    requires t == u << 4 && down == Down(board)
    ensures Cells(board | t) == [Cells(board)[0]] + Cells(down | u)[..15]
  {
    OrShiftedCells(board, u, t, down);
    CellsJoin(board, down | u);
    FirstCell(board);
  }

  lemma OrShiftedCells(board: Board, u: Board, t: Board, down: Board)
    requires t == u << 4 && down == Down(board)
    ensures Cells(board | t) == Cells((board & 0xf) | ((down | u) << 4))
  {
    OrShifted(board, u, t, down);
  }

  /** OR-ing the tile shifted to an empty nibble k puts its rank in cell k and changes nothing else. */
  lemma {:induction false} PlaceTile(board: Board, tile: Board, k: int, t: Board)
    requires tile <= 0xf && 0 <= k < 16 && Cells(board)[k] == 0 && t == TileAt(tile, k)
    ensures Cells(board | t) == Cells(board)[k := tile as int]
    decreases k
  {
    if k == 0 {
      PlaceFirst(board, tile, t);
    } else {
      var u := TileAt(tile, k - 1);
      var down := Down(board);
      DownCells(board, down);
      PlaceTile(down, tile, k - 1, u);
      PlaceNext(board, tile, k, t, u, down);
    }
  }

  /** The tile at nibble 0 is the tile itself. */
  lemma PlaceFirst(board: Board, tile: Board, t: Board)
    requires tile <= 0xf && Cells(board)[0] == 0 && t == TileAt(tile, 0)
    ensures Cells(board | t) == Cells(board)[0 := tile as int]
  {
    PlaceLow(board, tile);
    UpdateFirst(Cells(board), Cells(board | t), 0, tile as int);
  }

  /** Placing at nibble k is placing at nibble k - 1 of the board shifted down by a nibble. */
  lemma PlaceNext(board: Board, tile: Board, k: int, t: Board, u: Board, down: Board)
    requires tile <= 0xf && 1 <= k < 16 && t == TileAt(tile, k) && u == TileAt(tile, k - 1) && down == Down(board)
    requires Cells(down | u) == Cells(down)[k - 1 := tile as int]
    ensures Cells(board | t) == Cells(board)[k := tile as int]
  {
    TileUnfold(tile, k - 1);
    DownCells(board, down);
    PlaceHigh(board, u, t, down);
    UpdateShifted(Cells(board), Cells(down), Cells(down | u), Cells(board | t), k, tile as int);
  }

  /** Cell 0 replaced, as a sequence update. */
  lemma UpdateFirst(s: seq<int>, c: seq<int>, k: int, v: int)
    requires |s| > 0 && k == 0 && c == [v] + s[1..]
    ensures c == s[k := v]
  {
  }

  /** Cell k of a board is cell k - 1 of the board shifted down by a nibble. */
  lemma UpdateShifted(s: seq<int>, s1: seq<int>, placed: seq<int>, c: seq<int>, k: int, v: int)
    requires |s| == 16 && s1 == s[1..] + [0] && 1 <= k < 16
    requires placed == s1[k - 1 := v] && c == [s[0]] + placed[..15]
    ensures c == s[k := v]
  {
  }

  /** The scan has passed cell k, which holds a tile: the index is unchanged. */
  lemma SkipTile(s: seq<int>, k: int, index: int, index0: int)
    requires |s| == 16 && 0 <= k < 16 && s[k] != 0
    requires CountZeros(s[..k]) + index == index0 && index < CountZeros(s[k..])
    ensures CountZeros(s[..k + 1]) + index == index0 && index < CountZeros(s[k + 1..])
  {
    CountZerosPrefix(s, k);
    CountZerosStep(s, k);
  }

  /** The scan has passed cell k, which is empty: the index goes down by one. */
  lemma SkipEmpty(s: seq<int>, k: int, index: int, index0: int)
    requires |s| == 16 && 0 <= k < 16 && s[k] == 0
    requires CountZeros(s[..k]) + index == index0 && index < CountZeros(s[k..])
    ensures CountZeros(s[..k + 1]) + (index - 1) == index0 && index - 1 < CountZeros(s[k + 1..])
  {
    CountZerosPrefix(s, k);
    CountZerosStep(s, k);
  }

  /** Cells remain to be scanned while the index is below the empty cells left. */
  lemma CellsLeft(s: seq<int>, k: int, index: int)
    requires 0 <= k <= |s| && 0 <= index < CountZeros(s[k..])
    ensures k < |s|
  {
  }

  /**
   * The inner loop of `insert_tile_rand`: shifts past the tiles up to the
   * next empty cell, moving the tile along.
   */
  method SkipTiles(tmp0: Board, t0: Board, ghost s: seq<int>, ghost k0: int, ghost tile: Board, idx: int, ghost index: int)
    returns (tmp: Board, t: Board, ghost k: int)
    requires |s| == 16 && 0 <= k0 < 16 && Cells(tmp0) == s[k0..] + Zeros(k0) && t0 == TileAt(tile, k0)
    requires 0 <= idx && CountZeros(s[..k0]) + idx == index && idx < CountZeros(s[k0..])
    ensures k0 <= k < 16 && Cells(tmp) == s[k..] + Zeros(k) && t == TileAt(tile, k) && s[k] == 0
    ensures CountZeros(s[..k]) + idx == index && idx < CountZeros(s[k..])
  {
    tmp, t, k := tmp0, t0, k0;
    while tmp & 0xf != 0
      invariant k0 <= k < 16 && Cells(tmp) == s[k..] + Zeros(k) && t == TileAt(tile, k)
      invariant CountZeros(s[..k]) + idx == index && idx < CountZeros(s[k..])
      decreases 16 - k
    {
      ScanAt(tmp, s, k);
      SkipTile(s, k, idx, index);
      CellsLeft(s, k + 1, idx);
      TileNext(tile, k, t);
      tmp := tmp >> 4;
      t := t << 4;
      k := k + 1;
    }
    ScanAt(tmp, s, k);
  }

  /**
   * Puts the tile (rank 1 or 2 in the game) into the empty cell that comes
   * `index`-th in cell order, counting from 0: skips the tiles before each
   * empty cell, then passes `index` empty cells.
   */
  method InsertTileRand(board: Board, tile: Board, index: int) returns (r: Board)
    requires tile <= 0xf && 0 <= index < CountEmpty(board)
    ensures exists k :: 0 <= k < 16 && Cells(board)[k] == 0 && CountZeros(Cells(board)[..k]) == index &&
                        Cells(r) == Cells(board)[k := tile as int]
  {
    ghost var s := Cells(board);
    ghost var k := 0;
    CountEmptyExact(board);
    assert s[..0] == [] && s[0..] == s;
    var idx := index;
    var tmp := board;
    var t := tile;
    while true
      invariant 0 <= k < 16 && Cells(tmp) == s[k..] + Zeros(k) && t == TileAt(tile, k)
      invariant 0 <= idx && CountZeros(s[..k]) + idx == index && idx < CountZeros(s[k..])
      decreases 16 - k
    {
      tmp, t, k := SkipTiles(tmp, t, s, k, tile, idx, index);
      if idx == 0 {
        break;
      }
      SkipEmpty(s, k, idx, index);
      CellsLeft(s, k + 1, idx - 1);
      idx := idx - 1;
      ScanAt(tmp, s, k);
      TileNext(tile, k, t);
      tmp := tmp >> 4;
      t := t << 4;
      k := k + 1;
    }
    PlaceTile(board, tile, k, t);
    r := board | t;
  }

  lemma ShiftOrder(x: Board)
    ensures (x << 4) << 1 == (x << 1) << 4
  {
  }

  /** `tile_2 << 1` is a rank-2 tile at the same nibble. */
  lemma {:induction false} TileDoubled(k: nat)
    ensures TileAt(1, k) << 1 == TileAt(2, k)
  {
    if k > 0 {
      TileDoubled(k - 1);
      ShiftOrder(TileAt(1, k - 1));
    }
  }

  /** A rank-1 tile at nibble `k`, shifted left once, is the rank-2 tile (a 4) at that nibble. */
  lemma {:induction false} DoubledTile(board: Board, k: nat, tile2: Board)
    requires tile2 == TileAt(1, k)
    ensures board | (tile2 << 1) == board | TileAt(2, k)
  {
    TileDoubled(k);
  }
}
