/**
 * The per-row lookup tables of 2048.cpp (`init_tables`) and the operations
 * built on them: `execute_move`, `score_helper`, `score_heur_board` and
 * `score_board`.
 *
 * For every 16-bit row, `init_tables` stores the XOR of the row and its
 * moved row (for a left and a right move, and for the same row laid out as
 * a column for up and down moves), the heuristic value of the row and its
 * game score. Floats are modelled as reals without rounding; the heuristic's
 * `pow(rank, 3.5)` is the parameter `pow35`, while `pow(rank, 4)` and the
 * game score are exact integers for every nibble.
 */
module BitTables {
  import opened GridSpec
  import opened AiHeuristic
  import opened BitRow
  import opened BitBoard

  // ---------------------------------------------------------------------------
  // What the tables hold for one row.

  /** `row_left_table[row]`: the row XOR the row moved left. */
  function LeftEntry(x: Row): Row {
    x ^ LeftRow(x)
  }

  /** `row_right_table[row]`: the row XOR the row moved right. */
  function RightEntry(x: Row): Row {
    x ^ RightRow(x)
  }

  /**
   * `col_up_table[row]`: the left-move entry laid out down column 0.
   * `init_tables` stores `unpack_col(row) ^ unpack_col(result)`, which is the
   * same board (`LeftEntries`).
   */
  function UpEntry(x: Row): Board {
    UnpackCol(LeftEntry(x))
  }

  /** `col_down_table[row]`: the right-move entry laid out down column 0. */
  function DownEntry(x: Row): Board {
    UnpackCol(RightEntry(x))
  }

  /** An entry `d == x ^ y` is 0 exactly when `x == y`, and XOR-ing it onto `x` gives `y`. */
  lemma EntryMeaning(x: Row, y: Row, d: Row)
    requires d == x ^ y
    ensures d == 0 <==> x == y
    ensures x ^ d == y
  {
  }

  /**
   * A left-move entry is 0 exactly when the move leaves the row as it is,
   * and XOR-ing it onto the row gives the moved row.
   */
  lemma LeftEntryApplies(x: Row)
    ensures LeftEntry(x) == 0 <==> LeftLine(RowRanks(x)) == RowRanks(x)
    ensures x ^ LeftEntry(x) == LeftRow(x)
  {
    EntryMeaning(x, LeftRow(x), LeftEntry(x));
    LeftRowMoved(x);
  }

  /**
   * A right-move entry is 0 exactly when the move leaves the row as it is,
   * and XOR-ing it onto the row gives the moved row.
   */
  lemma RightEntryApplies(x: Row)
    ensures RightEntry(x) == 0 <==> RightLine(RowRanks(x)) == RowRanks(x)
    ensures x ^ RightEntry(x) == RightRow(x)
  {
    EntryMeaning(x, RightRow(x), RightEntry(x));
    RightRowMoved(x);
  }

  // ---------------------------------------------------------------------------
  // The game score of a row (2048.cpp:103-114).

  /**
   * What a tile of rank `rank` adds to the score: `(rank - 1) * 2^rank` from
   * rank 2 on, nothing for an empty cell or a 2.
   */
  function TileScore(rank: int): nat {
    if rank >= 2 then (rank - 1) * Pow2(rank) else 0
  }

  /** The score of the first `n` cells of a row. */
  function ScoreBefore(line: seq<int>, n: int): nat
    requires 0 <= n <= |line|
  {
    if n == 0 then 0 else ScoreBefore(line, n - 1) + TileScore(line[n - 1])
  }

  /** `score_table[row]`: the score of the four cells. */
  function RowScore(line: seq<int>): nat
    requires |line| == 4
  {
    ScoreBefore(line, 4)
  }

  /**
   * The score is what the merges that built the tiles are worth when every
   * new tile is a 2: merging two tiles of rank r (r >= 1) scores 2^(r+1),
   * and a tile of rank r + 1 counts exactly that more than the two it came
   * from.
   */
  lemma TileScoreMerge(r: nat)
    requires r >= 1
    ensures TileScore(r + 1) == 2 * TileScore(r) + Pow2(r + 1)
  {
    assert Pow2(r + 1) == 2 * Pow2(r);
    if r >= 2 {
      calc {
        TileScore(r + 1);
        r * Pow2(r + 1);
        2 * ((r - 1) * Pow2(r)) + 2 * Pow2(r);
      }
    }
  }

  // ---------------------------------------------------------------------------
  // The heuristic value of a row (2048.cpp:116-185). Unlike 2048ai.js, the
  // monotonicity terms run over every pair of neighbours, empty cells
  // included, and `pow(rank, 3.5)` is added for empty cells too.

  /** The ranks of the tiles among the first `n` cells, empty cells skipped. */
  function TilesBefore(line: seq<int>, n: int): seq<nat>
    requires 0 <= n <= |line|
  {
    if n == 0 then []
    else TilesBefore(line, n - 1) + (if line[n - 1] > 0 then [line[n - 1] as nat] else [])
  }

  /** The empty cells among the first `n`. */
  function EmptyBefore(line: seq<int>, n: int): nat
    requires 0 <= n <= |line|
  {
    if n == 0 then 0 else EmptyBefore(line, n - 1) + (if line[n - 1] == 0 then 1 else 0)
  }

  /**
   * The merge count: the tiles with an equal tile next to them once the
   * empty cells are skipped (a run of k >= 2 equal ranks counts k).
   */
  function RowMerges(line: seq<int>): nat
    requires |line| == 4
  {
    var rs := TilesBefore(line, 4);
    CountPaired(rs, |rs|)
  }

  /** Drops in rank between neighbours among the first `n` cells, weighed by `pow(rank, 4)`. */
  function RankMonoLeft(line: seq<int>, n: int): int
    requires RankLine(line) && 1 <= n <= 4
  {
    if n == 1 then 0
    else
      var step := if line[n - 2] > line[n - 1] then Pow4(line[n - 2]) - Pow4(line[n - 1]) else 0;
      RankMonoLeft(line, n - 1) + step
  }

  /** Rises (or equal ranks) between neighbours among the first `n` cells. */
  function RankMonoRight(line: seq<int>, n: int): int
    requires RankLine(line) && 1 <= n <= 4
  {
    if n == 1 then 0
    else
      var step := if line[n - 2] > line[n - 1] then 0 else Pow4(line[n - 1]) - Pow4(line[n - 2]);
      RankMonoRight(line, n - 1) + step
  }

  /** `pow(rank, 3.5)` summed over the first `n` cells, empty ones included. */
  function RankPowerSum(line: seq<int>, n: int, pow35: nat -> real): real
    requires RankLine(line) && 0 <= n <= 4
  {
    if n == 0 then 0.0 else RankPowerSum(line, n - 1, pow35) + pow35(line[n - 1])
  }

  /** `heur_score_table[row]`. */
  function HeurRow(line: seq<int>, pow35: nat -> real): real
    requires RankLine(line)
  {
    SCORE_LOST_PENALTY
      + SCORE_EMPTY_WEIGHT * EmptyBefore(line, 4) as real
      + SCORE_MERGES_WEIGHT * RowMerges(line) as real
      - SCORE_MONOTONICITY_WEIGHT * Min(RankMonoLeft(line, 4), RankMonoRight(line, 4)) as real
      - SCORE_SUM_WEIGHT * RankPowerSum(line, 4, pow35)
  }

  lemma {:induction false} EmptyBeforeCount(line: seq<int>, n: int)
    requires 0 <= n <= |line|
    ensures EmptyBefore(line, n) == CountZeros(line[..n])
  {
    if n > 0 {
      EmptyBeforeCount(line, n - 1);
      CountZerosSnoc(line[..n - 1], line[n - 1]);
      assert line[..n] == line[..n - 1] + [line[n - 1]];
    }
  }

  lemma {:induction false} CountZerosSnoc(s: seq<int>, x: int)
    ensures CountZeros(s + [x]) == CountZeros(s) + (if x == 0 then 1 else 0)
  {
    if s != [] {
      assert (s + [x])[1..] == s[1..] + [x];
      CountZerosSnoc(s[1..], x);
    }
  }

  /** The empty term counts the empty cells of the row. */
  lemma EmptyTerm(line: seq<int>)
    requires |line| == 4
    ensures EmptyBefore(line, 4) == CountZeros(line)
  {
    EmptyBeforeCount(line, 4);
    assert line[..4] == line;
  }

  /**
   * Read cell by cell, the tile ranks of a row are the ranks 2048ai.js reads
   * off the same row of tile values.
   */
  lemma {:induction false} TilesAgree(js: seq<int>, line: seq<int>, n: int)
    requires TileLine(js) && |line| == 4 && 0 <= n <= 4
    requires forall i :: 0 <= i < 4 ==> line[i] == (if js[i] == 0 then 0 else Log2(js[i]))
    ensures TilesBefore(line, n) == RanksBefore(js, n)
  {
    if n > 0 {
      TilesAgree(js, line, n - 1);
      if js[n - 1] != 0 {
        assert IsTile(js[n - 1]);
        assert Log2(js[n - 1]) >= 1;
      }
    }
  }

  /**
   * The merge term is the same in both programs: the merge count of a row of
   * ranks is the merge count 2048ai.js gives the row of the tiles.
   */
  lemma MergesAgree(js: seq<int>, line: seq<int>)
    requires TileLine(js) && |line| == 4
    requires forall i :: 0 <= i < 4 ==> line[i] == (if js[i] == 0 then 0 else Log2(js[i]))
    ensures RowMerges(line) == Merges(js)
  {
    TilesAgree(js, line, 4);
    RanksBeforeAll(js, 4);
    assert js[..4] == js;
  }

  /**
   * The monotonicity term differs: 2048.cpp also weighs the pairs that hold
   * an empty cell, so the row 8, _, 8, _ (ranks 3, 0, 3, 0) gets a penalty of
   * 47 * 3^4 where 2048ai.js gives none.
   */
  lemma MonotonicityCountsEmpty()
    ensures Min(RankMonoLeft([3, 0, 3, 0], 4), RankMonoRight([3, 0, 3, 0], 4)) == 81
    ensures Monotonicity([8, 0, 8, 0]) == 0
  {
    assert Log2(8) == 3;
    assert IsTile(8) by { assert IsPow2(8) by { assert IsPow2(4) by { assert IsPow2(2); } } }
  }

  /**
   * An all-empty row scores its four empty cells, less four times
   * `pow(0, 3.5)`, which the C++ loop adds for empty cells too; with
   * `pow(0, 3.5) = 0` that is 200000 + 4 * 270.
   */
  lemma EmptyRowHeuristic(pow35: nat -> real)
    ensures RankLine([0, 0, 0, 0])
    ensures HeurRow([0, 0, 0, 0], pow35) ==
      SCORE_LOST_PENALTY + 4.0 * SCORE_EMPTY_WEIGHT - SCORE_SUM_WEIGHT * 4.0 * pow35(0)
    ensures pow35(0) == 0.0 ==> HeurRow([0, 0, 0, 0], pow35) == 201080.0
  {
    assert TilesBefore([0, 0, 0, 0], 4) == [];
  }

  /** A row whose ranks never rise from left to right has no monotonicity penalty, and likewise one that never drops. */
  lemma MonotoneRowNoPenalty(line: seq<int>)
    requires RankLine(line)
    ensures line[0] >= line[1] >= line[2] >= line[3] ==> RankMonoRight(line, 4) == 0
    ensures line[0] <= line[1] <= line[2] <= line[3] ==> RankMonoLeft(line, 4) == 0
  {
    assert RankMonoRight(line, 2) == RankMonoRight(line, 1) + (if line[0] > line[1] then 0 else Pow4(line[1]) - Pow4(line[0]));
    assert RankMonoLeft(line, 2) == RankMonoLeft(line, 1) + (if line[0] > line[1] then Pow4(line[0]) - Pow4(line[1]) else 0);
  }

  // ---------------------------------------------------------------------------
  // The tables.

  /**
   * The storage of the six static tables of 2048.cpp, 65536 entries each,
   * which `init_tables` fills in place, and the `pow(rank, 3.5)` the
   * heuristic table is built with.
   */
  class TableArrays {
    const rowLeft: array<Row>
    const rowRight: array<Row>
    const colUp: array<Board>
    const colDown: array<Board>
    const heurScore: array<real>
    const score: array<real>
    const pow35: nat -> real

    /** 65536 entries each, and no two tables share storage. */
    ghost predicate Shaped() {
      rowLeft.Length == 65536 && rowRight.Length == 65536 && colUp.Length == 65536 &&
      colDown.Length == 65536 && heurScore.Length == 65536 && score.Length == 65536 &&
      rowLeft != rowRight && colUp != colDown && heurScore != score &&
      {rowLeft as object, rowRight} !! {colUp as object, colDown} &&
      {rowLeft as object, rowRight, colUp, colDown} !! {heurScore as object, score}
    }

    /** The contents of the six arrays, as the search reads them once they are filled. */
    function Contents(): Tables
      reads rowLeft, rowRight, colUp, colDown, heurScore, score
    {
      Tables(rowLeft[..], rowRight[..], colUp[..], colDown[..], heurScore[..], score[..], pow35)
    }

    /** The left and right entries of the first `n` passes are in place. */
    ghost predicate RowsFilled(n: int)
      reads rowLeft, rowRight
    {
      FilledUnder(rowLeft[..], n, AsIs, LeftEntry) && FilledUnder(rowRight[..], n, ReverseRow, RightEntry)
    }

    /** The up and down entries of the first `n` passes are in place. */
    ghost predicate ColumnsFilled(n: int)
      reads colUp, colDown
    {
      FilledUnder(colUp[..], n, AsIs, UpEntry) && FilledUnder(colDown[..], n, ReverseRow, DownEntry)
    }

    /** The heuristic and score entries of the first `n` passes are in place. */
    ghost predicate ValuesFilled(n: int)
      reads heurScore, score
    {
      FilledUnder(heurScore[..], n, AsIs, HeurEntry(pow35)) && FilledUnder(score[..], n, AsIs, ScoreEntry)
    }

    /** The tables before `init_tables` has run. */
    constructor (pow35: nat -> real)
      ensures Shaped() && this.pow35 == pow35
      ensures fresh(rowLeft) && fresh(rowRight) && fresh(colUp) && fresh(colDown) && fresh(heurScore) && fresh(score)
    {
      rowLeft := new Row[65536];
      rowRight := new Row[65536];
      colUp := new Board[65536];
      colDown := new Board[65536];
      heurScore := new real[65536];
      score := new real[65536];
      this.pow35 := pow35;
    }

    /**
     * `init_tables`: one pass per row. The right-move and down-move entries
     * are stored under the reversed row, so after the last pass every index
     * holds its entry.
     */
    method InitTables()
      requires Shaped()
      modifies rowLeft, rowRight, colUp, colDown, heurScore, score
      ensures Contents().Valid()
    {
      for row := 0 to 65536
        invariant RowsFilled(row) && ColumnsFilled(row) && ValuesFilled(row)
      {
        var result, heur, sc := RowEntry(row as Row, pow35);
        FillPass(row, result, heur, sc);
      }
      AllFilled();
    }

    /** After the last pass every index holds its entry. */
    lemma AllFilled()
      requires Shaped() && RowsFilled(65536) && ColumnsFilled(65536) && ValuesFilled(65536)
      ensures Contents().Valid()
    {
      FilledHoldsAsIs(rowLeft[..], LeftEntry);
      FilledHoldsReversed(rowRight[..], RightEntry);
      FilledHoldsAsIs(colUp[..], UpEntry);
      FilledHoldsReversed(colDown[..], DownEntry);
      FilledHoldsAsIs(heurScore[..], HeurEntry(pow35));
      FilledHoldsAsIs(score[..], ScoreEntry);
    }

    /** Pass `row` of `init_tables`, once the row's three values are computed. */
    method FillPass(row: int, result: Row, heur: real, sc: real)
      requires Shaped() && 0 <= row < 65536
      requires result == LeftRow(row as Row) && heur == HeurEntry(pow35)(row as Row) && sc == ScoreEntry(row as Row)
      requires RowsFilled(row) && ColumnsFilled(row) && ValuesFilled(row)
      modifies rowLeft, rowRight, colUp, colDown, heurScore, score
      ensures RowsFilled(row + 1) && ColumnsFilled(row + 1) && ValuesFilled(row + 1)
    {
      FillValues(row, heur, sc);
      FillMoves(row, result);
    }

    /** The four move-table stores of pass `row`. */
    method FillMoves(row: int, result: Row)
      requires Shaped() && 0 <= row < 65536 && result == LeftRow(row as Row)
      requires RowsFilled(row) && ColumnsFilled(row)
      modifies rowLeft, rowRight, colUp, colDown
      ensures RowsFilled(row + 1) && ColumnsFilled(row + 1)
    {
      FillRows(row, result);
      FillColumns(row, result);
    }

    /** The heuristic and score stores of pass `row`. */
    method FillValues(row: int, heur: real, sc: real)
      requires heurScore != score && 0 <= row < 65536 && ValuesFilled(row)
      requires heur == HeurEntry(pow35)(row as Row) && sc == ScoreEntry(row as Row)
      modifies heurScore, score
      ensures ValuesFilled(row + 1)
    {
      Store(heurScore, row, AsIs, HeurEntry(pow35), heur);
      Store(score, row, AsIs, ScoreEntry, sc);
    }

    /** The left-move and right-move stores of pass `row`, whose row moves left to `result`. */
    method FillRows(row: int, result: Row)
      requires rowLeft != rowRight && 0 <= row < 65536 && RowsFilled(row) && result == LeftRow(row as Row)
      modifies rowLeft, rowRight
      ensures RowsFilled(row + 1)
    {
      var x := row as Row;
      var revResult := ReverseRow(result);
      var revRow := ReverseRow(x);
      LeftEntries(x, result);
      ReversedEntries(x, result, revRow, revResult);
      Store(rowLeft, row, AsIs, LeftEntry, x ^ result);
      Store(rowRight, row, ReverseRow, RightEntry, revRow ^ revResult);
    }

    /** The up-move and down-move stores of pass `row`, whose row moves left to `result`. */
    method FillColumns(row: int, result: Row)
      requires colUp != colDown && 0 <= row < 65536 && ColumnsFilled(row) && result == LeftRow(row as Row)
      modifies colUp, colDown
      ensures ColumnsFilled(row + 1)
    {
      var x := row as Row;
      var revResult := ReverseRow(result);
      var revRow := ReverseRow(x);
      LeftEntries(x, result);
      ReversedEntries(x, result, revRow, revResult);
      Store(colUp, row, AsIs, UpEntry, UnpackCol(x) ^ UnpackCol(result));
      Store(colDown, row, ReverseRow, DownEntry, UnpackCol(revRow) ^ UnpackCol(revResult));
    }
  }

  /**
   * The six tables once `init_tables` has filled them, as the search reads
   * them: every index holds the entry of its row.
   */
  datatype Tables = Tables(rowLeft: seq<Row>, rowRight: seq<Row>, colUp: seq<Board>, colDown: seq<Board>,
                           heurScore: seq<real>, score: seq<real>, pow35: nat -> real)
  {
    /** The tables as `init_tables` leaves them: every index holds the entry of its row. */
    ghost predicate Valid() {
      Holds(rowLeft, LeftEntry) && Holds(rowRight, RightEntry) && Holds(colUp, UpEntry) &&
      Holds(colDown, DownEntry) && Holds(heurScore, HeurEntry(pow35)) && Holds(score, ScoreEntry)
    }

    /** Looking up rows in the left-move table gives each row XOR the row moved left. */
    lemma LeftLookup(x0: Row, x1: Row, x2: Row, x3: Row)
      requires Valid()
      ensures rowLeft[x0 as int] == LeftEntry(x0) && rowLeft[x1 as int] == LeftEntry(x1)
      ensures rowLeft[x2 as int] == LeftEntry(x2) && rowLeft[x3 as int] == LeftEntry(x3)
    {
      HoldsAt(rowLeft, LeftEntry, x0); HoldsAt(rowLeft, LeftEntry, x1);
      HoldsAt(rowLeft, LeftEntry, x2); HoldsAt(rowLeft, LeftEntry, x3);
    }

    /** Looking up rows in the right-move table gives each row XOR the row moved right. */
    lemma RightLookup(x0: Row, x1: Row, x2: Row, x3: Row)
      requires Valid()
      ensures rowRight[x0 as int] == RightEntry(x0) && rowRight[x1 as int] == RightEntry(x1)
      ensures rowRight[x2 as int] == RightEntry(x2) && rowRight[x3 as int] == RightEntry(x3)
    {
      HoldsAt(rowRight, RightEntry, x0); HoldsAt(rowRight, RightEntry, x1);
      HoldsAt(rowRight, RightEntry, x2); HoldsAt(rowRight, RightEntry, x3);
    }

    /** Looking up rows in the up-move table gives each row's column XOR its moved column. */
    lemma UpLookup(x0: Row, x1: Row, x2: Row, x3: Row)
      requires Valid()
      ensures colUp[x0 as int] == UpEntry(x0) && colUp[x1 as int] == UpEntry(x1)
      ensures colUp[x2 as int] == UpEntry(x2) && colUp[x3 as int] == UpEntry(x3)
    {
      HoldsAt(colUp, UpEntry, x0); HoldsAt(colUp, UpEntry, x1);
      HoldsAt(colUp, UpEntry, x2); HoldsAt(colUp, UpEntry, x3);
    }

    /** Looking up rows in the down-move table gives each row's column XOR its column moved down. */
    lemma DownLookup(x0: Row, x1: Row, x2: Row, x3: Row)
      requires Valid()
      ensures colDown[x0 as int] == DownEntry(x0) && colDown[x1 as int] == DownEntry(x1)
      ensures colDown[x2 as int] == DownEntry(x2) && colDown[x3 as int] == DownEntry(x3)
    {
      HoldsAt(colDown, DownEntry, x0); HoldsAt(colDown, DownEntry, x1);
      HoldsAt(colDown, DownEntry, x2); HoldsAt(colDown, DownEntry, x3);
    }

    /** Looking up a row in the heuristic and score tables. */
    lemma ValueLookup(x: Row)
      requires Valid()
      ensures heurScore[x as int] == HeurRow(RowRanks(x), pow35)
      ensures score[x as int] == RowScore(RowRanks(x)) as real
    {
      HeurLookup(x);
      ScoreLookup(x);
    }

    lemma ScoreLookup(x: Row)
      requires Valid()
      ensures score[x as int] == ScoreEntry(x)
    {
      HoldsAt(score, ScoreEntry, x);
    }

    lemma HeurLookup(x: Row)
      requires Valid()
      ensures heurScore[x as int] == HeurRow(RowRanks(x), pow35)
    {
      HoldsAt(heurScore, HeurEntry(pow35), x);
    }

    /**
     * `execute_move`: up, down, left and right for 0 .. 3, each by looking up
     * the four rows (or the four columns, as rows of the transposed board) and
     * XOR-ing the entries onto the board; all ones for any other move.
     */
    method ExecuteMove(move: int, board: Board) returns (r: Board)
      requires Valid()
      ensures r == MoveBoard(move, board)
    {
      if move == 0 {
        r := ExecuteUp(board);
      } else if move == 1 {
        r := ExecuteDown(board);
      } else if move == 2 {
        r := ExecuteLeft(board);
      } else if move == 3 {
        r := ExecuteRight(board);
      } else {
        r := 0xFFFF_FFFF_FFFF_FFFF;
      }
    }

    /** `execute_move_0`: the column entries of the rows of the transposed board. */
    method ExecuteUp(board: Board) returns (ret: Board)
      requires Valid()
      ensures ret == MoveBoard(0, board)
    {
      var t := Transpose(board);
      var t0, t1, t2, t3 := RowAt(t, 0), RowAt(t, 1), RowAt(t, 2), RowAt(t, 3);
      var e0, e1, e2, e3 := colUp[t0 as int], colUp[t1 as int], colUp[t2 as int], colUp[t3 as int];
      ret := board ^ PlaceColumns(e0, e1, e2, e3);
      UpLookup(t0, t1, t2, t3);
      UpMoves(board, ret, t, t0, t1, t2, t3, e0, e1, e2, e3);
    }

    /** `execute_move_1`. */
    method ExecuteDown(board: Board) returns (ret: Board)
      requires Valid()
      ensures ret == MoveBoard(1, board)
    {
      var t := Transpose(board);
      var t0, t1, t2, t3 := RowAt(t, 0), RowAt(t, 1), RowAt(t, 2), RowAt(t, 3);
      var e0, e1, e2, e3 := colDown[t0 as int], colDown[t1 as int], colDown[t2 as int], colDown[t3 as int];
      ret := board ^ PlaceColumns(e0, e1, e2, e3);
      DownLookup(t0, t1, t2, t3);
      DownMoves(board, ret, t, t0, t1, t2, t3, e0, e1, e2, e3);
    }

    /** `execute_move_2`: the row entries of the four rows. */
    method ExecuteLeft(board: Board) returns (ret: Board)
      requires Valid()
      ensures ret == MoveBoard(2, board)
    {
      var r0, r1, r2, r3 := RowAt(board, 0), RowAt(board, 1), RowAt(board, 2), RowAt(board, 3);
      var e0, e1, e2, e3 := rowLeft[r0 as int], rowLeft[r1 as int], rowLeft[r2 as int], rowLeft[r3 as int];
      ret := board ^ ((e0 as Board) << 0) ^ ((e1 as Board) << 16) ^ ((e2 as Board) << 32) ^ ((e3 as Board) << 48);
      LeftLookup(r0, r1, r2, r3);
      LeftMoves(board, ret, r0, r1, r2, r3, e0, e1, e2, e3);
    }

    /** `execute_move_3`. */
    method ExecuteRight(board: Board) returns (ret: Board)
      requires Valid()
      ensures ret == MoveBoard(3, board)
    {
      var r0, r1, r2, r3 := RowAt(board, 0), RowAt(board, 1), RowAt(board, 2), RowAt(board, 3);
      var e0, e1, e2, e3 := rowRight[r0 as int], rowRight[r1 as int], rowRight[r2 as int], rowRight[r3 as int];
      ret := board ^ ((e0 as Board) << 0) ^ ((e1 as Board) << 16) ^ ((e2 as Board) << 32) ^ ((e3 as Board) << 48);
      RightLookup(r0, r1, r2, r3);
      RightMoves(board, ret, r0, r1, r2, r3, e0, e1, e2, e3);
    }

    /** `score_heur_board`: the heuristic table over the rows and over the columns. */
    function ScoreHeurBoard(board: Board): (h: real)
      requires Valid()
      ensures RankCells(Cells(board)) && h == HeurBoard(Cells(board), pow35)
    {
      LookupRows(board);
      LookupRows(Transpose(board));
      HeurRows(board, pow35);
      ScoreHelper(board, heurScore) + ScoreHelper(Transpose(board), heurScore)
    }

    /** `score_board`: the score table over the rows, the game score of the board. */
    function ScoreBoard(board: Board): (s: real)
      requires Valid()
      ensures s == BoardScore(Cells(board)) as real
    {
      LookupRows(board);
      ScoreRows(board);
      ScoreHelper(board, score)
    }

    /** The heuristic and score entries of the four rows of a board. */
    lemma LookupRows(b: Board)
      requires Valid()
      ensures heurScore[RowAt(b, 0) as int] == HeurRow(RowRanks(RowAt(b, 0)), pow35)
      ensures heurScore[RowAt(b, 1) as int] == HeurRow(RowRanks(RowAt(b, 1)), pow35)
      ensures heurScore[RowAt(b, 2) as int] == HeurRow(RowRanks(RowAt(b, 2)), pow35)
      ensures heurScore[RowAt(b, 3) as int] == HeurRow(RowRanks(RowAt(b, 3)), pow35)
      ensures score[RowAt(b, 0) as int] == RowScore(RowRanks(RowAt(b, 0))) as real
      ensures score[RowAt(b, 1) as int] == RowScore(RowRanks(RowAt(b, 1))) as real
      ensures score[RowAt(b, 2) as int] == RowScore(RowRanks(RowAt(b, 2))) as real
      ensures score[RowAt(b, 3) as int] == RowScore(RowRanks(RowAt(b, 3))) as real
    {
      ValueLookup(RowAt(b, 0)); ValueLookup(RowAt(b, 1)); ValueLookup(RowAt(b, 2)); ValueLookup(RowAt(b, 3));
    }
  }

  // ---------------------------------------------------------------------------
  // Filling the tables, pass by pass.

  /** `heur_score_table[row]`, as a function of the row, for a given `pow(rank, 3.5)`. */
  function HeurEntry(pow35: nat -> real): Row -> real {
    (x: Row) => HeurRow(RowRanks(x), pow35)
  }

  /** `score_table[row]`, as a function of the row. */
  function ScoreEntry(x: Row): real {
    RowScore(RowRanks(x)) as real
  }

  /** The index a table is written under is the row itself (left, up, heuristic and score tables). */
  function AsIs(x: Row): Row {
    x
  }

  /**
   * After the passes for the rows below `n`, the table holds under the key
   * of each such row the entry of that key: `key` is `AsIs` for the tables
   * written under the row and `ReverseRow` for the right and down tables.
   */
  ghost predicate FilledUnder<T>(a: seq<T>, n: int, key: Row -> Row, entry: Row -> T) {
    |a| == 65536 && forall x: Row | x as int < n :: a[key(x) as int] == entry(key(x))
  }

  /**
   * The pass for row `n` extends a filled table by one row. Two rows with
   * the same key write the same entry, so a later pass never spoils an
   * earlier one.
   */
  lemma FillUnder<T>(a: seq<T>, n: int, key: Row -> Row, entry: Row -> T, v: T)
    requires FilledUnder(a, n, key, entry) && 0 <= n < 65536 && v == entry(key(n as Row))
    ensures FilledUnder(a[key(n as Row) as int := v], n + 1, key, entry)
  {
    var kn := key(n as Row);
    var b := a[kn as int := v];
    forall y: Row | y as int < n + 1
      ensures b[key(y) as int] == entry(key(y))
    {
      var k := key(y);
      RowIntInjective(k, kn);
      if y as int == n {
        RoundTrip(y);
      } else if k as int != kn as int {
        assert a[k as int] == entry(k);
      }
    }
  }

  /** One store of `init_tables`: the entry of pass `row` goes under `key(row)`. */
  method Store<T>(a: array<T>, row: int, key: Row -> Row, ghost entry: Row -> T, v: T)
    requires FilledUnder(a[..], row, key, entry) && 0 <= row < 65536 && v == entry(key(row as Row))
    modifies a
    ensures FilledUnder(a[..], row + 1, key, entry)
  {
    ghost var before := a[..];
    a[key(row as Row) as int] := v;
    FillUnder(before, row, key, entry, v);
    assert a[..] == before[key(row as Row) as int := v];
  }

  /** Every row's index holds that row's entry. */
  ghost predicate Holds<T>(a: seq<T>, entry: Row -> T) {
    |a| == 65536 && forall x: Row {:trigger a[x as int]} :: a[x as int] == entry(x)
  }

  lemma HoldsAt<T>(a: seq<T>, entry: Row -> T, x: Row)
    requires Holds(a, entry)
    ensures a[x as int] == entry(x)
  {
  }

  /** Once every row has had its pass, a table whose key undoes itself holds every row's entry. */
  lemma FilledHolds<T>(a: seq<T>, key: Row -> Row, entry: Row -> T)
    requires FilledUnder(a, 65536, key, entry) && forall y: Row :: key(key(y)) == y
    ensures Holds(a, entry)
  {
    forall y: Row
      ensures a[y as int] == entry(y)
    {
      assert key(key(y)) == y;
      assert a[key(key(y)) as int] == entry(key(key(y)));
    }
  }

  lemma FilledHoldsAsIs<T>(a: seq<T>, entry: Row -> T)
    requires FilledUnder(a, 65536, AsIs, entry)
    ensures Holds(a, entry)
  {
    FilledHolds(a, AsIs, entry);
  }

  lemma FilledHoldsReversed<T>(a: seq<T>, entry: Row -> T)
    requires FilledUnder(a, 65536, ReverseRow, entry)
    ensures Holds(a, entry)
  {
    ReverseRowsInvolution();
    FilledHolds(a, ReverseRow, entry);
  }

  /** Reversing the nibbles of a row twice gives the row back. */
  lemma ReverseRowsInvolution()
    ensures forall y: Row :: ReverseRow(ReverseRow(y)) == y
  {
    forall y: Row
      ensures ReverseRow(ReverseRow(y)) == y
    {
      ReverseRowInvolution(y);
    }
  }

  /** A row's value as an integer determines the row. */
  lemma RowIntInjective(a: Row, b: Row)
    ensures a as int == b as int <==> a == b
  {
    RoundTrip(a);
    RoundTrip(b);
  }

  /** Laying a row out down a column commutes with XOR. */
  lemma ColumnXor(x: Row, y: Row, d: Row)
    requires d == x ^ y
    ensures UnpackCol(x) ^ UnpackCol(y) == UnpackCol(d)
  {
    UnpackColXor(x, y);
  }

  /** What the pass for row `x` with moved row `y` stores under `x` are the entries of `x`. */
  lemma LeftEntries(x: Row, y: Row)
    requires y == LeftRow(x)
    ensures x ^ y == LeftEntry(x) && UnpackCol(x) ^ UnpackCol(y) == UpEntry(x)
  {
    ColumnXor(x, y, x ^ y);
  }

  /** What a pass stores under a row `x` whose right move is `y` are the entries of `x`. */
  lemma RightEntries(x: Row, y: Row)
    requires y == RightRow(x)
    ensures x ^ y == RightEntry(x) && UnpackCol(x) ^ UnpackCol(y) == DownEntry(x)
  {
    ColumnXor(x, y, x ^ y);
  }

  /**
   * What the pass for row `x` with moved row `result` stores under the
   * reversed row are the entries of that reversed row.
   */
  lemma ReversedEntries(x: Row, result: Row, rx: Row, rr: Row)
    requires result == LeftRow(x) && rx == ReverseRow(x) && rr == ReverseRow(result)
    ensures rx ^ rr == RightEntry(rx)
    ensures UnpackCol(rx) ^ UnpackCol(rr) == DownEntry(rx)
  {
    ReversedMove(x, result, rx, rr);
    RightEntries(rx, rr);
  }

  /** Moving the reversed row right gives the reversed moved-left row. */
  lemma ReversedMove(x: Row, result: Row, rx: Row, rr: Row)
    requires result == LeftRow(x) && rx == ReverseRow(x) && rr == ReverseRow(result)
    ensures RightRow(rx) == rr
  {
    ReverseRowInvolution(x);
  }

  /**
   * One pass of `init_tables` for row `row`: the four ranks, the game score,
   * the heuristic value, and the row moved left by the in-place loop.
   */
  method RowEntry(row: Row, pow35: nat -> real) returns (result: Row, heur: real, score: real)
    ensures result == LeftRow(row)
    ensures heur == HeurRow(RowRanks(row), pow35)
    ensures score == RowScore(RowRanks(row)) as real
  {
    var line := new int[4];
    line[0] := ((row >> 0) & 0xf) as int;
    line[1] := ((row >> 4) & 0xf) as int;
    line[2] := ((row >> 8) & 0xf) as int;
    line[3] := ((row >> 12) & 0xf) as int;
    assert line[..] == RowRanks(row);
    score := LineScore(line);
    heur := LineHeuristic(line, pow35);
    MoveLineLeft(line);
    LeftLineShape(RowRanks(row));
    result := Pack(line[..]);
  }

  /** The score loop: `(rank - 1) * (1 << rank)` for each rank from 2 on. */
  method LineScore(line: array<int>) returns (score: real)
    requires line.Length == 4
    ensures score == RowScore(line[..]) as real
  {
    score := 0.0;
    for i := 0 to 4
      invariant score == ScoreBefore(line[..], i) as real
    {
      var rank := line[i];
      if rank >= 2 {
        score := score + ((rank - 1) * Pow2(rank)) as real;
      }
    }
  }

  /**
   * The heuristic loops: the rank-power sum, the empty cells and the merge
   * count in one pass (a run of equal ranks is counted into `merges` when it
   * ends), then the two monotonicity sums.
   */
  method LineHeuristic(line: array<int>, pow35: nat -> real) returns (heur: real)
    requires line.Length == 4 && RankLine(line[..])
    ensures heur == HeurRow(line[..], pow35)
  {
    ghost var s := line[..];
    var sum := 0.0;
    var empty := 0;
    var merges := 0;
    var prev := 0;
    var counter := 0;
    for i := 0 to 4
      invariant sum == RankPowerSum(s, i, pow35) && empty == EmptyBefore(s, i)
      invariant ScanState(TilesBefore(s, i), prev, counter, merges)
    {
      var rank := line[i];
      assert rank == s[i];
      sum := sum + pow35(rank);
      if rank == 0 {
        assert TilesBefore(s, i + 1) == TilesBefore(s, i);
        empty := empty + 1;
      } else {
        assert TilesBefore(s, i + 1) == TilesBefore(s, i) + [rank];
        ScanStep(TilesBefore(s, i), rank, prev, counter, merges);
        if prev == rank {
          counter := counter + 1;
        } else if counter > 0 {
          merges := merges + 1 + counter;
          counter := 0;
        }
        prev := rank;
      }
    }
    if counter > 0 {
      merges := merges + 1 + counter;
    }

    var monotonicityLeft := 0;
    var monotonicityRight := 0;
    for i := 1 to 4
      invariant monotonicityLeft == RankMonoLeft(s, i) && monotonicityRight == RankMonoRight(s, i)
    {
      if line[i - 1] > line[i] {
        monotonicityLeft := monotonicityLeft + Pow4(line[i - 1]) - Pow4(line[i]);
      } else {
        monotonicityRight := monotonicityRight + Pow4(line[i]) - Pow4(line[i - 1]);
      }
    }

    heur := SCORE_LOST_PENALTY
      + SCORE_EMPTY_WEIGHT * empty as real
      + SCORE_MERGES_WEIGHT * merges as real
      - SCORE_MONOTONICITY_WEIGHT * Min(monotonicityLeft, monotonicityRight) as real
      - SCORE_SUM_WEIGHT * sum;
  }

  // ---------------------------------------------------------------------------
  // execute_move (2048.cpp:231-290): the XOR of the entries is the move.

  /** Four row entries XOR-ed onto the rows of `b` give the rows the entries lead to. */
  lemma RowXors(b: Board, r0: Row, r1: Row, r2: Row, r3: Row, y0: Row, y1: Row, y2: Row, y3: Row,
                e0: Row, e1: Row, e2: Row, e3: Row)
    requires r0 == RowAt(b, 0) && r1 == RowAt(b, 1) && r2 == RowAt(b, 2) && r3 == RowAt(b, 3)
    requires e0 == r0 ^ y0 && e1 == r1 ^ y1 && e2 == r2 ^ y2 && e3 == r3 ^ y3
    ensures b ^ ((e0 as Board) << 0) ^ ((e1 as Board) << 16) ^ ((e2 as Board) << 32) ^ ((e3 as Board) << 48)
      == JoinBits(y0, y1, y2, y3)
  {
    JoinRows(b);
  }

  lemma LeftBoardRows(b: Board)
    ensures LeftBoard(b) == JoinBits(LeftRow(RowAt(b, 0)), LeftRow(RowAt(b, 1)), LeftRow(RowAt(b, 2)), LeftRow(RowAt(b, 3)))
  {
  }

  lemma RightBoardRows(b: Board)
    ensures RightBoard(b) == JoinBits(RightRow(RowAt(b, 0)), RightRow(RowAt(b, 1)), RightRow(RowAt(b, 2)), RightRow(RowAt(b, 3)))
  {
  }

  /** A left-move entry is the row XOR its moved row. */
  lemma LeftEntryXor(x: Row, y: Row, e: Row)
    requires y == LeftRow(x) && e == LeftEntry(x)
    ensures e == x ^ y
  {
  }

  /** A right-move entry is the row XOR its moved row. */
  lemma RightEntryXor(x: Row, y: Row, e: Row)
    requires y == RightRow(x) && e == RightEntry(x)
    ensures e == x ^ y
  {
  }

  /** The left-move entries of the rows of `b`, XOR-ed onto `b`, give the board moved left. */
  lemma LeftMoves(b: Board, ret: Board, r0: Row, r1: Row, r2: Row, r3: Row, e0: Row, e1: Row, e2: Row, e3: Row)
    requires r0 == RowAt(b, 0) && r1 == RowAt(b, 1) && r2 == RowAt(b, 2) && r3 == RowAt(b, 3)
    requires e0 == LeftEntry(r0) && e1 == LeftEntry(r1) && e2 == LeftEntry(r2) && e3 == LeftEntry(r3)
    requires ret == b ^ ((e0 as Board) << 0) ^ ((e1 as Board) << 16) ^ ((e2 as Board) << 32) ^ ((e3 as Board) << 48)
    ensures ret == MoveBoard(2, b)
  {
    var y0, y1, y2, y3 := LeftRow(r0), LeftRow(r1), LeftRow(r2), LeftRow(r3);
    LeftEntryXor(r0, y0, e0); LeftEntryXor(r1, y1, e1); LeftEntryXor(r2, y2, e2); LeftEntryXor(r3, y3, e3);
    RowXors(b, r0, r1, r2, r3, y0, y1, y2, y3, e0, e1, e2, e3);
    LeftBoardRows(b);
  }

  /** The right-move entries of the rows of `b`, XOR-ed onto `b`, give the board moved right. */
  lemma RightMoves(b: Board, ret: Board, r0: Row, r1: Row, r2: Row, r3: Row, e0: Row, e1: Row, e2: Row, e3: Row)
    requires r0 == RowAt(b, 0) && r1 == RowAt(b, 1) && r2 == RowAt(b, 2) && r3 == RowAt(b, 3)
    requires e0 == RightEntry(r0) && e1 == RightEntry(r1) && e2 == RightEntry(r2) && e3 == RightEntry(r3)
    requires ret == b ^ ((e0 as Board) << 0) ^ ((e1 as Board) << 16) ^ ((e2 as Board) << 32) ^ ((e3 as Board) << 48)
    ensures ret == MoveBoard(3, b)
  {
    var y0, y1, y2, y3 := RightRow(r0), RightRow(r1), RightRow(r2), RightRow(r3);
    RightEntryXor(r0, y0, e0); RightEntryXor(r1, y1, e1); RightEntryXor(r2, y2, e2); RightEntryXor(r3, y3, e3);
    RowXors(b, r0, r1, r2, r3, y0, y1, y2, y3, e0, e1, e2, e3);
    RightBoardRows(b);
  }

  /** The four column entries shifted into columns 0..3: `c0 << 0 ^ c1 << 4 ^ c2 << 8 ^ c3 << 12`. */
  function PlaceColumns(c0: Board, c1: Board, c2: Board, c3: Board): Board {
    c0 ^ (c1 << 4) ^ (c2 << 8) ^ (c3 << 12)
  }

  /** Transposing moves bits, so it commutes with XOR. */
  lemma TransposeXor(x: Board, y: Board)
    ensures Transpose(x ^ y) == Transpose(x) ^ Transpose(y)
  {
  }

  lemma UnpackColXor(x: Row, y: Row)
    ensures UnpackCol(x ^ y) == UnpackCol(x) ^ UnpackCol(y)
  {
  }

  lemma PlacedColumns(d0: Row, d1: Row, d2: Row, d3: Row)
    ensures PlaceColumns(UnpackCol(d0), UnpackCol(d1), UnpackCol(d2), UnpackCol(d3)) == Transpose(JoinBits(d0, d1, d2, d3))
  {
    UnpackColumns(d0, d1, d2, d3);
  }

  lemma JoinXor(r0: Row, r1: Row, r2: Row, r3: Row, y0: Row, y1: Row, y2: Row, y3: Row)
    ensures JoinBits(r0, r1, r2, r3) ^ JoinBits(r0 ^ y0, r1 ^ y1, r2 ^ y2, r3 ^ y3) == JoinBits(y0, y1, y2, y3)
  {
  }

  /** XOR-ing the differences `d_i = r_i ^ y_i` onto the rows `r_i` of `t` leaves the rows `y_i`. */
  lemma RowsDiff(t: Board, t0: Row, t1: Row, t2: Row, t3: Row, y0: Row, y1: Row, y2: Row, y3: Row,
                 d0: Row, d1: Row, d2: Row, d3: Row, p: Board, q: Board)
    requires t0 == RowAt(t, 0) && t1 == RowAt(t, 1) && t2 == RowAt(t, 2) && t3 == RowAt(t, 3)
    requires d0 == t0 ^ y0 && d1 == t1 ^ y1 && d2 == t2 ^ y2 && d3 == t3 ^ y3
    requires p == JoinBits(d0, d1, d2, d3) && q == JoinBits(y0, y1, y2, y3)
    ensures t ^ p == q
  {
    JoinRows(t);
    JoinXor(t0, t1, t2, t3, y0, y1, y2, y3);
  }

  /** The left-move entries of the rows of `t`, joined into a board and XOR-ed onto `t`, give `t` moved left. */
  lemma RowsLeft(t: Board, t0: Row, t1: Row, t2: Row, t3: Row, d0: Row, d1: Row, d2: Row, d3: Row, p: Board)
    requires t0 == RowAt(t, 0) && t1 == RowAt(t, 1) && t2 == RowAt(t, 2) && t3 == RowAt(t, 3)
    requires d0 == LeftEntry(t0) && d1 == LeftEntry(t1) && d2 == LeftEntry(t2) && d3 == LeftEntry(t3)
    requires p == JoinBits(d0, d1, d2, d3)
    ensures t ^ p == LeftBoard(t)
  {
    var y0, y1, y2, y3 := LeftRow(t0), LeftRow(t1), LeftRow(t2), LeftRow(t3);
    LeftEntryXor(t0, y0, d0); LeftEntryXor(t1, y1, d1); LeftEntryXor(t2, y2, d2); LeftEntryXor(t3, y3, d3);
    RowsDiff(t, t0, t1, t2, t3, y0, y1, y2, y3, d0, d1, d2, d3, p, JoinBits(y0, y1, y2, y3));
    LeftBoardRows(t);
  }

  /** The right-move entries of the rows of `t`, joined into a board and XOR-ed onto `t`, give `t` moved right. */
  lemma RowsRight(t: Board, t0: Row, t1: Row, t2: Row, t3: Row, d0: Row, d1: Row, d2: Row, d3: Row, p: Board)
    requires t0 == RowAt(t, 0) && t1 == RowAt(t, 1) && t2 == RowAt(t, 2) && t3 == RowAt(t, 3)
    requires d0 == RightEntry(t0) && d1 == RightEntry(t1) && d2 == RightEntry(t2) && d3 == RightEntry(t3)
    requires p == JoinBits(d0, d1, d2, d3)
    ensures t ^ p == RightBoard(t)
  {
    var y0, y1, y2, y3 := RightRow(t0), RightRow(t1), RightRow(t2), RightRow(t3);
    RightEntryXor(t0, y0, d0); RightEntryXor(t1, y1, d1); RightEntryXor(t2, y2, d2); RightEntryXor(t3, y3, d3);
    RowsDiff(t, t0, t1, t2, t3, y0, y1, y2, y3, d0, d1, d2, d3, p, JoinBits(y0, y1, y2, y3));
    RightBoardRows(t);
  }

  /** Row differences laid out as columns and XOR-ed onto `b` are the transposed rows XOR-ed onto `b`. */
  lemma ColumnsPlaced(b: Board, ret: Board, d0: Row, d1: Row, d2: Row, d3: Row, e0: Board, e1: Board, e2: Board, e3: Board)
    requires ret == b ^ PlaceColumns(e0, e1, e2, e3)
    requires e0 == UnpackCol(d0) && e1 == UnpackCol(d1) && e2 == UnpackCol(d2) && e3 == UnpackCol(d3)
    ensures ret == b ^ Transpose(JoinBits(d0, d1, d2, d3))
  {
    PlacedColumns(d0, d1, d2, d3);
  }

  /** XOR-ing a transposed board onto `b` is transposing the XOR onto the transpose `t` of `b`. */
  lemma TransposedXor(b: Board, t: Board, p: Board, q: Board, ret: Board)
    requires t == Transpose(b) && ret == b ^ Transpose(p) && t ^ p == q
    ensures ret == Transpose(q)
  {
    TransposeInvolution(b);
    TransposeXor(t, p);
  }

  /**
   * Row differences laid out as columns and XOR-ed onto `b` are the transpose
   * of the same differences XOR-ed onto the rows of `Transpose(b)`.
   */
  lemma ColumnsMoved(b: Board, ret: Board, t: Board, e0: Board, e1: Board, e2: Board, e3: Board,
                     d0: Row, d1: Row, d2: Row, d3: Row, p: Board)
    requires t == Transpose(b)
    requires e0 == UnpackCol(d0) && e1 == UnpackCol(d1) && e2 == UnpackCol(d2) && e3 == UnpackCol(d3)
    requires ret == b ^ PlaceColumns(e0, e1, e2, e3)
    requires p == JoinBits(d0, d1, d2, d3)
    ensures ret == Transpose(t ^ p)
  {
    ColumnsPlaced(b, ret, d0, d1, d2, d3, e0, e1, e2, e3);
    TransposedXor(b, t, p, t ^ p, ret);
  }

  /** The `col_up_table` entries are the left-move entries as columns. */
  lemma UpEntries(t0: Row, t1: Row, t2: Row, t3: Row, d0: Row, d1: Row, d2: Row, d3: Row, e0: Board, e1: Board, e2: Board, e3: Board)
    requires d0 == LeftEntry(t0) && d1 == LeftEntry(t1) && d2 == LeftEntry(t2) && d3 == LeftEntry(t3)
    requires e0 == UpEntry(t0) && e1 == UpEntry(t1) && e2 == UpEntry(t2) && e3 == UpEntry(t3)
    ensures e0 == UnpackCol(d0) && e1 == UnpackCol(d1) && e2 == UnpackCol(d2) && e3 == UnpackCol(d3)
  {
  }

  /** The `col_down_table` entries are the right-move entries as columns. */
  lemma DownEntries(t0: Row, t1: Row, t2: Row, t3: Row, d0: Row, d1: Row, d2: Row, d3: Row, e0: Board, e1: Board, e2: Board, e3: Board)
    requires d0 == RightEntry(t0) && d1 == RightEntry(t1) && d2 == RightEntry(t2) && d3 == RightEntry(t3)
    requires e0 == DownEntry(t0) && e1 == DownEntry(t1) && e2 == DownEntry(t2) && e3 == DownEntry(t3)
    ensures e0 == UnpackCol(d0) && e1 == UnpackCol(d1) && e2 == UnpackCol(d2) && e3 == UnpackCol(d3)
  {
  }

  /** The up-move entries of the columns of `b`, XOR-ed onto `b`, give the board moved up. */
  lemma UpMoves(b: Board, ret: Board, t: Board, t0: Row, t1: Row, t2: Row, t3: Row, e0: Board, e1: Board, e2: Board, e3: Board)
    requires t == Transpose(b)
    requires t0 == RowAt(t, 0) && t1 == RowAt(t, 1) && t2 == RowAt(t, 2) && t3 == RowAt(t, 3)
    requires e0 == UpEntry(t0) && e1 == UpEntry(t1) && e2 == UpEntry(t2) && e3 == UpEntry(t3)
    requires ret == b ^ PlaceColumns(e0, e1, e2, e3)
    ensures ret == MoveBoard(0, b)
  {
    var d0, d1, d2, d3 := LeftEntry(t0), LeftEntry(t1), LeftEntry(t2), LeftEntry(t3);
    UpEntries(t0, t1, t2, t3, d0, d1, d2, d3, e0, e1, e2, e3);
    var p := JoinBits(d0, d1, d2, d3);
    ColumnsMoved(b, ret, t, e0, e1, e2, e3, d0, d1, d2, d3, p);
    RowsLeft(t, t0, t1, t2, t3, d0, d1, d2, d3, p);
  }

  /** The down-move entries of the columns of `b`, XOR-ed onto `b`, give the board moved down. */
  lemma DownMoves(b: Board, ret: Board, t: Board, t0: Row, t1: Row, t2: Row, t3: Row, e0: Board, e1: Board, e2: Board, e3: Board)
    requires t == Transpose(b)
    requires t0 == RowAt(t, 0) && t1 == RowAt(t, 1) && t2 == RowAt(t, 2) && t3 == RowAt(t, 3)
    requires e0 == DownEntry(t0) && e1 == DownEntry(t1) && e2 == DownEntry(t2) && e3 == DownEntry(t3)
    requires ret == b ^ PlaceColumns(e0, e1, e2, e3)
    ensures ret == MoveBoard(1, b)
  {
    var d0, d1, d2, d3 := RightEntry(t0), RightEntry(t1), RightEntry(t2), RightEntry(t3);
    DownEntries(t0, t1, t2, t3, d0, d1, d2, d3, e0, e1, e2, e3);
    var p := JoinBits(d0, d1, d2, d3);
    ColumnsMoved(b, ret, t, e0, e1, e2, e3, d0, d1, d2, d3, p);
    RowsRight(t, t0, t1, t2, t3, d0, d1, d2, d3, p);
  }

  // ---------------------------------------------------------------------------
  // score_helper, score_heur_board, score_board (2048.cpp:362-384).

  /** `score_helper`: the table entries of the four rows, added up. */
  function ScoreHelper(board: Board, table: seq<real>): real
    requires |table| == 65536
  {
    table[RowAt(board, 0) as int] + table[RowAt(board, 1) as int]
      + table[RowAt(board, 2) as int] + table[RowAt(board, 3) as int]
  }

  /** The heuristic value of a board is that of its rows and of the rows of its transpose. */
  lemma HeurRows(b: Board, pow35: nat -> real)
    ensures RankCells(Cells(b))
    ensures HeurBoard(Cells(b), pow35)
      == HeurRow(RowRanks(RowAt(b, 0)), pow35) + HeurRow(RowRanks(RowAt(b, 1)), pow35)
       + HeurRow(RowRanks(RowAt(b, 2)), pow35) + HeurRow(RowRanks(RowAt(b, 3)), pow35)
       + HeurRow(RowRanks(RowAt(Transpose(b), 0)), pow35) + HeurRow(RowRanks(RowAt(Transpose(b), 1)), pow35)
       + HeurRow(RowRanks(RowAt(Transpose(b), 2)), pow35) + HeurRow(RowRanks(RowAt(Transpose(b), 3)), pow35)
  {
    CellsRanks(b);
    RowsCells(b);
    RowsCells(Transpose(b));
  }

  /** The game score of a board is that of its four rows. */
  lemma ScoreRows(b: Board)
    ensures BoardScore(Cells(b))
      == RowScore(RowRanks(RowAt(b, 0))) + RowScore(RowRanks(RowAt(b, 1)))
       + RowScore(RowRanks(RowAt(b, 2))) + RowScore(RowRanks(RowAt(b, 3)))
  {
    RowsCells(b);
  }

  /** The heuristic value of a board: its four rows and its four columns. */
  function HeurBoard(s: seq<int>, pow35: nat -> real): real
    requires RankCells(s)
  {
    var t := TransposeCells(s);
    TransposeRanks(s);
    HeurRow(s[0..4], pow35) + HeurRow(s[4..8], pow35) + HeurRow(s[8..12], pow35) + HeurRow(s[12..16], pow35)
      + HeurRow(t[0..4], pow35) + HeurRow(t[4..8], pow35) + HeurRow(t[8..12], pow35) + HeurRow(t[12..16], pow35)
  }

  /** The game score of a board: the score of each of its sixteen tiles. */
  function BoardScore(s: seq<int>): nat
    requires |s| == 16
  {
    RowScore(s[0..4]) + RowScore(s[4..8]) + RowScore(s[8..12]) + RowScore(s[12..16])
  }
}
