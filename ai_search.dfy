/**
 * The `AI2048` class of 2048ai.js: the line heuristic, the board evaluation
 * and the expectimax search with its transposition table.
 *
 * The search is specified by four mutually recursive functions that thread
 * the table and the two counters through the search in the order the class
 * visits the nodes; every method is proved to return the value, and to leave
 * the table and counters in the state, that these functions give.
 */
module AiSearch {
  import opened Wrappers
  import opened GridSpec
  import opened AiHeuristic
  import opened AiBoard

  const SEARCH_DEPTH := 2
  const CPROB_THRESHOLD: real := 0.0001
  /** The chances that a new tile is a 2 or a 4. */
  const TILE_2_PROB: real := 0.9
  const TILE_4_PROB: real := 0.1

  /** The search state the class keeps in fields: the table and the two counters. */
  datatype Stats = Stats(table: map<string, real>, evaluated: int, hits: int)

  /** A node's value together with the search state after it. */
  datatype Scored = Scored(value: real, stats: Stats)

  /** One entry of `moveScores`; an invalid direction has no details and no board. */
  datatype MoveScore = MoveScore(move: int, score: real, details: Option<Details>,
                                 boardAfterMove: Option<Grid>, valid: bool)

  /** `moveDetails`: empty until `getBestMove` fills it in. */
  datatype MoveReport = NoReport | Report(bestMove: int, moveScores: seq<MoveScore>, currentBoard: Grid)

  /** The four top-level entries and the table left after them. */
  datatype Round = Round(scores: seq<MoveScore>, table: map<string, real>)

  /**
   * The static evaluation the search uses at its leaves: `evaluateBoard`'s
   * score. The search functions below take it as a parameter `eval`.
   */
  function Evaluator(pow35: nat -> real): (eval: Grid -> real)
    ensures forall g {:trigger eval(g)} :: IsGrid(g) && AllTiles(g) ==> eval(g) == BoardEvaluation(g, pow35).score
  {
    (g: Grid) => if IsGrid(g) && AllTiles(g) then BoardEvaluation(g, pow35).score else 0.0
  }

  function RealMax(a: real, b: real): (m: real)
    ensures m >= a && m >= b && (m == a || m == b)
  {
    if a >= b then a else b
  }

  /** The grid with one cell replaced (`board.set(row, col, v)`). */
  function Place(g: Grid, p: Pos, v: int): (h: Grid)
    requires IsGrid(g) && OnBoard(p)
    ensures IsGrid(h) && h[p.row][p.col] == v
    ensures forall r, c :: 0 <= r < 4 && 0 <= c < 4 && (r, c) != (p.row, p.col) ==> h[r][c] == g[r][c]
  {
    g[p.row := g[p.row][p.col := v]]
  }

  lemma PlaceTile(g: Grid, p: Pos, v: int)
    requires IsGrid(g) && AllTiles(g) && OnBoard(p) && IsTile(v)
    ensures AllTiles(Place(g, p, v))
  {
  }

  /** Writing a value back over a cell undoes the earlier write there. */
  lemma PlaceRestore(g: Grid, p: Pos, v: int)
    requires IsGrid(g) && OnBoard(p)
    ensures Place(Place(g, p, v), p, g[p.row][p.col]) == g
  {
    var h := Place(Place(g, p, v), p, g[p.row][p.col]);
    assert forall r :: 0 <= r < 4 ==> h[r] == g[r];
  }

  /** A second write over the same cell replaces the first. */
  lemma PlaceTwice(g: Grid, p: Pos, v: int, w: int)
    requires IsGrid(g) && OnBoard(p)
    ensures Place(Place(g, p, v), p, w) == Place(g, p, w)
  {
    var h := Place(Place(g, p, v), p, w);
    assert forall r :: 0 <= r < 4 ==> h[r] == Place(g, p, w)[r];
  }

  /** The value of one empty cell, given the values of its two move nodes. */
  lemma CellStepOf(g: Grid, pos: Pos, p: real, depth: int, sd: int, prev: Scored, eval: Grid -> real, a: Scored, b: Scored)
    requires IsGrid(g) && AllTiles(g) && OnBoard(pos) && depth < sd
    requires AllTiles(Place(g, pos, 2)) && AllTiles(Place(g, pos, 4))
    requires a == MoveNode(Place(g, pos, 2), p * TILE_2_PROB, depth, sd, prev.stats, eval)
    requires b == MoveNode(Place(g, pos, 4), p * TILE_4_PROB, depth, sd, a.stats, eval)
    ensures CellStep(g, pos, p, depth, sd, prev, eval)
         == Scored(prev.value + TILE_2_PROB * a.value + TILE_4_PROB * b.value, b.stats)
  {
  }

  /** The move node's value, given the maximum over the directions. */
  lemma MoveNodeOf(g: Grid, prob: real, depth: int, sd: int, st: Stats, eval: Grid -> real, r: Scored)
    requires IsGrid(g) && AllTiles(g) && depth < sd
    requires r == MoveMax(g, 0, 0.0, prob, depth + 1, sd, st.(evaluated := st.evaluated + 1), eval)
    ensures MoveNode(g, prob, depth, sd, st, eval) == if r.value == 0.0 then Scored(eval(g), r.stats) else r
  {
  }

  lemma TilesNonNegative(g: Grid)
    requires IsGrid(g) && AllTiles(g)
    ensures NonNegative(g)
  {
  }

  // ---------------------------------------------------------------------------
  // The search, node by node.

  /**
   * `scoreTileChooseNode`: below the probability threshold or at the depth
   * limit, the static evaluation; a board already in the table, the stored
   * value (counted as a hit); a full board, the static evaluation; otherwise
   * the average over the empty cells of 0.9 times the value with a 2 placed
   * there plus 0.1 times the value with a 4, which is then stored.
   */
  function ChanceNode(g: Grid, prob: real, depth: int, sd: int, st: Stats, eval: Grid -> real): Scored
    requires IsGrid(g) && AllTiles(g)
    decreases sd - depth, 2, 0, g
  {
    if prob < CPROB_THRESHOLD || depth >= sd then Scored(eval(g), st)
    else
      TilesNonNegative(g);
      var key := Hash(g);
      if key in st.table then Scored(st.table[key], st.(hits := st.hits + 1))
      else
        var es := EmptyPositions(g);
        if |es| == 0 then Scored(eval(g), st)
        else
          EmptyPositionsSpec(g);
          var r := TileSum(g, es, |es|, prob / (|es| as real), depth, sd, st, eval);
          var avg := r.value / (|es| as real);
          Scored(avg, r.stats.(table := r.stats.table[key := avg]))
  }

  /**
   * The running total after the first `k` empty cells of `es`, and the
   * search state after them.
   */
  function TileSum(g: Grid, es: seq<Pos>, k: int, p: real, depth: int, sd: int,
                   st: Stats, eval: Grid -> real): Scored
    requires IsGrid(g) && AllTiles(g) && AllOnBoard(es) && 0 <= k <= |es| && depth < sd
    decreases sd - depth, 1, k, g
  {
    if k == 0 then Scored(0.0, st)
    else CellStep(g, es[k - 1], p, depth, sd, TileSum(g, es, k - 1, p, depth, sd, st, eval), eval)
  }

  /**
   * One empty cell `pos` added to the running total `prev`: 0.9 times the
   * move-node value with a 2 there, then 0.1 times the value with a 4 there.
   */
  function CellStep(g: Grid, pos: Pos, p: real, depth: int, sd: int, prev: Scored, eval: Grid -> real): Scored
    requires IsGrid(g) && AllTiles(g) && OnBoard(pos) && depth < sd
    decreases sd - depth, 0, 6, g
  {
    PlaceTile(g, pos, 2);
    PlaceTile(g, pos, 4);
    var a := MoveNode(Place(g, pos, 2), p * TILE_2_PROB, depth, sd, prev.stats, eval);
    var b := MoveNode(Place(g, pos, 4), p * TILE_4_PROB, depth, sd, a.stats, eval);
    Scored(prev.value + TILE_2_PROB * a.value + TILE_4_PROB * b.value, b.stats)
  }

  /**
   * `scoreMoveNode`: one level deeper, counted as evaluated; the largest
   * value over the directions that change the board, starting from 0, and
   * the static evaluation when that largest value is exactly 0.
   */
  function MoveNode(g: Grid, prob: real, depth: int, sd: int, st: Stats, eval: Grid -> real): Scored
    requires IsGrid(g) && AllTiles(g) && depth < sd
    decreases sd - depth, 0, 5, g
  {
    var r := MoveMax(g, 0, 0.0, prob, depth + 1, sd, st.(evaluated := st.evaluated + 1), eval);
    if r.value == 0.0 then Scored(eval(g), r.stats) else r
  }

  /** The maximum of `best` and the chance values of the directions `m..3` that change the board. */
  function MoveMax(g: Grid, m: int, best: real, prob: real, depth: int, sd: int, st: Stats,
                   eval: Grid -> real): Scored
    requires IsGrid(g) && AllTiles(g) && 0 <= m <= 4 && depth <= sd
    decreases sd - depth + 1, 0, 4 - m, g
  {
    if m == 4 then Scored(best, st)
    else
      var h := MoveGrid(g, m);
      MoveGridTiles(g, m);
      if h != g then
        var r := ChanceNode(h, prob, depth, sd, st, eval);
        MoveMax(g, m + 1, RealMax(best, r.value), prob, depth, sd, r.stats, eval)
      else
        MoveMax(g, m + 1, best, prob, depth, sd, st, eval)
  }

  /**
   * The search `getBestMove` runs on the board a direction leads to: a
   * chance node at depth 0 with probability 1, fresh counters and the table
   * the earlier directions left.
   */
  function RootSearch(pow35: nat -> real): (search: (Grid, map<string, real>) -> Scored)
    ensures forall h, table {:trigger search(h, table)} :: IsGrid(h) && AllTiles(h) ==>
      search(h, table) == ChanceNode(h, 1.0, 0, SEARCH_DEPTH, Stats(table, 0, 0), Evaluator(pow35))
  {
    (h: Grid, table: map<string, real>) =>
      if IsGrid(h) && AllTiles(h) then ChanceNode(h, 1.0, 0, SEARCH_DEPTH, Stats(table, 0, 0), Evaluator(pow35))
      else Scored(0.0, Stats(table, 0, 0))
  }

  /** The evaluation details `getBestMove` records for the board a direction leads to. */
  function RootDetails(pow35: nat -> real): (details: Grid -> Details)
    ensures forall h {:trigger details(h)} :: IsGrid(h) && AllTiles(h) ==> details(h) == BoardEvaluation(h, pow35).details
  {
    (h: Grid) => if IsGrid(h) && AllTiles(h) then BoardEvaluation(h, pow35).details else NoDetails
  }

  /**
   * One direction of `getBestMove`'s loop, with the table it leaves behind:
   * a direction that changes the board is scored by `search` (the table
   * carries over) and carries the `details` of the board it leads to; any other is not
   * valid, scores -1 and leaves the table alone.
   */
  function MoveEntry(g: Grid, m: int, table: map<string, real>, search: (Grid, map<string, real>) -> Scored,
                     details: Grid -> Details): (e: (MoveScore, map<string, real>))
    requires IsGrid(g) && AllTiles(g) && 0 <= m < 4
    ensures e.0.move == m && (e.0.valid <==> MoveGrid(g, m) != g)
    ensures !e.0.valid ==> e.0.score == -1.0 && e.1 == table
  {
    var h := MoveGrid(g, m);
    if h != g then
      var r := search(h, table);
      (MoveScore(m, r.value, Some(details(h)), Some(h), true), r.stats.table)
    else
      (MoveScore(m, -1.0, None, None, false), table)
  }

  /** The entries of directions `0..n-1`, in order, and the table after them. */
  function TopLevel(g: Grid, n: int, table: map<string, real>, search: (Grid, map<string, real>) -> Scored,
                    details: Grid -> Details): Round
    requires IsGrid(g) && AllTiles(g) && 0 <= n <= 4
    decreases n, g
  {
    if n == 0 then Round([], table)
    else
      var prev := TopLevel(g, n - 1, table, search, details);
      var e := MoveEntry(g, n - 1, prev.table, search, details);
      Round(prev.scores + [e.0], e.1)
  }

  /**
   * The choice `getBestMove` makes: -1 when no valid direction scores above
   * -1; otherwise a valid direction whose score beats -1, is the largest,
   * and is strictly larger than that of every valid direction before it.
   */
  predicate IsBestMove(scores: seq<MoveScore>, b: int) {
    (b == -1 && forall j :: 0 <= j < |scores| && scores[j].valid ==> scores[j].score <= -1.0) ||
    (0 <= b < |scores| && scores[b].valid && scores[b].score > -1.0 &&
     (forall j :: 0 <= j < |scores| && scores[j].valid ==> scores[j].score <= scores[b].score) &&
     (forall j :: 0 <= j < b && scores[j].valid ==> scores[j].score < scores[b].score))
  }

  /**
   * The running choice of `getBestMove`'s loop after the entries `scores`:
   * the best direction so far and its score, from -1 and -1; an entry takes
   * over only when it is valid and strictly better.
   */
  function Choice(scores: seq<MoveScore>): (int, real)
  {
    if scores == [] then (-1, -1.0)
    else
      var prev := Choice(scores[..|scores| - 1]);
      var e := scores[|scores| - 1];
      if e.valid && e.score > prev.1 then (|scores| - 1, e.score) else prev
  }

  // ---------------------------------------------------------------------------
  // Properties of the search.

  /** The table only gains entries and the counters only grow. */
  predicate Keeps(a: Stats, b: Stats) {
    (forall k :: k in a.table ==> k in b.table && b.table[k] == a.table[k]) &&
    a.evaluated <= b.evaluated && a.hits <= b.hits
  }

  lemma KeepsTrans(a: Stats, b: Stats, c: Stats)
    requires Keeps(a, b) && Keeps(b, c)
    ensures Keeps(a, c)
  {
  }

  /**
   * A stored value is never overwritten: the search only adds a board to
   * the table when the board was not in it on entry.
   */
  lemma {:induction false} ChanceKeeps(g: Grid, prob: real, depth: int, sd: int, st: Stats, eval: Grid -> real)
    requires IsGrid(g) && AllTiles(g)
    ensures Keeps(st, ChanceNode(g, prob, depth, sd, st, eval).stats)
    decreases sd - depth, 2, 0
  {
    if prob < CPROB_THRESHOLD || depth >= sd {
    } else {
      TilesNonNegative(g);
      var key := Hash(g);
      if key !in st.table {
        var es := EmptyPositions(g);
        if |es| > 0 {
          EmptyPositionsSpec(g);
          TileSumKeeps(g, es, |es|, prob / (|es| as real), depth, sd, st, eval);
        }
      }
    }
  }

  lemma {:induction false} TileSumKeeps(g: Grid, es: seq<Pos>, k: int, p: real, depth: int, sd: int,
                                        st: Stats, eval: Grid -> real)
    requires IsGrid(g) && AllTiles(g) && AllOnBoard(es) && 0 <= k <= |es| && depth < sd
    ensures Keeps(st, TileSum(g, es, k, p, depth, sd, st, eval).stats)
    decreases sd - depth, 1, k
  {
    if k > 0 {
      var prev := TileSum(g, es, k - 1, p, depth, sd, st, eval);
      TileSumKeeps(g, es, k - 1, p, depth, sd, st, eval);
      CellStepKeeps(g, es[k - 1], p, depth, sd, prev, eval);
      KeepsTrans(st, prev.stats, TileSum(g, es, k, p, depth, sd, st, eval).stats);
    }
  }

  lemma {:induction false} CellStepKeeps(g: Grid, pos: Pos, p: real, depth: int, sd: int, prev: Scored,
                                         eval: Grid -> real)
    requires IsGrid(g) && AllTiles(g) && OnBoard(pos) && depth < sd
    ensures Keeps(prev.stats, CellStep(g, pos, p, depth, sd, prev, eval).stats)
    decreases sd - depth, 0, 6
  {
    PlaceTile(g, pos, 2);
    PlaceTile(g, pos, 4);
    var a := MoveNode(Place(g, pos, 2), p * TILE_2_PROB, depth, sd, prev.stats, eval);
    MoveNodeKeeps(Place(g, pos, 2), p * TILE_2_PROB, depth, sd, prev.stats, eval);
    MoveNodeKeeps(Place(g, pos, 4), p * TILE_4_PROB, depth, sd, a.stats, eval);
    KeepsTrans(prev.stats, a.stats, CellStep(g, pos, p, depth, sd, prev, eval).stats);
  }

  lemma {:induction false} MoveNodeKeeps(g: Grid, prob: real, depth: int, sd: int, st: Stats, eval: Grid -> real)
    requires IsGrid(g) && AllTiles(g) && depth < sd
    ensures Keeps(st, MoveNode(g, prob, depth, sd, st, eval).stats)
    ensures MoveNode(g, prob, depth, sd, st, eval).stats.evaluated > st.evaluated
    decreases sd - depth, 0, 5
  {
    var st1 := st.(evaluated := st.evaluated + 1);
    MoveMaxKeeps(g, 0, 0.0, prob, depth + 1, sd, st1, eval);
    KeepsTrans(st, st1, MoveMax(g, 0, 0.0, prob, depth + 1, sd, st1, eval).stats);
  }

  lemma {:induction false} MoveMaxKeeps(g: Grid, m: int, best: real, prob: real, depth: int, sd: int, st: Stats,
                                        eval: Grid -> real)
    requires IsGrid(g) && AllTiles(g) && 0 <= m <= 4 && depth <= sd
    ensures Keeps(st, MoveMax(g, m, best, prob, depth, sd, st, eval).stats)
    ensures MoveMax(g, m, best, prob, depth, sd, st, eval).value >= best
    decreases sd - depth + 1, 0, 4 - m
  {
    if m < 4 {
      var h := MoveGrid(g, m);
      MoveGridTiles(g, m);
      if h != g {
        var r := ChanceNode(h, prob, depth, sd, st, eval);
        ChanceKeeps(h, prob, depth, sd, st, eval);
        MoveMaxKeeps(g, m + 1, RealMax(best, r.value), prob, depth, sd, r.stats, eval);
        KeepsTrans(st, r.stats, MoveMax(g, m + 1, RealMax(best, r.value), prob, depth, sd, r.stats, eval).stats);
      } else {
        MoveMaxKeeps(g, m + 1, best, prob, depth, sd, st, eval);
      }
    }
  }

  /** The entry of a direction that changes the board, given what `search` and `details` give for it. */
  lemma EntryValid(g: Grid, m: int, table: map<string, real>, search: (Grid, map<string, real>) -> Scored,
                   details: Grid -> Details, r: Scored, d: Details)
    requires IsGrid(g) && AllTiles(g) && 0 <= m < 4 && MoveGrid(g, m) != g
    requires r == search(MoveGrid(g, m), table) && d == details(MoveGrid(g, m))
    ensures MoveEntry(g, m, table, search, details) == (MoveScore(m, r.value, Some(d), Some(MoveGrid(g, m)), true), r.stats.table)
  {
  }

  /**
   * The top-level entries name the four directions in order, and an entry
   * is valid exactly when its direction changes the board.
   */
  lemma {:induction false} TopLevelEntries(g: Grid, n: int, table: map<string, real>,
                                           search: (Grid, map<string, real>) -> Scored, details: Grid -> Details)
    requires IsGrid(g) && AllTiles(g) && 0 <= n <= 4
    ensures var s := TopLevel(g, n, table, search, details).scores;
      |s| == n &&
      forall j :: 0 <= j < n ==>
        s[j].move == j && (s[j].valid <==> MoveGrid(g, j) != g) &&
        (!s[j].valid ==> s[j].score == -1.0)
  {
    if n > 0 {
      var prev := TopLevel(g, n - 1, table, search, details);
      TopLevelEntries(g, n - 1, table, search, details);
      var e := MoveEntry(g, n - 1, prev.table, search, details);
      assert TopLevel(g, n, table, search, details).scores == prev.scores + [e.0];
    }
  }

  /** The loop's running choice is the best move, and carries that move's score (-1 for none). */
  lemma {:induction false} ChoiceIsBest(scores: seq<MoveScore>)
    ensures IsBestMove(scores, Choice(scores).0)
    ensures Choice(scores).0 == -1 ==> Choice(scores).1 == -1.0
    ensures Choice(scores).0 != -1 ==> Choice(scores).1 == scores[Choice(scores).0].score
  {
    if scores != [] {
      var n := |scores| - 1;
      var front := scores[..n];
      ChoiceIsBest(front);
      var prev := Choice(front);
      assert forall j :: 0 <= j < n ==> scores[j] == front[j];
      if scores[n].valid && scores[n].score > prev.1 {
        assert Choice(scores) == (n, scores[n].score);
      } else {
        assert Choice(scores) == prev;
      }
    }
  }

  /** The choice is determined by the scores: at most one index satisfies `IsBestMove`. */
  lemma BestMoveUnique(scores: seq<MoveScore>, a: int, b: int)
    requires IsBestMove(scores, a) && IsBestMove(scores, b)
    ensures a == b
  {
  }

  // ---------------------------------------------------------------------------

  class AI2048 {
    var searchDepth: int
    var transTable: map<string, real>
    var movesEvaluated: int
    var cacheHits: int
    var moveDetails: MoveReport
    /** `Math.pow(rank, 3.5)`, supplied by the caller. */
    const pow35: nat -> real

    function Counters(): Stats
      reads this
    {
      Stats(transTable, movesEvaluated, cacheHits)
    }

    /** `new AI2048(searchDepth)`: an empty table, zero counters, no report. */
    constructor (searchDepth: int, pow35: nat -> real)
      ensures this.searchDepth == searchDepth && this.pow35 == pow35
      ensures transTable == map[] && movesEvaluated == 0 && cacheHits == 0 && moveDetails == NoReport
    {
      this.searchDepth := searchDepth;
      this.pow35 := pow35;
      transTable := map[];
      movesEvaluated := 0;
      cacheHits := 0;
      moveDetails := NoReport;
    }

    /** `resetStats`: zero counters, an empty table and no report; the depth stays. */
    method ResetStats()
      modifies this
      ensures searchDepth == old(searchDepth)
      ensures transTable == map[] && movesEvaluated == 0 && cacheHits == 0 && moveDetails == NoReport
    {
      movesEvaluated := 0;
      cacheHits := 0;
      transTable := map[];
      moveDetails := NoReport;
    }

    /**
     * `scoreLineHeuristic`: the value of one row or column and its breakdown.
     */
    method ScoreLineHeuristic(line: seq<int>) returns (r: LineScore)
      requires TileLine(line)
      ensures r == LineHeuristic(line, pow35)
    {
      var empty := CountZeros(line);
      var merges, sum := ScanRanks(line);
      var monotonicityLeft := 0;
      var monotonicityRight := 0;

      for i := 1 to 4
        invariant monotonicityLeft == MonoLeft(line, i) && monotonicityRight == MonoRight(line, i)
      {
        if line[i - 1] != 0 && line[i] != 0 {
          var rankPrev := Log2(line[i - 1]);
          var rankCurr := Log2(line[i]);
          if rankPrev > rankCurr {
            monotonicityLeft := monotonicityLeft + Pow4(rankPrev) - Pow4(rankCurr);
          } else {
            monotonicityRight := monotonicityRight + Pow4(rankCurr) - Pow4(rankPrev);
          }
        }
      }

      var mono := Min(monotonicityLeft, monotonicityRight);
      var emptyScore := SCORE_EMPTY_WEIGHT * empty as real;
      var mergesScore := SCORE_MERGES_WEIGHT * merges as real;
      var monotonicityScore := -SCORE_MONOTONICITY_WEIGHT * mono as real;
      var sumScore := -SCORE_SUM_WEIGHT * sum;
      var score := SCORE_LOST_PENALTY + emptyScore + mergesScore + monotonicityScore + sumScore;
      r := LineScore(score, Details(empty, emptyScore, merges, mergesScore, mono, monotonicityScore, sum, sumScore));
    }

    /**
     * The first loop of `scoreLineHeuristic`: the sum of `Math.pow(rank, 3.5)`
     * over the tiles, and the merge count, kept as a running `counter` of
     * equal neighbours in the current run of equal ranks and flushed when the
     * run ends.
     */
    method ScanRanks(line: seq<int>) returns (merges: int, sum: real)
      requires TileLine(line)
      ensures merges == Merges(line) && sum == PowerSum(line, 4, pow35)
    {
      merges := 0;
      sum := 0.0;
      var prevVal := 0;
      var counter := 0;
      for i := 0 to 4
        invariant sum == PowerSum(line, i, pow35)
        invariant ScanState(RanksBefore(line, i), prevVal, counter, merges)
      {
        if line[i] != 0 {
          var rank := Log2(line[i]);
          sum := sum + pow35(rank);
          assert RanksBefore(line, i + 1) == RanksBefore(line, i) + [rank];
          ScanStep(RanksBefore(line, i), rank, prevVal, counter, merges);
          if prevVal == rank {
            counter := counter + 1;
          } else if counter > 0 {
            merges := merges + 1 + counter;
            counter := 0;
          }
          prevVal := rank;
        } else {
          assert RanksBefore(line, i + 1) == RanksBefore(line, i);
        }
      }
      if counter > 0 {
        merges := merges + 1 + counter;
      }
      RanksBeforeAll(line, 4);
      assert line[..4] == line;
    }

    /**
     * `evaluateBoard` with details: the four rows, then the four columns;
     * the breakdown's empty count is then replaced by the board's own.
     * Without details the class returns the same `score`.
     */
    method EvaluateBoard(board: Board) returns (r: LineScore)
      requires board.Valid() && AllTiles(board.grid)
      ensures r == BoardEvaluation(board.grid, pow35)
    {
      ghost var g := board.grid;
      AllTilesLines(g);
      var score := 0.0;
      var details := NoDetails;
      for row := 0 to 4
        invariant score == LinesTotal(g, pow35, row).score
        invariant details == LinesTotal(g, pow35, row).details
      {
        var rowResult := ScoreLineHeuristic(board.grid[row]);
        score := score + rowResult.score;
        details := AddDetails(details, rowResult.details);
      }
      for col := 0 to 4
        invariant score == LinesTotal(g, pow35, 4 + col).score
        invariant details == LinesTotal(g, pow35, 4 + col).details
      {
        var colResult := ScoreLineHeuristic(Col(board.grid, col));
        score := score + colResult.score;
        details := AddDetails(details, colResult.details);
      }
      var actualEmpty := board.CountEmpty();
      details := details.(empty := actualEmpty, emptyScore := SCORE_EMPTY_WEIGHT * actualEmpty as real * 2.0);
      r := LineScore(score, details);
    }

    /** `scoreMove`: the chance node at depth 0. */
    method ScoreMove(board: Board, prob: real) returns (score: real)
      requires board.Valid() && AllTiles(board.grid)
      modifies this, board
      ensures board.Valid() && board.grid == old(board.grid)
      ensures searchDepth == old(searchDepth) && moveDetails == old(moveDetails)
      ensures Scored(score, Counters()) == ChanceNode(old(board.grid), prob, 0, searchDepth, old(Counters()), Evaluator(pow35))
    {
      score := ScoreTileChooseNode(board, prob, 0);
    }

    /**
     * `scoreTileChooseNode`. The board is written in place while the empty
     * cells are tried, and is back to its entry state on return.
     */
    method ScoreTileChooseNode(board: Board, prob: real, depth: int) returns (score: real)
      requires board.Valid() && AllTiles(board.grid)
      modifies this, board
      decreases searchDepth - depth, 7
      ensures board.Valid() && board.grid == old(board.grid)
      ensures searchDepth == old(searchDepth) && moveDetails == old(moveDetails)
      ensures Scored(score, Counters()) == ChanceNode(old(board.grid), prob, depth, searchDepth, old(Counters()), Evaluator(pow35))
    {
      if prob < CPROB_THRESHOLD || depth >= searchDepth {
        var e := EvaluateBoard(board);
        return e.score;
      }
      TilesNonNegative(board.grid);
      var boardHash := board.HashKey();
      if boardHash in transTable {
        cacheHits := cacheHits + 1;
        return transTable[boardHash];
      }
      score := ScoreEmptyCells(board, prob, depth, boardHash);
    }

    /**
     * The rest of `scoreTileChooseNode` for a board `boardHash` names that is
     * not in the table: the static evaluation of a full board, or the
     * average over the empty cells, which is then stored under `boardHash`.
     */
    method ScoreEmptyCells(board: Board, prob: real, depth: int, boardHash: string) returns (score: real)
      requires board.Valid() && AllTiles(board.grid) && prob >= CPROB_THRESHOLD && depth < searchDepth
      requires NonNegative(board.grid) && boardHash == Hash(board.grid) && boardHash !in transTable
      modifies this, board
      decreases searchDepth - depth, 6
      ensures board.Valid() && board.grid == old(board.grid)
      ensures searchDepth == old(searchDepth) && moveDetails == old(moveDetails)
      ensures Scored(score, Counters()) == ChanceNode(old(board.grid), prob, depth, searchDepth, old(Counters()), Evaluator(pow35))
    {
      ghost var g := board.grid;
      var emptyPositions := board.GetEmptyPositions();
      if |emptyPositions| == 0 {
        var e := EvaluateBoard(board);
        return e.score;
      }
      EmptyPositionsSpec(g);
      var totalScore := SumTileChoices(board, emptyPositions, prob / (|emptyPositions| as real), depth);
      var averageScore := totalScore / (|emptyPositions| as real);
      transTable := transTable[boardHash := averageScore];
      return averageScore;
    }

    /**
     * The loop of `scoreTileChooseNode` over the empty cells `es`: a 2, then
     * a 4, in each, weighed by their probabilities; each cell is emptied
     * again before the next.
     */
    method SumTileChoices(board: Board, es: seq<Pos>, p: real, depth: int) returns (totalScore: real)
      requires board.Valid() && AllTiles(board.grid) && depth < searchDepth
      requires AllOnBoard(es) && forall k :: 0 <= k < |es| ==> board.grid[es[k].row][es[k].col] == 0
      modifies this, board
      decreases searchDepth - depth, 5
      ensures board.Valid() && board.grid == old(board.grid)
      ensures searchDepth == old(searchDepth) && moveDetails == old(moveDetails)
      ensures Scored(totalScore, Counters()) == TileSum(board.grid, es, |es|, p, depth, searchDepth, old(Counters()), Evaluator(pow35))
    {
      ghost var g := board.grid;
      totalScore := 0.0;
      for i := 0 to |es|
        invariant board.Valid() && board.grid == g
        invariant searchDepth == old(searchDepth) && moveDetails == old(moveDetails)
        invariant Scored(totalScore, Counters()) == TileSum(g, es, i, p, depth, searchDepth, old(Counters()), Evaluator(pow35))
      {
        totalScore := ScoreEmptyCell(board, es[i], p, depth, totalScore);
      }
    }

    /**
     * One pass of the loop over the empty cells: a 2 and then a 4 are placed
     * at `pos` and the move node is scored on each, then the cell is cleared.
     */
    method ScoreEmptyCell(board: Board, pos: Pos, p: real, depth: int, total: real) returns (newTotal: real)
      requires board.Valid() && AllTiles(board.grid) && OnBoard(pos) && depth < searchDepth
      requires board.grid[pos.row][pos.col] == 0
      modifies this, board
      decreases searchDepth - depth, 4
      ensures board.Valid() && board.grid == old(board.grid)
      ensures searchDepth == old(searchDepth) && moveDetails == old(moveDetails)
      ensures Scored(newTotal, Counters())
           == CellStep(old(board.grid), pos, p, depth, searchDepth, Scored(total, old(Counters())), Evaluator(pow35))
    {
      ghost var g := board.grid;
      ghost var c0 := Counters();
      PlaceTile(g, pos, 2);
      PlaceTile(g, pos, 4);
      var p2, p4 := p * TILE_2_PROB, p * TILE_4_PROB;
      var a := ScoreWithTile(board, pos, 2, p2, depth);
      ghost var sa := Scored(a, Counters());
      newTotal := total + TILE_2_PROB * a;
      PlaceTwice(g, pos, 2, 4);
      var b := ScoreWithTile(board, pos, 4, p4, depth);
      ghost var sb := Scored(b, Counters());
      newTotal := newTotal + TILE_4_PROB * b;
      board.Set(pos.row, pos.col, 0);
      PlaceTwice(g, pos, 4, 0);
      PlaceRestore(g, pos, 4);
      CellStepOf(g, pos, p, depth, searchDepth, Scored(total, c0), Evaluator(pow35), sa, sb);
    }

    /** `board.set(row, col, v)` followed by the move node on the board so changed. */
    method ScoreWithTile(board: Board, pos: Pos, v: int, prob: real, depth: int) returns (score: real)
      requires board.Valid() && OnBoard(pos) && AllTiles(Place(board.grid, pos, v)) && depth < searchDepth
      modifies this, board
      decreases searchDepth - depth, 3
      ensures board.Valid() && board.grid == Place(old(board.grid), pos, v)
      ensures searchDepth == old(searchDepth) && moveDetails == old(moveDetails)
      ensures Scored(score, Counters()) == MoveNode(Place(old(board.grid), pos, v), prob, depth, searchDepth, old(Counters()), Evaluator(pow35))
    {
      board.Set(pos.row, pos.col, v);
      score := ScoreMoveNode(board, prob, depth);
    }

    /** `scoreMoveNode`: each direction is tried on a clone, so the board itself is not written. */
    method ScoreMoveNode(board: Board, prob: real, depth: int) returns (best: real)
      requires board.Valid() && AllTiles(board.grid) && depth < searchDepth
      modifies this
      decreases searchDepth - depth, 2
      ensures searchDepth == old(searchDepth) && moveDetails == old(moveDetails)
      ensures Scored(best, Counters()) == MoveNode(board.grid, prob, depth, searchDepth, old(Counters()), Evaluator(pow35))
    {
      movesEvaluated := movesEvaluated + 1;
      best := ScoreMoves(board, prob, depth + 1);
      MoveNodeOf(board.grid, prob, depth, searchDepth, old(Counters()), Evaluator(pow35), Scored(best, Counters()));
      if best == 0.0 {
        var e := EvaluateBoard(board);
        best := e.score;
      }
    }

    /** The loop of `scoreMoveNode`: the best chance-node value over the directions that change the board. */
    method ScoreMoves(board: Board, prob: real, d: int) returns (best: real)
      requires board.Valid() && AllTiles(board.grid) && d <= searchDepth
      modifies this
      decreases searchDepth - d + 1, 1
      ensures searchDepth == old(searchDepth) && moveDetails == old(moveDetails)
      ensures Scored(best, Counters()) == MoveMax(board.grid, 0, 0.0, prob, d, searchDepth, old(Counters()), Evaluator(pow35))
    {
      best := 0.0;
      for move := 0 to 4
        invariant searchDepth == old(searchDepth) && moveDetails == old(moveDetails)
        invariant MoveMax(board.grid, move, best, prob, d, searchDepth, Counters(), Evaluator(pow35))
               == MoveMax(board.grid, 0, 0.0, prob, d, searchDepth, old(Counters()), Evaluator(pow35))
      {
        best := ScoreDirectionNode(board, move, prob, d, best);
      }
    }

    /**
     * One pass of `getBestMove`'s loop: a direction that changes the board is
     * searched and evaluated, and the counters are cleared afterwards; any
     * other is recorded as not valid.
     */
    method ScoreDirection(board: Board, move: int) returns (entry: MoveScore)
      requires board.Valid() && AllTiles(board.grid) && 0 <= move < 4
      requires searchDepth == SEARCH_DEPTH && movesEvaluated == 0 && cacheHits == 0
      modifies this
      ensures searchDepth == SEARCH_DEPTH && movesEvaluated == 0 && cacheHits == 0
      ensures moveDetails == old(moveDetails)
      ensures (entry, transTable) == MoveEntry(board.grid, move, old(transTable), RootSearch(pow35), RootDetails(pow35))
    {
      var newBoard, moved := board.MovedCopy(move);
      MoveGridTiles(board.grid, move);
      if moved {
        entry := ScoreValidDirection(board.grid, move, newBoard);
      } else {
        entry := MoveScore(move, -1.0, None, None, false);
      }
    }

    /** The `moved` branch of `ScoreDirection`, on the board `newBoard` that direction `move` leads to from `g`. */
    method ScoreValidDirection(ghost g: Grid, move: int, newBoard: Board) returns (entry: MoveScore)
      requires IsGrid(g) && AllTiles(g) && 0 <= move < 4 && MoveGrid(g, move) != g
      requires newBoard.Valid() && newBoard.grid == MoveGrid(g, move) && AllTiles(newBoard.grid)
      requires searchDepth == SEARCH_DEPTH && movesEvaluated == 0 && cacheHits == 0
      modifies this, newBoard
      ensures searchDepth == SEARCH_DEPTH && movesEvaluated == 0 && cacheHits == 0
      ensures moveDetails == old(moveDetails)
      ensures (entry, transTable) == MoveEntry(g, move, old(transTable), RootSearch(pow35), RootDetails(pow35))
    {
      ghost var h := MoveGrid(g, move);
      ghost var table := transTable;
      var algorithmScore := ScoreMove(newBoard, 1.0);
      ghost var r := Scored(algorithmScore, Counters());
      assert r == RootSearch(pow35)(h, table);
      var evalResult := EvaluateBoard(newBoard);
      assert evalResult.details == RootDetails(pow35)(h);
      entry := MoveScore(move, algorithmScore, Some(evalResult.details), Some(newBoard.grid), true);
      movesEvaluated := 0;
      cacheHits := 0;
      EntryValid(g, move, table, RootSearch(pow35), RootDetails(pow35), r, evalResult.details);
    }

    /**
     * One pass of `scoreMoveNode`'s loop: direction `move` is tried on a
     * clone, and a direction that changes the board raises `best` to the
     * chance value of the board it leads to.
     */
    method ScoreDirectionNode(board: Board, move: int, prob: real, d: int, best: real) returns (newBest: real)
      requires board.Valid() && AllTiles(board.grid) && 0 <= move < 4 && d <= searchDepth
      modifies this
      decreases searchDepth - d + 1, 0
      ensures searchDepth == old(searchDepth) && moveDetails == old(moveDetails)
      ensures MoveMax(board.grid, move + 1, newBest, prob, d, searchDepth, Counters(), Evaluator(pow35))
           == MoveMax(board.grid, move, best, prob, d, searchDepth, old(Counters()), Evaluator(pow35))
    {
      var newBoard, moved := board.MovedCopy(move);
      MoveGridTiles(board.grid, move);
      newBest := best;
      if moved {
        var score := ScoreTileChooseNode(newBoard, prob, d);
        newBest := RealMax(best, score);
      }
    }

    /**
     * `getBestMove`: the depth limit computed from the distinct tiles is at
     * least 3, so the search depth is always `SEARCH_DEPTH`; each direction
     * that changes the board is searched from a clone, the counters are
     * zeroed after it and the table is kept; the first strictly best score
     * above -1 wins, and -1 means none did.
     */
    method GetBestMove(board: Board) returns (bestMove: int)
      requires board.Valid() && AllTiles(board.grid)
      modifies this
      ensures searchDepth == SEARCH_DEPTH && movesEvaluated == 0 && cacheHits == 0
      ensures transTable == TopLevel(board.grid, 4, map[], RootSearch(pow35), RootDetails(pow35)).table
      ensures moveDetails == Report(bestMove, TopLevel(board.grid, 4, map[], RootSearch(pow35), RootDetails(pow35)).scores,
                                    board.grid)
      ensures IsBestMove(TopLevel(board.grid, 4, map[], RootSearch(pow35), RootDetails(pow35)).scores, bestMove)
      ensures -1 <= bestMove < 4
    {
      ResetStats();
      LimitDepth(board);
      var moveScores;
      bestMove, moveScores := ScoreDirections(board);
      ChoiceIsBest(moveScores);
    }

    /**
     * The depth `getBestMove` searches to: the number of distinct tiles less
     * two, at least 3, and at most `SEARCH_DEPTH` — which is below 3, so
     * always `SEARCH_DEPTH`.
     */
    method LimitDepth(board: Board)
      requires board.Valid()
      modifies this
      ensures searchDepth == SEARCH_DEPTH
      ensures transTable == old(transTable) && movesEvaluated == old(movesEvaluated) && cacheHits == old(cacheHits)
      ensures moveDetails == old(moveDetails)
    {
      var distinctTiles := board.CountDistinctTiles();
      var depthLimit := if 3 >= distinctTiles - 2 then 3 else distinctTiles - 2;
      searchDepth := if depthLimit <= SEARCH_DEPTH then depthLimit else SEARCH_DEPTH;
    }

    /**
     * The loop of `getBestMove` over the four directions: the entries in
     * order, and the first valid direction with the strictly largest score
     * above -1 (or -1); then the report of the choice.
     */
    method ScoreDirections(board: Board) returns (bestMove: int, moveScores: seq<MoveScore>)
      requires board.Valid() && AllTiles(board.grid)
      requires searchDepth == SEARCH_DEPTH && movesEvaluated == 0 && cacheHits == 0
      modifies this
      ensures searchDepth == SEARCH_DEPTH && movesEvaluated == 0 && cacheHits == 0
      ensures moveDetails == Report(bestMove, moveScores, board.grid)
      ensures Round(moveScores, transTable) == TopLevel(board.grid, 4, old(transTable), RootSearch(pow35), RootDetails(pow35))
      ensures |moveScores| == 4 && bestMove == Choice(moveScores).0
    {
      ghost var g := board.grid;
      ghost var search := RootSearch(pow35);
      ghost var details := RootDetails(pow35);
      ghost var table0 := transTable;
      var bestScore := -1.0;
      bestMove := -1;
      moveScores := [];
      for move := 0 to 4
        invariant searchDepth == SEARCH_DEPTH && movesEvaluated == 0 && cacheHits == 0
        invariant moveDetails == old(moveDetails)
        invariant Round(moveScores, transTable) == TopLevel(g, move, table0, search, details)
        invariant |moveScores| == move && (bestMove, bestScore) == Choice(moveScores)
      {
        var entry := ScoreDirection(board, move);
        assert (moveScores + [entry])[..move] == moveScores;
        moveScores := moveScores + [entry];
        if entry.valid && entry.score > bestScore {
          bestScore := entry.score;
          bestMove := move;
        }
      }
      moveDetails := Report(bestMove, moveScores, board.grid);
    }
  }
}
