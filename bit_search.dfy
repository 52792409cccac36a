/**
 * The expectimax search of 2048.cpp on the 64-bit board: the chance node
 * `score_tilechoose_node`, the move node `score_move_node`, the score of
 * one top-level move and `find_best_move`.
 *
 * The search is specified by mutually recursive functions that thread the
 * transposition table and the counters of `eval_state` through the nodes in
 * the order the program visits them. The methods of `EvalState` are proved
 * to return the values, and to leave the state, that these functions give.
 */
module BitSearch {
  import opened GridSpec
  import opened BitBoard
  import opened BitScan
  import AiSearch
  import opened BitOps

  /** Nodes reached with a smaller probability are not expanded. */
  const CPROB_THRESH_BASE: real := 0.0001
  /** Only nodes above this depth are looked up in, and stored in, the table. */
  const CACHE_DEPTH_LIMIT := 15
  /** The chances that a new tile is a 2 (rank 1) or a 4 (rank 2). */
  const TILE_2_PROB: real := 0.9
  const TILE_4_PROB: real := 0.1
  /** Added to the score of a top-level move that changes the board. */
  const VALID_MOVE_BONUS: real := 0.000001

  /** `trans_table_entry_t`: the depth a board was scored at, and its value. */
  datatype TransEntry = TransEntry(depth: int, heuristic: real)

  /**
   * The part of `eval_state` the search changes, the current depth aside;
   * the table is keyed by the board's 64-bit value, read as a number.
   */
  datatype Stats = Stats(table: map<int, TransEntry>, maxdepth: int, cachehits: int, evaled: int)

  /** A node's value together with the state after it. */
  datatype Scored = Scored(value: real, stats: Stats)

  /** `std::max` on ints. */
  function IntMax(a: int, b: int): (m: int)
    ensures m >= a && m >= b && (m == a || m == b)
  {
    if a < b then b else a
  }

  // ---------------------------------------------------------------------------
  // The search, node by node.

  /**
   * `score_tilechoose_node` at depth `depth`: below the probability threshold
   * or at the depth limit, the heuristic value (the deepest leaf is
   * recorded); a board stored above `CACHE_DEPTH_LIMIT` at a depth no deeper
   * than this one, the stored value (counted as a hit); otherwise the average
   * over the empty cells of 0.9 times the value with a 2 placed there plus
   * 0.1 times the value with a 4, stored above `CACHE_DEPTH_LIMIT`.
   */
  function ChanceNode(b: Board, cprob: real, depth: int, limit: int, st: Stats, ops: Ops): Scored
    requires Sound(ops) && ops.countEmpty(b) != 0
    decreases limit - depth, 3, 0, b
  {
    if cprob < CPROB_THRESH_BASE || depth >= limit then
      Scored(ops.heur(b), st.(maxdepth := IntMax(depth, st.maxdepth)))
    else if depth < CACHE_DEPTH_LIMIT && b as int in st.table && st.table[b as int].depth <= depth then
      Scored(st.table[b as int].heuristic, st.(cachehits := st.cachehits + 1))
    else Spread(b, cprob, depth, limit, st, ops)
  }

  /**
   * The average of a chance node that is neither a leaf nor stored: the sum
   * of the loop over the cells, each with probability `cprob` shared among
   * the empty cells, divided by their number, and stored above
   * `CACHE_DEPTH_LIMIT`.
   */
  function Spread(b: Board, cprob: real, depth: int, limit: int, st: Stats, ops: Ops): Scored
    requires Sound(ops) && ops.countEmpty(b) != 0 && depth < limit
    decreases limit - depth, 2, 17, b
  {
    var numOpen := ops.countEmpty(b);
    var r := TileLoop(b, 0, b, 1, cprob / numOpen as real, depth, limit, Scored(0.0, st), ops);
    var res := r.value / numOpen as real;
    if depth < CACHE_DEPTH_LIMIT then Scored(res, r.stats.(table := r.stats.table[b as int := TransEntry(depth, res)]))
    else Scored(res, r.stats)
  }

  /**
   * The loop of `score_tilechoose_node` from pass `k` on: `tmp` is the board
   * shifted right by `k` nibbles and `tile2` a rank-1 tile at nibble `k`;
   * each pass adds the cell's share to the running total `acc`.
   */
  function TileLoop(b: Board, k: int, tmp: Board, tile2: Board, p: real, depth: int, limit: int, acc: Scored,
                    ops: Ops): Scored
    requires Sound(ops) && 0 <= k <= 16 && depth < limit
    decreases limit - depth, 2, 16 - k, b
  {
    if k == 16 then acc
    else TileLoop(b, k + 1, tmp >> 4, tile2 << 4, p, depth, limit, CellStep(b, tmp, tile2, p, depth, limit, acc, ops), ops)
  }

  /**
   * One pass: nothing for a tile in the low nibble of `tmp`; for an empty
   * cell, 0.9 times the move-node value with `tile2` (a 2) placed, then 0.1
   * times the value with `tile2 << 1` (a 4) placed.
   */
  function CellStep(b: Board, tmp: Board, tile2: Board, p: real, depth: int, limit: int, acc: Scored,
                    ops: Ops): Scored
    requires Sound(ops) && depth < limit
    decreases limit - depth, 1, 0, b
  {
    if tmp & 0xf != 0 then acc
    else TilePair(WithTwo(b, tile2), WithFour(b, tile2), p, depth, limit, acc, ops)
  }

  /** The board with the rank-1 tile `tile2` set: `board | tile_2`. */
  function WithTwo(b: Board, tile2: Board): Board {
    b | tile2
  }

  /** The board with the rank-2 tile `tile2 << 1` set: `board | (tile_2 << 1)`. */
  function WithFour(b: Board, tile2: Board): Board {
    b | (tile2 << 1)
  }

  /** `prev` plus 0.9 times the move-node value of `two` and 0.1 times that of `four`, in that order. */
  function TilePair(two: Board, four: Board, p: real, depth: int, limit: int, prev: Scored, ops: Ops): Scored
    requires Sound(ops) && depth < limit
    decreases limit - depth, 0, 6, two
  {
    var a := MoveNode(two, p * TILE_2_PROB, depth, limit, prev.stats, ops);
    var c := MoveNode(four, p * TILE_4_PROB, depth, limit, a.stats, ops);
    Scored(prev.value + a.value * TILE_2_PROB + c.value * TILE_4_PROB, c.stats)
  }

  /**
   * `score_move_node`: one level deeper, the largest chance value over the
   * moves that change the board, starting from 0; the heuristic value when
   * that largest value is exactly 0.
   */
  function MoveNode(b: Board, cprob: real, depth: int, limit: int, st: Stats, ops: Ops): Scored
    requires Sound(ops) && depth < limit
    decreases limit - depth, 0, 5, b
  {
    var r := MoveMax(b, 0, 0.0, cprob, depth + 1, limit, st, ops);
    if r.value == 0.0 then Scored(ops.heur(b), r.stats) else r
  }

  /** The maximum of `best` and the chance values of the moves `m..3` that change the board; each move is counted. */
  function MoveMax(b: Board, m: int, best: real, cprob: real, depth: int, limit: int, st: Stats,
                   ops: Ops): Scored
    requires Sound(ops) && 0 <= m <= 4 && depth <= limit
    decreases limit - depth + 1, 0, 4 - m, b
  {
    if m == 4 then Scored(best, st)
    else
      var nb := ops.execute(m, b);
      var st1 := st.(evaled := st.evaled + 1);
      if b != nb then
        var r := ChanceNode(nb, cprob, depth, limit, st1, ops);
        MoveMax(b, m + 1, AiSearch.RealMax(best, r.value), cprob, depth, limit, r.stats, ops)
      else
        MoveMax(b, m + 1, best, cprob, depth, limit, st1, ops)
  }

  /**
   * `_score_toplevel_move`: 0 for a move that leaves the board as it is;
   * otherwise the chance value of the board it leads to, with probability 1,
   * plus a small bonus.
   */
  function TopMove(b: Board, m: int, depth: int, limit: int, st: Stats, ops: Ops): Scored
    requires Sound(ops) && 0 <= m < 4
  {
    var nb := ops.execute(m, b);
    if b == nb then Scored(0.0, st)
    else
      var r := ChanceNode(nb, 1.0, depth, limit, st, ops);
      Scored(r.value + VALID_MOVE_BONUS, r.stats)
  }

  /** The depth `score_toplevel_move` searches to: the distinct tiles less two, at least 3. */
  function DepthLimit(b: Board, ops: Ops): int {
    IntMax(3, ops.distinct(b) - 2)
  }

  /** `score_toplevel_move`: the top-level score of move `m` on a fresh state. */
  function TopScore(b: Board, m: int, ops: Ops): real
    requires Sound(ops) && 0 <= m < 4
  {
    TopMove(b, m, 0, DepthLimit(b, ops), Stats(map[], 0, 0, 0), ops).value
  }

  /** The scores of the four moves, in the order `find_best_move` tries them. */
  function TopScores(b: Board, ops: Ops): (s: seq<real>)
    requires Sound(ops)
    ensures |s| == 4 && forall m :: 0 <= m < 4 ==> s[m] == TopScore(b, m, ops)
  {
    seq(4, m requires 0 <= m < 4 => TopScore(b, m, ops))
  }

  /**
   * The choice `find_best_move` makes among the scores: -1 when none is
   * above 0; otherwise a move scoring above 0 that is the largest and is
   * strictly larger than the score of every move before it.
   */
  predicate IsBestMove(scores: seq<real>, bm: int) {
    (bm == -1 && forall j :: 0 <= j < |scores| ==> scores[j] <= 0.0) ||
    (0 <= bm < |scores| && scores[bm] > 0.0 &&
     (forall j :: 0 <= j < |scores| ==> scores[j] <= scores[bm]) &&
     (forall j :: 0 <= j < bm ==> scores[j] < scores[bm]))
  }

  // ---------------------------------------------------------------------------
  // The tiles the chance node places.

  /** `tile_2` is non-zero for sixteen passes and then shifted out of the board. */
  lemma TileOnes(k: int)
    requires 0 <= k <= 16
    ensures TileAt(1, k) == 0 <==> k == 16
  {
    if k < 16 {
      PlaceTile(0, 1, k, TileAt(1, k));
      CellsEmpty(0 | TileAt(1, k));
      assert Cells(0 | TileAt(1, k))[k] == 1;
      assert 0 | TileAt(1, k) == TileAt(1, k);
    } else {
      assert TileAt(1, 16) == 0;
    }
  }

  /** While `tile_2` is non-zero it is a cell of the board, and shifting it gives the next cell's. */
  lemma TileAdvance(k: int, tile2: Board)
    requires 0 <= k <= 16 && tile2 == TileAt(1, k) && tile2 != 0
    ensures k < 16 && tile2 << 4 == TileAt(1, k + 1)
  {
    TileOnes(k);
    TileNext(1, k, tile2);
  }

  /** A pass of the chance node's loop before cell 16. */
  lemma TileLoopNext(b: Board, k: int, tmp: Board, tile2: Board, p: real, depth: int, limit: int, acc: Scored,
                     ops: Ops)
    requires Sound(ops) && 0 <= k < 16 && depth < limit
    ensures TileLoop(b, k, tmp, tile2, p, depth, limit, acc, ops)
         == TileLoop(b, k + 1, tmp >> 4, tile2 << 4, p, depth, limit, CellStep(b, tmp, tile2, p, depth, limit, acc, ops), ops)
  {
  }

  /**
   * One pass of the chance node's loop, on a board whose cells are `s`:
   * when `tmp` holds the cells from `k` on and `tile2` a rank-1 tile at cell
   * `k`, the low nibble of `tmp` is zero exactly for an empty cell `k`, a 2
   * (rank 1) or a 4 (rank 2) is placed into that cell and nowhere else, and
   * the shifted `tmp` and `tile2` describe cell `k + 1`.
   */
  lemma CellVisit(s: seq<int>, k: int, tmp: Board, tile2: Board)
    requires |s| == 16 && 0 <= k < 16
    requires Cells(tmp) == s[k..] + Zeros(k) && tile2 == TileAt(1, k)
    ensures tmp & 0xf == 0 <==> s[k] == 0
    ensures Cells(tmp >> 4) == s[k + 1..] + Zeros(k + 1) && tile2 << 4 == TileAt(1, k + 1)
  {
    ScanAt(tmp, s, k);
    TileNext(1, k, tile2);
  }

  /** On an empty cell `k`, the 2 of the chance node lands in that cell and nowhere else. */
  lemma {:induction false} TwoPlaced(b: Board, k: int)
    requires 0 <= k < 16 && Cells(b)[k] == 0
    ensures Cells(WithTwo(b, TileAt(1, k))) == Cells(b)[k := 1]
  {
    PlaceTile(b, 1, k, TileAt(1, k));
  }

  /** On an empty cell `k`, the 4 of the chance node lands in that cell and nowhere else. */
  lemma {:induction false} FourPlaced(b: Board, k: int)
    requires 0 <= k < 16 && Cells(b)[k] == 0
    ensures Cells(WithFour(b, TileAt(1, k))) == Cells(b)[k := 2]
  {
    DoubledTile(b, k, TileAt(1, k));
    PlaceTile(b, 2, k, TileAt(2, k));
  }

  /**
   * The chance node's sum over the empty cells: from cell `k` on,
   * each empty cell adds the move-node values of the board with a 2 placed
   * there (weight 0.9) and with a 4 placed there (weight 0.1).
   */
  function EmptyCellsSum(b: Board, k: int, p: real, depth: int, limit: int, acc: Scored, ops: Ops): Scored
    requires Sound(ops) && 0 <= k <= 16 && depth < limit
    decreases 16 - k
  {
    if k == 16 then acc
    else
      var next := if Cells(b)[k] != 0 then acc else TilePair(WithTwo(b, TileAt(1, k)), WithFour(b, TileAt(1, k)), p, depth, limit, acc, ops);
      EmptyCellsSum(b, k + 1, p, depth, limit, next, ops)
  }

  /**
   * The shifting loop of `score_tilechoose_node` visits exactly the empty
   * cells, in order, from cell `k` on.
   */
  lemma {:induction false} TileLoopVisitsEmpty(b: Board, k: int, tmp: Board, tile2: Board, p: real, depth: int,
                                               limit: int, acc: Scored, ops: Ops)
    requires Sound(ops) && 0 <= k <= 16 && depth < limit
    requires Cells(tmp) == Cells(b)[k..] + Zeros(k) && tile2 == TileAt(1, k)
    ensures TileLoop(b, k, tmp, tile2, p, depth, limit, acc, ops) == EmptyCellsSum(b, k, p, depth, limit, acc, ops)
    decreases 16 - k
  {
    if k < 16 {
      CellVisit(Cells(b), k, tmp, tile2);
      TileLoopNext(b, k, tmp, tile2, p, depth, limit, acc, ops);
      TileLoopVisitsEmpty(b, k + 1, tmp >> 4, tile2 << 4, p, depth, limit, CellStep(b, tmp, tile2, p, depth, limit, acc, ops), ops);
    }
  }

  /** The loop starts at cell 0 with the whole board and a rank-1 tile in the lowest nibble. */
  lemma CellVisitStart(b: Board)
    ensures Cells(b) == Cells(b)[0..] + Zeros(0) && TileAt(1, 0) == 1
  {
  }

  /** The whole loop, from cell 0 with the board itself and a 2 in the lowest nibble. */
  lemma ChanceSumsEmptyCells(b: Board, p: real, depth: int, limit: int, acc: Scored, ops: Ops)
    requires Sound(ops) && depth < limit
    ensures TileLoop(b, 0, b, 1, p, depth, limit, acc, ops) == EmptyCellsSum(b, 0, p, depth, limit, acc, ops)
  {
    CellVisitStart(b);
    TileLoopVisitsEmpty(b, 0, b, 1, p, depth, limit, acc, ops);
  }

  // ---------------------------------------------------------------------------
  // What the search preserves.

  /**
   * From `a` to `b`: every stored board stays stored, at a depth no deeper;
   * the counters only grow; and no leaf lies below the depth limit.
   */
  predicate Keeps(a: Stats, b: Stats, limit: int) {
    (forall x :: x in a.table ==> x in b.table && b.table[x].depth <= a.table[x].depth) &&
    a.cachehits <= b.cachehits && a.evaled <= b.evaled &&
    a.maxdepth <= b.maxdepth <= IntMax(a.maxdepth, limit)
  }

  /** Every stored depth fits the table's byte and lies above `CACHE_DEPTH_LIMIT`. */
  predicate TableBelow(st: Stats) {
    forall x :: x in st.table ==> 0 <= st.table[x].depth < CACHE_DEPTH_LIMIT
  }

  lemma KeepsTrans(a: Stats, b: Stats, c: Stats, limit: int)
    requires Keeps(a, b, limit) && Keeps(b, c, limit)
    ensures Keeps(a, c, limit)
  {
  }

  /**
   * A chance node keeps the table and the counters: a stored entry is only
   * replaced by one at a smaller depth, the one case a lookup misses.
   */
  lemma {:induction false} ChanceKeeps(b: Board, cprob: real, depth: int, limit: int, st: Stats, ops: Ops)
    requires Sound(ops) && ops.countEmpty(b) != 0 && 0 <= depth <= limit && TableBelow(st)
    ensures var r := ChanceNode(b, cprob, depth, limit, st, ops).stats;
      Keeps(st, r, limit) && TableBelow(r)
    decreases limit - depth, 3, 0
  {
    if cprob < CPROB_THRESH_BASE || depth >= limit {
    } else if depth < CACHE_DEPTH_LIMIT && b as int in st.table && st.table[b as int].depth <= depth {
    } else {
      var numOpen := ops.countEmpty(b);
      var r := TileLoop(b, 0, b, 1, cprob / numOpen as real, depth, limit, Scored(0.0, st), ops);
      TileLoopKeeps(b, 0, b, 1, cprob / numOpen as real, depth, limit, Scored(0.0, st), ops);
      if depth < CACHE_DEPTH_LIMIT {
        StoreKeeps(st, r.stats, b as int, depth, r.value / numOpen as real, limit);
      }
    }
  }

  /** Storing a board at a depth shallower than its stored one keeps the table. */
  lemma StoreKeeps(st: Stats, s: Stats, b: int, depth: int, res: real, limit: int)
    requires Keeps(st, s, limit) && TableBelow(s) && 0 <= depth < CACHE_DEPTH_LIMIT
    requires b in st.table ==> depth < st.table[b].depth
    ensures var s2 := s.(table := s.table[b := TransEntry(depth, res)]);
      Keeps(st, s2, limit) && TableBelow(s2)
  {
  }

  lemma {:induction false} TileLoopKeeps(b: Board, k: int, tmp: Board, tile2: Board, p: real, depth: int,
                                         limit: int, acc: Scored, ops: Ops)
    requires Sound(ops) && 0 <= k <= 16 && 0 <= depth < limit && TableBelow(acc.stats)
    ensures var r := TileLoop(b, k, tmp, tile2, p, depth, limit, acc, ops).stats;
      Keeps(acc.stats, r, limit) && TableBelow(r)
    decreases limit - depth, 2, 16 - k
  {
    if k < 16 {
      var next := CellStep(b, tmp, tile2, p, depth, limit, acc, ops);
      CellStepKeeps(b, tmp, tile2, p, depth, limit, acc, ops);
      TileLoopKeeps(b, k + 1, tmp >> 4, tile2 << 4, p, depth, limit, next, ops);
      KeepsTrans(acc.stats, next.stats, TileLoop(b, k, tmp, tile2, p, depth, limit, acc, ops).stats, limit);
    }
  }

  lemma CellStepKeeps(b: Board, tmp: Board, tile2: Board, p: real, depth: int, limit: int, acc: Scored, ops: Ops)
    requires Sound(ops) && 0 <= depth < limit && TableBelow(acc.stats)
    ensures var r := CellStep(b, tmp, tile2, p, depth, limit, acc, ops).stats;
      Keeps(acc.stats, r, limit) && TableBelow(r)
    decreases limit - depth, 1, 0
  {
    if tmp & 0xf == 0 {
      TilePairKeeps(WithTwo(b, tile2), WithFour(b, tile2), p, depth, limit, acc, ops);
    }
  }

  lemma {:induction false} TilePairKeeps(two: Board, four: Board, p: real, depth: int, limit: int, prev: Scored,
                                         ops: Ops)
    requires Sound(ops) && 0 <= depth < limit && TableBelow(prev.stats)
    ensures var r := TilePair(two, four, p, depth, limit, prev, ops).stats;
      Keeps(prev.stats, r, limit) && TableBelow(r)
    decreases limit - depth, 0, 6
  {
    var a := MoveNode(two, p * TILE_2_PROB, depth, limit, prev.stats, ops);
    MoveNodeKeeps(two, p * TILE_2_PROB, depth, limit, prev.stats, ops);
    MoveNodeKeeps(four, p * TILE_4_PROB, depth, limit, a.stats, ops);
    KeepsTrans(prev.stats, a.stats, TilePair(two, four, p, depth, limit, prev, ops).stats, limit);
  }

  /** A move node also counts each of the four moves it tries. */
  lemma {:induction false} MoveNodeKeeps(b: Board, cprob: real, depth: int, limit: int, st: Stats,
                                         ops: Ops)
    requires Sound(ops) && 0 <= depth < limit && TableBelow(st)
    ensures var r := MoveNode(b, cprob, depth, limit, st, ops).stats;
      Keeps(st, r, limit) && TableBelow(r) && r.evaled >= st.evaled + 4
    decreases limit - depth, 0, 5
  {
    MoveMaxKeeps(b, 0, 0.0, cprob, depth + 1, limit, st, ops);
  }

  /** A move node is the maximum over the moves one level deeper, or the heuristic value when that is 0. */
  lemma MoveNodeFrom(b: Board, cprob: real, depth: int, limit: int, st: Stats, ops: Ops, best: real, after: Stats)
    requires Sound(ops) && depth < limit
    requires Scored(best, after) == MoveMax(b, 0, 0.0, cprob, depth + 1, limit, st, ops)
    ensures MoveNode(b, cprob, depth, limit, st, ops) == Scored(if best == 0.0 then ops.heur(b) else best, after)
  {
  }

  /** One move of a move node: counted, and, when it changes the board, its chance value taken into the maximum. */
  lemma MoveMaxStep(b: Board, m: int, best: real, cprob: real, depth: int, limit: int, st: Stats, ops: Ops)
    requires Sound(ops) && 0 <= m < 4 && depth <= limit
    ensures var st1 := st.(evaled := st.evaled + 1);
      ops.execute(m, b) == b ==>
        MoveMax(b, m, best, cprob, depth, limit, st, ops) == MoveMax(b, m + 1, best, cprob, depth, limit, st1, ops)
    ensures var nb, st1 := ops.execute(m, b), st.(evaled := st.evaled + 1);
      nb != b ==>
        ops.countEmpty(nb) != 0 &&
        var r := ChanceNode(nb, cprob, depth, limit, st1, ops);
        MoveMax(b, m, best, cprob, depth, limit, st, ops) == MoveMax(b, m + 1, AiSearch.RealMax(best, r.value), cprob, depth, limit, r.stats, ops)
  {
  }

  /** After the fourth move the maximum is the one reached. */
  lemma MoveMaxDone(b: Board, best: real, cprob: real, depth: int, limit: int, st: Stats, ops: Ops)
    requires Sound(ops) && depth <= limit
    ensures MoveMax(b, 4, best, cprob, depth, limit, st, ops) == Scored(best, st)
  {
  }

  lemma {:induction false} MoveMaxKeeps(b: Board, m: int, best: real, cprob: real, depth: int, limit: int,
                                        st: Stats, ops: Ops)
    requires Sound(ops) && 0 <= m <= 4 && 0 <= depth <= limit && TableBelow(st)
    ensures var r := MoveMax(b, m, best, cprob, depth, limit, st, ops);
      Keeps(st, r.stats, limit) && TableBelow(r.stats) && r.stats.evaled >= st.evaled + (4 - m) && r.value >= best
    decreases limit - depth + 1, 0, 4 - m
  {
    if m < 4 {
      var nb := ops.execute(m, b);
      var st1 := st.(evaled := st.evaled + 1);
      if b != nb {
        var r := ChanceNode(nb, cprob, depth, limit, st1, ops);
        ChanceKeeps(nb, cprob, depth, limit, st1, ops);
        var best1 := AiSearch.RealMax(best, r.value);
        MoveMaxKeeps(b, m + 1, best1, cprob, depth, limit, r.stats, ops);
        KeepsTrans(st, r.stats, MoveMax(b, m + 1, best1, cprob, depth, limit, r.stats, ops).stats, limit);
      } else {
        MoveMaxKeeps(b, m + 1, best, cprob, depth, limit, st1, ops);
      }
    }
  }

  // ---------------------------------------------------------------------------
  // The top-level scores and the choice among them.

  /** A move that leaves the board as it is scores 0; any other scores its chance value plus the bonus. */
  lemma TopScoreCases(b: Board, m: int, ops: Ops, pow35: nat -> real)
    requires Implements(ops, pow35) && 0 <= m < 4
    ensures MoveBoard(m, b) == b ==> TopScore(b, m, ops) == 0.0
    ensures MoveBoard(m, b) != b ==> ops.countEmpty(MoveBoard(m, b)) != 0
    ensures MoveBoard(m, b) != b ==>
      TopScore(b, m, ops) == ChanceNode(MoveBoard(m, b), 1.0, 0, DepthLimit(b, ops), Stats(map[], 0, 0, 0), ops).value + VALID_MOVE_BONUS
  {
    if MoveBoard(m, b) != b {
      MovedBoardRoom(m, b);
    }
  }

  /** The move `find_best_move` returns, when it is not -1, changes the board. */
  lemma BestMoveValid(b: Board, ops: Ops, pow35: nat -> real, bm: int)
    requires Implements(ops, pow35) && IsBestMove(TopScores(b, ops), bm) && bm != -1
    ensures 0 <= bm < 4 && MoveBoard(bm, b) != b
  {
    TopScoreCases(b, bm, ops, pow35);
  }

  /** On a board no move changes, `find_best_move` returns -1. */
  lemma NoMoveNone(b: Board, ops: Ops, pow35: nat -> real, bm: int)
    requires Implements(ops, pow35) && forall m :: 0 <= m < 4 ==> MoveBoard(m, b) == b
    requires IsBestMove(TopScores(b, ops), bm)
    ensures bm == -1
  {
    if bm != -1 {
      BestMoveValid(b, ops, pow35, bm);
    }
  }

  /** A move whose search value is not negative is worth taking: `find_best_move` then does not return -1. */
  lemma ValidMoveChosen(b: Board, ops: Ops, pow35: nat -> real, m: int, bm: int)
    requires Implements(ops, pow35) && 0 <= m < 4 && MoveBoard(m, b) != b
    requires ops.countEmpty(MoveBoard(m, b)) != 0
    requires ChanceNode(MoveBoard(m, b), 1.0, 0, DepthLimit(b, ops), Stats(map[], 0, 0, 0), ops).value >= 0.0
    requires IsBestMove(TopScores(b, ops), bm)
    ensures bm != -1
  {
    TopScoreCases(b, m, ops, pow35);
  }

  /** The scores determine the choice: at most one move satisfies `IsBestMove`. */
  lemma BestMoveUnique(scores: seq<real>, a: int, c: int)
    requires IsBestMove(scores, a) && IsBestMove(scores, c)
    ensures a == c
  {
  }

  // ---------------------------------------------------------------------------
  // The primitives, called on the tables.

  // ---------------------------------------------------------------------------

  /**
   * `eval_state`: the transposition table, the current depth, its limit and
   * the statistics; `ops` are the primitives the search is specified over.
   */
  class EvalState {
    var transTable: map<int, TransEntry>
    var maxdepth: int
    var curdepth: int
    var cachehits: int
    var movesEvaled: int
    var depthLimit: int
    const ops: Ops

    function Counters(): Stats
      reads this`transTable, this`maxdepth, this`cachehits, this`movesEvaled
    {
      Stats(transTable, maxdepth, cachehits, movesEvaled)
    }

    /** An empty table and every number 0. */
    constructor (ops: Ops)
      ensures transTable == map[] && maxdepth == 0 && curdepth == 0 && cachehits == 0
      ensures movesEvaled == 0 && depthLimit == 0 && this.ops == ops
    {
      transTable := map[];
      maxdepth := 0;
      curdepth := 0;
      cachehits := 0;
      movesEvaled := 0;
      depthLimit := 0;
      this.ops := ops;
    }

    /** `score_tilechoose_node` on a board with an empty cell. */
    method ScoreTilechooseNode(board: Board, cprob: real) returns (res: real)
      requires Sound(ops) && ops.countEmpty(board) != 0
      modifies this
      decreases depthLimit - curdepth, 7
      ensures curdepth == old(curdepth) && depthLimit == old(depthLimit)
      ensures Scored(res, Counters()) == ChanceNode(board, cprob, curdepth, depthLimit, old(Counters()), ops)
    {
      res := 0.0;
      if cprob < CPROB_THRESH_BASE || curdepth >= depthLimit {
        maxdepth := IntMax(curdepth, maxdepth);
        res := ops.heur(board);
        return;
      }
      if curdepth < CACHE_DEPTH_LIMIT && board as int in transTable {
        var entry := transTable[board as int];
        if entry.depth <= curdepth {
          cachehits := cachehits + 1;
          return entry.heuristic;
        }
      }
      res := ScoreSpread(board, cprob);
    }

    /** The rest of `score_tilechoose_node`: the loop over the cells, the average, and the store. */
    method ScoreSpread(board: Board, cprob: real) returns (res: real)
      requires Sound(ops) && ops.countEmpty(board) != 0 && curdepth < depthLimit
      modifies this
      decreases depthLimit - curdepth, 6
      ensures curdepth == old(curdepth) && depthLimit == old(depthLimit)
      ensures Scored(res, Counters()) == Spread(board, cprob, curdepth, depthLimit, old(Counters()), ops)
    {
      var numOpen := ops.countEmpty(board);
      res := SumTiles(board, cprob / numOpen as real);
      res := res / numOpen as real;
      if curdepth < CACHE_DEPTH_LIMIT {
        transTable := transTable[board as int := TransEntry(curdepth, res)];
      }
    }

    /**
     * The loop of `score_tilechoose_node`: `tmp` walks the cells and `tile_2`
     * the matching rank-1 tile, until `tile_2` is shifted out of the board.
     */
    method SumTiles(board: Board, p: real) returns (res: real)
      requires Sound(ops) && curdepth < depthLimit
      modifies this
      decreases depthLimit - curdepth, 5
      ensures curdepth == old(curdepth) && depthLimit == old(depthLimit)
      ensures Scored(res, Counters()) == TileLoop(board, 0, board, 1, p, curdepth, depthLimit, Scored(0.0, old(Counters())), ops)
    {
      res := 0.0;
      ghost var whole := TileLoop(board, 0, board, 1, p, curdepth, depthLimit, Scored(0.0, Counters()), ops);
      var tmp := board;
      var tile2: Board := 1;
      ghost var k := 0;
      while tile2 != 0
        invariant 0 <= k <= 16 && tile2 == TileAt(1, k)
        invariant curdepth == old(curdepth) && depthLimit == old(depthLimit)
        invariant TileLoop(board, k, tmp, tile2, p, curdepth, depthLimit, Scored(res, Counters()), ops) == whole
        decreases 16 - k
      {
        TileAdvance(k, tile2);
        TileLoopNext(board, k, tmp, tile2, p, curdepth, depthLimit, Scored(res, Counters()), ops);
        res := ScoreCell(board, tmp, tile2, p, res);
        tmp := tmp >> 4;
        tile2 := tile2 << 4;
        k := k + 1;
      }
      TileOnes(k);
    }

    /** One pass of that loop: for an empty cell, the move node with a 2 there, then with a 4 there. */
    method ScoreCell(board: Board, tmp: Board, tile2: Board, p: real, res: real) returns (newRes: real)
      requires Sound(ops) && curdepth < depthLimit
      modifies this
      decreases depthLimit - curdepth, 4
      ensures curdepth == old(curdepth) && depthLimit == old(depthLimit)
      ensures Scored(newRes, Counters()) == CellStep(board, tmp, tile2, p, curdepth, depthLimit, Scored(res, old(Counters())), ops)
    {
      newRes := res;
      if tmp & 0xf == 0 {
        newRes := ScorePair(WithTwo(board, tile2), WithFour(board, tile2), p, res);
      }
    }

    /** An empty cell's share: the move node with a 2 placed, weighted 0.9, then with a 4 placed, weighted 0.1. */
    method ScorePair(two: Board, four: Board, p: real, res: real) returns (newRes: real)
      requires Sound(ops) && curdepth < depthLimit
      modifies this
      decreases depthLimit - curdepth, 3
      ensures curdepth == old(curdepth) && depthLimit == old(depthLimit)
      ensures Scored(newRes, Counters()) == TilePair(two, four, p, curdepth, depthLimit, Scored(res, old(Counters())), ops)
    {
      var a := ScoreMoveNode(two, p * TILE_2_PROB);
      var c := ScoreMoveNode(four, p * TILE_4_PROB);
      newRes := res + a * TILE_2_PROB + c * TILE_4_PROB;
    }

    /** `score_move_node`: the four moves one level deeper, then the depth is restored. */
    method ScoreMoveNode(board: Board, cprob: real) returns (best: real)
      requires Sound(ops) && curdepth < depthLimit
      modifies this
      decreases depthLimit - curdepth, 2
      ensures curdepth == old(curdepth) && depthLimit == old(depthLimit)
      ensures Scored(best, Counters()) == MoveNode(board, cprob, curdepth, depthLimit, old(Counters()), ops)
    {
      ghost var st := Counters();
      var moved := ScoreMoves(board, cprob);
      MoveNodeFrom(board, cprob, curdepth, depthLimit, st, ops, moved, Counters());
      best := if moved == 0.0 then ops.heur(board) else moved;
    }

    /** The loop of `score_move_node` over the four moves, one level deeper; the depth is restored after it. */
    method ScoreMoves(board: Board, cprob: real) returns (best: real)
      requires Sound(ops) && curdepth < depthLimit
      modifies this
      decreases depthLimit - curdepth, 1
      ensures curdepth == old(curdepth) && depthLimit == old(depthLimit)
      ensures Scored(best, Counters()) == MoveMax(board, 0, 0.0, cprob, curdepth + 1, depthLimit, old(Counters()), ops)
    {
      best := 0.0;
      curdepth := curdepth + 1;
      ghost var whole := MoveMax(board, 0, 0.0, cprob, curdepth, depthLimit, Counters(), ops);
      for move := 0 to 4
        invariant curdepth == old(curdepth) + 1 && depthLimit == old(depthLimit)
        invariant MoveMax(board, move, best, cprob, curdepth, depthLimit, Counters(), ops) == whole
      {
        best := ScoreMove(board, move, cprob, best);
      }
      MoveMaxDone(board, best, cprob, curdepth, depthLimit, Counters(), ops);
      curdepth := curdepth - 1;
    }

    /** One pass of `score_move_node`'s loop: the move is counted, and one that changes the board raises `best`. */
    method ScoreMove(board: Board, move: int, cprob: real, best: real) returns (newBest: real)
      requires Sound(ops) && 0 <= move < 4 && curdepth <= depthLimit
      modifies this
      decreases depthLimit - curdepth + 1, 0
      ensures curdepth == old(curdepth) && depthLimit == old(depthLimit)
      ensures MoveMax(board, move + 1, newBest, cprob, curdepth, depthLimit, Counters(), ops)
           == MoveMax(board, move, best, cprob, curdepth, depthLimit, old(Counters()), ops)
    {
      ghost var st := Counters();
      MoveMaxStep(board, move, best, cprob, curdepth, depthLimit, st, ops);
      newBest := best;
      var newboard := ops.execute(move, board);
      movesEvaled := movesEvaled + 1;
      ghost var st1 := Counters();
      assert st1 == st.(evaled := st.evaled + 1);
      if board != newboard {
        var score := ScoreTilechooseNode(newboard, cprob);
        ghost var r := ChanceNode(newboard, cprob, curdepth, depthLimit, st1, ops);
        assert Scored(score, Counters()) == r;
        newBest := AiSearch.RealMax(best, score);
        assert MoveMax(board, move, best, cprob, curdepth, depthLimit, st, ops) == MoveMax(board, move + 1, AiSearch.RealMax(best, r.value), cprob, curdepth, depthLimit, r.stats, ops);
      } else {
        assert MoveMax(board, move, best, cprob, curdepth, depthLimit, st, ops) == MoveMax(board, move + 1, best, cprob, curdepth, depthLimit, st1, ops);
      }
    }

    /** `_score_toplevel_move`. */
    method ScoreToplevelMove(board: Board, move: int) returns (res: real)
      requires Sound(ops) && 0 <= move < 4
      modifies this
      ensures curdepth == old(curdepth) && depthLimit == old(depthLimit)
      ensures Scored(res, Counters()) == TopMove(board, move, curdepth, depthLimit, old(Counters()), ops)
    {
      res := 0.0;
      var newboard := ops.execute(move, board);
      if board == newboard {
        return;
      }
      res := ScoreTilechooseNode(newboard, 1.0);
      res := res + VALID_MOVE_BONUS;
    }
  }

  /**
   * `score_toplevel_move`: a fresh state searching to `DepthLimit(board)`.
   * `ops` names the primitives of 2048.cpp that the result is stated over.
   */
  method ScoreToplevel(board: Board, move: int, ops: Ops) returns (res: real)
    requires Sound(ops) && 0 <= move < 4
    ensures res == TopScore(board, move, ops)
  {
    res := 0.0;
    var state := new EvalState(ops);
    var distinct := ops.distinct(board);
    state.depthLimit := IntMax(3, distinct - 2);
    assert state.Counters() == Stats(map[], 0, 0, 0);
    assert state.depthLimit == DepthLimit(board, ops);
    assert state.ops == ops && state.curdepth == 0;
    res := state.ScoreToplevelMove(board, move);
    assert res == TopMove(board, move, 0, DepthLimit(board, ops), Stats(map[], 0, 0, 0), ops).value;
  }

  /**
   * `find_best_move`: the four moves in order, from a best score of 0 and
   * no move; a move takes over only with a strictly larger score.
   */
  method FindBestMove(board: Board, ops: Ops) returns (bestmove: int)
    requires Sound(ops)
    ensures IsBestMove(TopScores(board, ops), bestmove)
  {
    ghost var scores := TopScores(board, ops);
    var best := 0.0;
    bestmove := -1;
    for move := 0 to 4
      invariant Leading(scores, move, best, bestmove)
    {
      var res := ScoreToplevel(board, move, ops);
      LeadingStep(scores, move, best, bestmove, res);
      if res > best {
        best := res;
        bestmove := move;
      }
    }
    LeadingDone(scores, best, bestmove);
  }

  /**
   * After the first `n` scores, `find_best_move` holds `best` and `bm`:
   * no move and 0 while none scored above 0, otherwise the first move
   * with the largest score.
   */
  predicate Leading(scores: seq<real>, n: int, best: real, bm: int)
    requires 0 <= n <= |scores|
  {
    (bm == -1 ==> best == 0.0 && forall j :: 0 <= j < n ==> scores[j] <= 0.0) &&
    (bm != -1 ==> 0 <= bm < n && best == scores[bm] && best > 0.0) &&
    (forall j :: 0 <= j < n ==> scores[j] <= best) &&
    (forall j :: 0 <= j < bm ==> scores[j] < best)
  }

  /** One more move: a strictly larger score takes over, any other leaves the choice as it is. */
  lemma LeadingStep(scores: seq<real>, n: int, best: real, bm: int, res: real)
    requires 0 <= n < |scores| && Leading(scores, n, best, bm) && res == scores[n]
    ensures res > best ==> Leading(scores, n + 1, res, n)
    ensures res <= best ==> Leading(scores, n + 1, best, bm)
  {
  }

  /** Once every score is seen, the choice is the best move. */
  lemma LeadingDone(scores: seq<real>, best: real, bm: int)
    requires Leading(scores, |scores|, best, bm)
    ensures IsBestMove(scores, bm)
  {
  }
}
