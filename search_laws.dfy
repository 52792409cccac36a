/**
 * The shortcuts of the two expectimax searches: when a chance node returns
 * the static evaluation or a stored value without searching, and when a
 * max node falls back to the static evaluation.
 */
module SearchLaws {
  import opened GridSpec
  import AiSearch
  import opened BitBoard
  import opened BitOps
  import BitSearch

  // ---------------------------------------------------------------------------
  // scoreTileChooseNode and scoreMoveNode (2048ai.js:566-624)
  // ---------------------------------------------------------------------------

  /**
   * A chance node below the probability threshold or at the depth limit is
   * the static evaluation; a board already in the table is the stored value,
   * counted as a hit; a board with no empty cell that is not in the table is
   * the static evaluation. None of the three touches the table.
   */
  lemma ChanceFallbacks(g: Grid, prob: real, depth: int, sd: int, st: AiSearch.Stats, eval: Grid -> real)
    requires IsGrid(g) && AllTiles(g)
    ensures prob < AiSearch.CPROB_THRESHOLD || depth >= sd ==>
      AiSearch.ChanceNode(g, prob, depth, sd, st, eval) == AiSearch.Scored(eval(g), st)
    ensures prob >= AiSearch.CPROB_THRESHOLD && depth < sd && NonNegative(g) && Hash(g) in st.table ==>
      AiSearch.ChanceNode(g, prob, depth, sd, st, eval) ==
        AiSearch.Scored(st.table[Hash(g)], st.(hits := st.hits + 1))
    ensures prob >= AiSearch.CPROB_THRESHOLD && depth < sd && NonNegative(g) && Hash(g) !in st.table &&
            (forall r, c :: 0 <= r < 4 && 0 <= c < 4 ==> g[r][c] != 0) ==>
      AiSearch.ChanceNode(g, prob, depth, sd, st, eval) == AiSearch.Scored(eval(g), st)
  {
    if prob >= AiSearch.CPROB_THRESHOLD && depth < sd && NonNegative(g) && Hash(g) !in st.table &&
       (forall r, c :: 0 <= r < 4 && 0 <= c < 4 ==> g[r][c] != 0) {
      EmptyPositionsSpec(g);
      EmptyCountPositive(g);
    }
  }

  /** With no direction that changes the board, the directions `m..3` leave `best` and the counters as they are. */
  lemma {:induction false} MoveMaxNoMove(g: Grid, m: int, best: real, prob: real, depth: int, sd: int,
                                         st: AiSearch.Stats, eval: Grid -> real)
    requires IsGrid(g) && AllTiles(g) && 0 <= m <= 4 && depth <= sd
    requires forall d :: 0 <= d < 4 ==> MoveGrid(g, d) == g
    ensures AiSearch.MoveMax(g, m, best, prob, depth, sd, st, eval) == AiSearch.Scored(best, st)
    decreases 4 - m
  {
    if m < 4 {
      MoveMaxNoMove(g, m + 1, best, prob, depth, sd, st, eval);
    }
  }

  /** A max node on a board no direction changes is its static evaluation, with one more node counted. */
  lemma MoveNodeNoMove(g: Grid, prob: real, depth: int, sd: int, st: AiSearch.Stats, eval: Grid -> real)
    requires IsGrid(g) && AllTiles(g) && depth < sd
    requires forall d :: 0 <= d < 4 ==> MoveGrid(g, d) == g
    ensures AiSearch.MoveNode(g, prob, depth, sd, st, eval) ==
      AiSearch.Scored(eval(g), st.(evaluated := st.evaluated + 1))
  {
    MoveMaxNoMove(g, 0, 0.0, prob, depth + 1, sd, st.(evaluated := st.evaluated + 1), eval);
  }

  /** In particular a max node on a lost board (`isGameOver`) is its static evaluation. */
  lemma GameOverMoveNode(g: Grid, prob: real, depth: int, sd: int, st: AiSearch.Stats, eval: Grid -> real)
    requires IsGrid(g) && AllTiles(g) && depth < sd && GameOver(g)
    ensures AiSearch.MoveNode(g, prob, depth, sd, st, eval) ==
      AiSearch.Scored(eval(g), st.(evaluated := st.evaluated + 1))
  {
    forall d | 0 <= d < 4
      ensures MoveGrid(g, d) == g
    {
      GameOverNoMove(g, d);
    }
    MoveNodeNoMove(g, prob, depth, sd, st, eval);
  }

  // ---------------------------------------------------------------------------
  // score_tilechoose_node and score_move_node (2048.cpp:397-479)
  // ---------------------------------------------------------------------------

  /**
   * A chance node below the probability threshold or at the depth limit is
   * the heuristic value, recording the depth reached; a board stored at a
   * depth no deeper than the current one, below `CACHE_DEPTH_LIMIT`, is the
   * stored value, counted as a hit.
   */
  lemma BitChanceFallbacks(b: Board, cprob: real, depth: int, limit: int, st: BitSearch.Stats, ops: Ops)
    requires Sound(ops) && ops.countEmpty(b) != 0
    ensures cprob < BitSearch.CPROB_THRESH_BASE || depth >= limit ==>
      BitSearch.ChanceNode(b, cprob, depth, limit, st, ops) ==
        BitSearch.Scored(ops.heur(b), st.(maxdepth := if depth > st.maxdepth then depth else st.maxdepth))
    ensures cprob >= BitSearch.CPROB_THRESH_BASE && depth < limit && depth < BitSearch.CACHE_DEPTH_LIMIT &&
            b as int in st.table && st.table[b as int].depth <= depth ==>
      BitSearch.ChanceNode(b, cprob, depth, limit, st, ops) ==
        BitSearch.Scored(st.table[b as int].heuristic, st.(cachehits := st.cachehits + 1))
  {
  }

  /** With no move that changes the board, the moves `m..3` leave `best` as it is and count one move each. */
  lemma {:induction false} BitMoveMaxNoMove(b: Board, m: int, best: real, cprob: real, depth: int, limit: int,
                                            st: BitSearch.Stats, ops: Ops)
    requires Sound(ops) && 0 <= m <= 4 && depth <= limit
    requires forall d :: 0 <= d < 4 ==> ops.execute(d, b) == b
    ensures BitSearch.MoveMax(b, m, best, cprob, depth, limit, st, ops) ==
      BitSearch.Scored(best, st.(evaled := st.evaled + 4 - m))
    decreases 4 - m
  {
    if m < 4 {
      BitMoveMaxNoMove(b, m + 1, best, cprob, depth, limit, st.(evaled := st.evaled + 1), ops);
    }
  }

  /** A max node on a board no move changes is its heuristic value, with the four moves counted. */
  lemma BitMoveNodeNoMove(b: Board, cprob: real, depth: int, limit: int, st: BitSearch.Stats, ops: Ops)
    requires Sound(ops) && depth < limit
    requires forall d :: 0 <= d < 4 ==> ops.execute(d, b) == b
    ensures BitSearch.MoveNode(b, cprob, depth, limit, st, ops) ==
      BitSearch.Scored(ops.heur(b), st.(evaled := st.evaled + 4))
  {
    BitMoveMaxNoMove(b, 0, 0.0, cprob, depth + 1, limit, st, ops);
  }
}
