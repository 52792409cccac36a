/**
 * The choice of a move from the four top-level scores, in both programs.
 * `getBestMove` (2048ai.js) starts from a best score of -1 and
 * `find_best_move` (2048.cpp) from 0, so a direction that changes the board
 * is passed over when its score is not above that start. `FirstBest` is the
 * choice without the threshold; the lemmas here show the as-written choice
 * missing a valid move and prove the corrected one finds one whenever a
 * direction changes the board.
 */
module MoveChoice {
  import opened Wrappers
  import opened GridSpec
  import opened AiHeuristic
  import opened BitBoard
  import opened BitOps
  import AiSearch
  import BitSearch

  // ---------------------------------------------------------------------------
  // getBestMove (2048ai.js:469-545).

  /**
   * The direction `getBestMove` picks changes the board, and it picks -1
   * exactly when every direction that changes the board scores -1 or less;
   * in particular it picks -1 when no direction changes the board.
   */
  lemma ChosenMoveValid(g: Grid, table: map<string, real>, search: (Grid, map<string, real>) -> AiSearch.Scored,
                        details: Grid -> Details, bm: int)
    requires IsGrid(g) && AllTiles(g) && AiSearch.IsBestMove(AiSearch.TopLevel(g, 4, table, search, details).scores, bm)
    ensures |AiSearch.TopLevel(g, 4, table, search, details).scores| == 4
    ensures bm != -1 ==> 0 <= bm < 4 && MoveGrid(g, bm) != g
    ensures bm == -1 <==> forall m :: 0 <= m < 4 && MoveGrid(g, m) != g ==>
      AiSearch.TopLevel(g, 4, table, search, details).scores[m].score <= -1.0
    ensures (forall m :: 0 <= m < 4 ==> MoveGrid(g, m) == g) ==> bm == -1
  {
    AiSearch.TopLevelEntries(g, 4, table, search, details);
  }

  /**
   * With every direction that changes the board scoring -2 (a board whose
   * evaluation is below zero, which the monotonicity penalty allows), the
   * choice starting from -1 picks no direction although one is valid.
   */
  lemma LowScoresNoMove()
    ensures var s := [AiSearch.MoveScore(0, -2.0, None, None, true), AiSearch.MoveScore(1, -1.0, None, None, false),
                      AiSearch.MoveScore(2, -1.0, None, None, false), AiSearch.MoveScore(3, -1.0, None, None, false)];
            s[0].valid && AiSearch.Choice(s).0 == -1 && AiSearch.IsBestMove(s, -1)
  {
    var s := [AiSearch.MoveScore(0, -2.0, None, None, true), AiSearch.MoveScore(1, -1.0, None, None, false),
              AiSearch.MoveScore(2, -1.0, None, None, false), AiSearch.MoveScore(3, -1.0, None, None, false)];
    assert s[..3][..2][..1][..0] == [];
    AiSearch.ChoiceIsBest(s);
  }

  /**
   * The choice as evidently intended: among the first `n` moves, those
   * marked valid compete, the first strictly best one wins, and there is no
   * threshold score a valid move has to beat. -1 when none is valid.
   */
  function FirstBest(scores: seq<real>, valid: seq<bool>, n: int): (c: int)
    requires |scores| == |valid| && 0 <= n <= |scores|
    ensures -1 <= c < n
  {
    if n == 0 then -1
    else
      var p := FirstBest(scores, valid, n - 1);
      if valid[n - 1] && (p == -1 || scores[n - 1] > scores[p]) then n - 1 else p
  }

  /** `FirstBest` is -1 exactly when no move is valid, and otherwise the first valid move of highest score. */
  lemma {:induction false} FirstBestSpec(scores: seq<real>, valid: seq<bool>, n: int)
    requires |scores| == |valid| && 0 <= n <= |scores|
    ensures var c := FirstBest(scores, valid, n);
      (c == -1 <==> forall j :: 0 <= j < n ==> !valid[j]) &&
      (c != -1 ==> valid[c] && (forall j :: 0 <= j < n && valid[j] ==> scores[j] <= scores[c]) &&
                   (forall j :: 0 <= j < c && valid[j] ==> scores[j] < scores[c]))
  {
    if n > 0 {
      FirstBestSpec(scores, valid, n - 1);
    }
  }

  function ScoresOf(s: seq<AiSearch.MoveScore>): (r: seq<real>)
    ensures |r| == |s| && forall j :: 0 <= j < |s| ==> r[j] == s[j].score
  {
    seq(|s|, j requires 0 <= j < |s| => s[j].score)
  }

  function ValidsOf(s: seq<AiSearch.MoveScore>): (r: seq<bool>)
    ensures |r| == |s| && forall j :: 0 <= j < |s| ==> r[j] == s[j].valid
  {
    seq(|s|, j requires 0 <= j < |s| => s[j].valid)
  }

  /** Over `getBestMove`'s scores, the corrected choice is -1 exactly when no direction changes the board. */
  lemma CorrectedChoiceJs(g: Grid, table: map<string, real>, search: (Grid, map<string, real>) -> AiSearch.Scored,
                          details: Grid -> Details)
    requires IsGrid(g) && AllTiles(g)
    ensures var s := AiSearch.TopLevel(g, 4, table, search, details).scores;
      |s| == 4 &&
      var c := FirstBest(ScoresOf(s), ValidsOf(s), 4);
      (c == -1 <==> forall m :: 0 <= m < 4 ==> MoveGrid(g, m) == g) &&
      (c != -1 ==> MoveGrid(g, c) != g && forall m :: 0 <= m < 4 && MoveGrid(g, m) != g ==> s[m].score <= s[c].score)
  {
    var s := AiSearch.TopLevel(g, 4, table, search, details).scores;
    AiSearch.TopLevelEntries(g, 4, table, search, details);
    FirstBestSpec(ScoresOf(s), ValidsOf(s), 4);
  }

  // ---------------------------------------------------------------------------
  // find_best_move (2048.cpp:542-563).

  /**
   * When every direction that changes the board has a search value of at
   * most minus the bonus, every top-level score is at most 0 and
   * `find_best_move` returns -1, which `play_game` takes as the end of the
   * game, although a direction changes the board.
   */
  lemma LowValuesNoMove(b: Board, ops: Ops, pow35: nat -> real)
    requires Implements(ops, pow35)
    requires forall m :: 0 <= m < 4 && MoveBoard(m, b) != b ==>
      BitSearch.ChanceNode(MoveBoard(m, b), 1.0, 0, BitSearch.DepthLimit(b, ops), BitSearch.Stats(map[], 0, 0, 0), ops).value
        + BitSearch.VALID_MOVE_BONUS <= 0.0
    ensures BitSearch.IsBestMove(BitSearch.TopScores(b, ops), -1)
  {
    forall m | 0 <= m < 4
      ensures BitSearch.TopScores(b, ops)[m] <= 0.0
    {
      BitSearch.TopScoreCases(b, m, ops, pow35);
    }
  }

  /** Which of the four moves change the board. */
  function Changes(b: Board): (r: seq<bool>)
    ensures |r| == 4 && forall m :: 0 <= m < 4 ==> r[m] == (MoveBoard(m, b) != b)
  {
    seq(4, m requires 0 <= m < 4 => MoveBoard(m, b) != b)
  }

  /** Over `find_best_move`'s scores, the corrected choice is -1 exactly when no move changes the board. */
  lemma CorrectedChoiceBits(b: Board, ops: Ops)
    requires Sound(ops)
    ensures var s := BitSearch.TopScores(b, ops);
      var c := FirstBest(s, Changes(b), 4);
      (c == -1 <==> forall m :: 0 <= m < 4 ==> MoveBoard(m, b) == b) &&
      (c != -1 ==> MoveBoard(c, b) != b && forall m :: 0 <= m < 4 && MoveBoard(m, b) != b ==> s[m] <= s[c])
  {
    FirstBestSpec(BitSearch.TopScores(b, ops), Changes(b), 4);
  }
}
