# 2048: boards, moves and the expectimax players, in Dafny

This project models the core of a 2048 game with two AI players:

- **2048ai.js.** The readable JavaScript engine.
  - Its `Board` class is a 4×4 grid of tile values. It has the slide-and-merge rule and the four moves, the empty-cell and distinct-tile queries, the game-over test, a string hash and a ten-deep undo history.
  - Its `AI2048` class has a line heuristic, a board evaluation and an expectimax search. The search's transposition table is keyed by the board hash.
- **2048.cpp.** The bit-packed C++ engine.
  - A board is a 64-bit word of sixteen 4-bit ranks.
  - It has `transpose` and `count_empty`, and the six 65536-entry row tables built by `init_tables`.
  - It has table-driven moves, `count_distinct_tiles`, `get_max_rank` and `insert_tile_rand`.
  - Its expectimax search keeps a depth-aware transposition table, and `find_best_move` chooses among its results.
- **js/local_storage_manager.js.** A bounded list of named saved games over a key/value store, and the in-memory `fakeStorage` store.
- **js/game_manager.js.** Self-contained rules of the game controller:
  - `isPowerOfTwo`, the direction vectors and the engine-to-game remap in `aiStep`;
  - `buildTraversals` and the tile-editing click cycle;
  - the replay speed cycle and replay stepping;
  - the state history behind undo.

Code that works by changing state is modelled as imperative Dafny:

- `AiBoard.Board`, `AiSearch.AI2048`, `BitTables.TableArrays` (the six arrays), `BitSearch.EvalState`, `SaveStore.FakeStorage`, `SaveStore.LocalStorageManager` and `GameRules.GameManager` are classes whose methods update their fields.
- `BitRow.MoveLineLeft` updates an `array<int>` in place, as the `line[4]` loop of `init_tables` does.
- Each method is proved against a specification function: `GridSpec.MoveGrid`, `AiSearch.ChanceNode`, `BitBoard.MoveBoard`, `BitSearch.ChanceNode`, `SaveStore.Saved` and others. The properties the programs promise are proved about those functions.

The model's modules:

| module | what it holds |
|---|---|
| `GridSpec` | The 4×4 grid and the merge rule of 2048ai.js as functions; the hash; the game-over test |
| `AiBoard` | The `Board` class |
| `AiHeuristic` | `scoreLineHeuristic` and `evaluateBoard` as functions |
| `AiSearch` | The `AI2048` class and its search functions |
| `BitBoard` | The bit board: cells, `transpose`, `count_empty`, row packing, moves |
| `BitRow` | The left-move row rule |
| `BitTables` | The tables and `init_tables` |
| `BitScan` | `get_max_rank`, `count_distinct_tiles` and `insert_tile_rand` |
| `BitOps` | The primitives the C++ search calls |
| `BitSearch` | The C++ search and `find_best_move` |
| `MoveChoice` | The final choice of a move in both programs |
| `SearchLaws` | The search shortcuts in both programs |
| `SaveStore` | The storage manager |
| `GameRules` | The game-controller rules |

## Model

| member | source | states |
|---|---|---|
| GridSpec.MergeLineShape | 2048ai.js:125-140 | The merged line has 4 cells and the same sum as the input. The merged non-zero tiles come first and the rest are zeros. At least half as many tiles remain as there were, so each tile merges at most once |
| GridSpec.MergeSum | 2048ai.js:125-140 | Merging the packed tiles keeps their sum |
| GridSpec.MergeLineTiles | 2048ai.js:125-140 | A line of tiles (0 or powers of two ≥ 2) merges into a line of tiles |
| GridSpec.MergeLineExamples | 2048ai.js:125-140 | `[2,2,2,2]` gives `[4,4,0,0]`, so a merged tile does not merge again. `[2,2,4,4]` gives `[4,8,0,0]` and `[0,0,2,2]` gives `[4,0,0,0]` |
| GridSpec.MergeLinePartialExamples | 2048ai.js:90-102 | Moving left is not idempotent: `[2,2,4,0]` gives `[4,4,0,0]`, which gives `[8,0,0,0]` |
| GridSpec.MoveGridCell | 2048ai.js:54-119 | Each cell of a moved grid is the cell of the merged line (up and left) or of reverse∘merge∘reverse (down and right) for its row or column |
| GridSpec.MoveGridChanged | 2048ai.js:54-119 | A move changes the grid exactly when it changes one of the four lines it works on |
| GridSpec.MoveGridTiles | 2048ai.js:54-119 | A move keeps every cell a tile |
| GridSpec.EmptyPositionsSpec | 2048ai.js:203-241 | `getEmptyPositions` lists exactly the zero cells, in row-major order, without repeats. Its length is the `countEmpty` count |
| GridSpec.EmptyPlusOccupied | 2048ai.js:203-211 | The empty cells plus the occupied cells number 16 |
| GridSpec.EmptyCountPositive | 2048ai.js:203-211 | The empty count is positive exactly when some cell is 0 |
| GridSpec.StuckLine | 2048ai.js:125-140 | A full line with no two equal neighbours is unchanged when moved either way |
| GridSpec.GameOverNoMove | 2048ai.js:263-277 | On a grid `isGameOver` accepts, every move leaves the grid as it is |
| GridSpec.HashInjective | 2048ai.js:282-284 | Two grids of non-negative values have the same hash exactly when they are equal |
| AiBoard.Pushed | 2048ai.js:145-153 | After a push, the history is non-empty, has at most 10 entries and ends with the new snapshot |
| AiBoard.Board.constructor | 2048ai.js:25-28 | The board holds the given grid and an empty history |
| AiBoard.Board.Clone | 2048ai.js:33-35 | A fresh board with an equal grid and an empty history |
| AiBoard.Board.Set | 2048ai.js:47-49 | Exactly one cell changes; the history is unchanged |
| AiBoard.Board.MoveAndMergeArray | 2048ai.js:125-140 | The compress-merge-pad loop returns `MergeLine(line)` |
| AiBoard.Board.MoveUp | 2048ai.js:54-67 | The grid becomes `MoveGrid(old, 0)`, column by column. The result is true exactly when the grid changed |
| AiBoard.Board.MoveDown | 2048ai.js:72-85 | The grid becomes `MoveGrid(old, 1)`, reversed columns merged. The result is true exactly when the grid changed |
| AiBoard.Board.MoveLeft | 2048ai.js:90-102 | The grid becomes `MoveGrid(old, 2)`. The result is true exactly when the grid changed |
| AiBoard.Board.MoveRight | 2048ai.js:107-119 | The grid becomes `MoveGrid(old, 3)`, reversed rows merged. The result is true exactly when the grid changed |
| AiBoard.Board.SaveState | 2048ai.js:145-153 | The grid is unchanged. The history becomes `Pushed(old history, grid)` |
| AiBoard.Board.Undo | 2048ai.js:159-167 | On an empty history: false, nothing changes. Otherwise: true, the grid becomes the last saved grid and that entry is popped |
| AiBoard.Board.Move | 2048ai.js:187-198 | The state is saved first. The grid becomes `MoveGrid(old, m)`. The result is true exactly when `m` is 0..3 and the grid changed |
| AiBoard.Board.MovedCopy | 2048ai.js:612-613 | A fresh clone moved by `m`, whose history holds the original grid. The result says whether the move was valid |
| AiBoard.Board.CountEmpty | 2048ai.js:203-211 | The number of zero cells |
| AiBoard.Board.CountDistinctTiles | 2048ai.js:216-226 | The size of the set of non-zero values on the grid |
| AiBoard.Board.GetEmptyPositions | 2048ai.js:231-241 | Equals `EmptyPositions(grid)`; `EmptyPositionsSpec` gives its meaning |
| AiBoard.Board.IsGameOver | 2048ai.js:263-277 | True exactly when there is no empty cell and no cell equals its right or lower neighbour |
| AiHeuristic.Ranks | 2048ai.js:338-344 | The ranks of the line are the `log2` of its non-zero tiles in order, each rank ≥ 1 |
| AiHeuristic.MergesBounds | 2048ai.js:338-357 | The merge count is at most the number of tiles in the line, and never exactly 1 |
| AiHeuristic.MergesZeroIffNoMerge | 2048ai.js:338-357 | The merge count is 0 exactly when sliding the line merges nothing |
| AiHeuristic.CountPairedSnoc | 2048ai.js:338-357 | Appending a rank that continues a run adds 2 when the run had length 1 and 1 when longer. Any other rank adds nothing. So each maximal run of K ≥ 2 equal ranks counts K |
| AiHeuristic.ScanMergesExact | 2048ai.js:338-357 | On ranks ≥ 1, the `prevVal`/`counter` scan as written equals the run count `CountPaired` |
| AiHeuristic.LeadingOneMerges | 2048ai.js:338-357 | On a tile 1 followed by an 8 (ranks 0 and 3), the scan as written counts 2 merges although no two tiles are equal |
| AiHeuristic.MonotonicityPenalty | 2048ai.js:359-372 | The monotonicity term is ≥ 0, and 0 for a line that never increases or never decreases |
| AiHeuristic.EmptyLineHeuristic | 2048ai.js:329-398 | An all-empty line counts 4 empty cells, no merges, no monotonicity and no power sum, so it scores 200000 + 4·270 = 201080 |
| AiHeuristic.EmptyCountedTwice | 2048ai.js:404-462 | Summed over 4 rows and 4 columns, the empty count is twice the grid's. The empty score is `270 · 2 · empty` |
| AiSearch.MoveEntry | 2048ai.js:482-521 | The entry of direction `m` is valid exactly when the move changes the grid. An invalid entry scores -1 and leaves the table alone |
| AiSearch.TopLevelEntries | 2048ai.js:482-521 | The four entries name directions 0..3 in order. An entry is valid exactly when its direction changes the grid, and an invalid one scores -1 |
| AiSearch.ChoiceIsBest | 2048ai.js:476-528 | The loop's running choice, started at -1/-1, satisfies `IsBestMove`: -1 when no valid score beats -1. Otherwise a valid direction with the largest score that is strictly larger than every earlier valid score |
| AiSearch.BestMoveUnique | 2048ai.js:476-528 | At most one direction satisfies `IsBestMove` for given scores |
| AiSearch.ChanceKeeps | 2048ai.js:566-599 | A chance node only adds table entries and only increases the counters |
| AiSearch.MoveNodeKeeps | 2048ai.js:605-624 | A max node only adds table entries and only increases the counters |
| AiSearch.PlaceRestore | 2048ai.js:585-593 | Setting a cell and then setting it back gives the original grid |
| AiSearch.AI2048.constructor | 2048ai.js:307-313 | The depth and power function are as given; the table is empty, the counters are 0 and there is no report |
| AiSearch.AI2048.ResetStats | 2048ai.js:318-323 | Clears the table and both counters and drops the report |
| AiSearch.AI2048.ScoreLineHeuristic | 2048ai.js:329-398 | Equals `LineHeuristic(line)`: penalty + 270·empty + 700·merges − 47·min(monotonicities) − 11·Σ rank^3.5 |
| AiSearch.AI2048.ScanRanks | 2048ai.js:338-357 | The scan loop gives the run-based merge count `Merges(line)` and the power sum |
| AiSearch.AI2048.EvaluateBoard | 2048ai.js:404-462 | Equals `BoardEvaluation(grid)`: the line scores of the 4 rows and 4 columns, summed with their details |
| AiSearch.AI2048.ScoreTileChooseNode | 2048ai.js:566-599 | The result, table and counters equal `ChanceNode` of the old grid and counters. The board is left as it was, since every tried cell is reset |
| AiSearch.AI2048.ScoreMoveNode | 2048ai.js:605-624 | The result, table and counters equal `MoveNode`. The depth goes up by one and the node is counted. The value is the best valid direction from 0, or the evaluation when that best is 0 |
| AiSearch.AI2048.LimitDepth | 2048ai.js:472-474 | The effective depth is always `SEARCH_DEPTH` = 2, because `min(max(3, distinct−2), 2)` is 2 |
| AiSearch.AI2048.ScoreDirections | 2048ai.js:476-543 | The entries and table equal `TopLevel`. The move is the loop's `Choice` of them. The report holds the move, the entries and the grid |
| AiSearch.AI2048.GetBestMove | 2048ai.js:469-545 | The depth is 2. The table is what the four direction searches build from an empty one. The counters are 0, as they are reset after each valid direction. The result satisfies `IsBestMove` over the `TopLevel` entries and lies in -1..3. The report holds the result, the entries and the grid |
| MoveChoice.ChosenMoveValid | 2048ai.js:469-545 | A chosen direction changes the grid. The result is -1 exactly when every direction that changes the grid scores ≤ -1, so it is -1 when none changes it |
| MoveChoice.LowScoresNoMove | 2048ai.js:476-521 | With a valid direction scoring -2, the choice started at -1 returns -1 |
| MoveChoice.FirstBestSpec | 2048ai.js:469-545 | The corrected choice is -1 exactly when no move is valid. Otherwise it is a valid move with the largest score, strictly larger than every earlier valid one |
| MoveChoice.CorrectedChoiceJs | 2048ai.js:469-545 | Over `getBestMove`'s entries, the corrected choice is -1 exactly when no direction changes the grid. Otherwise it picks a direction that changes it, with the largest score |
| SearchLaws.ChanceFallbacks | 2048ai.js:566-580 | Below probability 0.0001 or at the depth limit, a chance node is the static evaluation. A hashed board already in the table gives the stored value and one more hit. A full board gives the static evaluation |
| SearchLaws.MoveNodeNoMove | 2048ai.js:605-624 | On a grid no direction changes, a max node is the static evaluation, with one more node counted |
| SearchLaws.GameOverMoveNode | 2048ai.js:605-624 | A max node on a grid `isGameOver` accepts is its static evaluation |
| BitBoard.Transpose | 2048.cpp:40-50 | The cells of the result are the cells of the input transposed |
| BitBoard.TransposeCellsAt | 2048.cpp:34-50 | The nibble at (row r, col c) moves to (row c, col r) |
| BitBoard.TransposeInvolution | 2048.cpp:40-50 | Transposing twice gives the board back |
| BitBoard.CountEmpty | 2048.cpp:54-69 | The folded popcount is the number of zero nibbles modulo 16 |
| BitBoard.CountEmptyExact | 2048.cpp:52-69 | The count is exactly the number of zero nibbles on any board that is not entirely empty, the precondition the source documents. It is 0 on the empty board |
| BitBoard.MovedBoardRoom | 2048.cpp:277-290 | A move that changes the board leaves between 1 and 15 empty cells, and `count_empty` counts them exactly |
| BitBoard.Pack | 2048.cpp:214-217 | Packing four ranks into a 16-bit row and reading them back gives the same ranks |
| BitBoard.PackRanks | 2048.cpp:96-101 | Reading a row's ranks and packing them gives the row back |
| BitBoard.ReverseRowInvolution | 2048.cpp:218-219 | Reversing a row twice gives it back |
| BitBoard.UnpackColCells | 2048.cpp:225-226 | `unpack_col` puts the row's four ranks down column 0 |
| BitBoard.LeftRowMoved | 2048.cpp:192-216 | A row is unchanged by the left move exactly when its ranks are unchanged by the left-line rule |
| BitBoard.MoveBoard | 2048.cpp:277-290 | For moves 0..3, the cells are those of the board moved line by line. Any other move code gives all ones (`~0ULL`) |
| BitBoard.MoveBoardChanged | 2048.cpp:277-290 | A move leaves the board as it is exactly when it leaves its cells as they are |
| BitRow.LeftLineShape | 2048.cpp:192-211 | The left-moved row holds ranks 0..15. Its non-zero ranks come first and zeros after, and at least half the tiles remain |
| BitRow.MergeRanksBounds | 2048.cpp:192-211 | Merging never produces a rank above 0xf: two 15s give one 15 |
| BitRow.MergeRanksSame | 2048.cpp:192-211 | Merging keeps the length exactly when no two neighbours are equal, and then changes nothing |
| BitRow.LeftLineChanged | 2048.cpp:192-211 | A row the move changes ends in an empty cell. A row with a tile starts with one after the move |
| BitRow.LeftLineExamples | 2048.cpp:192-211 | `[1,1,1,1]` gives `[2,2,0,0]` and `[0,3,0,3]` gives `[4,0,0,0]` |
| BitRow.LeftLineSaturates | 2048.cpp:204-210 | `[15,15,0,0]` gives `[15,0,0,0]`: at rank 0xf the second tile is dropped without incrementing |
| BitRow.RightLineMoved | 2048.cpp:218-219 | A row the right move changes starts with an empty cell and ends with a tile |
| BitRow.MoveLineLeft | 2048.cpp:192-211 | The in-place loop over `line[4]` leaves `LeftLine(old line)` |
| BitTables.LeftEntryApplies | 2048.cpp:223 | `row_left_table[row]` is 0 exactly when moving left leaves the row unchanged, and `row ^ entry` is the moved row |
| BitTables.RightEntryApplies | 2048.cpp:224 | The same for `row_right_table` and the right move |
| BitTables.TileScoreMerge | 2048.cpp:103-114 | A rank r+1 tile is worth twice a rank r tile plus the 2^(r+1) that merging two of those scores, so `score_table` is the sum of the merges that built the tiles |
| BitTables.MergesAgree | 2048.cpp:118-151 | The C++ merge count over ranks equals the run count of the JS heuristic over the matching tile values |
| BitTables.MonotoneRowNoPenalty | 2048.cpp:156-175 | A row whose ranks never increase has no right-monotonicity penalty, and one whose ranks never decrease has no left one |
| BitTables.EmptyRowHeuristic | 2048.cpp:116-188 | An all-empty row scores 200000 + 4·270 less 4·11·`pow(0, 3.5)`, because the sum loop also runs over empty cells. That is 201080 when `pow(0, 3.5)` is 0 |
| BitTables.MonotonicityCountsEmpty | 2048.cpp:156-175 | The C++ loop counts pairs with an empty cell: `[3,0,3,0]` has penalty 81. The JS loop gives 0 on the matching `[8,0,8,0]` |
| BitTables.RowEntry | 2048.cpp:95-221 | One row's pass: the left-moved row, its heuristic value and its score |
| BitTables.LineScore | 2048.cpp:103-114 | The score loop gives `RowScore`: the sum over ranks ≥ 2 of `(rank−1)·2^rank` |
| BitTables.LineHeuristic | 2048.cpp:116-188 | The heuristic loops give `HeurRow` |
| BitTables.TableArrays.constructor | 2048.cpp:77-82 | Six fresh, distinct 65536-entry arrays |
| BitTables.TableArrays.InitTables | 2048.cpp:94-228 | After the loop over all 65536 rows, every entry of the six tables is as `Tables.Valid` states |
| BitTables.Tables.ExecuteMove | 2048.cpp:277-290 | Equals `MoveBoard(move, board)`: the up, down, left and right table lookups move the board, and any other code gives `~0ULL` |
| BitTables.Tables.ExecuteUp | 2048.cpp:231-240 | Equals `MoveBoard(0, board)` |
| BitTables.Tables.ExecuteDown | 2048.cpp:243-252 | Equals `MoveBoard(1, board)` |
| BitTables.Tables.ExecuteLeft | 2048.cpp:255-263 | Equals `MoveBoard(2, board)` |
| BitTables.Tables.ExecuteRight | 2048.cpp:266-274 | Equals `MoveBoard(3, board)` |
| BitTables.Tables.ScoreHeurBoard | 2048.cpp:368-382 | The row lookups of the board and of its transpose sum to `HeurBoard` of its cells |
| BitTables.Tables.ScoreBoard | 2048.cpp:385-387 | The row lookups sum to `BoardScore` of its cells |
| BitScan.MaxRankIsMax | 2048.cpp:293-300 | `MaxRank` bounds every cell and is 0 or some cell's rank |
| BitScan.GetMaxRank | 2048.cpp:293-300 | The shift loop returns `MaxRank(Cells(board))` |
| BitScan.DistinctTilesCount | 2048.cpp:304-320 | `DistinctTiles` is the number of distinct non-zero ranks on the board |
| BitScan.CollectRanks | 2048.cpp:304-311 | After the loop, bit r of the set is on exactly when rank r (1..15) is on the board |
| BitScan.CountDistinctTiles | 2048.cpp:304-320 | The count equals `DistinctTiles(Cells(board))` |
| BitScan.InsertTileRand | 2048.cpp:608-622 | The tile goes into the `index`-th empty cell in scan order, and no other cell changes |
| BitOps.TableOps | 2048.cpp:277-320 | The table-driven primitives satisfy `Implements`. A move that changes the board leaves an empty cell, so the chance node's division is defined |
| BitSearch.ChanceSumsEmptyCells | 2048.cpp:429-440 | The `tile_2` loop visits exactly the empty cells, each with a 2 and then a 4 |
| BitSearch.TwoPlaced | 2048.cpp:435 | `board \| tile_2` puts rank 1 in the visited empty cell |
| BitSearch.FourPlaced | 2048.cpp:436 | `board \| (tile_2 << 1)` puts rank 2 in the visited empty cell |
| BitSearch.ChanceKeeps | 2048.cpp:397-450 | Table entries are only added, and only below `CACHE_DEPTH_LIMIT` and at depths no deeper than before. The counters only grow |
| BitSearch.MoveNodeKeeps | 2048.cpp:454-479 | The same for a max node |
| BitSearch.TopScoreCases | 2048.cpp:483-493 | A move that leaves the board as it is scores 0. Any other scores its chance value at depth 0 plus 1e-6 |
| BitSearch.BestMoveValid | 2048.cpp:542-563 | A chosen move other than -1 changes the board |
| BitSearch.NoMoveNone | 2048.cpp:542-563 | When no move changes the board, the choice is -1 |
| BitSearch.ValidMoveChosen | 2048.cpp:542-563 | When a move changes the board and its chance value is ≥ 0, the choice is not -1 |
| BitSearch.BestMoveUnique | 2048.cpp:542-563 | At most one move satisfies `IsBestMove` for given scores |
| BitSearch.EvalState.constructor | 2048.cpp:346-356 | Empty table and zero counters |
| BitSearch.EvalState.ScoreTilechooseNode | 2048.cpp:397-450 | The result, table and counters equal `ChanceNode`, with the cache keyed on the board, honouring the stored depth and `CACHE_DEPTH_LIMIT` 15. The current depth is restored |
| BitSearch.EvalState.ScoreMoveNode | 2048.cpp:454-479 | Equals `MoveNode`. The depth goes up and back down. Best starts at 0, and the heuristic value is used when no move helps |
| BitSearch.EvalState.ScoreToplevelMove | 2048.cpp:483-493 | Equals `TopMove`: 0 for a move that changes nothing, else the chance value plus 1e-6 |
| BitSearch.ScoreToplevel | 2048.cpp:496-522 | With depth limit `max(3, distinct − 2)`, the score equals `TopScore` |
| BitSearch.FindBestMove | 2048.cpp:542-563 | The result satisfies `IsBestMove` over the four top-level scores: -1 when none is above 0. Otherwise the first move with the strictly greatest positive score |
| MoveChoice.LowValuesNoMove | 2048.cpp:542-563 | When every move that changes the board has chance value + 1e-6 ≤ 0, `find_best_move` returns -1 |
| MoveChoice.CorrectedChoiceBits | 2048.cpp:542-563 | Over `find_best_move`'s scores, the corrected choice is -1 exactly when no move changes the board. Otherwise it picks a move that changes it, with the largest score |
| SearchLaws.BitChanceFallbacks | 2048.cpp:397-421 | Below `CPROB_THRESH_BASE` or at the depth limit, the heuristic value, with the depth reached recorded. A board stored at a depth no deeper than the current one, below `CACHE_DEPTH_LIMIT`, gives the stored value and one more hit |
| SearchLaws.BitMoveNodeNoMove | 2048.cpp:454-479 | On a board no move changes, the heuristic value, with four moves counted |
| SaveStore.FakeStorage.constructor | js/local_storage_manager.js:1-2 | The store starts with no keys |
| SaveStore.FakeStorage.SetItem | js/local_storage_manager.js:4-6 | The key now maps to the value, which is returned. `getItem` of that key gives the value and other keys are unchanged |
| SaveStore.FakeStorage.GetItem | js/local_storage_manager.js:8-10 | The stored value when the key is present, otherwise none |
| SaveStore.FakeStorage.RemoveItem | js/local_storage_manager.js:12-14 | The key is gone, so `getItem` gives none. Other keys are unchanged, and the result is true |
| SaveStore.FakeStorage.Clear | js/local_storage_manager.js:16-18 | The store is empty |
| SaveStore.MaxScoreIsMax | js/local_storage_manager.js:156-173 | 0 when the state, grid or cells are missing. Otherwise a bound on every present tile that is 0 or one of them |
| SaveStore.LocalStorageManager.GetMaxScoreFromState | js/local_storage_manager.js:156-173 | The nested loops return `MaxScore(state)` |
| SaveStore.FirstNamed | js/local_storage_manager.js:79-85 | The first index with that name, or -1 when there is none |
| SaveStore.SortByTimeSorted | js/local_storage_manager.js:108-110 | The sort orders the saves by timestamp |
| SaveStore.SortByTime | js/local_storage_manager.js:108-110 | The sort is a permutation |
| SaveStore.OldestFirst | js/local_storage_manager.js:108-111 | After sorting, the first save is one with the smallest timestamp |
| SaveStore.SavedOverwrites | js/local_storage_manager.js:88-95 | Saving under an existing name replaces that entry in place: same id, same length, new name, state and timestamp. The rest are unchanged |
| SaveStore.SavedAppends | js/local_storage_manager.js:97-114 | Under a new name with fewer than 10 saves, one entry is appended, whose id is the timestamp |
| SaveStore.SavedEvicts | js/local_storage_manager.js:106-114 | Under a new name with ≥ 10 saves, one save with the smallest timestamp is removed and the new entry goes last |
| SaveStore.SavedBounded | js/local_storage_manager.js:106-114 | Starting from at most 10 saves, there are never more than 10 |
| SaveStore.LocalStorageManager.constructor | js/local_storage_manager.js:21-29 | The constructor only chooses the store, so the manager sees the saves and the game state that store already holds (given as parameters) |
| SaveStore.LocalStorageManager.SaveGameWithName | js/local_storage_manager.js:73-121 | The list becomes `Saved(old list, state, name, time)` and the result is always true |
| SaveStore.FirstWithIdIsFirst | js/local_storage_manager.js:127-132 | The lookup finds the first entry with that id |
| SaveStore.LocalStorageManager.LoadSavedGame | js/local_storage_manager.js:123-140 | Returns the state of the first entry with that id and makes it the current game. Otherwise returns none and changes nothing |
| SaveStore.WithoutIdMembers | js/local_storage_manager.js:142-154 | The kept entries are exactly those whose id differs. Nothing is removed when no entry has the id |
| SaveStore.WithoutIdSnoc | js/local_storage_manager.js:146-150 | The filter keeps the original order |
| SaveStore.LocalStorageManager.DeleteSavedGame | js/local_storage_manager.js:142-154 | The list becomes and returns `WithoutId(old list, id)` |
| GameRules.IsPowerOfTwoBelow32 | js/game_manager.js:2194-2197 | Below 2^32, `isPowerOfTwo` holds exactly for the positive powers of two |
| GameRules.IsPowerOfTwoAcceptsThreeTimes2To32 | js/game_manager.js:2194-2197 | The 32-bit `&` makes `isPowerOfTwo(3·2^32)` true |
| GameRules.IsPowerOfTwoCheckedExact | js/game_manager.js:2194-2197 | The corrected check holds exactly for the powers of two below 2^32 |
| GameRules.GetVector | js/game_manager.js:354-364 | A vector for 0..3 and none otherwise. Each has exactly one non-zero component, of ±1 |
| GameRules.VectorsOpposite | js/game_manager.js:354-364 | Directions d and d+2 are opposite, and the four vectors are distinct |
| GameRules.MoveMapMatches | js/game_manager.js:482-483 | `[0,2,3,1]` is a bijection on 0..3 that sends each engine move to the game move with the same vector |
| GameRules.LoneTileFollowsVector | js/game_manager.js:482-483 | A lone tile moved by engine move m slides to the edge its game vector points at |
| GameRules.TraversalOrder | js/game_manager.js:367-380 | Each axis lists 0..size−1 once each, descending exactly when the vector's component is +1 |
| GameRules.BuildTraversals | js/game_manager.js:367-380 | The loop builds `Traversal(size, x)` and `Traversal(size, y)` |
| GameRules.ClickCycle | js/game_manager.js:2148-2161 | A tile other than 2 or 4 is unchanged |
| GameRules.ClickCycleOrder | js/game_manager.js:2148-2161 | Empty becomes 2, 2 becomes 4 and 4 becomes empty. Three clicks restore any cell |
| GameRules.NextSpeedCycle | js/game_manager.js:2084-2089 | Each listed speed goes to the next, and 10 goes to 0.5. An unlisted speed goes to 0.5 |
| GameRules.GameManager.constructor | js/game_manager.js:137-162 | With a stored game, its grid, score and flags are reloaded. Otherwise the grid of the given size holds the start tiles and the score and flags are cleared. The history and the recording start empty, replay is off at speed 2, and the initial state is the resulting state |
| GameRules.GameManager.Serialize | js/game_manager.js:242-250 | The state holds the grid, score and flags, and can be restored |
| GameRules.GameManager.SaveToHistory | js/game_manager.js:99-106 | A copy of the current state is appended to the history. Nothing else changes |
| GameRules.GameManager.Undo | js/game_manager.js:109-134 | On an empty history nothing changes. Otherwise the last state is restored and popped |
| GameRules.GameManager.HandleCellClick | js/game_manager.js:2137-2178 | Ignored when over or replaying. Otherwise the state is saved, then the clicked cell steps through the click cycle |
| GameRules.GameManager.ClickThenUndo | js/game_manager.js:2137-2178 | A click followed by undo restores the state and the history |
| GameRules.GameManager.CycleReplaySpeed | js/game_manager.js:2082-2107 | The speed becomes `NextSpeed(old)`; nothing else changes |
| GameRules.GameManager.ReplayNextMove | js/game_manager.js:1949-1962 | A no-op at the end of the recording. Otherwise the index moves on by exactly 1, and the move it passed is returned for `replayMove` to play |
| GameRules.GameManager.ReplayPrevMove | js/game_manager.js:1965-2010 | A no-op at 0. Otherwise the index drops by exactly 1 and the grid, score and flags are reset to the initial state. The moves before the new index are returned for `replayMove` to replay |

## Left out

- Floating point: the `double`/`float` arithmetic of both heuristics and both searches is modelled with exact `real`. This covers the weights, the averages `totalScore / n` and `res / num_open`, and `cprob * 0.9`. Rounding is not modelled, and numeric parity between the two programs is not claimed.
- `Math.pow(rank, 3.5)` and `pow(rank, SCORE_SUM_POWER)` are a parameter `pow35: nat -> real`. It is an `AI2048` field, an argument of `TableArrays` and of `LineHeuristic`, and inside the C++ `Ops`. The fourth power of the monotonicity term is exact.
- AiSearch.AI2048.ScoreLineHeuristic: requires tiles ≥ 2 (`TileLine`), although the tile editor accepts a 1. `isPowerOfTwo(1)` holds, and `log2(1) = 0` collides with the scan's initial `prevVal` (see Findings).
- AiSearch.AI2048.ScanRanks: requires tiles ≥ 2, for the same reason.
- AiSearch.AI2048.EvaluateBoard: requires a grid of tiles ≥ 2 (`AllTiles`), for the same reason.
- AiSearch.AI2048.ScoreTileChooseNode: requires a grid of tiles ≥ 2, for the same reason.
- AiSearch.AI2048.ScoreMoveNode: requires a grid of tiles ≥ 2, for the same reason.
- AiSearch.AI2048.ScoreDirections: requires a grid of tiles ≥ 2, for the same reason.
- AiSearch.AI2048.GetBestMove: requires a grid of tiles ≥ 2, for the same reason.
- MoveChoice.ChosenMoveValid: "`getBestMove` returns -1 exactly when no direction changes the board" holds only when valid scores stay above -1. The lemma states the exact condition instead (see Findings).
- BitSearch.FindBestMove: "-1 exactly when no move changes the board" holds only when chance values are ≥ 0. `ValidMoveChosen` and `LowValuesNoMove` state the exact condition (see Findings).
- The JS `Board.grid` is an array of row arrays, updated in place and shared through `clone`. The model keeps it as a value `grid: Grid` (a sequence of sequences) with a `history: seq<Grid>` field. Aliasing between boards and in-place row updates are therefore not modelled.
- `Board.clearHistory`, `Board.getUndoCount` and `AI2048.getLastMoveDetails` are plain field accessors and are not modelled separately. The report `getLastMoveDetails` returns is the field `moveDetails`.
- `getBestMove`'s direction-name and explanation strings are dropped. Its report keeps the move, the per-direction entries and the grid.
- `Board.addRandomTile`, `GameManager.addRandomTile`, `draw_tile`, `unif_random` and `initial_board` use randomness and are not modelled. `insert_tile_rand` takes the random index as a parameter.
- `printf`, `gettimeofday`, the statistics printing in `score_toplevel_move`/`find_best_move`, `ask_for_move`, `play_game`, `main` and `Board.print` are console I/O and are not modelled.
- `reverse_row`, `unpack_col`, `ROW_MASK`, `COL_MASK`, `board_t`, `row_t` and the table entry type come from 2048.h, which is not part of this model. They are defined from their use sites in 2048.cpp with the standard formulas.
- The `std::unordered_map` / `std::map` transposition table is a Dafny `map<int, TransEntry>`.
- The C++ and JS heuristics are modelled each as written. The C++ monotonicity loop counts pairs with an empty cell and the JS loop skips them. The C++ cache honours the stored depth and `CACHE_DEPTH_LIMIT`, and the JS cache ignores depth.
- SaveStore.FakeStorage.SetItem: takes a `string`; the `String(val)` coercion of other values is not modelled. Keys are assumed not to be `Object.prototype` names: for `"__proto__"` the assignment reaches the prototype setter and stores nothing, so the round trip to `getItem` fails. The manager only uses the keys "bestScore", "gameState", "savedGames" and "test".
- SaveStore.FakeStorage.GetItem: keys are assumed not to be `Object.prototype` names. After `setItem("hasOwnProperty", v)`, every `getItem` throws a TypeError, because `this._data.hasOwnProperty` is then a string.
- GameRules.GameManager.constructor: the random start tiles of `addStartTiles` are the `startCells` parameter, and the stored game is the `previous` parameter (the `getGameState` read and its JSON decoding are not modelled). A stored game is required to hold a grid with cells, as every state `serialize` writes does.
- GameRules.IsPowerOfTwo: `value - 1` is computed exactly, so the model agrees with the source only below 2^53. Above that, JavaScript rounds `value - 1` to a double (for 2^53 + 4 it rounds back to 2^53 + 4), and the source then rejects values the model accepts. `IsPowerOfTwoBelow32` and the first Findings row are about values below that bound.
- `LocalStorageManager` keeps decoded `savedGames` and `gameState` fields in place of JSON text in the store. `JSON.stringify`/`JSON.parse`, `localStorageSupported`, the best-score keys and the store choice are not modelled, and `Date.now()` is a parameter.
- GameRules.GameManager.ReplayNextMove: returns the move instead of playing it, because `replayMove` slides tiles over the `Grid`/`Tile` classes, which are not part of this model. The game state is left unchanged.
- GameRules.GameManager.ReplayPrevMove: returns the moves to replay after the reset instead of playing them, for the same reason.
- `GameManager.undo` and `handleCellClick` also call `actuate`, `continueGame` and `evaluateCurrentBoard`, and `cycleReplaySpeed` restarts a timer. These UI effects are not modelled.
- The rest of js/game_manager.js, and the other UI and build files, are not modelled: DOM, dialogs, timers, import/export, and the tile-sliding `move`/`replayMove` over the `Grid`/`Tile` classes, which are not part of this model.

## Findings

| source | as written | input that shows it | evidently intended | confidence | as-written member | corrected member |
|---|---|---|---|---|---|---|
| js/game_manager.js:2194-2197 | `value > 0 && (value & (value - 1)) === 0` on a JS number; `&` works on the low 32 bits | `3 * 2^32`: both operands' low 32 bits are 0, so it is accepted | Only powers of two are accepted | not executed | GameRules.IsPowerOfTwoAcceptsThreeTimes2To32 | GameRules.IsPowerOfTwoCheckedExact |
| 2048ai.js:338-357 | The merge scan starts with `prevVal = 0` and compares it with `log2` of each tile | A line `[1, 8, 0, 0]`: rank 0 of the 1 equals the initial `prevVal`, so 2 merges are counted with no equal tiles | Merges count only runs of equal tiles | not executed | AiHeuristic.LeadingOneMerges | AiHeuristic.ScanMergesExact |
| 2048ai.js:469-545 | `bestScore` starts at -1 and a direction must score above it | A board whose only valid direction scores -2 (the monotonicity penalty, 47·rank⁴ per line, can outweigh the 200000 base) | -1 only when no direction changes the board | not executed | MoveChoice.LowScoresNoMove | MoveChoice.CorrectedChoiceJs |
| 2048.cpp:542-563 | `best` starts at 0 and a move must score above it; `play_game` stops on -1 | A board whose only valid move has chance value below -1e-6 | -1 only when no move changes the board | not executed | MoveChoice.LowValuesNoMove | MoveChoice.CorrectedChoiceBits |
