/**
 * The four board primitives the expectimax search of 2048.cpp calls:
 * `execute_move`, `score_heur_board`, `count_empty` and
 * `count_distinct_tiles`. The search is stated over an `Ops` value;
 * `Implements` ties one to the table-driven primitives, and the methods here
 * call the tables and return what the `Ops` value gives.
 */
module BitOps {
  import opened GridSpec
  import opened BitBoard
  import opened BitTables
  import opened BitScan

  /** The four primitives, as function values; `TableOps` is the choice of 2048.cpp. */
  datatype Ops = Ops(execute: (int, Board) -> Board, heur: Board -> real, countEmpty: Board -> int,
                     distinct: Board -> int)

  /** A move that changes the board leaves an empty cell to count, so the chance node's division is defined. */
  ghost predicate Sound(ops: Ops) {
    forall m: int, b: Board :: 0 <= m < 4 && ops.execute(m, b) != b ==> ops.countEmpty(ops.execute(m, b)) != 0
  }

  /**
   * The primitives are those of 2048.cpp: the moves on bits, the heuristic
   * of rows and columns with `pow35` for the 3.5th power, the empty count and
   * the distinct-rank count.
   */
  ghost predicate Implements(ops: Ops, pow35: nat -> real) {
    Sound(ops) &&
    (forall m, b {:trigger MoveBoard(m, b)} :: ops.execute(m, b) == MoveBoard(m, b)) &&
    (forall b {:trigger Heur(b, pow35)} :: ops.heur(b) == Heur(b, pow35)) &&
    (forall b {:trigger CountEmpty(b)} :: ops.countEmpty(b) == CountEmpty(b)) &&
    (forall b {:trigger BitScan.DistinctTiles(Cells(b))} :: ops.distinct(b) == BitScan.DistinctTiles(Cells(b)))
  }

  /** The primitives of 2048.cpp, as functions. */
  function TableOps(pow35: nat -> real): (ops: Ops)
    ensures Implements(ops, pow35)
  {
    MovesLeaveRoom();
    Ops((m: int, b: Board) => MoveBoard(m, b), (b: Board) => Heur(b, pow35), (b: Board) => CountEmpty(b),
        (b: Board) => BitScan.DistinctTiles(Cells(b)))
  }

  lemma MovesLeaveRoom()
    ensures forall m, b :: 0 <= m < 4 && MoveBoard(m, b) != b ==> CountEmpty(MoveBoard(m, b)) != 0
  {
    forall m, b | 0 <= m < 4 && MoveBoard(m, b) != b
      ensures CountEmpty(MoveBoard(m, b)) != 0
    {
      MovedBoardRoom(m, b);
    }
  }

  /** `score_heur_board`: the heuristic value of the rows and of the columns. */
  function Heur(b: Board, pow35: nat -> real): real {
    CellsRanks(b);
    HeurBoard(Cells(b), pow35)
  }
}
