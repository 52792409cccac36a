/**
 * The 64-bit board of 2048.cpp: sixteen 4-bit nibbles, nibble 4r+c holding
 * the rank of the cell at row r, column c (rank k stands for the tile 2^k,
 * rank 0 for an empty cell). Row r is the 16-bit word at bit 16r.
 *
 * `board_t`, `row_t`, `ROW_MASK`, `COL_MASK`, `reverse_row` and `unpack_col`
 * come from 2048.h, which is not part of this model; they are defined here
 * from the way 2048.cpp uses them.
 */
module BitBoard {
  import opened GridSpec
  import opened BitRow

  type Board = bv64
  type Row = bv16

  const ROW_MASK: Board := 0xFFFF
  const COL_MASK: Board := 0x000F_000F_000F_000F

  // ---------------------------------------------------------------------------
  // The cells of a board.

  /** The sixteen ranks, nibble k at index k. */
  function Cells(b: Board): (s: seq<int>)
    ensures |s| == 16
  {
    [(b & 0xf) as int,
      ((b >> 4) & 0xf) as int,
      ((b >> 8) & 0xf) as int,
      ((b >> 12) & 0xf) as int,
      ((b >> 16) & 0xf) as int,
      ((b >> 20) & 0xf) as int,
      ((b >> 24) & 0xf) as int,
      ((b >> 28) & 0xf) as int,
      ((b >> 32) & 0xf) as int,
      ((b >> 36) & 0xf) as int,
      ((b >> 40) & 0xf) as int,
      ((b >> 44) & 0xf) as int,
      ((b >> 48) & 0xf) as int,
      ((b >> 52) & 0xf) as int,
      ((b >> 56) & 0xf) as int,
      ((b >> 60) & 0xf) as int]
  }

  /** Shifting right by one nibble drops cell 0 and empties cell 15. */
  lemma CellsShift(x: Board)
    ensures Cells(x >> 4) == Cells(x)[1..] + [0]
  {
  }

  /** The board with no tile is the only one whose cells are all empty. */
  lemma CellsEmpty(x: Board)
    ensures Cells(x) == Zeros(16) <==> x == 0
  {
    assert Zeros(16) == [0, 0, 0, 0, 0, 0, 0, 0, 0, 0, 0, 0, 0, 0, 0, 0];
  }

  lemma CellRank(b: Board, k: int)
    requires 0 <= k < 16
    ensures 0 <= Cells(b)[k] <= MAX_RANK
  {
  }

  // ---------------------------------------------------------------------------
  // transpose (2048.cpp:40-50).

  /** The cells of a 4x4 grid read column by column. */
  function TransposeCells(s: seq<int>): (t: seq<int>)
    requires |s| == 16
    ensures |t| == 16
  {
    [s[0], s[4], s[8], s[12], s[1], s[5], s[9], s[13], s[2], s[6], s[10], s[14], s[3], s[7], s[11], s[15]]
  }

  /** Rows become columns: nibble (r, c) moves to (c, r). */
  function Transpose(x: Board): (t: Board)
    ensures Cells(t) == TransposeCells(Cells(x))
  {
    var a1 := x & 0xF0F00F0FF0F00F0F;
    var a2 := x & 0x0000F0F00000F0F0;
    var a3 := x & 0x0F0F00000F0F0000;
    var a := a1 | (a2 << 12) | (a3 >> 12);
    var b1 := a & 0xFF00FF0000FF00FF;
    var b2 := a & 0x00FF00FF00000000;
    var b3 := a & 0x00000000FF00FF00;
    b1 | (b2 >> 24) | (b3 << 24)
  }

  lemma TransposeInvolution(x: Board)
    ensures Transpose(Transpose(x)) == x
  {
  }

  /** The cell at row r, column c of the transposed grid is the cell at row c, column r. */
  lemma TransposeCellsAt(s: seq<int>, r: int, c: int)
    requires |s| == 16 && 0 <= r < 4 && 0 <= c < 4
    ensures TransposeCells(s)[4 * c + r] == s[4 * r + c]
  {
    if r == 0 {
      if c == 0 {} else if c == 1 {} else if c == 2 {} else {}
    } else if r == 1 {
      if c == 0 {} else if c == 1 {} else if c == 2 {} else {}
    } else if r == 2 {
      if c == 0 {} else if c == 1 {} else if c == 2 {} else {}
    } else {
      if c == 0 {} else if c == 1 {} else if c == 2 {} else {}
    }
  }

  // ---------------------------------------------------------------------------
  // count_empty (2048.cpp:54-69).

  /** The number of empty cells. */
  function ZeroNibbles(b: Board): (n: int)
    ensures 0 <= n <= 16
  {
    CountZeros(Cells(b))
  }

  /** 1 for an empty cell, 0 for a tile. */
  function IsEmpty(rank: int): int {
    if rank == 0 then 1 else 0
  }

  /** Nibble k of the result is 1 when nibble k of `x` is empty, 0 otherwise. */
  function EmptyFlags(x: Board): Board {
    var x1 := x | ((x >> 2) & 0x3333333333333333);
    var x2 := x1 | (x1 >> 1);
    !x2 & 0x1111111111111111
  }

  /** Adds the upper half of the nibbles onto the lower half, `w` bits apart. */
  function Fold32(x: Board): Board { x + (x >> 32) }
  function Fold16(x: Board): Board { x + (x >> 16) }
  function Fold8(x: Board): Board { x + (x >> 8) }
  function Fold4(x: Board): Board { x + (x >> 4) }

  /**
   * The number of empty cells, modulo 16: the flags are summed by halves
   * into the lowest nibble, so a board with sixteen empty cells gives 0.
   */
  function CountEmpty(x: Board): (n: int)
    ensures n == ZeroNibbles(x) % 16
  {
    FoldedCount(x);
    (Fold4(Fold8(Fold16(Fold32(EmptyFlags(x))))) & 0xf) as int
  }

  /** Exact for every board that holds a tile. */
  lemma CountEmptyExact(b: Board)
    ensures b != 0 ==> CountEmpty(b) == ZeroNibbles(b)
    ensures b == 0 ==> CountEmpty(b) == 0
  {
    CellsEmpty(b);
    SmallRemainder(Cells(b), CountEmpty(b));
  }

  lemma SmallRemainder(s: seq<int>, t: int)
    requires |s| == 16 && t == CountZeros(s) % 16
    ensures s != Zeros(16) ==> t == CountZeros(s)
    ensures s == Zeros(16) ==> t == 0
  {
    CountZerosAll(s);
  }

  lemma {:induction false} CountZerosAll(s: seq<int>)
    ensures CountZeros(s) == |s| <==> s == Zeros(|s|)
  {
    if s != [] {
      CountZerosAll(s[1..]);
      if s == Zeros(|s|) {
        assert s[1..] == Zeros(|s| - 1);
      }
      if CountZeros(s) == |s| {
        assert s == [s[0]] + s[1..];
      }
    }
  }

  lemma EmptyFlagsNibbles(b: Board)
    ensures var y := EmptyFlags(b);
      y & 0xEEEE_EEEE_EEEE_EEEE == 0 &&
      (y & 0xf) as int == IsEmpty((b & 0xf) as int) &&
      ((y >> 4) & 0xf) as int == IsEmpty(((b >> 4) & 0xf) as int) &&
      ((y >> 8) & 0xf) as int == IsEmpty(((b >> 8) & 0xf) as int) &&
      ((y >> 12) & 0xf) as int == IsEmpty(((b >> 12) & 0xf) as int) &&
      ((y >> 16) & 0xf) as int == IsEmpty(((b >> 16) & 0xf) as int) &&
      ((y >> 20) & 0xf) as int == IsEmpty(((b >> 20) & 0xf) as int) &&
      ((y >> 24) & 0xf) as int == IsEmpty(((b >> 24) & 0xf) as int) &&
      ((y >> 28) & 0xf) as int == IsEmpty(((b >> 28) & 0xf) as int) &&
      ((y >> 32) & 0xf) as int == IsEmpty(((b >> 32) & 0xf) as int) &&
      ((y >> 36) & 0xf) as int == IsEmpty(((b >> 36) & 0xf) as int) &&
      ((y >> 40) & 0xf) as int == IsEmpty(((b >> 40) & 0xf) as int) &&
      ((y >> 44) & 0xf) as int == IsEmpty(((b >> 44) & 0xf) as int) &&
      ((y >> 48) & 0xf) as int == IsEmpty(((b >> 48) & 0xf) as int) &&
      ((y >> 52) & 0xf) as int == IsEmpty(((b >> 52) & 0xf) as int) &&
      ((y >> 56) & 0xf) as int == IsEmpty(((b >> 56) & 0xf) as int) &&
      ((y >> 60) & 0xf) as int == IsEmpty(((b >> 60) & 0xf) as int)
  {
  }

  lemma FoldedHalves32(y: Board)
    requires y & 0xEEEE_EEEE_EEEE_EEEE == 0
    ensures var x := Fold32(y);
      x & 0xf <= 2 &&
      (x >> 4) & 0xf <= 2 &&
      (x >> 8) & 0xf <= 2 &&
      (x >> 12) & 0xf <= 2 &&
      (x >> 16) & 0xf <= 2 &&
      (x >> 20) & 0xf <= 2 &&
      (x >> 24) & 0xf <= 2 &&
      (x >> 28) & 0xf <= 2 &&
      (x & 0xf) as int == (y & 0xf) as int + ((y >> 32) & 0xf) as int &&
      ((x >> 4) & 0xf) as int == ((y >> 4) & 0xf) as int + ((y >> 36) & 0xf) as int &&
      ((x >> 8) & 0xf) as int == ((y >> 8) & 0xf) as int + ((y >> 40) & 0xf) as int &&
      ((x >> 12) & 0xf) as int == ((y >> 12) & 0xf) as int + ((y >> 44) & 0xf) as int &&
      ((x >> 16) & 0xf) as int == ((y >> 16) & 0xf) as int + ((y >> 48) & 0xf) as int &&
      ((x >> 20) & 0xf) as int == ((y >> 20) & 0xf) as int + ((y >> 52) & 0xf) as int &&
      ((x >> 24) & 0xf) as int == ((y >> 24) & 0xf) as int + ((y >> 56) & 0xf) as int &&
      ((x >> 28) & 0xf) as int == ((y >> 28) & 0xf) as int + ((y >> 60) & 0xf) as int
  {
  }

  lemma FoldedHalves16(y: Board)
    requires y & 0xf <= 2 &&
      (y >> 4) & 0xf <= 2 &&
      (y >> 8) & 0xf <= 2 &&
      (y >> 12) & 0xf <= 2 &&
      (y >> 16) & 0xf <= 2 &&
      (y >> 20) & 0xf <= 2 &&
      (y >> 24) & 0xf <= 2 &&
      (y >> 28) & 0xf <= 2
    ensures var x := Fold16(y);
      x & 0xf <= 4 &&
      (x >> 4) & 0xf <= 4 &&
      (x >> 8) & 0xf <= 4 &&
      (x >> 12) & 0xf <= 4 &&
      (x & 0xf) as int == (y & 0xf) as int + ((y >> 16) & 0xf) as int &&
      ((x >> 4) & 0xf) as int == ((y >> 4) & 0xf) as int + ((y >> 20) & 0xf) as int &&
      ((x >> 8) & 0xf) as int == ((y >> 8) & 0xf) as int + ((y >> 24) & 0xf) as int &&
      ((x >> 12) & 0xf) as int == ((y >> 12) & 0xf) as int + ((y >> 28) & 0xf) as int
  {
  }

  lemma FoldedHalves8(y: Board)
    requires y & 0xf <= 4 &&
      (y >> 4) & 0xf <= 4 &&
      (y >> 8) & 0xf <= 4 &&
      (y >> 12) & 0xf <= 4
    ensures var x := Fold8(y);
      x & 0xf <= 8 &&
      (x >> 4) & 0xf <= 8 &&
      (x & 0xf) as int == (y & 0xf) as int + ((y >> 8) & 0xf) as int &&
      ((x >> 4) & 0xf) as int == ((y >> 4) & 0xf) as int + ((y >> 12) & 0xf) as int
  {
  }

  lemma FoldedHalves4(y: Board)
    ensures (Fold4(y) & 0xf) as int == ((y & 0xf) as int + ((y >> 4) & 0xf) as int) % 16
  {
  }

  // The sums each stage holds, in terms of the cells; kept in separate
  // lemmas so that no proof sees more than one stage of 64-bit additions.

  lemma FoldedFlags32(b: Board)
    ensures var c := Cells(b); var x := Fold32(EmptyFlags(b));
      x & 0xf <= 2 &&
      (x >> 4) & 0xf <= 2 &&
      (x >> 8) & 0xf <= 2 &&
      (x >> 12) & 0xf <= 2 &&
      (x >> 16) & 0xf <= 2 &&
      (x >> 20) & 0xf <= 2 &&
      (x >> 24) & 0xf <= 2 &&
      (x >> 28) & 0xf <= 2 &&
      (x & 0xf) as int == IsEmpty(c[0]) + IsEmpty(c[8]) &&
      ((x >> 4) & 0xf) as int == IsEmpty(c[1]) + IsEmpty(c[9]) &&
      ((x >> 8) & 0xf) as int == IsEmpty(c[2]) + IsEmpty(c[10]) &&
      ((x >> 12) & 0xf) as int == IsEmpty(c[3]) + IsEmpty(c[11]) &&
      ((x >> 16) & 0xf) as int == IsEmpty(c[4]) + IsEmpty(c[12]) &&
      ((x >> 20) & 0xf) as int == IsEmpty(c[5]) + IsEmpty(c[13]) &&
      ((x >> 24) & 0xf) as int == IsEmpty(c[6]) + IsEmpty(c[14]) &&
      ((x >> 28) & 0xf) as int == IsEmpty(c[7]) + IsEmpty(c[15])
  {
    EmptyFlagsNibbles(b);
    FoldedHalves32(EmptyFlags(b));
  }

  lemma FoldedFlags16(b: Board)
    ensures var c := Cells(b); var x := Fold16(Fold32(EmptyFlags(b)));
      x & 0xf <= 4 &&
      (x >> 4) & 0xf <= 4 &&
      (x >> 8) & 0xf <= 4 &&
      (x >> 12) & 0xf <= 4 &&
      (x & 0xf) as int == IsEmpty(c[0]) + IsEmpty(c[8]) + IsEmpty(c[4]) + IsEmpty(c[12]) &&
      ((x >> 4) & 0xf) as int == IsEmpty(c[1]) + IsEmpty(c[9]) + IsEmpty(c[5]) + IsEmpty(c[13]) &&
      ((x >> 8) & 0xf) as int == IsEmpty(c[2]) + IsEmpty(c[10]) + IsEmpty(c[6]) + IsEmpty(c[14]) &&
      ((x >> 12) & 0xf) as int == IsEmpty(c[3]) + IsEmpty(c[11]) + IsEmpty(c[7]) + IsEmpty(c[15])
  {
    FoldedFlags32(b);
    FoldedHalves16(Fold32(EmptyFlags(b)));
  }

  lemma FoldedFlags8(b: Board)
    ensures var c := Cells(b); var x := Fold8(Fold16(Fold32(EmptyFlags(b))));
      (x & 0xf) as int == IsEmpty(c[0]) + IsEmpty(c[8]) + IsEmpty(c[4]) + IsEmpty(c[12]) + IsEmpty(c[2]) + IsEmpty(c[10]) + IsEmpty(c[6]) + IsEmpty(c[14]) &&
      ((x >> 4) & 0xf) as int == IsEmpty(c[1]) + IsEmpty(c[9]) + IsEmpty(c[5]) + IsEmpty(c[13]) + IsEmpty(c[3]) + IsEmpty(c[11]) + IsEmpty(c[7]) + IsEmpty(c[15])
  {
    FoldedFlags16(b);
    FoldedHalves8(Fold16(Fold32(EmptyFlags(b))));
  }

  /** The last two partial sums add up to the number of empty cells, modulo 16. */
  lemma SameRemainder(c: seq<int>, n0: int, n1: int, t: int)
    requires |c| == 16
    requires n0 == IsEmpty(c[0]) + IsEmpty(c[8]) + IsEmpty(c[4]) + IsEmpty(c[12]) + IsEmpty(c[2]) + IsEmpty(c[10]) + IsEmpty(c[6]) + IsEmpty(c[14])
    requires n1 == IsEmpty(c[1]) + IsEmpty(c[9]) + IsEmpty(c[5]) + IsEmpty(c[13]) + IsEmpty(c[3]) + IsEmpty(c[11]) + IsEmpty(c[7]) + IsEmpty(c[15])
    requires t == (n0 + n1) % 16
    ensures t == CountZeros(c) % 16
  {
    CountZerosUnrolled(c);
  }

  lemma {:induction false} CountZerosUnrolled(s: seq<int>)
    requires |s| == 16
    ensures CountZeros(s) == IsEmpty(s[0]) + IsEmpty(s[1]) + IsEmpty(s[2]) + IsEmpty(s[3]) + IsEmpty(s[4]) + IsEmpty(s[5]) + IsEmpty(s[6]) + IsEmpty(s[7]) + IsEmpty(s[8]) + IsEmpty(s[9]) + IsEmpty(s[10]) + IsEmpty(s[11]) + IsEmpty(s[12]) + IsEmpty(s[13]) + IsEmpty(s[14]) + IsEmpty(s[15])
  {
    assert CountZeros(s[15..]) == IsEmpty(s[15]) + CountZeros(s[16..]);
    assert CountZeros(s[14..]) == IsEmpty(s[14]) + CountZeros(s[15..]);
    assert CountZeros(s[13..]) == IsEmpty(s[13]) + CountZeros(s[14..]);
    assert CountZeros(s[12..]) == IsEmpty(s[12]) + CountZeros(s[13..]);
    assert CountZeros(s[11..]) == IsEmpty(s[11]) + CountZeros(s[12..]);
    assert CountZeros(s[10..]) == IsEmpty(s[10]) + CountZeros(s[11..]);
    assert CountZeros(s[9..]) == IsEmpty(s[9]) + CountZeros(s[10..]);
    assert CountZeros(s[8..]) == IsEmpty(s[8]) + CountZeros(s[9..]);
    assert CountZeros(s[7..]) == IsEmpty(s[7]) + CountZeros(s[8..]);
    assert CountZeros(s[6..]) == IsEmpty(s[6]) + CountZeros(s[7..]);
    assert CountZeros(s[5..]) == IsEmpty(s[5]) + CountZeros(s[6..]);
    assert CountZeros(s[4..]) == IsEmpty(s[4]) + CountZeros(s[5..]);
    assert CountZeros(s[3..]) == IsEmpty(s[3]) + CountZeros(s[4..]);
    assert CountZeros(s[2..]) == IsEmpty(s[2]) + CountZeros(s[3..]);
    assert CountZeros(s[1..]) == IsEmpty(s[1]) + CountZeros(s[2..]);
    assert CountZeros(s[0..]) == IsEmpty(s[0]) + CountZeros(s[1..]);
    assert s[16..] == [];
    assert s[0..] == s;
  }

  lemma FoldedCount(b: Board)
    ensures (Fold4(Fold8(Fold16(Fold32(EmptyFlags(b))))) & 0xf) as int == ZeroNibbles(b) % 16
  {
    FoldedHalves4(Fold8(Fold16(Fold32(EmptyFlags(b)))));
    FoldedFlags8(b);
    SameRemainder(Cells(b), (Fold8(Fold16(Fold32(EmptyFlags(b)))) & 0xf) as int, ((Fold8(Fold16(Fold32(EmptyFlags(b)))) >> 4) & 0xf) as int, (Fold4(Fold8(Fold16(Fold32(EmptyFlags(b))))) & 0xf) as int);
  }

  // ---------------------------------------------------------------------------
  // Rows: 16-bit words of four nibbles.

  /** The four ranks of a row, lowest nibble first. */
  function RowRanks(x: Row): (line: seq<int>)
    ensures RankLine(line)
  {
    [(x & 0xf) as int, ((x >> 4) & 0xf) as int, ((x >> 8) & 0xf) as int, ((x >> 12) & 0xf) as int]
  }

  /** Row r of the board: `(board >> 16r) & ROW_MASK`. */
  function RowAt(b: Board, r: int): Row
    requires 0 <= r < 4
  {
    if r == 0 then (b & ROW_MASK) as Row
    else if r == 1 then ((b >> 16) & ROW_MASK) as Row
    else if r == 2 then ((b >> 32) & ROW_MASK) as Row
    else ((b >> 48) & ROW_MASK) as Row
  }

  lemma RowCells(b: Board, r: int)
    requires 0 <= r < 4
    ensures RowRanks(RowAt(b, r)) == Cells(b)[4 * r..4 * r + 4]
  {
    RowsCells(b);
    if r == 0 {} else if r == 1 {} else if r == 2 {} else {}
  }

  lemma RowsCells(b: Board)
    ensures RowRanks(RowAt(b, 0)) == Cells(b)[0..4] && RowRanks(RowAt(b, 1)) == Cells(b)[4..8]
    ensures RowRanks(RowAt(b, 2)) == Cells(b)[8..12] && RowRanks(RowAt(b, 3)) == Cells(b)[12..16]
  {
    Row0Cells(b); Row1Cells(b); Row2Cells(b); Row3Cells(b);
  }

  // The lemmas below are written once per row, with the row index as a
  // literal: each one then concerns fixed shift amounts, which the solver
  // settles with bit-vector reasoning. A single lemma over a row parameter
  // needs symbolic shifts and does not fit the verifier's resource limit.

  lemma Row0Cells(b: Board)
    ensures RowRanks(RowAt(b, 0)) == Cells(b)[0..4]
  {
    Row0Element0(b);
    Row0Element1(b);
    Row0Element2(b);
    Row0Element3(b);
    SliceOf(RowRanks(RowAt(b, 0)), Cells(b), 0);
  }

  lemma Row0Element0(b: Board)
    ensures RowRanks(RowAt(b, 0))[0] == Cells(b)[0]
  {
    Row0Nibbles(b);
  }

  lemma Row0Element1(b: Board)
    ensures RowRanks(RowAt(b, 0))[1] == Cells(b)[1]
  {
    Row0Nibbles(b);
  }

  lemma Row0Element2(b: Board)
    ensures RowRanks(RowAt(b, 0))[2] == Cells(b)[2]
  {
    Row0Nibbles(b);
  }

  lemma Row0Element3(b: Board)
    ensures RowRanks(RowAt(b, 0))[3] == Cells(b)[3]
  {
    Row0Nibbles(b);
  }

  lemma Row0Nibbles(b: Board)
    ensures ((b & ROW_MASK) as Row & 0xf) as int == (b & 0xf) as int
    ensures (((b & ROW_MASK) as Row >> 4) & 0xf) as int == ((b >> 4) & 0xf) as int
    ensures (((b & ROW_MASK) as Row >> 8) & 0xf) as int == ((b >> 8) & 0xf) as int
    ensures (((b & ROW_MASK) as Row >> 12) & 0xf) as int == ((b >> 12) & 0xf) as int
  {
  }

  lemma Row1Cells(b: Board)
    ensures RowRanks(RowAt(b, 1)) == Cells(b)[4..8]
  {
    Row1Element0(b);
    Row1Element1(b);
    Row1Element2(b);
    Row1Element3(b);
    SliceOf(RowRanks(RowAt(b, 1)), Cells(b), 4);
  }

  lemma Row1Element0(b: Board)
    ensures RowRanks(RowAt(b, 1))[0] == Cells(b)[4]
  {
    Row1Nibbles(b);
  }

  lemma Row1Element1(b: Board)
    ensures RowRanks(RowAt(b, 1))[1] == Cells(b)[5]
  {
    Row1Nibbles(b);
  }

  lemma Row1Element2(b: Board)
    ensures RowRanks(RowAt(b, 1))[2] == Cells(b)[6]
  {
    Row1Nibbles(b);
  }

  lemma Row1Element3(b: Board)
    ensures RowRanks(RowAt(b, 1))[3] == Cells(b)[7]
  {
    Row1Nibbles(b);
  }

  lemma Row1Nibbles(b: Board)
    ensures (((b >> 16) & ROW_MASK) as Row & 0xf) as int == ((b >> 16) & 0xf) as int
    ensures ((((b >> 16) & ROW_MASK) as Row >> 4) & 0xf) as int == ((b >> 20) & 0xf) as int
    ensures ((((b >> 16) & ROW_MASK) as Row >> 8) & 0xf) as int == ((b >> 24) & 0xf) as int
    ensures ((((b >> 16) & ROW_MASK) as Row >> 12) & 0xf) as int == ((b >> 28) & 0xf) as int
  {
  }

  lemma Row2Cells(b: Board)
    ensures RowRanks(RowAt(b, 2)) == Cells(b)[8..12]
  {
    Row2Element0(b);
    Row2Element1(b);
    Row2Element2(b);
    Row2Element3(b);
    SliceOf(RowRanks(RowAt(b, 2)), Cells(b), 8);
  }

  lemma Row2Element0(b: Board)
    ensures RowRanks(RowAt(b, 2))[0] == Cells(b)[8]
  {
    Row2Nibbles(b);
  }

  lemma Row2Element1(b: Board)
    ensures RowRanks(RowAt(b, 2))[1] == Cells(b)[9]
  {
    Row2Nibbles(b);
  }

  lemma Row2Element2(b: Board)
    ensures RowRanks(RowAt(b, 2))[2] == Cells(b)[10]
  {
    Row2Nibbles(b);
  }

  lemma Row2Element3(b: Board)
    ensures RowRanks(RowAt(b, 2))[3] == Cells(b)[11]
  {
    Row2Nibbles(b);
  }

  lemma Row2Nibbles(b: Board)
    ensures (((b >> 32) & ROW_MASK) as Row & 0xf) as int == ((b >> 32) & 0xf) as int
    ensures ((((b >> 32) & ROW_MASK) as Row >> 4) & 0xf) as int == ((b >> 36) & 0xf) as int
    ensures ((((b >> 32) & ROW_MASK) as Row >> 8) & 0xf) as int == ((b >> 40) & 0xf) as int
    ensures ((((b >> 32) & ROW_MASK) as Row >> 12) & 0xf) as int == ((b >> 44) & 0xf) as int
  {
  }

  lemma Row3Cells(b: Board)
    ensures RowRanks(RowAt(b, 3)) == Cells(b)[12..16]
  {
    Row3Element0(b);
    Row3Element1(b);
    Row3Element2(b);
    Row3Element3(b);
    SliceOf(RowRanks(RowAt(b, 3)), Cells(b), 12);
  }

  lemma Row3Element0(b: Board)
    ensures RowRanks(RowAt(b, 3))[0] == Cells(b)[12]
  {
    Row3Nibbles(b);
  }

  lemma Row3Element1(b: Board)
    ensures RowRanks(RowAt(b, 3))[1] == Cells(b)[13]
  {
    Row3Nibbles(b);
  }

  lemma Row3Element2(b: Board)
    ensures RowRanks(RowAt(b, 3))[2] == Cells(b)[14]
  {
    Row3Nibbles(b);
  }

  lemma Row3Element3(b: Board)
    ensures RowRanks(RowAt(b, 3))[3] == Cells(b)[15]
  {
    Row3Nibbles(b);
  }

  lemma Row3Nibbles(b: Board)
    ensures (((b >> 48) & ROW_MASK) as Row & 0xf) as int == ((b >> 48) & 0xf) as int
    ensures ((((b >> 48) & ROW_MASK) as Row >> 4) & 0xf) as int == ((b >> 52) & 0xf) as int
    ensures ((((b >> 48) & ROW_MASK) as Row >> 8) & 0xf) as int == ((b >> 56) & 0xf) as int
    ensures ((((b >> 48) & ROW_MASK) as Row >> 12) & 0xf) as int == ((b >> 60) & 0xf) as int
  {
  }

  /** A four-element sequence equal element by element to a slice is that slice. */
  lemma SliceOf(l: seq<int>, s: seq<int>, i: int)
    requires |l| == 4 && 0 <= i <= |s| - 4
    requires l[0] == s[i] && l[1] == s[i + 1] && l[2] == s[i + 2] && l[3] == s[i + 3]
    ensures l == s[i..i + 4]
  {
  }

  /** The board with rows r0 .. r3. */
  function Join(r0: Row, r1: Row, r2: Row, r3: Row): (b: Board)
    ensures Cells(b) == RowRanks(r0) + RowRanks(r1) + RowRanks(r2) + RowRanks(r3)
  {
    JoinCells(r0, r1, r2, r3);
    JoinBits(r0, r1, r2, r3)
  }

  function JoinBits(r0: Row, r1: Row, r2: Row, r3: Row): Board
  {
    (r0 as Board) | ((r1 as Board) << 16) | ((r2 as Board) << 32) | ((r3 as Board) << 48)
  }

  lemma JoinRowsAt(r0: Row, r1: Row, r2: Row, r3: Row)
    ensures RowAt(JoinBits(r0, r1, r2, r3), 0) == r0 && RowAt(JoinBits(r0, r1, r2, r3), 1) == r1
    ensures RowAt(JoinBits(r0, r1, r2, r3), 2) == r2 && RowAt(JoinBits(r0, r1, r2, r3), 3) == r3
  {
  }

  lemma JoinCells(r0: Row, r1: Row, r2: Row, r3: Row)
    ensures Cells(JoinBits(r0, r1, r2, r3)) == RowRanks(r0) + RowRanks(r1) + RowRanks(r2) + RowRanks(r3)
  {
    JoinRowsAt(r0, r1, r2, r3);
    RowsCells(JoinBits(r0, r1, r2, r3));
    SplitRows(Cells(JoinBits(r0, r1, r2, r3)));
  }

  lemma SplitRows(s: seq<int>)
    requires |s| == 16
    ensures s == s[0..4] + s[4..8] + s[8..12] + s[12..16]
  {
  }

  lemma JoinRows(b: Board)
    ensures JoinBits(RowAt(b, 0), RowAt(b, 1), RowAt(b, 2), RowAt(b, 3)) == b
  {
  }

  /** The row holding four ranks: `line[0] | line[1] << 4 | line[2] << 8 | line[3] << 12`. */
  function Pack(line: seq<int>): (x: Row)
    requires RankLine(line)
    ensures RowRanks(x) == line
  {
    (line[0] as Row) | ((line[1] as Row) << 4) | ((line[2] as Row) << 8) | ((line[3] as Row) << 12)
  }

  lemma PackRanks(x: Row)
    ensures Pack(RowRanks(x)) == x
  {
    RoundTrip(x & 0xf);
    RoundTrip((x >> 4) & 0xf);
    RoundTrip((x >> 8) & 0xf);
    RoundTrip((x >> 12) & 0xf);
    FromNibbles(x);
  }

  lemma RoundTrip(a: Row)
    ensures (a as int) as Row == a
  {
  }

  lemma FromNibbles(x: Row)
    ensures (x & 0xf) | (((x >> 4) & 0xf) << 4) | (((x >> 8) & 0xf) << 8) | (((x >> 12) & 0xf) << 12) == x
  {
  }

  /** A row is determined by its four ranks. */
  lemma RanksInjective(x: Row, y: Row)
    requires RowRanks(x) == RowRanks(y)
    ensures x == y
  {
    PackRanks(x);
    PackRanks(y);
  }

  /** `reverse_row`: the row read from the other end. */
  function ReverseRow(x: Row): (y: Row)
    ensures RowRanks(y) == Reverse(RowRanks(x))
  {
    (x >> 12) | ((x >> 4) & 0x00F0) | ((x << 4) & 0x0F00) | (x << 12)
  }

  lemma ReverseRowInvolution(x: Row)
    ensures ReverseRow(ReverseRow(x)) == x
  {
  }

  /** Column 0 of a board whose other cells are empty, holding the four ranks of a row. */
  function ColumnCells(line: seq<int>): (s: seq<int>)
    requires |line| == 4
    ensures |s| == 16
  {
    [line[0], 0, 0, 0, line[1], 0, 0, 0, line[2], 0, 0, 0, line[3], 0, 0, 0]
  }

  /** `unpack_col`: the ranks of a row laid out down column 0 (see `UnpackColCells`). */
  function UnpackCol(x: Row): Board {
    var tmp := x as Board;
    (tmp | (tmp << 12) | (tmp << 24) | (tmp << 36)) & COL_MASK
  }

  lemma UnpackColCells(x: Row)
    ensures Cells(UnpackCol(x)) == ColumnCells(RowRanks(x))
  {
  }

  /** The four columns, shifted into place, make up the transposed board of the rows. */
  lemma UnpackColumns(y0: Row, y1: Row, y2: Row, y3: Row)
    ensures UnpackCol(y0) ^ (UnpackCol(y1) << 4) ^ (UnpackCol(y2) << 8) ^ (UnpackCol(y3) << 12)
      == Transpose(Join(y0, y1, y2, y3))
  {
  }

  // ---------------------------------------------------------------------------
  // The rows after a move (the values init_tables stores, 2048.cpp:192-223).

  /** The row after a move to the left. */
  function LeftRow(x: Row): (y: Row)
    ensures RowRanks(y) == LeftLine(RowRanks(x))
  {
    LeftLineShape(RowRanks(x));
    Pack(LeftLine(RowRanks(x)))
  }

  /** The row after a move to the right: the reversed row moved left, reversed back. */
  function RightRow(x: Row): (y: Row)
    ensures RowRanks(y) == RightLine(RowRanks(x))
  {
    ReverseRow(LeftRow(ReverseRow(x)))
  }

  /** A row and its moved row differ exactly when the move changes the row. */
  lemma LeftRowMoved(x: Row)
    ensures LeftRow(x) == x <==> LeftLine(RowRanks(x)) == RowRanks(x)
  {
    PackRanks(x);
    PackRanks(LeftRow(x));
  }

  lemma RightRowMoved(x: Row)
    ensures RightRow(x) == x <==> RightLine(RowRanks(x)) == RowRanks(x)
  {
    PackRanks(x);
    PackRanks(RightRow(x));
  }

  // ---------------------------------------------------------------------------
  // Whole-board moves: the rule on the sixteen ranks, and the same move on bits.

  /** Every row of the sixteen cells moved left. */
  function LeftCells(s: seq<int>): (t: seq<int>)
    requires |s| == 16
    ensures |t| == 16
  {
    LeftLine(s[0..4]) + LeftLine(s[4..8]) + LeftLine(s[8..12]) + LeftLine(s[12..16])
  }

  /** Every row of the sixteen cells moved right. */
  function RightCells(s: seq<int>): (t: seq<int>)
    requires |s| == 16
    ensures |t| == 16
  {
    RightLine(s[0..4]) + RightLine(s[4..8]) + RightLine(s[8..12]) + RightLine(s[12..16])
  }

  /**
   * The cells after move m: 0 up, 1 down, 2 left, 3 right. Up and down move
   * the columns, which are the rows of the transposed grid.
   */
  function MoveCells(m: int, s: seq<int>): (t: seq<int>)
    requires 0 <= m < 4 && |s| == 16
    ensures |t| == 16
  {
    if m == 0 then TransposeCells(LeftCells(TransposeCells(s)))
    else if m == 1 then TransposeCells(RightCells(TransposeCells(s)))
    else if m == 2 then LeftCells(s)
    else RightCells(s)
  }

  lemma CellsOfRows(s: seq<int>, l0: seq<int>, l1: seq<int>, l2: seq<int>, l3: seq<int>)
    requires |s| == 16 && l0 == s[0..4] && l1 == s[4..8] && l2 == s[8..12] && l3 == s[12..16]
    ensures LeftCells(s) == LeftLine(l0) + LeftLine(l1) + LeftLine(l2) + LeftLine(l3)
    ensures RightCells(s) == RightLine(l0) + RightLine(l1) + RightLine(l2) + RightLine(l3)
  {
  }

  /** The board with every row moved left. */
  function LeftBoard(b: Board): (c: Board)
    ensures Cells(c) == LeftCells(Cells(b))
  {
    RowsCells(b);
    CellsOfRows(Cells(b), RowRanks(RowAt(b, 0)), RowRanks(RowAt(b, 1)), RowRanks(RowAt(b, 2)), RowRanks(RowAt(b, 3)));
    Join(LeftRow(RowAt(b, 0)), LeftRow(RowAt(b, 1)), LeftRow(RowAt(b, 2)), LeftRow(RowAt(b, 3)))
  }

  /** The board with every row moved right. */
  function RightBoard(b: Board): (c: Board)
    ensures Cells(c) == RightCells(Cells(b))
  {
    RowsCells(b);
    CellsOfRows(Cells(b), RowRanks(RowAt(b, 0)), RowRanks(RowAt(b, 1)), RowRanks(RowAt(b, 2)), RowRanks(RowAt(b, 3)));
    Join(RightRow(RowAt(b, 0)), RightRow(RowAt(b, 1)), RightRow(RowAt(b, 2)), RightRow(RowAt(b, 3)))
  }

  /** The board after move m, and all ones for a move outside 0 .. 3. */
  function MoveBoard(m: int, b: Board): (r: Board)
    ensures 0 <= m < 4 ==> Cells(r) == MoveCells(m, Cells(b))
    ensures !(0 <= m < 4) ==> r == 0xFFFF_FFFF_FFFF_FFFF
  {
    if m == 0 then Transpose(LeftBoard(Transpose(b)))
    else if m == 1 then Transpose(RightBoard(Transpose(b)))
    else if m == 2 then LeftBoard(b)
    else if m == 3 then RightBoard(b)
    else 0xFFFF_FFFF_FFFF_FFFF
  }

  /** A board is determined by its sixteen ranks. */
  lemma CellsInjective(b: Board, c: Board)
    requires Cells(b) == Cells(c)
    ensures b == c
  {
    RowsCells(b);
    RowsCells(c);
    RanksInjective(RowAt(b, 0), RowAt(c, 0));
    RanksInjective(RowAt(b, 1), RowAt(c, 1));
    RanksInjective(RowAt(b, 2), RowAt(c, 2));
    RanksInjective(RowAt(b, 3), RowAt(c, 3));
    JoinRows(b);
    JoinRows(c);
  }

  /** A move leaves the board unchanged exactly when it leaves every rank in place. */
  lemma MoveBoardChanged(m: int, b: Board)
    requires 0 <= m < 4
    ensures MoveBoard(m, b) == b <==> MoveCells(m, Cells(b)) == Cells(b)
  {
    if MoveCells(m, Cells(b)) == Cells(b) {
      CellsInjective(MoveBoard(m, b), b);
    }
  }

  // ---------------------------------------------------------------------------
  // A move that changes the board leaves an empty cell and a tile.

  /** Sixteen cells, each a rank that fits a nibble. */
  predicate RankCells(s: seq<int>) {
    |s| == 16 && forall k :: 0 <= k < 16 ==> 0 <= s[k] <= MAX_RANK
  }

  lemma CellsRanks(b: Board)
    ensures RankCells(Cells(b))
  {
    forall k | 0 <= k < 16 ensures 0 <= Cells(b)[k] <= MAX_RANK {
      CellRank(b, k);
    }
  }

  /** Some cell is empty and some cell holds a tile. */
  predicate HasRoom(s: seq<int>) {
    (exists i :: 0 <= i < |s| && s[i] == 0) && (exists j :: 0 <= j < |s| && s[j] != 0)
  }

  lemma TransposeCellsInvolution(s: seq<int>)
    requires |s| == 16
    ensures TransposeCells(TransposeCells(s)) == s
  {
  }

  lemma TransposeRanks(s: seq<int>)
    requires RankCells(s)
    ensures RankCells(TransposeCells(s))
  {
    forall k | 0 <= k < 16 ensures 0 <= TransposeCells(s)[k] <= MAX_RANK {
      TransposeCellsAt(s, k % 4, k / 4);
    }
  }

  lemma TransposeRoom(s: seq<int>)
    requires |s| == 16 && HasRoom(s)
    ensures HasRoom(TransposeCells(s))
  {
    var i :| 0 <= i < 16 && s[i] == 0;
    var j :| 0 <= j < 16 && s[j] != 0;
    TransposeCellsAt(s, i / 4, i % 4);
    TransposeCellsAt(s, j / 4, j % 4);
    assert TransposeCells(s)[4 * (i % 4) + i / 4] == 0;
    assert TransposeCells(s)[4 * (j % 4) + j / 4] != 0;
  }

  /** A left move that changes some row leaves that row with a tile first and an empty cell last. */
  lemma LeftCellsRoom(s: seq<int>)
    requires RankCells(s) && LeftCells(s) != s
    ensures HasRoom(LeftCells(s))
  {
    assert RankLine(s[0..4]) && RankLine(s[4..8]) && RankLine(s[8..12]) && RankLine(s[12..16]);
    if LeftLine(s[0..4]) != s[0..4] {
      LeftLineMoved(s[0..4]);
      assert LeftCells(s)[3] == 0 && LeftCells(s)[0] != 0;
    } else if LeftLine(s[4..8]) != s[4..8] {
      LeftLineMoved(s[4..8]);
      assert LeftCells(s)[7] == 0 && LeftCells(s)[4] != 0;
    } else if LeftLine(s[8..12]) != s[8..12] {
      LeftLineMoved(s[8..12]);
      assert LeftCells(s)[11] == 0 && LeftCells(s)[8] != 0;
    } else {
      SplitRows(s);
      LeftLineMoved(s[12..16]);
      assert LeftCells(s)[15] == 0 && LeftCells(s)[12] != 0;
    }
  }

  /** A right move that changes some row leaves that row with an empty cell first and a tile last. */
  lemma RightCellsRoom(s: seq<int>)
    requires RankCells(s) && RightCells(s) != s
    ensures HasRoom(RightCells(s))
  {
    assert RankLine(s[0..4]) && RankLine(s[4..8]) && RankLine(s[8..12]) && RankLine(s[12..16]);
    if RightLine(s[0..4]) != s[0..4] {
      RightLineMoved(s[0..4]);
      assert RightCells(s)[0] == 0 && RightCells(s)[3] != 0;
    } else if RightLine(s[4..8]) != s[4..8] {
      RightLineMoved(s[4..8]);
      assert RightCells(s)[4] == 0 && RightCells(s)[7] != 0;
    } else if RightLine(s[8..12]) != s[8..12] {
      RightLineMoved(s[8..12]);
      assert RightCells(s)[8] == 0 && RightCells(s)[11] != 0;
    } else {
      SplitRows(s);
      RightLineMoved(s[12..16]);
      assert RightCells(s)[12] == 0 && RightCells(s)[15] != 0;
    }
  }

  lemma MovedCellsRoom(m: int, s: seq<int>)
    requires 0 <= m < 4 && RankCells(s) && MoveCells(m, s) != s
    ensures HasRoom(MoveCells(m, s))
  {
    if m == 0 || m == 1 {
      TransposeCellsInvolution(s);
      TransposeRanks(s);
      if m == 0 {
        LeftCellsRoom(TransposeCells(s));
        TransposeRoom(LeftCells(TransposeCells(s)));
      } else {
        RightCellsRoom(TransposeCells(s));
        TransposeRoom(RightCells(TransposeCells(s)));
      }
    } else if m == 2 {
      LeftCellsRoom(s);
    } else {
      RightCellsRoom(s);
    }
  }

  /**
   * After a move that changes the board, between 1 and 15 cells are empty,
   * so `count_empty` counts them exactly and the chance node's division by
   * it is defined.
   */
  lemma MovedBoardRoom(m: int, b: Board)
    requires 0 <= m < 4 && MoveBoard(m, b) != b
    ensures 1 <= ZeroNibbles(MoveBoard(m, b)) <= 15
    ensures CountEmpty(MoveBoard(m, b)) == ZeroNibbles(MoveBoard(m, b))
  {
    MoveBoardChanged(m, b);
    CellsRanks(b);
    MovedCellsRoom(m, Cells(b));
    RoomCount(Cells(MoveBoard(m, b)));
    CellsEmpty(MoveBoard(m, b));
    CountEmptyExact(MoveBoard(m, b));
  }

  lemma RoomCount(s: seq<int>)
    requires |s| == 16 && HasRoom(s)
    ensures 1 <= CountZeros(s) <= 15 && s != Zeros(16)
  {
    CountZerosPositive(s);
    CountZerosAll(s);
    var j :| 0 <= j < 16 && s[j] != 0;
    assert Zeros(16)[j] == 0;
  }
}
