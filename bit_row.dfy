/**
 * The left-move rule for one row of the bit-packed board in 2048.cpp, on
 * the four ranks of the row (rank k stands for the tile 2^k, rank 0 for an
 * empty cell). `init_tables` runs this loop once per possible row.
 */
module BitRow {
  import opened GridSpec

  /** The largest rank a nibble can hold: the tile 2^15. */
  const MAX_RANK := 15

  predicate RankLine(line: seq<int>) {
    |line| == 4 && forall i :: 0 <= i < 4 ==> 0 <= line[i] <= MAX_RANK
  }

  /** The rank two equal ranks merge into: one higher, except that 0xf stays 0xf. */
  function Merged(rank: int): int {
    if rank != MAX_RANK then rank + 1 else rank
  }

  /**
   * The pairwise merge of packed ranks: two equal neighbours become one
   * merged rank, and a merged rank is not merged again.
   */
  function MergeRanks(s: seq<int>): (r: seq<int>)
    ensures |r| <= |s| && 2 * |r| >= |s|
  {
    if |s| <= 1 then s
    else if s[0] == s[1] then [Merged(s[0])] + MergeRanks(s[2..])
    else [s[0]] + MergeRanks(s[1..])
  }

  /** The rule: slide the non-empty cells to the left, then merge. */
  function LeftLine(line: seq<int>): (r: seq<int>)
    requires |line| == 4
    ensures |r| == 4
  {
    Pad(MergeRanks(NonZero(line)), 4)
  }

  // ---------------------------------------------------------------------------
  // The rule's properties.

  lemma {:induction false} MergeRanksBounds(s: seq<int>)
    requires forall i :: 0 <= i < |s| ==> 1 <= s[i] <= MAX_RANK
    ensures forall i :: 0 <= i < |MergeRanks(s)| ==> 1 <= MergeRanks(s)[i] <= MAX_RANK
  {
    if |s| > 1 {
      if s[0] == s[1] {
        MergeRanksBounds(s[2..]);
      } else {
        MergeRanksBounds(s[1..]);
      }
    }
  }

  /** Merging keeps every rank when no two neighbours are equal, and only then keeps the length. */
  lemma {:induction false} MergeRanksSame(s: seq<int>)
    ensures |MergeRanks(s)| == |s| <==> forall i :: 0 <= i < |s| - 1 ==> s[i] != s[i + 1]
    ensures |MergeRanks(s)| == |s| ==> MergeRanks(s) == s
  {
    if |s| > 1 {
      if s[0] == s[1] {
      } else {
        MergeRanksSame(s[1..]);
        assert s == [s[0]] + s[1..];
      }
    }
  }

  lemma {:induction false} NonZeroFull(s: seq<int>)
    requires |NonZero(s)| == |s|
    ensures NonZero(s) == s
  {
    if s != [] {
      NonZeroFull(s[1..]);
      assert s == [s[0]] + s[1..];
    }
  }

  /**
   * The rule packs non-empty cells to the front and empties behind, never
   * goes above rank 0xf, and merges each tile at most once: at least half as
   * many tiles come out as went in.
   */
  lemma LeftLineShape(line: seq<int>)
    requires RankLine(line)
    ensures var r := LeftLine(line); var n := |MergeRanks(NonZero(line))|;
      RankLine(r) &&
      (forall i :: 0 <= i < n ==> r[i] != 0) &&
      (forall i :: n <= i < 4 ==> r[i] == 0) &&
      2 * n >= |NonZero(line)|
  {
    var nz := NonZero(line);
    forall i | 0 <= i < |nz| ensures 1 <= nz[i] <= MAX_RANK {
      NonZeroElements(line, nz[i]);
    }
    MergeRanksBounds(nz);
  }

  /**
   * A move that changes a line leaves an empty cell in it, and a line with a
   * tile keeps a tile.
   */
  lemma LeftLineChanged(line: seq<int>)
    requires RankLine(line)
    ensures LeftLine(line) != line ==> LeftLine(line)[3] == 0
    ensures NonZero(line) != [] ==> LeftLine(line)[0] != 0
  {
    var nz := NonZero(line);
    LeftLineShape(line);
    if |MergeRanks(nz)| == 4 {
      MergeRanksSame(nz);
      NonZeroFull(line);
    }
  }

  lemma {:induction false} NonZeroNone(s: seq<int>)
    requires NonZero(s) == []
    ensures s == Zeros(|s|)
  {
    if s != [] {
      NonZeroNone(s[1..]);
    }
  }

  /** A line the rule changes ends with an empty cell and starts with a tile. */
  lemma LeftLineMoved(line: seq<int>)
    requires RankLine(line) && LeftLine(line) != line
    ensures LeftLine(line)[3] == 0 && LeftLine(line)[0] != 0
  {
    LeftLineChanged(line);
    LeftLineEmpty(line);
  }

  /** A line without tiles stays as it is. */
  lemma LeftLineEmpty(line: seq<int>)
    requires |line| == 4
    ensures NonZero(line) == [] ==> LeftLine(line) == line
  {
    if NonZero(line) == [] {
      NonZeroNone(line);
      assert MergeRanks(NonZero(line)) == [];
    }
  }

  /** The rule for a move to the right: the left-move rule on the reversed line. */
  function RightLine(line: seq<int>): (r: seq<int>)
    requires |line| == 4
    ensures |r| == 4
  {
    Reverse(LeftLine(Reverse(line)))
  }

  /** A line the right-move rule changes starts with an empty cell and ends with a tile. */
  lemma RightLineMoved(line: seq<int>)
    requires RankLine(line) && RightLine(line) != line
    ensures RightLine(line)[0] == 0 && RightLine(line)[3] != 0
  {
    var rev := Reverse(line);
    assert Reverse(rev) == line;
    LeftLineMoved(rev);
  }

  /** A few rows: [1,1,1,1] becomes [2,2,0,0]; two 0xf tiles leave one 0xf. */
  lemma LeftLineExamples()
    ensures LeftLine([1, 1, 1, 1]) == [2, 2, 0, 0]
    ensures LeftLine([0, 3, 0, 3]) == [4, 0, 0, 0]
  {
    assert NonZero([1, 1, 1, 1]) == [1, 1, 1, 1];
    assert NonZero([0, 3, 0, 3]) == [3, 3];
  }

  /** Two 32768 tiles (rank 0xf) merge into a tile that stays at rank 0xf. */
  lemma LeftLineSaturates()
    ensures LeftLine([15, 15, 0, 0]) == [15, 0, 0, 0]
  {
    assert NonZero([15, 15, 0, 0]) == [15, 15];
  }

  // ---------------------------------------------------------------------------
  // The loop of `init_tables` that moves `line` to the left in place.

  lemma {:induction false} NonZeroZerosPrefix(s: seq<int>, n: int)
    requires 0 <= n <= |s| && forall k :: 0 <= k < n ==> s[k] == 0
    ensures NonZero(s) == NonZero(s[n..])
  {
    if n > 0 {
      NonZeroZerosPrefix(s[1..], n - 1);
      assert s[1..][n - 1..] == s[n..];
    }
  }

  /** The non-empty cells of `s[i..]` when `s[j]` is the first non-empty one after `s[i]`. */
  lemma NonZeroFrom(s: seq<int>, i: int, j: int)
    requires 0 <= i < j < |s| && s[j] != 0 && forall k :: i < k < j ==> s[k] == 0
    ensures NonZero(s[i + 1..]) == [s[j]] + NonZero(s[j + 1..])
    ensures NonZero(s[i..]) == (if s[i] != 0 then [s[i]] else []) + NonZero(s[i + 1..])
  {
    NonZeroZerosPrefix(s[i + 1..], j - i - 1);
    assert s[i + 1..][j - i - 1..] == s[j..];
    assert s[j..][1..] == s[j + 1..];
    assert s[i..][1..] == s[i + 1..];
  }

  lemma PadCons(x: int, s: seq<int>, n: int)
    requires |s| < n
    ensures Pad([x] + s, n) == [x] + Pad(s, n - 1)
  {
  }

  /** The state of the loop at index `i`: the cells before `i` are final, the rest is still to be merged. */
  ghost predicate LeftInvariant(s: seq<int>, i: int, goal: seq<int>)
    requires |s| == 4 && 0 <= i <= 3
  {
    (forall k :: 0 <= k < i ==> s[k] != 0) &&
    |MergeRanks(NonZero(s[i..]))| <= 4 - i &&
    s[..i] + Pad(MergeRanks(NonZero(s[i..])), 4 - i) == goal
  }

  /**
   * The left-move loop of `init_tables`: for each cell, find the next tile to
   * its right; an empty cell takes that tile and is looked at again, an equal
   * cell merges with it (0xf is not incremented), and the tile is cleared.
   */
  method MoveLineLeft(line: array<int>)
    requires line.Length == 4 && RankLine(line[..])
    modifies line
    ensures line[..] == LeftLine(old(line[..]))
  {
    ghost var goal := LeftLine(line[..]);
    assert line[0..] == line[..];
    var i := 0;
    while i < 3
      invariant 0 <= i <= 3 && RankLine(line[..])
      invariant LeftInvariant(line[..], i, goal)
      decreases 2 * (4 - i) + (if i < 4 && line[i] == 0 then 1 else 0)
    {
      var j := NextTile(line, i);
      if j == 4 {
        LeftDone(line[..], i, goal);
        return;
      }
      i := LeftStep(line, i, j, goal);
    }
    LeftDone(line[..], 3, goal);
  }

  /** The first non-empty cell right of `i`, or 4 when there is none. */
  method NextTile(line: array<int>, i: int) returns (j: int)
    requires 0 <= i < line.Length == 4
    ensures i < j <= 4 && (j < 4 ==> line[j] != 0)
    ensures forall k :: i < k < j ==> line[k] == 0
  {
    j := i + 1;
    while j < 4
      invariant i < j <= 4 && forall k :: i < k < j ==> line[k] == 0
    {
      if line[j] != 0 {
        break;
      }
      j := j + 1;
    }
  }

  /**
   * One step of the loop on cell `i` and the next tile `j`; the next cell
   * to look at is returned (`i` again after a slide, as the source's `i--`).
   */
  method LeftStep(line: array<int>, i: int, j: int, ghost goal: seq<int>) returns (next: int)
    requires line.Length == 4 && RankLine(line[..]) && 0 <= i < j < 4
    requires LeftInvariant(line[..], i, goal)
    requires line[j] != 0 && forall k :: i < k < j ==> line[k] == 0
    modifies line
    ensures RankLine(line[..]) && 0 <= next <= 3 && LeftInvariant(line[..], next, goal)
    ensures next == i + 1 || (next == i && old(line[i]) == 0 && line[i] != 0)
  {
    ghost var s := line[..];
    next := i;
    if line[i] == 0 {
      line[i] := line[j];
      line[j] := 0;
      ZeroStep(s, line[..], i, j, goal);
      next := next - 1;
    } else if line[i] == line[j] {
      if line[i] != 0xf {
        line[i] := line[i] + 1;
      }
      line[j] := 0;
      MergeStep(s, line[..], i, j, goal);
    } else {
      KeepStep(s, i, j, goal);
    }
    next := next + 1;
  }

  /** Nothing to the right of `i`: the line is done. */
  lemma LeftDone(s: seq<int>, i: int, goal: seq<int>)
    requires |s| == 4 && 0 <= i <= 3 && LeftInvariant(s, i, goal)
    requires forall k :: i < k < 4 ==> s[k] == 0
    ensures s == goal
  {
    NonZeroZerosPrefix(s[i + 1..], 3 - i);
    assert s[i..][1..] == s[i + 1..];
    assert s[i + 1..][3 - i..] == [];
    var m := MergeRanks(NonZero(s[i..]));
    assert m == if s[i] != 0 then [s[i]] else [];
    assert Pad(m, 4 - i) == s[i..];
    assert s == s[..i] + s[i..];
  }

  lemma ConsTail(x: int, s: seq<int>, i: int)
    requires 0 <= i < |s| && s[i] == x
    ensures s[i..] == [x] + s[i + 1..]
  {
  }

  lemma Assoc(a: seq<int>, b: seq<int>, c: seq<int>)
    ensures (a + b) + c == a + (b + c)
  {
  }

  /** An empty cell takes the next tile: the cells still to merge are the same. */
  lemma ZeroStep(s: seq<int>, t: seq<int>, i: int, j: int, goal: seq<int>)
    requires |s| == 4 && 0 <= i < j < 4 && LeftInvariant(s, i, goal)
    requires s[i] == 0 && s[j] != 0 && forall k :: i < k < j ==> s[k] == 0
    requires RankLine(s) && t == s[i := s[j]][j := 0]
    ensures RankLine(t) && LeftInvariant(t, i, goal)
  {
    NonZeroFrom(s, i, j);
    var rest := NonZero(s[j + 1..]);
    assert NonZero(s[i..]) == [s[j]] + rest;
    NonZeroZerosPrefix(t[i + 1..], j - i);
    assert t[i + 1..][j - i..] == s[j + 1..];
    ConsTail(s[j], t, i);
    assert NonZero(t[i..]) == [s[j]] + NonZero(t[i + 1..]);
    assert t[..i] == s[..i];
    SameInvariant(s, t, i, goal);
  }

  /** A line with the same final cells and the same tiles still to merge keeps the invariant. */
  lemma SameInvariant(s: seq<int>, t: seq<int>, i: int, goal: seq<int>)
    requires |s| == 4 && |t| == 4 && 0 <= i <= 3 && LeftInvariant(s, i, goal)
    requires t[..i] == s[..i] && NonZero(t[i..]) == NonZero(s[i..])
    ensures LeftInvariant(t, i, goal)
  {
    forall k | 0 <= k < i
      ensures t[k] != 0
    {
      assert t[k] == t[..i][k];
    }
  }

  /** Two equal tiles merge into cell `i`, which is then final. */
  lemma MergeStep(s: seq<int>, t: seq<int>, i: int, j: int, goal: seq<int>)
    requires RankLine(s) && 0 <= i < j < 4 && LeftInvariant(s, i, goal)
    requires s[i] != 0 && s[i] == s[j] && forall k :: i < k < j ==> s[k] == 0
    requires t == s[i := Merged(s[i])][j := 0]
    ensures RankLine(t) && LeftInvariant(t, i + 1, goal)
  {
    PairMerges(s, i, j);
    MergedRow(s, t, i, j, Merged(s[i]));
    CellFinal(s, t, i, goal, Merged(s[i]), NonZero(s[j + 1..]));
  }

  /** The tiles still to merge from cell `i` start with the equal pair at `i` and `j`, which merges first. */
  lemma PairMerges(s: seq<int>, i: int, j: int)
    requires |s| == 4 && 0 <= i < j < 4
    requires s[i] != 0 && s[i] == s[j] && forall k :: i < k < j ==> s[k] == 0
    ensures MergeRanks(NonZero(s[i..])) == [Merged(s[i])] + MergeRanks(NonZero(s[j + 1..]))
  {
    NonZeroFrom(s, i, j);
    var rest := NonZero(s[j + 1..]);
    assert NonZero(s[i..]) == [s[i], s[i]] + rest;
    assert ([s[i], s[i]] + rest)[2..] == rest;
  }

  /** Writing `m` into cell `i` and clearing cell `j` leaves the cells after `j` as the only tiles after `i`. */
  lemma MergedRow(s: seq<int>, t: seq<int>, i: int, j: int, m: int)
    requires |s| == 4 && 0 <= i < j < 4 && forall k :: i < k < j ==> s[k] == 0
    requires t == s[i := m][j := 0]
    ensures NonZero(t[i + 1..]) == NonZero(s[j + 1..]) && t[..i + 1] == s[..i] + [m]
  {
    NonZeroZerosPrefix(t[i + 1..], j - i);
    assert t[i + 1..][j - i..] == s[j + 1..];
  }

  /** Cell `i` holds its final tile `m` when the tiles left to merge produce `m` first and then `rest`'s merge. */
  lemma CellFinal(s: seq<int>, t: seq<int>, i: int, goal: seq<int>, m: int, rest: seq<int>)
    requires |s| == 4 && |t| == 4 && 0 <= i < 3 && LeftInvariant(s, i, goal)
    requires m != 0 && t[..i + 1] == s[..i] + [m]
    requires MergeRanks(NonZero(s[i..])) == [m] + MergeRanks(rest) && NonZero(t[i + 1..]) == rest
    ensures LeftInvariant(t, i + 1, goal)
  {
    PadCons(m, MergeRanks(rest), 4 - i);
    Assoc(s[..i], [m], Pad(MergeRanks(rest), 3 - i));
    forall k | 0 <= k < i + 1
      ensures t[k] != 0
    {
      assert t[k] == t[..i + 1][k];
    }
  }

  /** Different neighbouring tiles: cell `i` is final as it is. */
  lemma KeepStep(s: seq<int>, i: int, j: int, goal: seq<int>)
    requires |s| == 4 && 0 <= i < j < 4 && LeftInvariant(s, i, goal)
    requires s[i] != 0 && s[j] != 0 && s[i] != s[j] && forall k :: i < k < j ==> s[k] == 0
    ensures LeftInvariant(s, i + 1, goal)
  {
    NonZeroFrom(s, i, j);
    var rest := NonZero(s[i + 1..]);
    assert NonZero(s[i..]) == [s[i]] + rest;
    assert ([s[i]] + rest)[1..] == rest;
    assert MergeRanks(NonZero(s[i..])) == [s[i]] + MergeRanks(rest);
    assert s[..i + 1] == s[..i] + [s[i]];
    CellFinal(s, s, i, goal, s[i], rest);
  }
}
