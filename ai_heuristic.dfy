/**
 * The static evaluation of 2048ai.js (`scoreLineHeuristic`, `evaluateBoard`)
 * as value-level definitions, each term stated on its own: empty cells, the
 * merge count, the monotonicity penalty and the rank-power sum.
 *
 * `Math.pow(rank, 3.5)` is irrational for most ranks, so it enters as the
 * parameter `pow35`; `Math.pow(rank, 4)` is exact for every rank a board can
 * hold and is computed as an integer. Reals stand in for doubles.
 */
module AiHeuristic {
  import opened GridSpec

  const SCORE_LOST_PENALTY: real := 200000.0
  const SCORE_EMPTY_WEIGHT: real := 270.0
  const SCORE_MERGES_WEIGHT: real := 700.0
  const SCORE_MONOTONICITY_WEIGHT: real := 47.0
  const SCORE_SUM_WEIGHT: real := 11.0

  /** The per-term breakdown `scoreLineHeuristic` reports with `includeDetails`. */
  datatype Details = Details(
    empty: int, emptyScore: real,
    merges: int, mergesScore: real,
    monotonicity: int, monotonicityScore: real,
    sum: real, sumScore: real)

  /** `{ score, details }`. */
  datatype LineScore = LineScore(score: real, details: Details)

  const NoDetails := Details(0, 0.0, 0, 0.0, 0, 0.0, 0.0, 0.0)

  function AddDetails(a: Details, b: Details): Details {
    Details(a.empty + b.empty, a.emptyScore + b.emptyScore,
            a.merges + b.merges, a.mergesScore + b.mergesScore,
            a.monotonicity + b.monotonicity, a.monotonicityScore + b.monotonicityScore,
            a.sum + b.sum, a.sumScore + b.sumScore)
  }

  predicate TileLine(line: seq<int>) {
    |line| == 4 && forall i :: 0 <= i < 4 ==> IsTile(line[i])
  }

  /** `Math.pow(rank, 4)`. */
  function Pow4(r: nat): nat {
    r * r * r * r
  }

  lemma Pow4Monotone(a: nat, b: nat)
    requires a <= b
    ensures Pow4(a) <= Pow4(b)
  {
    assert a * a <= b * b;
    assert a * a * a <= b * b * b;
    assert a * a * a * a <= b * b * b * b;
  }

  // ---------------------------------------------------------------------------
  // Merges: the ranks of the non-zero cells, and the tiles among them with an
  // equal neighbour.

  lemma NonZeroTiles(s: seq<int>)
    requires forall i :: 0 <= i < |s| ==> IsTile(s[i])
    ensures forall i :: 0 <= i < |NonZero(s)| ==> IsTile(NonZero(s)[i]) && NonZero(s)[i] >= 2
  {
    forall i | 0 <= i < |NonZero(s)| ensures IsTile(NonZero(s)[i]) {
      NonZeroElements(s, NonZero(s)[i]);
    }
  }

  /** The ranks (`Math.log2`) of the non-zero cells of `s`, in order. */
  function Ranks(s: seq<int>): (rs: seq<nat>)
    requires forall i :: 0 <= i < |s| ==> IsTile(s[i])
    ensures |rs| == |NonZero(s)|
    ensures forall i :: 0 <= i < |rs| ==> NonZero(s)[i] >= 2 && rs[i] == Log2(NonZero(s)[i]) && rs[i] >= 1
  {
    NonZeroTiles(s);
    var vs := NonZero(s);
    seq(|vs|, i requires 0 <= i < |vs| => Log2(vs[i]))
  }

  lemma {:induction false} NonZeroSnoc(s: seq<int>, x: int)
    ensures NonZero(s + [x]) == NonZero(s) + (if x != 0 then [x] else [])
  {
    if s == [] {
      assert [] + [x] == [x];
      assert [x][1..] == [];
    } else {
      assert (s + [x])[1..] == s[1..] + [x];
      NonZeroSnoc(s[1..], x);
    }
  }

  /** Reading one more cell adds its rank when it is not empty. */
  lemma RanksSnoc(line: seq<int>, i: int)
    requires 0 <= i < |line| && forall k :: 0 <= k < |line| ==> IsTile(line[k])
    ensures Ranks(line[..i + 1]) == Ranks(line[..i]) + (if line[i] != 0 then [Log2(line[i])] else [])
  {
    assert line[..i + 1] == line[..i] + [line[i]];
    NonZeroSnoc(line[..i], line[i]);
  }

  /** The ranks of the non-empty cells among the first `n` cells, read left to right. */
  function RanksBefore(line: seq<int>, n: int): seq<nat>
    requires TileLine(line) && 0 <= n <= 4
  {
    if n == 0 then []
    else RanksBefore(line, n - 1) + (if line[n - 1] != 0 then [Log2(line[n - 1])] else [])
  }

  /** Read cell by cell, the ranks are those of the whole line's non-empty cells. */
  lemma {:induction false} RanksBeforeAll(line: seq<int>, n: int)
    requires TileLine(line) && 0 <= n <= 4
    ensures RanksBefore(line, n) == Ranks(line[..n])
  {
    if n == 0 {
      assert line[..0] == [];
    } else {
      RanksBeforeAll(line, n - 1);
      RanksSnoc(line, n - 1);
    }
  }

  /** The tile at `i` has an equal tile right before or right after it. */
  predicate Paired(rs: seq<nat>, i: int)
    requires 0 <= i < |rs|
  {
    (i > 0 && rs[i - 1] == rs[i]) || (i + 1 < |rs| && rs[i + 1] == rs[i])
  }

  /** How many of the first `n` tiles are paired. */
  function CountPaired(rs: seq<nat>, n: int): (k: nat)
    requires 0 <= n <= |rs|
    ensures k <= n
  {
    if n == 0 then 0 else CountPaired(rs, n - 1) + (if Paired(rs, n - 1) then 1 else 0)
  }

  /**
   * The merge count of a line: the number of tiles that have an equal tile
   * next to them once the empty cells are skipped (a run of k equal tiles,
   * k >= 2, counts k).
   */
  function Merges(line: seq<int>): nat
    requires TileLine(line)
  {
    var rs := Ranks(line);
    CountPaired(rs, |rs|)
  }

  /** The length of the run of equal values that ends `rs`. */
  function TrailRun(rs: seq<nat>): (n: nat)
    ensures n <= |rs| && (rs != [] ==> n >= 1)
  {
    if |rs| <= 1 then |rs|
    else if rs[|rs| - 2] == rs[|rs| - 1] then 1 + TrailRun(rs[..|rs| - 1])
    else 1
  }

  lemma {:induction false} CountPairedSame(a: seq<nat>, b: seq<nat>, n: int)
    requires 0 <= n <= |a| && n <= |b|
    requires forall i :: 0 <= i < n ==> Paired(a, i) == Paired(b, i)
    ensures CountPaired(a, n) == CountPaired(b, n)
  {
    if n > 0 {
      CountPairedSame(a, b, n - 1);
    }
  }

  /**
   * Appending one rank: it pairs with the last rank exactly when they are
   * equal, and then the last rank becomes paired too unless it already was.
   */
  lemma CountPairedSnoc(rs: seq<nat>, x: nat)
    ensures rs == [] || rs[|rs| - 1] != x ==>
      CountPaired(rs + [x], |rs| + 1) == CountPaired(rs, |rs|)
    ensures rs != [] && rs[|rs| - 1] == x ==>
      CountPaired(rs + [x], |rs| + 1)
        == CountPaired(rs, |rs|) + 1 + (if TrailRun(rs) == 1 then 1 else 0)
  {
    var ext := rs + [x];
    if rs != [] {
      var n := |rs| - 1;
      forall i | 0 <= i < n ensures Paired(rs, i) == Paired(ext, i) {
      }
      CountPairedSame(rs, ext, n);
      assert Paired(rs, n) == (TrailRun(rs) >= 2);
    }
  }

  lemma TrailRunSnoc(rs: seq<nat>, x: nat)
    ensures TrailRun(rs + [x]) == if rs != [] && rs[|rs| - 1] == x then TrailRun(rs) + 1 else 1
  {
    assert (rs + [x])[..|rs|] == rs;
  }

  /**
   * The state of the merge scan after the ranks `rs`: the last rank seen
   * (0 before any), the number of equal neighbours in the current run, and
   * the merges of the runs already closed.
   */
  predicate ScanState(rs: seq<nat>, prevVal: int, counter: int, merges: int) {
    prevVal == (if rs == [] then 0 else rs[|rs| - 1]) &&
    counter == (if rs == [] then 0 else TrailRun(rs) - 1) &&
    merges + (if counter > 0 then counter + 1 else 0) == CountPaired(rs, |rs|)
  }

  /** One step of the scan: an equal rank extends the run; another closes it, adding its length when at least 2. */
  lemma ScanStep(rs: seq<nat>, x: nat, prevVal: int, counter: int, merges: int)
    requires ScanState(rs, prevVal, counter, merges) && x >= 1
    ensures prevVal == x ==> ScanState(rs + [x], x, counter + 1, merges)
    ensures prevVal != x ==> ScanState(rs + [x], x, 0, if counter > 0 then merges + 1 + counter else merges)
  {
    CountPairedSnoc(rs, x);
    TrailRunSnoc(rs, x);
  }

  /**
   * The merge scan of `scoreLineHeuristic` as written, over the ranks of the
   * non-empty cells from `prevVal`, `counter` and `merges`. A rank may be 0
   * here: `Math.log2(1)`, for a tile 1, is 0 and so equals the initial
   * `prevVal`.
   */
  function ScanFrom(rs: seq<nat>, prevVal: int, counter: int, merges: int): int
    decreases |rs|
  {
    if rs == [] then (if counter > 0 then merges + 1 + counter else merges)
    else if prevVal == rs[0] then ScanFrom(rs[1..], rs[0], counter + 1, merges)
    else ScanFrom(rs[1..], rs[0], 0, if counter > 0 then merges + 1 + counter else merges)
  }

  /** The merge count the scan reports for the ranks `rs`, starting from `prevVal = 0`. */
  function ScanMerges(rs: seq<nat>): int {
    ScanFrom(rs, 0, 0, 0)
  }

  /**
   * On a line whose first tile is a 1 followed by an 8 (ranks 0 and 3), the
   * scan counts a merge of two although no two tiles are equal.
   */
  lemma LeadingOneMerges()
    ensures Log2(1) == 0 && Log2(8) == 3
    ensures ScanMerges([0, 3]) == 2 && CountPaired([0, 3], 2) == 0
  {
    assert Log2(2) == 1 && Log2(4) == 2;
    assert !Paired([0, 3], 0) && !Paired([0, 3], 1);
  }

  /** From any state of the scan, reading the remaining ranks (all at least 1) completes the merge count. */
  lemma {:induction false} ScanFromState(done: seq<nat>, rest: seq<nat>, prevVal: int, counter: int, merges: int)
    requires ScanState(done, prevVal, counter, merges)
    requires forall i :: 0 <= i < |rest| ==> rest[i] >= 1
    ensures ScanFrom(rest, prevVal, counter, merges) == CountPaired(done + rest, |done + rest|)
    decreases |rest|
  {
    if rest == [] {
      assert done + rest == done;
    } else {
      var x := rest[0];
      ScanStep(done, x, prevVal, counter, merges);
      assert done + rest == (done + [x]) + rest[1..];
      if prevVal == x {
        ScanFromState(done + [x], rest[1..], x, counter + 1, merges);
      } else {
        ScanFromState(done + [x], rest[1..], x, 0, if counter > 0 then merges + 1 + counter else merges);
      }
    }
  }

  /** With every rank at least 1 (no tile 1), the scan counts exactly the tiles with an equal neighbour. */
  lemma ScanMergesExact(rs: seq<nat>)
    requires forall i :: 0 <= i < |rs| ==> rs[i] >= 1
    ensures ScanMerges(rs) == CountPaired(rs, |rs|)
  {
    ScanFromState([], rs, 0, 0, 0);
    assert [] + rs == rs;
  }

  // ---------------------------------------------------------------------------
  // Monotonicity and the rank-power sum, over the pairs (i - 1, i) for
  // 1 <= i < n and the cells i < n.

  /** Decreases in rank between adjacent non-empty cells, weighted by `Math.pow(rank, 4)`. */
  function MonoLeft(line: seq<int>, n: int): int
    requires TileLine(line) && 1 <= n <= 4
  {
    if n == 1 then 0
    else
      var step := if line[n - 2] != 0 && line[n - 1] != 0 && Log2(line[n - 2]) > Log2(line[n - 1])
                  then Pow4(Log2(line[n - 2])) - Pow4(Log2(line[n - 1])) else 0;
      MonoLeft(line, n - 1) + step
  }

  /** Increases (or equal ranks) between adjacent non-empty cells. */
  function MonoRight(line: seq<int>, n: int): int
    requires TileLine(line) && 1 <= n <= 4
  {
    if n == 1 then 0
    else
      var step := if line[n - 2] != 0 && line[n - 1] != 0 && Log2(line[n - 2]) <= Log2(line[n - 1])
                  then Pow4(Log2(line[n - 1])) - Pow4(Log2(line[n - 2])) else 0;
      MonoRight(line, n - 1) + step
  }

  function Min(a: int, b: int): int {
    if a <= b then a else b
  }

  /** `Math.min(monotonicity_left, monotonicity_right)`. */
  function Monotonicity(line: seq<int>): int
    requires TileLine(line)
  {
    Min(MonoLeft(line, 4), MonoRight(line, 4))
  }

  /** The sum of `Math.pow(rank, 3.5)` over the non-empty cells before `n`. */
  function PowerSum(line: seq<int>, n: int, pow35: nat -> real): real
    requires TileLine(line) && 0 <= n <= 4
  {
    if n == 0 then 0.0
    else PowerSum(line, n - 1, pow35) + (if line[n - 1] != 0 then pow35(Log2(line[n - 1])) else 0.0)
  }

  /** The heuristic value of one row or column, with its breakdown. */
  function LineHeuristic(line: seq<int>, pow35: nat -> real): LineScore
    requires TileLine(line)
  {
    var empty := CountZeros(line);
    var merges := Merges(line);
    var mono := Monotonicity(line);
    var sum := PowerSum(line, 4, pow35);
    var d := Details(
      empty, SCORE_EMPTY_WEIGHT * empty as real,
      merges, SCORE_MERGES_WEIGHT * merges as real,
      mono, -SCORE_MONOTONICITY_WEIGHT * mono as real,
      sum, -SCORE_SUM_WEIGHT * sum);
    LineScore(SCORE_LOST_PENALTY + d.emptyScore + d.mergesScore + d.monotonicityScore + d.sumScore, d)
  }

  // ---------------------------------------------------------------------------
  // Properties of the line terms.

  /** The merge count is at most the number of tiles and is never exactly 1: a paired tile has a partner. */
  lemma MergesBounds(line: seq<int>)
    requires TileLine(line)
    ensures Merges(line) <= 4 - CountZeros(line)
    ensures Merges(line) != 1
  {
    var rs := Ranks(line);
    NonZeroCount(line);
    if Merges(line) == 1 {
      var i := OnlyPaired(rs, |rs|);
      if i > 0 && rs[i - 1] == rs[i] {
        assert Paired(rs, i - 1);
        PairedTwo(rs, |rs|, i - 1, i);
      } else {
        assert Paired(rs, i + 1);
        PairedTwo(rs, |rs|, i, i + 1);
      }
    }
  }

  lemma {:induction false} NonZeroCount(s: seq<int>)
    ensures |NonZero(s)| + CountZeros(s) == |s|
  {
    if s != [] {
      NonZeroCount(s[1..]);
    }
  }

  /** When exactly one of the first `n` tiles is paired, it can be named. */
  lemma {:induction false} OnlyPaired(rs: seq<nat>, n: int) returns (i: int)
    requires 0 <= n <= |rs| && CountPaired(rs, n) == 1
    ensures 0 <= i < n && Paired(rs, i)
    ensures forall j :: 0 <= j < n && j != i ==> !Paired(rs, j)
  {
    if Paired(rs, n - 1) {
      i := n - 1;
      NoPaired(rs, n - 1);
    } else {
      i := OnlyPaired(rs, n - 1);
    }
  }

  lemma {:induction false} NoPaired(rs: seq<nat>, n: int)
    requires 0 <= n <= |rs| && CountPaired(rs, n) == 0
    ensures forall j :: 0 <= j < n ==> !Paired(rs, j)
  {
    if n > 0 {
      NoPaired(rs, n - 1);
    }
  }

  /** Two paired tiles among the first `n` make the count at least 2. */
  lemma {:induction false} PairedTwo(rs: seq<nat>, n: int, i: int, j: int)
    requires 0 <= i < j < n <= |rs| && Paired(rs, i) && Paired(rs, j)
    ensures CountPaired(rs, n) >= 2
  {
    if j < n - 1 {
      PairedTwo(rs, n - 1, i, j);
    } else {
      PairedOne(rs, n - 1, i);
    }
  }

  lemma {:induction false} PairedOne(rs: seq<nat>, n: int, i: int)
    requires 0 <= i < n <= |rs| && Paired(rs, i)
    ensures CountPaired(rs, n) >= 1
  {
    if i < n - 1 {
      PairedOne(rs, n - 1, i);
    }
  }

  lemma {:induction false} NoPairedCount(rs: seq<nat>, n: int)
    requires 0 <= n <= |rs| && forall j :: 0 <= j < n ==> !Paired(rs, j)
    ensures CountPaired(rs, n) == 0
  {
    if n > 0 {
      NoPaired2(rs, n);
      NoPairedCount(rs, n - 1);
    }
  }

  lemma NoPaired2(rs: seq<nat>, n: int)
    requires 0 < n <= |rs| && forall j :: 0 <= j < n ==> !Paired(rs, j)
    ensures !Paired(rs, n - 1)
  {
  }

  /** Sliding a packed line merges nothing exactly when no two neighbours are equal. */
  lemma {:induction false} MergeKeepsLength(s: seq<int>)
    ensures |Merge(s)| == |s| <==> forall i :: 0 <= i < |s| - 1 ==> s[i] != s[i + 1]
  {
    if |s| > 1 {
      MergeLen(s);
      if s[0] == s[1] {
        MergeLen(s[2..]);
      } else {
        MergeKeepsLength(s[1..]);
        assert forall i :: 1 <= i < |s| - 1 ==> s[i] == s[1..][i - 1] && s[i + 1] == s[1..][i];
      }
    }
  }

  lemma Log2Injective(a: int, b: int)
    requires a >= 1 && b >= 1 && IsPow2(a) && IsPow2(b) && Log2(a) == Log2(b)
    ensures a == b
  {
    Pow2OfLog2(a);
    Pow2OfLog2(b);
  }

  /** No tile is paired exactly when no two neighbours are equal. */
  lemma CountPairedZero(rs: seq<nat>)
    ensures CountPaired(rs, |rs|) == 0 <==> forall i :: 0 <= i < |rs| - 1 ==> rs[i] != rs[i + 1]
  {
    if CountPaired(rs, |rs|) == 0 {
      NoPaired(rs, |rs|);
      forall i | 0 <= i < |rs| - 1 ensures rs[i] != rs[i + 1] {
        assert !Paired(rs, i);
      }
    } else if forall i :: 0 <= i < |rs| - 1 ==> rs[i] != rs[i + 1] {
      forall j | 0 <= j < |rs| ensures !Paired(rs, j) {
        if j > 0 { assert rs[j - 1] != rs[(j - 1) + 1]; }
      }
      NoPairedCount(rs, |rs|);
    }
  }

  /** Neighbouring tiles have equal ranks exactly when they are equal. */
  lemma RanksMatchValues(line: seq<int>)
    requires TileLine(line)
    ensures var rs := Ranks(line); var vs := NonZero(line);
      forall i :: 0 <= i < |vs| - 1 ==> (vs[i] == vs[i + 1] <==> rs[i] == rs[i + 1])
  {
    var rs := Ranks(line);
    var vs := NonZero(line);
    NonZeroTiles(line);
    forall i | 0 <= i < |vs| - 1 ensures (vs[i] == vs[i + 1]) == (rs[i] == rs[i + 1]) {
      if rs[i] == rs[i + 1] {
        Log2Injective(vs[i], vs[i + 1]);
      }
    }
  }

  /**
   * The heuristic counts no merges exactly when sliding the line would merge
   * nothing: ranks of tiles are equal exactly when the tiles are.
   */
  lemma MergesZeroIffNoMerge(line: seq<int>)
    requires TileLine(line)
    ensures Merges(line) == 0 <==> |Merge(NonZero(line))| == |NonZero(line)|
  {
    var rs := Ranks(line);
    var vs := NonZero(line);
    MergeKeepsLength(vs);
    CountPairedZero(rs);
    RanksMatchValues(line);
    assert |rs| == |vs|;
  }

  lemma {:induction false} MonoNonNegative(line: seq<int>, n: int)
    requires TileLine(line) && 1 <= n <= 4
    ensures MonoLeft(line, n) >= 0 && MonoRight(line, n) >= 0
  {
    if n > 1 {
      MonoNonNegative(line, n - 1);
      if line[n - 2] != 0 && line[n - 1] != 0 {
        var a := Log2(line[n - 2]);
        var b := Log2(line[n - 1]);
        if a > b { Pow4Monotone(b, a); } else { Pow4Monotone(a, b); }
      }
    }
  }

  /** Ranks never increase from one non-empty cell to the next non-empty cell adjacent to it. */
  predicate NonIncreasing(line: seq<int>)
    requires TileLine(line)
  {
    forall i :: 1 <= i < 4 && line[i - 1] != 0 && line[i] != 0 ==> Log2(line[i - 1]) >= Log2(line[i])
  }

  predicate NonDecreasing(line: seq<int>)
    requires TileLine(line)
  {
    forall i :: 1 <= i < 4 && line[i - 1] != 0 && line[i] != 0 ==> Log2(line[i - 1]) <= Log2(line[i])
  }

  lemma {:induction false} NonIncreasingNoRight(line: seq<int>, n: int)
    requires TileLine(line) && 1 <= n <= 4 && NonIncreasing(line)
    ensures MonoRight(line, n) == 0
  {
    if n > 1 {
      NonIncreasingNoRight(line, n - 1);
    }
  }

  lemma {:induction false} NonDecreasingNoLeft(line: seq<int>, n: int)
    requires TileLine(line) && 1 <= n <= 4 && NonDecreasing(line)
    ensures MonoLeft(line, n) == 0
  {
    if n > 1 {
      NonDecreasingNoLeft(line, n - 1);
    }
  }

  /**
   * An all-empty line scores its four empty cells and nothing else: no
   * merges, no monotonicity and no power sum, so 200000 + 4 * 270.
   */
  lemma EmptyLineHeuristic(pow35: nat -> real)
    ensures TileLine([0, 0, 0, 0])
    ensures var r := LineHeuristic([0, 0, 0, 0], pow35);
      r.details.empty == 4 && r.details.merges == 0 && r.details.monotonicity == 0 && r.details.sum == 0.0 &&
      r.score == SCORE_LOST_PENALTY + 4.0 * SCORE_EMPTY_WEIGHT && r.score == 201080.0
  {
    assert CountZeros([0, 0, 0, 0]) == 4;
    assert NonZero([0, 0, 0, 0]) == [];
  }

  /**
   * The monotonicity penalty is never negative, and it is zero on a line
   * whose adjacent tiles only fall or only rise in rank.
   */
  lemma MonotonicityPenalty(line: seq<int>)
    requires TileLine(line)
    ensures Monotonicity(line) >= 0
    ensures NonIncreasing(line) || NonDecreasing(line) ==> Monotonicity(line) == 0
  {
    MonoNonNegative(line, 4);
    if NonIncreasing(line) {
      NonIncreasingNoRight(line, 4);
    }
    if NonDecreasing(line) {
      NonDecreasingNoLeft(line, 4);
    }
  }

  // ---------------------------------------------------------------------------
  // The whole board: four rows, then four columns.

  lemma AllTilesLines(g: Grid)
    requires IsGrid(g) && AllTiles(g)
    ensures forall r :: 0 <= r < 4 ==> TileLine(g[r])
    ensures forall c :: 0 <= c < 4 ==> TileLine(Col(g, c))
  {
  }

  /** The total of the eight line values and of their breakdowns, before the empty-cell correction. */
  function LinesTotal(g: Grid, pow35: nat -> real, n: int): LineScore
    requires IsGrid(g) && AllTiles(g) && 0 <= n <= 8
    decreases n, g
  {
    if n == 0 then LineScore(0.0, NoDetails)
    else
      var prev := LinesTotal(g, pow35, n - 1);
      var line := if n - 1 < 4 then g[n - 1] else Col(g, n - 5);
      var s := LineHeuristic(line, pow35);
      LineScore(prev.score + s.score, AddDetails(prev.details, s.details))
  }

  /**
   * `evaluateBoard`: the sum of the eight line values; in the breakdown the
   * empty count is the board's own and its score is weighted twice.
   */
  function BoardEvaluation(g: Grid, pow35: nat -> real): LineScore
    requires IsGrid(g) && AllTiles(g)
  {
    var t := LinesTotal(g, pow35, 8);
    LineScore(t.score, t.details.(empty := EmptyCount(g),
                                  emptyScore := SCORE_EMPTY_WEIGHT * EmptyCount(g) as real * 2.0))
  }

  function Zero(v: int): nat {
    if v == 0 then 1 else 0
  }

  lemma CountZeros4(s: seq<int>)
    requires |s| == 4
    ensures CountZeros(s) == Zero(s[0]) + Zero(s[1]) + Zero(s[2]) + Zero(s[3])
  {
    assert CountZeros(s) == Zero(s[0]) + CountZeros(s[1..]);
    assert CountZeros(s[1..]) == Zero(s[1]) + CountZeros(s[2..]);
    assert CountZeros(s[2..]) == Zero(s[2]) + CountZeros(s[3..]);
    assert CountZeros(s[3..]) == Zero(s[3]) + CountZeros(s[4..]);
  }

  lemma {:induction false} CountZerosAppend(a: seq<int>, b: seq<int>)
    ensures CountZeros(a + b) == CountZeros(a) + CountZeros(b)
  {
    if a == [] {
      assert a + b == b;
    } else {
      CountZerosAppend(a[1..], b);
      assert (a + b)[1..] == a[1..] + b;
    }
  }

  lemma {:induction false} LinesEmpty(g: Grid, pow35: nat -> real, n: int)
    requires IsGrid(g) && AllTiles(g) && 0 <= n <= 8
    ensures LinesTotal(g, pow35, n).details.empty ==
      (if n < 4 then (if n > 0 then CountZeros(g[0]) else 0) + (if n > 1 then CountZeros(g[1]) else 0)
                     + (if n > 2 then CountZeros(g[2]) else 0)
       else CountZeros(g[0]) + CountZeros(g[1]) + CountZeros(g[2]) + CountZeros(g[3])
            + (if n > 4 then CountZeros(Col(g, 0)) else 0) + (if n > 5 then CountZeros(Col(g, 1)) else 0)
            + (if n > 6 then CountZeros(Col(g, 2)) else 0) + (if n > 7 then CountZeros(Col(g, 3)) else 0))
  {
    if n > 0 {
      LinesEmpty(g, pow35, n - 1);
    }
  }

  /**
   * Every empty cell lies in one row and one column, so the eight lines
   * count it twice: the reason `evaluateBoard` replaces the summed empty
   * count by the board's own and weights its score by 2.
   */
  lemma EmptyCountedTwice(g: Grid, pow35: nat -> real)
    requires IsGrid(g) && AllTiles(g)
    ensures LinesTotal(g, pow35, 8).details.empty == 2 * EmptyCount(g)
    ensures BoardEvaluation(g, pow35).details.emptyScore == SCORE_EMPTY_WEIGHT * EmptyCount(g) as real * 2.0
  {
    LinesEmpty(g, pow35, 8);
    CountZeros4(g[0]);
    CountZeros4(g[1]);
    CountZeros4(g[2]);
    CountZeros4(g[3]);
    CountZeros4(Col(g, 0));
    CountZeros4(Col(g, 1));
    CountZeros4(Col(g, 2));
    CountZeros4(Col(g, 3));
    CountZerosAppend(g[0], g[1]);
    CountZerosAppend(g[0] + g[1], g[2]);
    CountZerosAppend(g[0] + g[1] + g[2], g[3]);
  }
}
