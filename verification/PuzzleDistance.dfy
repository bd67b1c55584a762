/** How large the Manhattan distance of a board can get: the 8-bit field of the class holds it up to five rows and no further. */
module PuzzleDistance {
  import opened Counting
  import opened Grid
  import opened Powers
  import opened Puzzle
  import opened WordCycles

  /** The largest value of a signed 8-bit field. */
  const MAX8: int := 127

  // ---- weights of places ----

  /** The weight of a place is that of its row and that of its column. */
  function Weight(d: seq<nat>, k: nat): nat
    requires k < |d| * |d|
  {
    CellOf(k, |d|);
    d[k / |d|] + d[k % |d|]
  }

  function WeightSum(d: seq<nat>, n: nat): nat
    requires n <= |d| * |d|
  {
    if n == 0 then 0 else WeightSum(d, n - 1) + Weight(d, n - 1)
  }

  function Total(d: seq<nat>, m: nat): nat
    requires m <= |d|
  {
    if m == 0 then 0 else Total(d, m - 1) + d[m - 1]
  }

  lemma WeightAt(d: seq<nat>, i: nat, j: nat)
    requires i < |d| && j < |d|
    ensures At(i, j, |d|) < |d| * |d| && Weight(d, At(i, j, |d|)) == d[i] + d[j]
  {
    hide At;
    AtFacts(i, j, |d|);
  }

  lemma {:induction false} RowsSum(d: seq<nat>, i: nat, j: nat)
    requires i < |d| && j <= |d|
    ensures At(i, j, |d|) <= |d| * |d|
    ensures WeightSum(d, At(i, j, |d|)) == i * Total(d, |d|) + |d| * Total(d, i) + j * d[i] + Total(d, j)
    decreases i, j
  {
    hide *;
    var N := |d|;
    RowStart(i, j, N);
    NoWeight(d);
    if j > 0 {
      RowsSum(d, i, j - 1);
      RowStart(i, j - 1, N);
      WeightAt(d, i, j - 1);
      NextWeight(d, At(i, j - 1, N));
      NextTotal(d, j);
      Succ(j - 1, d[i]);
    } else if i > 0 {
      RowsSum(d, i - 1, N);
      RowStart(i - 1, N, N);
      NextTotal(d, i);
      NextRow(N, i, Total(d, N), Total(d, i - 1), d[i - 1]);
    }
  }

  lemma NoWeight(d: seq<nat>)
    ensures WeightSum(d, 0) == 0 && Total(d, 0) == 0
  {
  }

  lemma NextWeight(d: seq<nat>, n: nat)
    requires n < |d| * |d|
    ensures WeightSum(d, n + 1) == WeightSum(d, n) + Weight(d, n)
  {
  }

  lemma NextTotal(d: seq<nat>, m: nat)
    requires 0 < m <= |d|
    ensures Total(d, m) == Total(d, m - 1) + d[m - 1]
  {
  }

  lemma NextRow(N: nat, i: nat, t: nat, t': nat, last: nat)
    requires i > 0
    ensures (i - 1) * t + N * t' + N * last + t == i * t + N * (t' + last)
  {
    assert N * (t' + last) == N * t' + N * last;
    assert i * t == (i - 1) * t + t;
  }

  lemma AllWeights(d: seq<nat>)
    requires |d| > 0
    ensures WeightSum(d, |d| * |d|) == 2 * (|d| * Total(d, |d|))
  {
    hide At, WeightSum;
    var N := |d|;
    RowsSum(d, N - 1, N);
    RowStart(N - 1, N, N);
    RowStart(N, 0, N);
    WholeGrid(N, Total(d, N), Total(d, N - 1), d[N - 1]);
  }

  lemma WholeGrid(N: nat, t: nat, t': nat, last: nat)
    requires N > 0 && t == t' + last
    ensures (N - 1) * t + N * t' + N * last + t == 2 * (N * t)
  {
    assert N * t == N * t' + N * last;
    assert (N - 1) * t + t == N * t;
  }

  // ---- the distance is bounded by way of the middle ----

  /** How far rows and columns are from the middle one. */
  function Middle(N: nat): (d: seq<nat>)
    ensures |d| == N
  {
    seq<nat>(N, o requires 0 <= o < N => Abs(o - N / 2))
  }

  /** How far the place where tile `t` belongs is from the middle. */
  function GoalWeight(t: nat, N: nat): nat
    requires t < N * N
  {
    if t == 0 then 0 else Weight(Middle(N), t - 1)
  }

  predicate Below(tiles: seq<nat>, m: nat) { forall k :: 0 <= k < |tiles| ==> tiles[k] < m }

  function GoalWeights(tiles: seq<nat>, n: nat, N: nat): nat
    requires n <= |tiles| && Below(tiles, N * N)
  {
    if n == 0 then 0 else GoalWeights(tiles, n - 1, N) + GoalWeight(tiles[n - 1], N)
  }

  lemma TermBound(t: nat, k: nat, N: nat)
    requires N > 0 && t < N * N && k < N * N
    ensures 0 <= Term(t, k, N) <= GoalWeight(t, N) + Weight(Middle(N), k)
  {
    hide Weight, Middle;
    MiddleWeight(k, N);
    if t > 0 {
      MiddleWeight(t - 1, N);
    }
  }

  lemma MiddleWeight(k: nat, N: nat)
    requires N > 0 && k < N * N
    ensures Weight(Middle(N), k) == Abs(k / N - N / 2) + Abs(k % N - N / 2)
  {
    hide *;
    WeightIs(Middle(N), k);
    MiddleAt(N, k / N);
    MiddleAt(N, k % N);
  }

  lemma MiddleAt(N: nat, o: nat)
    requires o < N
    ensures Middle(N)[o] == Abs(o - N / 2)
  {
  }

  lemma WeightIs(d: seq<nat>, k: nat)
    requires k < |d| * |d|
    ensures 0 <= k / |d| < |d| && 0 <= k % |d| < |d| && Weight(d, k) == d[k / |d|] + d[k % |d|]
  {
    hide At;
    CellOf(k, |d|);
  }

  lemma {:induction false} DistanceBound(tiles: seq<nat>, n: nat, N: nat)
    requires N > 0 && n <= |tiles| == N * N && Below(tiles, N * N)
    ensures 0 <= Distance(tiles, n, N) <= GoalWeights(tiles, n, N) + WeightSum(Middle(N), n)
    decreases n
  {
    hide Term, GoalWeight, Weight, Middle;
    if n > 0 {
      DistanceBound(tiles, n - 1, N);
      TermBound(tiles[n - 1], n - 1, N);
    }
  }

  // ---- in whatever order the tiles lie, their weights add up to the same ----

  lemma WithoutBelow(tiles: seq<nat>, i: nat, m: nat)
    requires i < |tiles| && Below(tiles, m)
    ensures Below(Without(tiles, i), m)
  {
    forall x | 0 <= x < |tiles| - 1
      ensures Without(tiles, i)[x] < m
    {
      WithoutAt(tiles, i, x);
    }
  }

  /** Leaving out one tile leaves out its weight. */
  lemma {:induction false} WeightsWithout(tiles: seq<nat>, i: nat, n: nat, N: nat)
    requires i < n <= |tiles| && Below(tiles, N * N)
    ensures Below(Without(tiles, i), N * N)
    ensures GoalWeights(tiles, n, N) == GoalWeights(Without(tiles, i), n - 1, N) + GoalWeight(tiles[i], N)
    decreases n
  {
    hide GoalWeight, Without, Below;
    WithoutBelow(tiles, i, N * N);
    if i + 1 < n {
      WeightsWithout(tiles, i, n - 1, N);
      WithoutAt(tiles, i, n - 2);
    } else {
      WeightsPrefix(tiles, i, i, N);
    }
  }

  lemma {:induction false} WeightsPrefix(tiles: seq<nat>, i: nat, n: nat, N: nat)
    requires n <= i < |tiles| && Below(tiles, N * N)
    ensures Below(Without(tiles, i), N * N) && GoalWeights(tiles, n, N) == GoalWeights(Without(tiles, i), n, N)
    decreases n
  {
    hide GoalWeight, Without, Below;
    WithoutBelow(tiles, i, N * N);
    if n > 0 {
      WeightsPrefix(tiles, i, n - 1, N);
      WithoutAt(tiles, i, n - 1);
    }
  }

  lemma BelowMore(tiles: seq<nat>, m: nat, n: nat)
    requires Below(tiles, m) && m <= n
    ensures Below(tiles, n)
  {
  }

  /** The tiles below `m` weigh as much as the first `m - 1` places. */
  lemma {:induction false} WeightsOfAll(tiles: seq<nat>, N: nat)
    requires |tiles| <= N * N && Distinct(tiles) && Below(tiles, |tiles|)
    ensures Below(tiles, N * N)
    ensures GoalWeights(tiles, |tiles|, N) == if tiles == [] then 0 else WeightSum(Middle(N), |tiles| - 1)
    decreases |tiles|
  {
    hide Weight, Middle;
    var n := |tiles|;
    BelowMore(tiles, n, N * N);
    if n > 0 {
      AllPresent(tiles, n);
      var last: nat := n - 1;
      assert last in tiles;
      var i :| 0 <= i < n && tiles[i] == last;
      WeightsWithout(tiles, i, n, N);
      LastLeftOut(tiles, i);
      WeightsOfAll(Without(tiles, i), N);
    }
  }

  lemma LastLeftOut(tiles: seq<nat>, i: nat)
    requires i < |tiles| && Distinct(tiles) && Below(tiles, |tiles|) && tiles[i] == |tiles| - 1
    ensures Distinct(Without(tiles, i)) && Below(Without(tiles, i), |tiles| - 1)
  {
    var rest := Without(tiles, i);
    forall x, y | 0 <= x < y < |rest|
      ensures rest[x] != rest[y]
    {
      WithoutAt(tiles, i, x);
      WithoutAt(tiles, i, y);
    }
    forall x | 0 <= x < |rest|
      ensures rest[x] < |tiles| - 1
    {
      WithoutAt(tiles, i, x);
    }
  }

  lemma BoundOf(p: Puzzle, N: nat)
    requires N > 0 && Board(p, N)
    ensures |p.tiles| == N * N && 0 <= Distance(p.tiles, N * N, N) <= 4 * (N * Total(Middle(N), N))
  {
    hide Distance, GoalWeights, Middle, Total, At, Weight;
    BoardSize(p, N);
    DistanceBound(p.tiles, N * N, N);
    WeightsOfAll(p.tiles, N);
    AllWeights(Middle(N));
  }

  lemma MiddleTotals(N: nat)
    requires 0 < N <= 5
    ensures N * Total(Middle(N), N) <= 30
  {
    hide Total, Middle;
    SumOf(Middle(N));
    forall o | 0 <= o < N
      ensures Middle(N)[o] == Abs(o - N / 2)
    {
      MiddleAt(N, o);
    }
    assert Total(Middle(N), N) == if N == 1 then 0 else if N == 2 then 1 else if N == 3 then 2 else if N == 4 then 4 else 6;
  }

  lemma SumOf(d: seq<nat>)
    ensures |d| >= 1 ==> Total(d, 1) == d[0]
    ensures |d| >= 2 ==> Total(d, 2) == d[0] + d[1]
    ensures |d| >= 3 ==> Total(d, 3) == d[0] + d[1] + d[2]
    ensures |d| >= 4 ==> Total(d, 4) == d[0] + d[1] + d[2] + d[3]
    ensures |d| >= 5 ==> Total(d, 5) == d[0] + d[1] + d[2] + d[3] + d[4]
  {
    hide Total;
    NoWeight(d);
    forall m | 0 < m <= |d|
      ensures Total(d, m) == Total(d, m - 1) + d[m - 1]
    {
      NextTotal(d, m);
    }
  }

  /** Boards of up to five rows are near enough. */
  lemma SmallFits(p: Puzzle, N: nat)
    requires 0 < N <= 5 && Board(p, N)
    ensures |p.tiles| == N * N && 0 <= Distance(p.tiles, N * N, N) <= 120
  {
    hide Distance, Middle, Total;
    BoundOf(p, N);
    MiddleTotals(N);
  }

  // ---- a board that is far from the solution ----

  /** Every tile belongs to the place opposite its own. */
  function MirrorTile(k: nat, N: nat): nat
    requires k < N * N
  {
    if k == 0 then 0 else N * N - k
  }

  function Mirror(N: nat): (tiles: seq<nat>)
    ensures |tiles| == N * N
  {
    seq(N * N, k requires 0 <= k < N * N => MirrorTile(k, N))
  }

  function MirrorBoard(N: nat): Puzzle
    requires N > 0
  {
    Puzzle(true, 0, 0, Distance(Mirror(N), N * N, N), Mirror(N))
  }

  lemma MirrorIsBoard(N: nat)
    requires N > 0
    ensures Board(MirrorBoard(N), N)
  {
    hide Distance, At;
    AtFacts(0, 0, N);
    RowStart(0, 0, N);
  }

  /** How far rows and columns are from the opposite one. */
  function Opposite(N: nat): (d: seq<nat>)
    ensures |d| == N
  {
    seq<nat>(N, o requires 0 <= o < N => Abs(N - 1 - 2 * o))
  }

  lemma MirrorTerm(k: nat, N: nat)
    requires 0 < k < N * N
    ensures Term(MirrorTile(k, N), k, N) == Weight(Opposite(N), k)
  {
    hide At;
    CellOf(k, N);
    var i, j := k / N, k % N;
    OppositePlace(i, j, N);
    AtFacts(N - 1 - i, N - 1 - j, N);
  }

  lemma OppositePlace(i: nat, j: nat, N: nat)
    requires i < N && j < N
    ensures At(i, j, N) + At(N - 1 - i, N - 1 - j, N) == N * N - 1
  {
    assert (N - 1 - i) * N + i * N == (N - 1) * N;
  }

  lemma {:induction false} MirrorDistance(n: nat, N: nat)
    requires 0 < n <= N * N
    ensures Distance(Mirror(N), n, N) == WeightSum(Opposite(N), n) - 2 * (N - 1)
    decreases n
  {
    hide Term, Weight, Opposite;
    if n > 1 {
      MirrorDistance(n - 1, N);
      MirrorTerm(n - 1, N);
    } else {
      FirstWeight(N);
    }
  }

  lemma FirstWeight(N: nat)
    requires 0 < N
    ensures 0 < N * N && Weight(Opposite(N), 0) == 2 * (N - 1) && Term(MirrorTile(0, N), 0, N) == 0
  {
    WeightAt(Opposite(N), 0, 0);
  }

  /** The outer two rows and columns on each side suffice. */
  lemma OuterTotal(N: nat)
    requires N >= 6
    ensures Total(Opposite(N), N) >= 4 * N - 8
  {
    var d := Opposite(N);
    assert d[0] == N - 1 && d[1] == N - 3 && d[N - 2] == N - 3 && d[N - 1] == N - 1;
    SumOf(d);
    TotalGrows(d, 2, N - 2);
    NextTotal(d, N - 1);
    NextTotal(d, N);
    hide Total;
  }

  lemma {:induction false} TotalGrows(d: seq<nat>, m: nat, n: nat)
    requires m <= n <= |d|
    ensures Total(d, m) <= Total(d, n)
    decreases n
  {
    if m < n {
      TotalGrows(d, m, n - 1);
    }
  }

  lemma MirrorIsFar(N: nat)
    requires N >= 6
    ensures Distance(Mirror(N), N * N, N) > MAX8
  {
    hide Distance, Opposite, Total;
    OuterTotal(N);
    Grows(1, N, N);
    MirrorDistance(N * N, N);
    AllWeights(Opposite(N));
    Grows(6, N, Total(Opposite(N), N));
  }

  // ---- main result ----

  /** The distances of all boards with `N` rows fit the 8-bit field exactly for `N` up to 5. */
  lemma DistanceFits(N: nat)
    requires N > 0
    ensures N <= 5 <==> forall p :: Board(p, N) && p.dist == Distance(p.tiles, N * N, N) ==> p.dist <= MAX8
  {
    hide Distance, At, Distinct;
    if N <= 5 {
      forall p | Board(p, N) && p.dist == Distance(p.tiles, N * N, N)
        ensures p.dist <= MAX8
      {
        SmallFits(p, N);
      }
    } else {
      MirrorIsBoard(N);
      MirrorIsFar(N);
      var far := MirrorBoard(N);
      assert Board(far, N) && far.dist > MAX8;
    }
  }
}
