/** The sliding puzzle: legal moves keep the verdict of `solvable` and the cached Manhattan distance right. */
module Puzzle {
  import opened Counting
  import opened Grid
  import opened InversionParity
  import opened Powers

  // Tiles are listed row by row; 0 is the blank, at row `zi` and column `zj`.
  datatype Puzzle = Puzzle(valid: bool, zi: nat, zj: nat, dist: int, tiles: seq<nat>)

  /** A permutation of the tiles with the blank where it is said to be. */
  ghost predicate Board(p: Puzzle, N: nat) {
    && p.valid && p.zi < N && p.zj < N && |p.tiles| == N * N && Distinct(p.tiles)
    && (forall k :: 0 <= k < N * N ==> p.tiles[k] < N * N)
    && At(p.zi, p.zj, N) < N * N && p.tiles[At(p.zi, p.zj, N)] == 0
  }

  // ---- the Manhattan distance ----

  function Abs(x: int): nat { if x < 0 then -x else x }

  /** Row and column of a tile in the solution. */
  function GoalRow(t: nat, N: nat): int
    requires N > 0
  {
    (t - 1) / N
  }

  function GoalCol(t: nat, N: nat): int
    requires N > 0
  {
    (t - 1) % N
  }

  /** How far tile `t` at place `k` is from its place in the solution; the blank does not count. */
  function Term(t: nat, k: nat, N: nat): int
    requires N > 0
  {
    if t == 0 then 0 else Abs(GoalRow(t, N) - k / N) + Abs(GoalCol(t, N) - k % N)
  }

  function Distance(tiles: seq<nat>, n: nat, N: nat): int
    requires N > 0 && n <= |tiles|
  {
    if n == 0 then 0 else Distance(tiles, n - 1, N) + Term(tiles[n - 1], n - 1, N)
  }

  lemma {:induction false} DistanceUpdate(tiles: seq<nat>, n: nat, N: nat, k: nat, t: nat)
    requires N > 0 && n <= |tiles| && k < |tiles|
    ensures Distance(tiles[k := t], n, N) ==
            Distance(tiles, n, N) + if k < n then Term(t, k, N) - Term(tiles[k], k, N) else 0
    decreases n
  {
    hide Term;
    if n > 0 {
      DistanceUpdate(tiles, n - 1, N, k, t);
    }
  }

  // ---- the verdict ----

  function Entry(t: nat, N: nat): int { if t == 0 then N * N else t }

  function Entries(tiles: seq<nat>, N: nat): (s: seq<int>)
    ensures |s| == |tiles| && forall k :: 0 <= k < |s| ==> s[k] == Entry(tiles[k], N)
  {
    seq(|tiles|, k requires 0 <= k < |tiles| => Entry(tiles[k], N))
  }

  predicate Even(p: Puzzle, N: nat) {
    (Inversions(Entries(p.tiles, N)) + 2 * N - 2 - p.zi - p.zj) % 2 == 0
  }

  // ---- moves ----

  function TileUp(p: Puzzle, N: nat): Puzzle
    requires p.valid ==> p.zi < N && p.zj < N && |p.tiles| == N * N
  {
    if !p.valid then p
    else if p.zi == N - 1 then p.(valid := false)
    else
      AtFacts(p.zi, p.zj, N);
      AtFacts(p.zi + 1, p.zj, N);
      var t := p.tiles[At(p.zi + 1, p.zj, N)];
      Puzzle(true, p.zi + 1, p.zj,
             p.dist + Abs(GoalRow(t, N) - p.zi) - Abs(GoalRow(t, N) - (p.zi + 1)),
             p.tiles[At(p.zi, p.zj, N) := t][At(p.zi + 1, p.zj, N) := 0])
  }

  function TileDown(p: Puzzle, N: nat): Puzzle
    requires p.valid ==> p.zi < N && p.zj < N && |p.tiles| == N * N
  {
    if !p.valid then p
    else if p.zi == 0 then p.(valid := false)
    else
      AtFacts(p.zi, p.zj, N);
      AtFacts(p.zi - 1, p.zj, N);
      var t := p.tiles[At(p.zi - 1, p.zj, N)];
      Puzzle(true, p.zi - 1, p.zj,
             p.dist + Abs(GoalRow(t, N) - p.zi) - Abs(GoalRow(t, N) - (p.zi - 1)),
             p.tiles[At(p.zi, p.zj, N) := t][At(p.zi - 1, p.zj, N) := 0])
  }

  function TileLeft(p: Puzzle, N: nat): Puzzle
    requires p.valid ==> p.zi < N && p.zj < N && |p.tiles| == N * N
  {
    if !p.valid then p
    else if p.zj == N - 1 then p.(valid := false)
    else
      AtFacts(p.zi, p.zj, N);
      AtFacts(p.zi, p.zj + 1, N);
      var t := p.tiles[At(p.zi, p.zj + 1, N)];
      Puzzle(true, p.zi, p.zj + 1,
             p.dist + Abs(GoalCol(t, N) - p.zj) - Abs(GoalCol(t, N) - (p.zj + 1)),
             p.tiles[At(p.zi, p.zj, N) := t][At(p.zi, p.zj + 1, N) := 0])
  }

  function TileRight(p: Puzzle, N: nat): Puzzle
    requires p.valid ==> p.zi < N && p.zj < N && |p.tiles| == N * N
  {
    if !p.valid then p
    else if p.zj == 0 then p.(valid := false)
    else
      AtFacts(p.zi, p.zj, N);
      AtFacts(p.zi, p.zj - 1, N);
      var t := p.tiles[At(p.zi, p.zj - 1, N)];
      Puzzle(true, p.zi, p.zj - 1,
             p.dist + Abs(GoalCol(t, N) - p.zj) - Abs(GoalCol(t, N) - (p.zj - 1)),
             p.tiles[At(p.zi, p.zj, N) := t][At(p.zi, p.zj - 1, N) := 0])
  }

  datatype Move = Up | Down | Left | Right

  function Moved(p: Puzzle, m: Move, N: nat): Puzzle
    requires p.valid ==> p.zi < N && p.zj < N && |p.tiles| == N * N
  {
    match m case Up => TileUp(p, N) case Down => TileDown(p, N) case Left => TileLeft(p, N) case Right => TileRight(p, N)
  }

  /** The `tile_..._possible` tests. */
  predicate Possible(p: Puzzle, m: Move, N: nat) {
    p.valid && match m case Up => p.zi != N - 1 case Down => p.zi != 0 case Left => p.zj != N - 1 case Right => p.zj != 0
  }

  /** Exchanging the blank with another tile. */
  function Slid(tiles: seq<nat>, z: nat, k: nat): seq<nat>
    requires z < |tiles| && k < |tiles|
  {
    tiles[z := tiles[k]][k := 0]
  }

  lemma SlidBoard(p: Puzzle, p': Puzzle, N: nat, k: nat)
    requires Board(p, N) && k < N * N && k != At(p.zi, p.zj, N) && p'.tiles == Slid(p.tiles, At(p.zi, p.zj, N), k)
    requires p'.valid && p'.zi < N && p'.zj < N && At(p'.zi, p'.zj, N) == k
    ensures Board(p', N)
  {
    var z, t, t' := At(p.zi, p.zj, N), p.tiles, p'.tiles;
    hide At;
    forall a, b | 0 <= a < b < |t'|
      ensures t'[a] != t'[b]
    {
      var a', b' := if a == z then k else if a == k then z else a, if b == z then k else if b == k then z else b;
      assert t'[a] == t[a'] && t'[b] == t[b'] && a' != b';
    }
  }

  /** Sliding changes the parity of the inversions. */
  lemma SlidFlips(p: Puzzle, N: nat, k: nat)
    requires Board(p, N) && k < N * N && k != At(p.zi, p.zj, N)
    ensures !SameParity(Inversions(Entries(Slid(p.tiles, At(p.zi, p.zj, N), k), N)), Inversions(Entries(p.tiles, N)))
  {
    hide At, Inversions;
    var z, s := At(p.zi, p.zj, N), Entries(p.tiles, N);
    var s' := Entries(Slid(p.tiles, z, k), N);
    EntriesDistinct(p, N);
    var lo, hi := if z < k then z else k, if z < k then k else z;
    assert s' == Exchange(s, lo, hi);
    ExchangeFlips(s, lo, hi);
  }

  lemma EntriesDistinct(p: Puzzle, N: nat)
    requires Board(p, N)
    ensures Distinct(Entries(p.tiles, N))
  {
  }

  /** Sliding changes the distance by the terms of the tile that moves. */
  lemma SlidDistance(p: Puzzle, N: nat, k: nat)
    requires N > 0 && Board(p, N) && k < N * N && k != At(p.zi, p.zj, N)
    ensures p.tiles[k] > 0
    ensures Distance(Slid(p.tiles, At(p.zi, p.zj, N), k), N * N, N) ==
            Distance(p.tiles, N * N, N) + Term(p.tiles[k], At(p.zi, p.zj, N), N) - Term(p.tiles[k], k, N)
  {
    var z, t := At(p.zi, p.zj, N), p.tiles;
    DistanceUpdate(t, N * N, N, z, t[k]);
    DistanceUpdate(t[z := t[k]], N * N, N, k, 0);
  }

  lemma TermAt(t: nat, i: nat, j: nat, N: nat)
    requires i < N && j < N
    ensures Term(t, At(i, j, N), N) == if t == 0 then 0 else Abs(GoalRow(t, N) - i) + Abs(GoalCol(t, N) - j)
  {
    AtFacts(i, j, N);
    hide At;
  }

  /** Where the blank goes. */
  function NextRow(p: Puzzle, m: Move): int { match m case Up => p.zi + 1 case Down => p.zi - 1 case _ => p.zi }

  function NextCol(p: Puzzle, m: Move): int { match m case Left => p.zj + 1 case Right => p.zj - 1 case _ => p.zj }

  /** All four moves exchange the blank with a neighbour and adjust the distance by that tile's terms. */
  lemma MovedIs(p: Puzzle, m: Move, N: nat) returns (k: nat)
    requires N > 0 && Board(p, N) && Possible(p, m, N)
    ensures 0 <= NextRow(p, m) < N && 0 <= NextCol(p, m) < N && k == At(NextRow(p, m), NextCol(p, m), N)
    ensures k < N * N && k != At(p.zi, p.zj, N)
    ensures var p' := Moved(p, m, N);
            && p'.valid && p'.zi == NextRow(p, m) && p'.zj == NextCol(p, m) && p'.tiles == Slid(p.tiles, At(p.zi, p.zj, N), k)
            && (p.tiles[k] > 0 ==> p'.dist == p.dist + Term(p.tiles[k], At(p.zi, p.zj, N), N) - Term(p.tiles[k], k, N))
  {
    hide At, Term, GoalRow, GoalCol, Distinct;
    var i, j := NextRow(p, m), NextCol(p, m);
    AtFacts(p.zi, p.zj, N);
    AtFacts(i, j, N);
    k := At(i, j, N);
    TermAt(p.tiles[k], p.zi, p.zj, N);
    TermAt(p.tiles[k], i, j, N);
  }

  /** Main result: a legal move leads to a board again, with the same verdict and the right distance. */
  lemma MoveKeeps(p: Puzzle, m: Move, N: nat)
    requires N > 0 && Board(p, N) && Possible(p, m, N) && p.dist == Distance(p.tiles, N * N, N)
    ensures var p' := Moved(p, m, N);
            Board(p', N) && (Even(p', N) <==> Even(p, N)) && p'.dist == Distance(p'.tiles, N * N, N)
  {
    hide *;
    BoardSize(p, N);
    var k := MovedIs(p, m, N);
    var p' := Moved(p, m, N);
    SlidBoard(p, p', N, k);
    SlidFlips(p, N, k);
    SlidDistance(p, N, k);
    BoardSize(p', N);
    EvenKept(p, p', m, N);
  }

  lemma BoardSize(p: Puzzle, N: nat)
    requires Board(p, N)
    ensures p.valid && p.zi < N && p.zj < N && |p.tiles| == N * N && At(p.zi, p.zj, N) < N * N
  {
  }

  /** One more or one less inversion, and the blank one step further or nearer. */
  lemma EvenKept(p: Puzzle, p': Puzzle, m: Move, N: nat)
    requires !SameParity(Inversions(Entries(p'.tiles, N)), Inversions(Entries(p.tiles, N)))
    requires p'.zi == NextRow(p, m) && p'.zj == NextCol(p, m)
    ensures Even(p', N) <==> Even(p, N)
  {
    hide Inversions, Entries;
  }

  /** A move gives a valid puzzle exactly when it is possible; otherwise only the flag changes. */
  lemma BadMove(p: Puzzle, m: Move, N: nat)
    requires Board(p, N)
    ensures Moved(p, m, N).valid <==> Possible(p, m, N)
    ensures !Possible(p, m, N) ==> Moved(p, m, N) == p.(valid := false)
  {
  }

  /** Going back undoes a move. */
  lemma MoveBack(p: Puzzle, m: Move, N: nat)
    requires N > 0 && Board(p, N) && Possible(p, m, N)
    ensures var p' := Moved(p, m, N);
            var back := match m case Up => Down case Down => Up case Left => Right case Right => Left;
            && Board(p', N) && Possible(p', back, N) && Moved(p', back, N).tiles == p.tiles
            && Moved(p', back, N).zi == p.zi && Moved(p', back, N).zj == p.zj
  {
    hide Distinct, At, Term, Moved, GoalRow, GoalCol;
    var k := MovedIs(p, m, N);
    var p' := Moved(p, m, N);
    SlidBoard(p, p', N, k);
    var back := match m case Up => Down case Down => Up case Left => Right case Right => Left;
    var k' := MovedIs(p', back, N);
    assert k' == At(p.zi, p.zj, N);
    assert Slid(p'.tiles, k, k') == p.tiles;
  }

  // ---- runs ----

  /** Moves that are possible one after another. */
  predicate LegalRun(p: Puzzle, ms: seq<Move>, N: nat)
    requires p.valid ==> p.zi < N && p.zj < N && |p.tiles| == N * N
    decreases |ms|
  {
    ms == [] || (Possible(p, ms[0], N) && Fits(p, ms[0], N) && LegalRun(Moved(p, ms[0], N), ms[1..], N))
  }

  predicate Fits(p: Puzzle, m: Move, N: nat)
    requires p.valid ==> p.zi < N && p.zj < N && |p.tiles| == N * N
  {
    var p' := Moved(p, m, N);
    p'.valid ==> p'.zi < N && p'.zj < N && |p'.tiles| == N * N
  }

  function After(p: Puzzle, ms: seq<Move>, N: nat): Puzzle
    requires p.valid ==> p.zi < N && p.zj < N && |p.tiles| == N * N
    requires LegalRun(p, ms, N)
    decreases |ms|
  {
    if ms == [] then p else After(Moved(p, ms[0], N), ms[1..], N)
  }

  lemma {:induction false} RunKeeps(p: Puzzle, ms: seq<Move>, N: nat)
    requires N > 0 && Board(p, N) && p.dist == Distance(p.tiles, N * N, N) && LegalRun(p, ms, N)
    ensures var q := After(p, ms, N);
            Board(q, N) && (Even(q, N) <==> Even(p, N)) && q.dist == Distance(q.tiles, N * N, N)
    decreases |ms|
  {
    hide Inversions, Distance, Distinct, Moved, Even;
    if ms != [] {
      MoveKeeps(p, ms[0], N);
      RunKeeps(Moved(p, ms[0], N), ms[1..], N);
    }
  }

  /** The distance counts steps: the tile whose place in the solution is row `gi`, column `gj` is as many rows and columns
      away from it as row `i`, column `j` is. */
  lemma TermSteps(gi: nat, gj: nat, i: nat, j: nat, N: nat)
    requires gi < N && gj < N && i < N && j < N
    ensures Term(At(gi, gj, N) + 1, At(i, j, N), N) ==
            (if gi < i then i - gi else gi - i) + (if gj < j then j - gj else gj - j)
  {
    hide At;
    AtFacts(gi, gj, N);
    TermAt(At(gi, gj, N) + 1, i, j, N);
  }

  /** A legal move brings one tile one step nearer to its place or one step further away. */
  lemma MoveIsOneStep(p: Puzzle, m: Move, N: nat)
    requires N > 0 && Board(p, N) && Possible(p, m, N)
    ensures Moved(p, m, N).dist == p.dist + 1 || Moved(p, m, N).dist == p.dist - 1
  {
    hide At, Distance, Term, GoalRow, GoalCol, Distinct, Moved;
    var k := MovedIs(p, m, N);
    SlidDistance(p, N, k);
    TermAt(p.tiles[k], p.zi, p.zj, N);
    TermAt(p.tiles[k], NextRow(p, m), NextCol(p, m), N);
  }

  /** `lower_bound`: no run of legal moves to the solution is shorter than the cached distance, and each is longer by an
      even number. */
  lemma {:induction false} LowerBound(p: Puzzle, ms: seq<Move>, N: nat)
    requires N > 0 && Board(p, N) && p.dist == Distance(p.tiles, N * N, N) && LegalRun(p, ms, N)
    requires After(p, ms, N).tiles == Solution(N).tiles
    ensures p.dist <= |ms| && (|ms| - p.dist) % 2 == 0
    decreases |ms|
  {
    hide Inversions, Distance, Distinct, Moved, Even;
    if ms == [] {
      SolutionFacts(N);
    } else {
      MoveKeeps(p, ms[0], N);
      MoveIsOneStep(p, ms[0], N);
      LowerBound(Moved(p, ms[0], N), ms[1..], N);
    }
  }

  function SolvedTile(k: nat, n: nat): nat { if k + 1 == n then 0 else k + 1 }

  /** `solution`: the tiles in order, the blank last. */
  function Solution(N: nat): Puzzle
    requires N > 0
  {
    Puzzle(true, N - 1, N - 1, 0, seq(N * N, k requires 0 <= k < N * N => SolvedTile(k, N * N)))
  }

  lemma {:induction false} SolvedDistance(N: nat, n: nat)
    requires N > 0 && n <= N * N && |Solution(N).tiles| == N * N
    ensures Distance(Solution(N).tiles, n, N) == 0
    decreases n
  {
    if n > 0 {
      SolvedDistance(N, n - 1);
    }
  }

  lemma SolutionFacts(N: nat)
    requires N > 0
    ensures Board(Solution(N), N) && Even(Solution(N), N) && Solution(N).dist == Distance(Solution(N).tiles, N * N, N)
  {
    var p := Solution(N);
    AtFacts(N - 1, N - 1, N);
    LastPlace(N);
    SolvedDistance(N, N * N);
    hide At, Distance;
    SortedHasNone(Entries(p.tiles, N));
  }

  lemma LastPlace(N: nat)
    requires N > 0
    ensures At(N - 1, N - 1, N) == N * N - 1
  {
  }

  /** Main result: every board reachable from the solution is solvable, and its cached distance is right. */
  lemma ReachableIsSolvable(N: nat, ms: seq<Move>)
    requires N > 0 && LegalRun(Solution(N), ms, N)
    ensures var q := After(Solution(N), ms, N);
            Board(q, N) && Even(q, N) && q.dist == Distance(q.tiles, N * N, N)
  {
    SolutionFacts(N);
    RunKeeps(Solution(N), ms, N);
    hide Inversions, Distance, Distinct, Solution, Board, Even;
  }

  // ---- the loops ----

  /** `solvable`: counts inversions pair by pair. */
  method Solvable(p: Puzzle, N: nat) returns (r: bool)
    requires N > 0 && (p.valid ==> p.zi < N && p.zj < N && |p.tiles| == N * N)
    ensures r <==> p.valid && Even(p, N)
  {
    hide Inversions, PairsFrom, LaterSmaller;
    if !p.valid {
      return false;
    }
    var n := N * N;
    var entries := new int[n];
    var k := 0;
    while k < n
      invariant 0 <= k <= n && forall i :: 0 <= i < k ==> entries[i] == Entry(p.tiles[i], N)
    {
      entries[k] := if p.tiles[k] == 0 then n else p.tiles[k];
      k := k + 1;
    }
    ghost var s := Entries(p.tiles, N);
    assert entries[..] == s;
    var parity := CountPairs(entries, s);
    PairsAreInversions(s, n);
    assert s[..n] == s;
    parity := parity + 2 * N - 2 - p.zi - p.zj;
    r := parity % 2 == 0;
  }

  method CountPairs(entries: array<int>, ghost s: seq<int>) returns (parity: nat)
    requires entries[..] == s
    ensures parity == PairsFrom(s, |s|, |s|)
  {
    parity := 0;
    var i := 0;
    while i < entries.Length
      invariant 0 <= i <= |s| && parity == PairsFrom(s, i, |s|)
    {
      var j := i + 1;
      while j < entries.Length
        invariant i + 1 <= j <= |s| && parity == PairsFrom(s, i, |s|) + LaterSmaller(s, i, j)
      {
        if entries[i] > entries[j] {
          parity := parity + 1;
        }
        j := j + 1;
      }
      i := i + 1;
    }
  }

  lemma DistanceNothing(a: seq<nat>, N: nat)
    requires N > 0
    ensures Distance(a, 0, N) == 0
  {
  }

  lemma DistanceNext(a: seq<nat>, n: nat, N: nat)
    requires N > 0 && n < |a|
    ensures Distance(a, n + 1, N) == Distance(a, n, N) + Term(a[n], n, N)
  {
  }

  /** The constructor from a list of tiles: valid exactly for permutations. */
  method FromArray(a: seq<nat>, N: nat) returns (p: Puzzle)
    requires N > 0 && |a| == N * N && forall k :: 0 <= k < N * N ==> a[k] < N * N
    ensures p.tiles == a && p.dist == Distance(a, N * N, N)
    ensures p.valid <==> Distinct(a)
    ensures p.valid ==> Board(p, N)
  {
    hide Distance, Distinct, At, Term, GoalRow, GoalCol;
    var m := N * N;
    var check := new bool[m](_ => false);
    var n, dist, zi, zj: nat := 0, 0, 0, 0;
    var i: nat := 0;
    RowStart(0, 0, N);
    DistanceNothing(a, N);
    while i < N
      invariant 0 <= i <= N && n == At(i, 0, N) && n <= m && dist == Distance(a, n, N) && zi < N && zj < N
      invariant forall v :: 0 <= v < m ==> (check[v] <==> v in a[..n])
      invariant 0 in a[..n] ==> At(zi, zj, N) < n && a[At(zi, zj, N)] == 0
    {
      var j := 0;
      while j < N
        invariant 0 <= j <= N && n == At(i, 0, N) + j <= m && dist == Distance(a, n, N) && zi < N && zj < N
        invariant forall v :: 0 <= v < m ==> (check[v] <==> v in a[..n])
        invariant 0 in a[..n] ==> At(zi, zj, N) < n && a[At(zi, zj, N)] == 0
      {
        AtFacts(i, j, N);
        RowStart(i, j, N);
        TermAt(a[n], i, j, N);
        check[a[n]] := true;
        if a[n] == 0 {
          zi, zj := i, j;
        } else {
          dist := dist + Abs(GoalRow(a[n], N) - i);
          dist := dist + Abs(GoalCol(a[n], N) - j);
        }
        DistanceNext(a, n, N);
        assert a[..n + 1] == a[..n] + [a[n]];
        n := n + 1;
        j := j + 1;
      }
      RowStart(i, N, N);
      i := i + 1;
    }
    RowStart(N, 0, N);
    assert a[..m] == a;
    var valid, v := true, 0;
    while v < m
      invariant 0 <= v <= m && (valid <==> forall x :: 0 <= x < v ==> x in a)
    {
      if !check[v] {
        valid := false;
      }
      v := v + 1;
    }
    AllPresent(a, m);
    p := Puzzle(valid, zi, zj, dist, a);
  }
}
