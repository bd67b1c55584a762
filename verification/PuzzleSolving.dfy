/** Every board with the right parity can be solved: the snake through the rows, and what moves do along it and across it. */
module PuzzleSolving {
  import opened Counting
  import opened Grid
  import opened InversionParity
  import opened Powers
  import opened Puzzle
  import opened WordCycles

  // ---- the snake ----

  /** Column `o` of an even row, counted from the other side in odd rows. */
  function Col(i: nat, o: nat, N: nat): (c: nat)
    requires o < N
    ensures c < N
  {
    if i % 2 == 0 then o else N - 1 - o
  }

  /** The snake runs through even rows forwards and through odd rows backwards; this is the place of its `x`-th cell,
      and the number of the cell at place `x`. */
  function Bend(x: nat, N: nat): (y: nat)
    requires N > 0 && x < N * N
    ensures y < N * N
  {
    CellOf(x, N);
    AtFacts(x / N, Col(x / N, x % N, N), N);
    At(x / N, Col(x / N, x % N, N), N)
  }

  lemma BendAt(i: nat, o: nat, N: nat)
    requires i < N && o < N
    ensures At(i, o, N) < N * N && Bend(At(i, o, N), N) == At(i, Col(i, o, N), N)
  {
    AtFacts(i, o, N);
  }

  lemma BendBack(x: nat, N: nat)
    requires N > 0 && x < N * N
    ensures Bend(Bend(x, N), N) == x
  {
    hide At, Bend;
    CellOf(x, N);
    var i, o := x / N, x % N;
    BendAt(i, o, N);
    BendAt(i, Col(i, o, N), N);
  }

  /** The tiles along the snake. */
  function Lin(tiles: seq<nat>, N: nat): (lin: seq<nat>)
    requires N > 0 && |tiles| == N * N
    ensures |lin| == N * N
  {
    seq(N * N, x requires 0 <= x < N * N => tiles[Bend(x, N)])
  }

  lemma LinAt(tiles: seq<nat>, N: nat, k: nat)
    requires N > 0 && |tiles| == N * N && k < N * N
    ensures Lin(tiles, N)[k] == tiles[Bend(k, N)] && Lin(tiles, N)[Bend(k, N)] == tiles[k]
  {
    BendBack(k, N);
  }

  lemma TilesFromLin(a: seq<nat>, b: seq<nat>, N: nat)
    requires N > 0 && |a| == |b| == N * N && Lin(a, N) == Lin(b, N)
    ensures a == b
  {
    forall k | 0 <= k < N * N
      ensures a[k] == b[k]
    {
      LinAt(a, N, k);
      LinAt(b, N, k);
    }
  }

  // ---- boards along the snake ----

  ghost predicate Good(p: Puzzle, N: nat) { N > 0 && Board(p, N) && p.dist == Distance(p.tiles, N * N, N) }

  /** The snake cell of the blank. */
  function Blank(p: Puzzle, N: nat): (b: nat)
    requires p.zi < N && p.zj < N
    ensures b < N * N
  {
    AtFacts(p.zi, p.zj, N);
    Bend(At(p.zi, p.zj, N), N)
  }

  /** The tiles in the order of the snake, without the blank. */
  function Word(p: Puzzle, N: nat): (w: seq<nat>)
    requires p.zi < N && p.zj < N && |p.tiles| == N * N
    ensures |w| == N * N - 1
  {
    Without(Lin(p.tiles, N), Blank(p, N))
  }

  lemma GoodParts(p: Puzzle, N: nat)
    requires Good(p, N)
    ensures N > 0 && p.valid && p.zi < N && p.zj < N && |p.tiles| == N * N && At(p.zi, p.zj, N) < N * N && Board(p, N)
    ensures p.tiles[At(p.zi, p.zj, N)] == 0 && Bend(Blank(p, N), N) == At(p.zi, p.zj, N) && Lin(p.tiles, N)[Blank(p, N)] == 0
    ensures p.dist == Distance(p.tiles, N * N, N) && Distinct(p.tiles)
  {
    BendBack(At(p.zi, p.zj, N), N);
  }

  lemma JumpOfSlid(tiles: seq<nat>, N: nat, z: nat, k: nat)
    requires N > 0 && |tiles| == N * N && z < N * N && k < N * N && tiles[z] == 0
    ensures Lin(Slid(tiles, z, k), N) == Jump(Lin(tiles, N), Bend(z, N), Bend(k, N))
  {
    hide Bend;
    var l, r := Lin(Slid(tiles, z, k), N), Jump(Lin(tiles, N), Bend(z, N), Bend(k, N));
    forall x | 0 <= x < N * N
      ensures l[x] == r[x]
    {
      LinAt(tiles, N, x);
      LinAt(tiles, N, z);
      LinAt(tiles, N, k);
      LinAt(Slid(tiles, z, k), N, x);
      BendBack(x, N);
      BendBack(z, N);
      BendBack(k, N);
    }
  }

  // ---- what runs lead to ----

  /** Legal moves lead from `p` to `q`. */
  ghost predicate Leads(p: Puzzle, q: Puzzle, N: nat) { Good(p, N) && exists ms :: LeadsBy(p, ms, q, N) }

  ghost predicate LeadsBy(p: Puzzle, ms: seq<Move>, q: Puzzle, N: nat) {
    Good(p, N) && LegalRun(p, ms, N) && After(p, ms, N) == q
  }

  lemma LeadsNowhere(p: Puzzle, N: nat)
    requires Good(p, N)
    ensures Leads(p, p, N)
  {
    hide Board;
    GoodParts(p, N);
    assert LeadsBy(p, [], p, N);
  }

  lemma MoveIsGood(p: Puzzle, m: Move, N: nat)
    requires Good(p, N) && Possible(p, m, N)
    ensures p.zi < N && p.zj < N && |p.tiles| == N * N && Good(Moved(p, m, N), N)
  {
    GoodParts(p, N);
    MoveKeeps(p, m, N);
  }

  lemma LeadsOne(p: Puzzle, m: Move, N: nat)
    requires Good(p, N) && Possible(p, m, N)
    ensures p.zi < N && p.zj < N && |p.tiles| == N * N && Leads(p, Moved(p, m, N), N) && Good(Moved(p, m, N), N)
  {
    hide Good, Moved, Possible;
    GoodParts(p, N);
    MoveIsGood(p, m, N);
    var q := Moved(p, m, N);
    GoodParts(q, N);
    assert [m][1..] == [];
    assert LegalRun(q, [], N) && After(q, [], N) == q;
    assert LegalRun(p, [m], N) && After(p, [m], N) == q;
    assert LeadsBy(p, [m], q, N);
  }

  lemma {:induction false} RunJoin(p: Puzzle, ms: seq<Move>, q: Puzzle, ns: seq<Move>, r: Puzzle, N: nat)
    requires LeadsBy(p, ms, q, N) && LeadsBy(q, ns, r, N)
    ensures LeadsBy(p, ms + ns, r, N)
    decreases |ms|
  {
    hide Good, Moved, Possible;
    GoodParts(p, N);
    GoodParts(q, N);
    if ms == [] {
      assert ms + ns == ns;
    } else {
      MoveIsGood(p, ms[0], N);
      GoodParts(Moved(p, ms[0], N), N);
      RunJoin(Moved(p, ms[0], N), ms[1..], q, ns, r, N);
      assert (ms + ns)[1..] == ms[1..] + ns;
    }
  }

  lemma LeadsOn(p: Puzzle, q: Puzzle, r: Puzzle, N: nat)
    requires Leads(p, q, N) && Leads(q, r, N)
    ensures Leads(p, r, N)
  {
    hide Good, LeadsBy;
    var ms :| LeadsBy(p, ms, q, N);
    var ns :| LeadsBy(q, ns, r, N);
    RunJoin(p, ms, q, ns, r, N);
  }

  lemma LeadsKeep(p: Puzzle, q: Puzzle, N: nat)
    requires Leads(p, q, N)
    ensures Good(q, N) && (Even(q, N) <==> Even(p, N))
  {
    hide Board, Distance, Even;
    var ms :| LeadsBy(p, ms, q, N);
    RunKeeps(p, ms, N);
  }

  /** Runs can be undone. */
  lemma {:induction false} LeadsBack(p: Puzzle, ms: seq<Move>, q: Puzzle, N: nat)
    requires LeadsBy(p, ms, q, N)
    ensures Leads(q, p, N)
    decreases |ms|
  {
    hide Good, Moved, Possible;
    GoodParts(p, N);
    if ms == [] {
      LeadsNowhere(p, N);
    } else {
      var r := Moved(p, ms[0], N);
      MoveIsGood(p, ms[0], N);
      GoodParts(r, N);
      LeadsBack(r, ms[1..], q, N);
      MoveUndone(p, ms[0], N);
      LeadsOn(q, r, p, N);
    }
  }

  lemma MoveUndone(p: Puzzle, m: Move, N: nat)
    requires Good(p, N) && Possible(p, m, N)
    ensures p.zi < N && p.zj < N && |p.tiles| == N * N && Leads(Moved(p, m, N), p, N)
  {
    hide Good, Board, Moved, Possible, Leads, Distance;
    GoodParts(p, N);
    MoveBack(p, m, N);
    MoveIsGood(p, m, N);
    var r, back := Moved(p, m, N), match m case Up => Down case Down => Up case Left => Right case Right => Left;
    GoodParts(r, N);
    LeadsOne(r, back, N);
    GoodParts(Moved(r, back, N), N);
    assert Moved(r, back, N) == p;
  }

  // ---- moving the blank ----

  ghost predicate Adjacent(i: int, j: int, i': int, j': int) {
    (i' == i && (j' == j + 1 || j' == j - 1)) || (j' == j && (i' == i + 1 || i' == i - 1))
  }

  /** The blank can move to any adjacent cell, where the tile jumps to its old one. */
  lemma MoveTo(p: Puzzle, N: nat, i: nat, j: nat) returns (q: Puzzle)
    requires Good(p, N) && i < N && j < N && Adjacent(p.zi, p.zj, i, j)
    ensures Leads(p, q, N) && Good(q, N) && q.zi == i && q.zj == j && |p.tiles| == |q.tiles| == N * N
    ensures p.zi < N && p.zj < N && Lin(q.tiles, N) == Jump(Lin(p.tiles, N), Blank(p, N), Blank(q, N))
  {
    hide Good, Board, Moved, Leads, Lin, Bend;
    GoodParts(p, N);
    var m := if i == p.zi + 1 then Up else if i == p.zi - 1 then Down else if j == p.zj + 1 then Left else Right;
    LeadsOne(p, m, N);
    q := Moved(p, m, N);
    var k := MovedIs(p, m, N);
    GoodParts(q, N);
    JumpOfSlid(p.tiles, N, At(p.zi, p.zj, N), k);
  }

  ghost predicate Neighbours(x: nat, y: nat, N: nat)
    requires N > 0
  {
    Adjacent(x / N, x % N, y / N, y % N)
  }

  /** Consecutive cells of the snake are adjacent. */
  lemma SnakeStep(x: nat, N: nat)
    requires N > 0 && x + 1 < N * N
    ensures Bend(x, N) < N * N && Bend(x + 1, N) < N * N && Neighbours(Bend(x, N), Bend(x + 1, N), N)
  {
    hide *;
    CellOf(x, N);
    StepFrom(x / N, x % N, N);
  }

  lemma StepFrom(i: nat, o: nat, N: nat)
    requires i < N && o < N && At(i, o, N) + 1 < N * N
    ensures At(i, o, N) < N * N && Neighbours(Bend(At(i, o, N), N), Bend(At(i, o, N) + 1, N), N)
  {
    hide *;
    RowStart(i, o, N);
    RowStart(i, o + 1, N);
    if o + 1 < N {
      StepInRow(i, o, N);
    } else {
      NextRowInside(i, N);
      StepAtTurn(i, N);
    }
  }

  lemma StepInRow(i: nat, o: nat, N: nat)
    requires i < N && o + 1 < N
    ensures At(i, o, N) < N * N && At(i, o + 1, N) < N * N
    ensures Neighbours(Bend(At(i, o, N), N), Bend(At(i, o + 1, N), N), N)
  {
    hide *;
    BendAt(i, o, N);
    BendAt(i, o + 1, N);
    InRow(i, o, N);
    CellsAdjacent(i, Col(i, o, N), i, Col(i, o + 1, N), N);
  }

  lemma StepAtTurn(i: nat, N: nat)
    requires i + 1 < N
    ensures At(i, N - 1, N) < N * N && At(i + 1, 0, N) < N * N
    ensures Neighbours(Bend(At(i, N - 1, N), N), Bend(At(i + 1, 0, N), N), N)
  {
    hide *;
    BendAt(i, N - 1, N);
    BendAt(i + 1, 0, N);
    AtTurn(i, N);
    CellsAdjacent(i, Col(i, N - 1, N), i + 1, Col(i + 1, 0, N), N);
  }

  lemma CellsAdjacent(i: nat, j: nat, i': nat, j': nat, N: nat)
    requires i < N && j < N && i' < N && j' < N && Adjacent(i, j, i', j')
    ensures Neighbours(At(i, j, N), At(i', j', N), N)
  {
    hide At, Adjacent;
    AtFacts(i, j, N);
    AtFacts(i', j', N);
  }

  lemma InRow(i: nat, o: nat, N: nat)
    requires o + 1 < N
    ensures Adjacent(i, Col(i, o, N), i, Col(i, o + 1, N))
  {
  }

  lemma AtTurn(i: nat, N: nat)
    requires N > 0
    ensures Adjacent(i, Col(i, N - 1, N), i + 1, Col(i + 1, 0, N))
  {
  }

  lemma NextRowInside(i: nat, N: nat)
    requires i < N && At(i + 1, 0, N) < N * N
    ensures i + 1 < N
  {
    RowStart(i + 1, 0, N);
  }

  lemma BlankCell(p: Puzzle, N: nat)
    requires Good(p, N)
    ensures p.zi < N && p.zj < N && Bend(Blank(p, N), N) / N == p.zi && Bend(Blank(p, N), N) % N == p.zj
  {
    hide Good, Bend;
    GoodParts(p, N);
    AtFacts(p.zi, p.zj, N);
  }

  /** The blank moved to the snake cell `c`, which is adjacent. */
  lemma MoveAlong(p: Puzzle, N: nat, c: nat) returns (q: Puzzle)
    requires Good(p, N) && p.zi < N && p.zj < N && c < N * N
    requires Adjacent(p.zi, p.zj, Bend(c, N) / N, Bend(c, N) % N)
    ensures Leads(p, q, N) && Good(q, N) && q.zi < N && q.zj < N && Blank(q, N) == c && |p.tiles| == |q.tiles| == N * N
    ensures Lin(q.tiles, N) == Jump(Lin(p.tiles, N), Blank(p, N), c)
  {
    hide *;
    GoodParts(p, N);
    CellOf(Bend(c, N), N);
    BendBack(c, N);
    q := MoveTo(p, N, Bend(c, N) / N, Bend(c, N) % N);
    BlankIs(q, N);
  }

  lemma BlankIs(p: Puzzle, N: nat)
    requires p.zi < N && p.zj < N
    ensures At(p.zi, p.zj, N) < N * N && Blank(p, N) == Bend(At(p.zi, p.zj, N), N)
  {
    AtFacts(p.zi, p.zj, N);
  }

  /** Along the snake the blank can go anywhere without disturbing the word. */
  lemma {:induction false} GoTo(p: Puzzle, N: nat, c: nat) returns (q: Puzzle)
    requires Good(p, N) && p.zi < N && p.zj < N && |p.tiles| == N * N && c < N * N
    ensures Leads(p, q, N) && Good(q, N) && q.zi < N && q.zj < N && |q.tiles| == N * N
    ensures Blank(q, N) == c && Word(q, N) == Word(p, N)
    decreases if c < Blank(p, N) then Blank(p, N) - c else c - Blank(p, N)
  {
    hide Good, Leads, Lin, Bend, Adjacent;
    var b := Blank(p, N);
    BlankCell(p, N);
    if c == b {
      LeadsNowhere(p, N);
      q := p;
    } else if b < c {
      SnakeStep(b, N);
      var r := MoveAlong(p, N, b + 1);
      JumpRight(Lin(p.tiles, N), b, 1);
      JumpOne(Word(p, N), b);
      q := GoTo(r, N, c);
      LeadsOn(p, r, q, N);
    } else {
      SnakeStep(b - 1, N);
      AdjacentBack(Bend(b - 1, N) / N, Bend(b - 1, N) % N, p.zi, p.zj);
      var r := MoveAlong(p, N, b - 1);
      JumpLeft(Lin(p.tiles, N), b - 1, 1);
      JumpOne(Word(p, N), b - 1);
      q := GoTo(r, N, c);
      LeadsOn(p, r, q, N);
    }
  }

  lemma AdjacentBack(i: int, j: int, i': int, j': int)
    ensures Adjacent(i, j, i', j') <==> Adjacent(i', j', i, j)
  {
  }

  // ---- turning a stretch of the word ----

  /** The cells across the border of rows `i` and `i + 1`, `d` steps from the turn of the snake. */
  lemma Across(i: nat, d: nat, N: nat)
    requires i + 1 < N && d < N
    ensures At(i + 1, 0, N) == At(i, N - 1 - d, N) + d + 1 && At(i + 1, d, N) == At(i, N - 1 - d, N) + 2 * d + 1
    ensures At(i + 1, d, N) < N * N
    ensures Bend(At(i, N - 1 - d, N), N) / N == i && Bend(At(i + 1, d, N), N) / N == i + 1
    ensures Bend(At(i, N - 1 - d, N), N) % N == Bend(At(i + 1, d, N), N) % N
  {
    hide *;
    RowStart(i, N - 1 - d, N);
    RowStart(i + 1, d, N);
    RowStart(i, N, N);
    BendAt(i, N - 1 - d, N);
    BendAt(i + 1, d, N);
    ColAcross(i, d, N);
    AtFacts(i, Col(i, N - 1 - d, N), N);
    AtFacts(i + 1, Col(i + 1, d, N), N);
  }

  lemma ColAcross(i: nat, d: nat, N: nat)
    requires d < N
    ensures Col(i, N - 1 - d, N) == Col(i + 1, d, N)
  {
  }

  lemma TurnRight(p: Puzzle, N: nat, i: nat, d: nat) returns (q: Puzzle)
    requires Good(p, N) && p.zi < N && p.zj < N && |p.tiles| == N * N && i + 1 < N && d < N
    ensures Leads(p, q, N) && Good(q, N) && q.zi < N && q.zj < N && |q.tiles| == N * N
    ensures At(i, N - 1 - d, N) + 2 * d + 1 < N * N && Word(q, N) == RotR(Word(p, N), At(i, N - 1 - d, N), 2 * d + 1)
  {
    hide Good, Leads, Lin, Bend, At;
    var s := At(i, N - 1 - d, N);
    Across(i, d, N);
    var r := GoTo(p, N, s);
    BlankCell(r, N);
    q := MoveAlong(r, N, s + 2 * d + 1);
    JumpRight(Lin(r.tiles, N), s, 2 * d + 1);
    LeadsOn(p, r, q, N);
  }

  lemma TurnLeft(p: Puzzle, N: nat, i: nat, d: nat) returns (q: Puzzle)
    requires Good(p, N) && p.zi < N && p.zj < N && |p.tiles| == N * N && i + 1 < N && d < N
    ensures Leads(p, q, N) && Good(q, N) && q.zi < N && q.zj < N && |q.tiles| == N * N
    ensures At(i, N - 1 - d, N) + 2 * d + 1 < N * N && Word(q, N) == RotL(Word(p, N), At(i, N - 1 - d, N), 2 * d + 1)
  {
    hide Good, Leads, Lin, Bend, At;
    var s := At(i, N - 1 - d, N);
    Across(i, d, N);
    var r := GoTo(p, N, s + 2 * d + 1);
    BlankCell(r, N);
    q := MoveAlong(r, N, s);
    JumpLeft(Lin(r.tiles, N), s, 2 * d + 1);
    LeadsOn(p, r, q, N);
  }

  /** Any three neighbours in two rows can be rotated: turned to the border of the rows, rotated there, turned back. */
  lemma {:induction false} TriWithin(p: Puzzle, N: nat, i: nat, j: nat) returns (q: Puzzle)
    requires Good(p, N) && p.zi < N && p.zj < N && |p.tiles| == N * N && i + 1 < N
    requires At(i, 0, N) <= j && j + 3 <= At(i, 0, N) + 2 * N - 1 && j + 3 < N * N
    ensures Leads(p, q, N) && Good(q, N) && q.zi < N && q.zj < N && |q.tiles| == N * N
    ensures Word(q, N) == RotR(Word(p, N), j, 3)
    decreases if j < At(i, 0, N) + N - 2 then At(i, 0, N) + N - 2 - j else j - (At(i, 0, N) + N - 2)
  {
    hide Good, Leads, Word, At, RotR, RotL;
    var s := At(i, 0, N);
    RowStart(i, N - 2, N);
    Across(i, N - 1, N);
    if j == s + N - 2 {
      q := TurnRight(p, N, i, 1);
    } else if j < s + N - 2 {
      var a := TurnRight(p, N, i, N - 1);
      var b := TriWithin(a, N, i, j + 1);
      q := TurnLeft(b, N, i, N - 1);
      ShiftedRight(Word(p, N), s, 2 * N - 1, j);
      LeadsOn(p, a, b, N);
      LeadsOn(p, b, q, N);
    } else {
      var a := TurnLeft(p, N, i, N - 1);
      var b := TriWithin(a, N, i, j - 1);
      q := TurnRight(b, N, i, N - 1);
      ShiftedLeft(Word(p, N), s, 2 * N - 1, j);
      LeadsOn(p, a, b, N);
      LeadsOn(p, b, q, N);
    }
  }

  /** The two rows that hold three neighbours of the word. */
  lemma RowsOf(N: nat, j: nat) returns (i: nat)
    requires N >= 2 && j + 3 < N * N
    ensures i + 1 < N && At(i, 0, N) <= j && j + 3 <= At(i, 0, N) + 2 * N - 1
  {
    CellOf(j, N);
    RowStart(j / N, j % N, N);
    hide At;
    if j / N + 1 < N {
      i := j / N;
      if N == 2 {
        RowStart(1, 0, 2);
        RowStart(0, 0, 2);
      }
    } else {
      i := N - 2;
      RowStart(N - 2, N, N);
      RowStart(N - 1, N, N);
    }
  }

  lemma {:induction false} TrisReached(p: Puzzle, N: nat, js: seq<nat>) returns (q: Puzzle)
    requires Good(p, N) && N >= 2 && p.zi < N && p.zj < N && |p.tiles| == N * N && Inside(js, N * N - 1)
    ensures Leads(p, q, N) && Good(q, N) && q.zi < N && q.zj < N && |q.tiles| == N * N
    ensures Word(q, N) == Tris(Word(p, N), js)
    decreases |js|
  {
    hide Good, Leads, Word, At, RotR;
    if js == [] {
      LeadsNowhere(p, N);
      q := p;
    } else {
      var i := RowsOf(N, js[0]);
      var r := TriWithin(p, N, i, js[0]);
      q := TrisReached(r, N, js[1..]);
      LeadsOn(p, r, q, N);
    }
  }

  // ---- what a word says about its board ----

  lemma LinDistinct(tiles: seq<nat>, N: nat)
    requires N > 0 && |tiles| == N * N && Distinct(tiles)
    ensures Distinct(Lin(tiles, N)) && forall x :: x in Lin(tiles, N) <==> x in tiles
  {
    hide Bend;
    var lin := Lin(tiles, N);
    forall k | 0 <= k < N * N
      ensures lin[k] == tiles[Bend(k, N)] && lin[Bend(k, N)] == tiles[k] && Bend(Bend(k, N), N) == k
    {
      LinAt(tiles, N, k);
      BendBack(k, N);
    }
    forall x, y | 0 <= x < y < N * N
      ensures lin[x] != lin[y]
    {
      assert Bend(Bend(x, N), N) == x && Bend(Bend(y, N), N) == y;
    }
    forall x | x in tiles
      ensures x in lin
    {
      var k :| 0 <= k < |tiles| && tiles[k] == x;
      assert lin[Bend(k, N)] == x;
    }
  }

  /** The letters of the word are all tiles but the blank, once each. */
  lemma WordLetters(p: Puzzle, N: nat)
    requires Good(p, N)
    ensures p.zi < N && p.zj < N && |p.tiles| == N * N
    ensures Distinct(Word(p, N)) && forall x :: x in Word(p, N) <==> 1 <= x < N * N
  {
    hide Lin, Bend, Blank, Distance;
    GoodParts(p, N);
    LinDistinct(p.tiles, N);
    AllPresent(p.tiles, N * N);
    WithoutZero(Lin(p.tiles, N), Blank(p, N));
  }

  lemma WithoutZero(lin: seq<nat>, b: nat)
    requires b < |lin| && Distinct(lin) && lin[b] == 0
    ensures Distinct(Without(lin, b)) && forall x :: x in Without(lin, b) <==> x in lin && x != 0
  {
    var w := Without(lin, b);
    forall x, y | 0 <= x < y < |w|
      ensures w[x] != w[y]
    {
      WithoutAt(lin, b, x);
      WithoutAt(lin, b, y);
    }
    forall x | x in lin && x != 0
      ensures x in w
    {
      var i :| 0 <= i < |lin| && lin[i] == x;
      assert w[if i < b then i else i - 1] == x;
    }
    forall x | x in w
      ensures x in lin && x != 0
    {
      var i :| 0 <= i < |w| && w[i] == x;
      WithoutAt(lin, b, i);
    }
  }

  lemma SameBlank(p: Puzzle, q: Puzzle, N: nat)
    requires Good(p, N) && Good(q, N) && p.zi < N && p.zj < N && q.zi < N && q.zj < N && Blank(p, N) == Blank(q, N)
    ensures p.zi == q.zi && p.zj == q.zj && p.valid && q.valid
  {
    hide Good, Bend, At;
    GoodParts(p, N);
    GoodParts(q, N);
    AtDistinct(p.zi, p.zj, q.zi, q.zj, N);
  }

  /** The word and the place of the blank are the whole board. */
  lemma SameBoard(p: Puzzle, q: Puzzle, N: nat)
    requires Good(p, N) && Good(q, N) && p.zi < N && p.zj < N && q.zi < N && q.zj < N && |p.tiles| == |q.tiles| == N * N
    requires Blank(p, N) == Blank(q, N) && Word(p, N) == Word(q, N)
    ensures p == q
  {
    hide Good, Bend, At, Lin, Without, Blank;
    GoodParts(p, N);
    GoodParts(q, N);
    SameBlank(p, q, N);
    var b, l, r := Blank(p, N), Lin(p.tiles, N), Lin(q.tiles, N);
    RowFromWord(l, b);
    RowFromWord(r, b);
    forall x | 0 <= x < N * N
      ensures l[x] == r[x]
    {
    }
    TilesFromLin(p.tiles, q.tiles, N);
  }

  /** Two boards that differ by an exchange of two tiles have different verdicts. */
  lemma ExchangedTiles(p: Puzzle, q: Puzzle, N: nat, k: nat, l: nat)
    requires Good(p, N) && |p.tiles| == |q.tiles| == N * N && p.zi == q.zi && p.zj == q.zj
    requires k < N * N && l < N * N && k != l && q.tiles == Jump(p.tiles, k, l)
    ensures Even(q, N) <==> !Even(p, N)
  {
    hide *;
    GoodParts(p, N);
    EntriesDistinct(p, N);
    var i, j := if k < l then k else l, if k < l then l else k;
    JumpBoth(p.tiles, k, l);
    ExchangedEntries(p.tiles, q.tiles, N, i, j);
    ExchangeFlips(Entries(p.tiles, N), i, j);
    EvenFlips(p, q, N);
  }

  lemma JumpBoth(a: seq<nat>, k: nat, l: nat)
    requires k < |a| && l < |a|
    ensures Jump(a, k, l) == Jump(a, l, k)
  {
  }

  lemma EvenFlips(p: Puzzle, q: Puzzle, N: nat)
    requires !SameParity(Inversions(Entries(q.tiles, N)), Inversions(Entries(p.tiles, N))) && p.zi == q.zi && p.zj == q.zj
    ensures Even(q, N) <==> !Even(p, N)
  {
    hide Inversions, Entries;
  }

  lemma ExchangedEntries(a: seq<nat>, b: seq<nat>, N: nat, i: nat, j: nat)
    requires i < |a| && j < |a| && b == Jump(a, i, j)
    ensures Entries(b, N) == Exchange(Entries(a, N), i, j)
  {
    var s, t := Entries(a, N), Entries(b, N);
    forall k | 0 <= k < |a|
      ensures t[k] == Exchange(s, i, j)[k]
    {
    }
  }

  /** With the blanks in the same place and the last two letters exchanged, one board is solvable and the other is not. */
  lemma ExchangedWord(p: Puzzle, q: Puzzle, N: nat)
    requires Good(p, N) && Good(q, N) && p.zi < N && p.zj < N && q.zi < N && q.zj < N && |p.tiles| == |q.tiles| == N * N
    requires Blank(p, N) == Blank(q, N) && N * N >= 3
    requires var w, n := Word(p, N), N * N - 1; Word(q, N) == w[n - 2 := w[n - 1]][n - 1 := w[n - 2]]
    ensures Even(q, N) <==> !Even(p, N)
  {
    hide Good, Bend, Lin, Without, Blank, Even;
    GoodParts(p, N);
    GoodParts(q, N);
    SameBlank(p, q, N);
    var b, n, l, r := Blank(p, N), N * N - 1, Lin(p.tiles, N), Lin(q.tiles, N);
    RowFromWord(l, b);
    RowFromWord(r, b);
    var x, y := if n - 2 < b then n - 2 else n - 1, if n - 1 < b then n - 1 else n;
    assert r == Jump(l, x, y);
    JumpedTiles(p.tiles, q.tiles, N, x, y);
    BendBack(x, N);
    BendBack(y, N);
    ExchangedTiles(p, q, N, Bend(x, N), Bend(y, N));
  }

  lemma JumpedTiles(a: seq<nat>, b: seq<nat>, N: nat, x: nat, y: nat)
    requires N > 0 && |a| == |b| == N * N && x < N * N && y < N * N && Lin(b, N) == Jump(Lin(a, N), x, y)
    ensures b == Jump(a, Bend(x, N), Bend(y, N))
  {
    hide Bend, Lin;
    forall k | 0 <= k < N * N
      ensures b[k] == Jump(a, Bend(x, N), Bend(y, N))[k]
    {
      LinAt(a, N, k);
      LinAt(b, N, k);
      LinAt(a, N, x);
      LinAt(a, N, y);
      BendBack(k, N);
      BendBack(x, N);
      BendBack(y, N);
    }
  }

  // ---- main results ----

  lemma Smallest(p: Puzzle)
    requires Good(p, 1)
    ensures p == Solution(1)
  {
    hide Good, Board, Distance, Inversions, Entries, At;
    GoodParts(p, 1);
    SolutionFacts(1);
    AtFacts(0, 0, 1);
    assert p.tiles == [0] == Solution(1).tiles;
  }

  lemma SolutionGood(N: nat)
    requires N > 0
    ensures Good(Solution(N), N) && Even(Solution(N), N) && Solution(N).zi < N && Solution(N).zj < N && |Solution(N).tiles| == N * N
  {
    hide Even;
    SolutionFacts(N);
  }

  /** From every board that `solvable` accepts, legal moves lead to the solution. */
  lemma SolvableIsSolved(p: Puzzle, N: nat)
    requires Good(p, N) && Even(p, N)
    ensures Leads(p, Solution(N), N)
  {
    hide Good, Leads, Word, Blank, Even, Solution, At;
    GoodParts(p, N);
    var z := Solution(N);
    SolutionGood(N);
    if N == 1 {
      Smallest(p);
      LeadsNowhere(p, N);
    } else {
      Squares(N);
      WordLetters(p, N);
      WordLetters(z, N);
      var js := SortTo(Word(p, N), Word(z, N), 0);
      var r := TrisReached(p, N, js);
      var q := GoTo(r, N, Blank(z, N));
      LeadsOn(p, r, q, N);
      LeadsKeep(p, q, N);
      LastTwo(Word(q, N), Word(z, N));
      if Word(q, N) == Word(z, N) {
        SameBoard(q, z, N);
      } else {
        ExchangedWord(z, q, N);
      }
    }
  }

  lemma Squares(N: nat)
    requires N >= 2
    ensures N * N >= 4
  {
  }

  /** Main result: for every size, a board is reachable from the solution if and only if `solvable` accepts it. */
  lemma SolvableIsReachable(p: Puzzle, N: nat)
    requires N > 0 && Board(p, N) && p.dist == Distance(p.tiles, N * N, N)
    ensures Even(p, N) <==> Leads(Solution(N), p, N)
  {
    hide Board, Distance, Even, Solution, LeadsBy;
    SolutionGood(N);
    if Even(p, N) {
      SolvableIsSolved(p, N);
      var ms :| LeadsBy(p, ms, Solution(N), N);
      LeadsBack(p, ms, Solution(N), N);
    }
    if Leads(Solution(N), p, N) {
      LeadsKeep(Solution(N), p, N);
    }
  }
}
