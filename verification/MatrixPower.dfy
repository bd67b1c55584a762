/** Sums and square matrices of integers: powers, and the recurrence that the companion matrix computes. */
module MatrixPower {
  // ---- sums ----

  function Sum(n: nat, f: int -> int): int { if n == 0 then 0 else Sum(n - 1, f) + f(n - 1) }

  lemma {:induction false} SumEqual(n: nat, f: int -> int, g: int -> int)
    requires forall k :: 0 <= k < n ==> f(k) == g(k)
    ensures Sum(n, f) == Sum(n, g)
  {
    if n > 0 {
      SumEqual(n - 1, f, g);
    }
  }

  lemma {:induction false} SumPlus(n: nat, f: int -> int, g: int -> int)
    ensures Sum(n, k => f(k) + g(k)) == Sum(n, f) + Sum(n, g)
  {
    if n > 0 {
      SumPlus(n - 1, f, g);
    }
  }

  lemma {:induction false} SumTimes(n: nat, f: int -> int, c: int)
    ensures Sum(n, k => c * f(k)) == c * Sum(n, f)
  {
    if n > 0 {
      SumTimes(n - 1, f, c);
      assert c * (Sum(n - 1, f) + f(n - 1)) == c * Sum(n - 1, f) + c * f(n - 1);
    }
  }

  lemma {:induction false} SumZero(n: nat)
    ensures Sum(n, k => 0) == 0
  {
    if n > 0 {
      SumZero(n - 1);
    }
  }

  /** Summing by rows or by columns. */
  lemma {:induction false} SumSwap(m: nat, n: nat, f: (int, int) -> int)
    ensures Sum(m, i => Sum(n, j => f(i, j))) == Sum(n, j => Sum(m, i => f(i, j)))
    decreases m
  {
    if m == 0 {
      SumZero(n);
      SumEqual(n, j => Sum(m, i => f(i, j)), k => 0);
    } else {
      SumSwap(m - 1, n, f);
      var front, last := j => Sum(m - 1, i => f(i, j)), j => f(m - 1, j);
      SumPlus(n, front, last);
      SumEqual(n, j => Sum(m, i => f(i, j)), k => front(k) + last(k));
      SumEqual(n, j => Sum(m - 1, i => f(i, j)), front);
      SumEqual(n, j => f(m - 1, j), last);
    }
  }

  /** A sum with one term. */
  lemma {:induction false} SumOne(n: nat, f: int -> int, at: nat)
    requires forall k :: 0 <= k < n && k != at ==> f(k) == 0
    ensures Sum(n, f) == if at < n then f(at) else 0
  {
    if n > 0 {
      SumOne(n - 1, f, at);
    }
  }

  // ---- matrices ----

  type Matrix = seq<seq<int>>

  predicate Square(a: Matrix, M: nat) { |a| == M && forall i :: 0 <= i < M ==> |a[i]| == M }

  function E(a: Matrix, i: int, j: int): int { if 0 <= i < |a| && 0 <= j < |a[i]| then a[i][j] else 0 }

  function Make(M: nat, f: (int, int) -> int): (a: Matrix)
    ensures Square(a, M) && forall i, j :: 0 <= i < M && 0 <= j < M ==> a[i][j] == f(i, j)
  {
    seq(M, i => seq(M, j => f(i, j)))
  }

  lemma SameEntries(a: Matrix, b: Matrix, M: nat)
    requires Square(a, M) && Square(b, M) && forall i, j :: 0 <= i < M && 0 <= j < M ==> E(a, i, j) == E(b, i, j)
    ensures a == b
  {
    forall i | 0 <= i < M
      ensures a[i] == b[i]
    {
      forall j | 0 <= j < M
        ensures a[i][j] == b[i][j]
      {
        assert E(a, i, j) == E(b, i, j);
      }
    }
  }

  function Dot(a: Matrix, b: Matrix, i: int, j: int, M: nat): int { Sum(M, k => E(a, i, k) * E(b, k, j)) }

  function Times(a: Matrix, b: Matrix, M: nat): (c: Matrix)
    ensures Square(c, M)
  {
    Make(M, (i, j) => Dot(a, b, i, j, M))
  }

  lemma TimesAt(a: Matrix, b: Matrix, M: nat, i: int, j: int)
    requires 0 <= i < M && 0 <= j < M
    ensures E(Times(a, b, M), i, j) == Dot(a, b, i, j, M)
  {
  }

  /** One entry of a triple product, associated either way. */
  lemma TripleEntry(a: Matrix, b: Matrix, c: Matrix, M: nat, i: int, j: int)
    requires 0 <= i < M && 0 <= j < M
    ensures Dot(Times(a, b, M), c, i, j, M) == Dot(a, Times(b, c, M), i, j, M)
  {
    hide E, Times, Dot;
    var term := (k: int, l: int) => E(a, i, l) * E(b, l, k) * E(c, k, j);
    LeftTriple(a, b, c, M, i, j, term);
    RightTriple(a, b, c, M, i, j, term);
    SumSwap(M, M, term);
  }

  lemma LeftTriple(a: Matrix, b: Matrix, c: Matrix, M: nat, i: int, j: int, term: (int, int) -> int)
    requires 0 <= i < M && 0 <= j < M
    requires forall k, l :: term(k, l) == E(a, i, l) * E(b, l, k) * E(c, k, j)
    ensures Dot(Times(a, b, M), c, i, j, M) == Sum(M, k => Sum(M, l => term(k, l)))
  {
    hide E, Times;
    var f, g := k => E(Times(a, b, M), i, k) * E(c, k, j), k => Sum(M, l => term(k, l));
    forall k | 0 <= k < M
      ensures f(k) == g(k)
    {
      TimesAt(a, b, M, i, k);
      var row := l => E(a, i, l) * E(b, l, k);
      SumTimes(M, row, E(c, k, j));
      SumEqual(M, l => E(c, k, j) * row(l), l => term(k, l));
      SumEqual(M, row, l => E(a, i, l) * E(b, l, k));
    }
    SumEqual(M, f, g);
    SumEqual(M, f, k => E(Times(a, b, M), i, k) * E(c, k, j));
    SumEqual(M, g, k => Sum(M, l => term(k, l)));
  }

  lemma RightTriple(a: Matrix, b: Matrix, c: Matrix, M: nat, i: int, j: int, term: (int, int) -> int)
    requires 0 <= i < M && 0 <= j < M
    requires forall k, l :: term(k, l) == E(a, i, l) * E(b, l, k) * E(c, k, j)
    ensures Dot(a, Times(b, c, M), i, j, M) == Sum(M, l => Sum(M, k => term(k, l)))
  {
    hide E, Times;
    var f, g := l => E(a, i, l) * E(Times(b, c, M), l, j), l => Sum(M, k => term(k, l));
    forall l | 0 <= l < M
      ensures f(l) == g(l)
    {
      TimesAt(b, c, M, l, j);
      var col := k => E(b, l, k) * E(c, k, j);
      SumTimes(M, col, E(a, i, l));
      forall k
        ensures E(a, i, l) * col(k) == term(k, l)
      {
        Associate(E(a, i, l), E(b, l, k), E(c, k, j));
      }
      SumEqual(M, k => E(a, i, l) * col(k), k => term(k, l));
      SumEqual(M, col, k => E(b, l, k) * E(c, k, j));
    }
    SumEqual(M, f, g);
    SumEqual(M, f, l => E(a, i, l) * E(Times(b, c, M), l, j));
    SumEqual(M, g, l => Sum(M, k => term(k, l)));
  }

  lemma Associate(x: int, y: int, z: int)
    ensures x * (y * z) == x * y * z
  {
  }

  /** The product of matrices is associative. */
  lemma TimesAssociative(a: Matrix, b: Matrix, c: Matrix, M: nat)
    ensures Times(Times(a, b, M), c, M) == Times(a, Times(b, c, M), M)
  {
    hide Times, Dot;
    var x, y := Times(Times(a, b, M), c, M), Times(a, Times(b, c, M), M);
    forall i, j | 0 <= i < M && 0 <= j < M
      ensures E(x, i, j) == E(y, i, j)
    {
      TimesAt(Times(a, b, M), c, M, i, j);
      TimesAt(a, Times(b, c, M), M, i, j);
      TripleEntry(a, b, c, M, i, j);
    }
    SameEntries(x, y, M);
  }

  function Unit(M: nat): (a: Matrix)
    ensures Square(a, M)
  {
    Make(M, (i, j) => if i == j then 1 else 0)
  }

  lemma UnitAt(M: nat, i: int, j: int)
    requires 0 <= i < M && 0 <= j < M
    ensures E(Unit(M), i, j) == if i == j then 1 else 0
  {
  }

  lemma UnitDot(a: Matrix, M: nat, i: int, j: int)
    requires 0 <= i < M && 0 <= j < M
    ensures Dot(a, Unit(M), i, j, M) == E(a, i, j) == Dot(Unit(M), a, i, j, M)
  {
    hide E, Unit;
    forall k | 0 <= k < M
      ensures E(Unit(M), k, j) == if k == j then 1 else 0
      ensures E(Unit(M), i, k) == if i == k then 1 else 0
    {
      UnitAt(M, k, j);
      UnitAt(M, i, k);
    }
    SumOne(M, k => E(a, i, k) * E(Unit(M), k, j), j);
    SumOne(M, k => E(Unit(M), i, k) * E(a, k, j), i);
  }

  lemma TimesUnit(a: Matrix, M: nat)
    requires Square(a, M)
    ensures Times(a, Unit(M), M) == a && Times(Unit(M), a, M) == a
  {
    hide Times, Unit, Dot;
    forall i, j | 0 <= i < M && 0 <= j < M
      ensures E(Times(a, Unit(M), M), i, j) == E(a, i, j)
      ensures E(Times(Unit(M), a, M), i, j) == E(a, i, j)
    {
      UnitDot(a, M, i, j);
      TimesAt(a, Unit(M), M, i, j);
      TimesAt(Unit(M), a, M, i, j);
    }
    SameEntries(Times(a, Unit(M), M), a, M);
    SameEntries(Times(Unit(M), a, M), a, M);
  }

  function Power(a: Matrix, n: nat, M: nat): (p: Matrix)
    ensures Square(p, M)
  {
    if n == 0 then Unit(M) else Times(Power(a, n - 1, M), a, M)
  }

  /** Powers multiply by adding exponents. */
  lemma {:induction false} PowerAdd(a: Matrix, m: nat, n: nat, M: nat)
    requires Square(a, M)
    ensures Times(Power(a, m, M), Power(a, n, M), M) == Power(a, m + n, M)
    decreases n
  {
    hide Times, Unit;
    if n == 0 {
      TimesUnit(Power(a, m, M), M);
    } else {
      PowerAdd(a, m, n - 1, M);
      TimesAssociative(Power(a, m, M), Power(a, n - 1, M), a, M);
    }
  }

  lemma PowerOne(a: Matrix, M: nat)
    requires Square(a, M)
    ensures Power(a, 1, M) == a
  {
    TimesUnit(a, M);
  }

  // ---- the companion matrix ----

  /** Ones above the diagonal and in the last row. */
  function Companion(M: nat): (a: Matrix)
    ensures Square(a, M)
  {
    Make(M, (i, j) => if i == M - 1 || j == i + 1 then 1 else 0)
  }

  /** One more factor shifts the rows up and sums them into the last one. */
  lemma NextPower(M: nat, n: nat, i: int, j: int)
    requires 0 <= i < M && 0 <= j < M
    ensures i < M - 1 ==> E(Power(Companion(M), n + 1, M), i, j) == E(Power(Companion(M), n, M), i + 1, j)
    ensures E(Power(Companion(M), n + 1, M), M - 1, j) == Sum(M, k => E(Power(Companion(M), n, M), k, j))
  {
    hide Power, Times, Companion, E;
    var A := Companion(M);
    var P := Power(A, n, M);
    PowerOne(A, M);
    PowerAdd(A, 1, n, M);
    TimesAt(A, P, M, i, j);
    TimesAt(A, P, M, M - 1, j);
    CompanionRows(M, P, i, j);
  }

  /** A row of the companion matrix picks one row of the other factor, or sums them all. */
  lemma CompanionRows(M: nat, P: Matrix, i: int, j: int)
    requires 0 <= i < M && 0 <= j < M
    ensures i < M - 1 ==> Dot(Companion(M), P, i, j, M) == E(P, i + 1, j)
    ensures Dot(Companion(M), P, M - 1, j, M) == Sum(M, k => E(P, k, j))
  {
    hide E, Companion;
    var row, last := k => E(Companion(M), i, k) * E(P, k, j), k => E(Companion(M), M - 1, k) * E(P, k, j);
    forall k | 0 <= k < M
      ensures i < M - 1 && k != i + 1 ==> row(k) == 0
      ensures last(k) == E(P, k, j)
    {
      CompanionAt(M, i, k);
      CompanionAt(M, M - 1, k);
    }
    if i < M - 1 {
      SumOne(M, row, i + 1);
      CompanionAt(M, i, i + 1);
      SumEqual(M, row, k => E(Companion(M), i, k) * E(P, k, j));
    }
    SumEqual(M, last, k => E(P, k, j));
    SumEqual(M, last, k => E(Companion(M), M - 1, k) * E(P, k, j));
  }

  lemma CompanionAt(M: nat, i: int, k: int)
    requires 0 <= i < M && 0 <= k < M
    ensures E(Companion(M), i, k) == if i == M - 1 || k == i + 1 then 1 else 0
  {
  }

  /** The number that the benchmark computes, before cutting it to 32 bits. */
  function F(n: nat, M: nat): int { E(Power(Companion(M), n, M), M - 1, M - 1) }

  lemma {:induction false} RowIsEarlier(M: nat, n: nat, i: nat)
    requires 0 < M && i < M && M - 1 - i <= n
    ensures E(Power(Companion(M), n, M), i, M - 1) == F(n - (M - 1 - i), M)
    decreases M - i
  {
    hide Power, E;
    if i < M - 1 {
      NextPower(M, n - 1, i, M - 1);
      RowIsEarlier(M, n - 1, i + 1);
    }
  }

  lemma {:induction false} RowIsZero(M: nat, n: nat, i: nat)
    requires 0 < M && i < M && n < M - 1 - i
    ensures E(Power(Companion(M), n, M), i, M - 1) == 0
    decreases n
  {
    hide Times, E;
    if n == 0 {
      UnitAt(M, i, M - 1);
    } else {
      NextPower(M, n - 1, i, M - 1);
      RowIsZero(M, n - 1, i + 1);
    }
  }

  /** Main result: every value is the sum of the `M` values before it, those before the first one being zero. */
  lemma Recurrence(M: nat, n: nat)
    requires 0 < M && 0 < n
    ensures F(n, M) == Sum(M, d => if 0 <= d < n then F(n - 1 - d, M) else 0)
  {
    hide E, F, Power;
    FIs(n, M);
    NextPower(M, n - 1, M - 1, M - 1);
    var f, g := k => E(Power(Companion(M), n - 1, M), k, M - 1), d => if 0 <= d < n then F(n - 1 - d, M) else 0;
    forall k | 0 <= k < M
      ensures f(k) == g(M - 1 - k)
    {
      if M - 1 - k <= n - 1 {
        RowIsEarlier(M, n - 1, k);
      } else {
        RowIsZero(M, n - 1, k);
      }
    }
    SumEqual(M, f, k => g(M - 1 - k));
    SumReversed(M, M, g);
    SumEqual(M, f, k => E(Power(Companion(M), n - 1, M), k, M - 1));
    SumEqual(M, g, d => if 0 <= d < n then F(n - 1 - d, M) else 0);
  }

  lemma FirstValue(M: nat)
    requires 0 < M
    ensures F(0, M) == 1
  {
    UnitAt(M, M - 1, M - 1);
  }

  lemma FIs(n: nat, M: nat)
    ensures F(n, M) == E(Power(Companion(M), n, M), M - 1, M - 1)
  {
  }

  /** Summing backwards. */
  lemma {:induction false} SumReversed(m: nat, M: nat, g: int -> int)
    requires m <= M
    ensures Sum(m, k => g(M - 1 - k)) == Sum(M, g) - Sum(M - m, g)
    decreases m
  {
    if m > 0 {
      SumReversed(m - 1, M, g);
    }
  }
}
