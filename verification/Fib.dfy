/** The benchmark that raises a matrix to a power by squaring, in 32-bit words. */
module Fib {
  import opened Grid
  import opened MatrixPower
  import opened Powers

  /** The table `m` holds `p`, every entry cut to a word. */
  ghost predicate Holds(m: array<nat>, p: Matrix, M: nat)
    reads m
  {
    && m.Length == M * M && Square(p, M)
    && forall i: nat, j: nat {:trigger At(i, j, M)} :: i < M && j < M ==>
         At(i, j, M) < m.Length && m[At(i, j, M)] == E(p, i, j) % WORD
  }

  /** Adding a product word by word. */
  lemma WordStep(x: int, p: int, q: int)
    ensures (x % WORD + (p % WORD) * (q % WORD)) % WORD == (x + p * q) % WORD
  {
    var a, b, c := x / WORD, p / WORD, q / WORD;
    var p', q' := p % WORD, q % WORD;
    assert p * q == p' * q' + WORD * (b * q' + c * p' + WORD * (b * c)) by {
      assert p == b * WORD + p' && q == c * WORD + q';
      Expand(b, p', c, q');
    }
    Multiple(x % WORD + p' * q', a + (b * q' + c * p' + WORD * (b * c)));
  }

  lemma Expand(b: int, p: int, c: int, q: int)
    ensures (b * WORD + p) * (c * WORD + q) == p * q + WORD * (b * q + c * p + WORD * (b * c))
  {
  }

  lemma Multiple(x: int, k: int)
    ensures (x + WORD * k) % WORD == x % WORD
  {
  }

  /** `mult`: the product of two tables into a third. */
  method Mult(c: array<nat>, a: array<nat>, b: array<nat>, M: nat, ghost p: Matrix, ghost q: Matrix)
    requires c != a && c != b && c.Length == M * M && Holds(a, p, M) && Holds(b, q, M)
    modifies c
    ensures Holds(c, Times(p, q, M), M)
  {
    hide At, E, Times, Dot;
    var i: nat := 0;
    while i < M
      invariant 0 <= i <= M && Holds(a, p, M) && Holds(b, q, M)
      invariant forall r: nat, s: nat {:trigger At(r, s, M)} :: r < i && s < M ==>
                  At(r, s, M) < c.Length && c[At(r, s, M)] == Dot(p, q, r, s, M) % WORD
    {
      var j: nat := 0;
      while j < M
        invariant 0 <= j <= M && Holds(a, p, M) && Holds(b, q, M)
        invariant forall r: nat, s: nat {:trigger At(r, s, M)} :: (r < i || (r == i && s < j)) && r < M && s < M ==>
                    At(r, s, M) < c.Length && c[At(r, s, M)] == Dot(p, q, r, s, M) % WORD
      {
        ghost var before := c[..];
        MultEntry(c, a, b, M, i, j, p, q);
        forall r: nat, s: nat {:trigger At(r, s, M)} | r < M && s < M
          ensures At(r, s, M) == At(i, j, M) <==> r == i && s == j
        {
          AtDistinct(r, s, i, j, M);
        }
        j := j + 1;
      }
      i := i + 1;
    }
    forall r: nat, s: nat {:trigger At(r, s, M)} | r < M && s < M
      ensures At(r, s, M) < c.Length && c[At(r, s, M)] == E(Times(p, q, M), r, s) % WORD
    {
      TimesAt(p, q, M, r, s);
    }
  }

  /** One entry of the product. */
  method MultEntry(c: array<nat>, a: array<nat>, b: array<nat>, M: nat, i: nat, j: nat, ghost p: Matrix, ghost q: Matrix)
    requires c != a && c != b && c.Length == M * M && Holds(a, p, M) && Holds(b, q, M) && i < M && j < M
    modifies c
    ensures At(i, j, M) < c.Length && c[At(i, j, M)] == Dot(p, q, i, j, M) % WORD
    ensures forall x :: 0 <= x < c.Length && x != At(i, j, M) ==> c[x] == old(c[x])
  {
    hide At, E;
    AtFacts(i, j, M);
    c[At(i, j, M)] := 0;
    var k: nat := 0;
    ghost var f := k => E(p, i, k) * E(q, k, j);
    while k < M
      invariant 0 <= k <= M && c[At(i, j, M)] == Sum(k, f) % WORD && Holds(a, p, M) && Holds(b, q, M)
      invariant forall x :: 0 <= x < c.Length && x != At(i, j, M) ==> c[x] == old(c[x])
    {
      AtFacts(i, k, M);
      AtFacts(k, j, M);
      WordStep(Sum(k, f), E(p, i, k), E(q, k, j));
      c[At(i, j, M)] := (c[At(i, j, M)] + a[At(i, k, M)] * b[At(k, j, M)]) % WORD;
      k := k + 1;
    }
    SumEqual(M, f, k => E(p, i, k) * E(q, k, j));
  }

  /** `assign`. */
  method Assign(a: array<nat>, b: array<nat>, M: nat, ghost p: Matrix)
    requires a != b && a.Length == M * M && Holds(b, p, M)
    modifies a
    ensures Holds(a, p, M)
  {
    hide At, E;
    var i: nat := 0;
    while i < M
      invariant 0 <= i <= M && Holds(b, p, M)
      invariant forall r: nat, s: nat {:trigger At(r, s, M)} :: r < i && s < M ==>
                  At(r, s, M) < a.Length && a[At(r, s, M)] == E(p, r, s) % WORD
    {
      var j: nat := 0;
      while j < M
        invariant 0 <= j <= M && Holds(b, p, M)
        invariant forall r: nat, s: nat {:trigger At(r, s, M)} :: (r < i || (r == i && s < j)) && r < M && s < M ==>
                    At(r, s, M) < a.Length && a[At(r, s, M)] == E(p, r, s) % WORD
      {
        AtFacts(i, j, M);
        forall r: nat, s: nat {:trigger At(r, s, M)} | r < M && s < M
          ensures At(r, s, M) == At(i, j, M) <==> r == i && s == j
        {
          AtDistinct(r, s, i, j, M);
        }
        a[At(i, j, M)] := b[At(i, j, M)];
        j := j + 1;
      }
      i := i + 1;
    }
  }

  /** The two starting matrices, as `bench_fib_run` fills them in. */
  method Fill(T: array<nat>, ans: array<nat>, M: nat)
    requires T != ans && T.Length == M * M && ans.Length == M * M
    modifies T, ans
    ensures Holds(T, Companion(M), M) && Holds(ans, Unit(M), M)
  {
    hide At;
    var i: nat := 0;
    while i < M
      invariant 0 <= i <= M
      invariant forall r: nat, s: nat {:trigger At(r, s, M)} :: r < i && s < M ==>
                  At(r, s, M) < M * M && T[At(r, s, M)] == E(Companion(M), r, s) && ans[At(r, s, M)] == E(Unit(M), r, s)
    {
      var j: nat := 0;
      while j < M
        invariant 0 <= j <= M
        invariant forall r: nat, s: nat {:trigger At(r, s, M)} :: (r < i || (r == i && s < j)) && r < M && s < M ==>
                    At(r, s, M) < M * M && T[At(r, s, M)] == E(Companion(M), r, s) && ans[At(r, s, M)] == E(Unit(M), r, s)
      {
        AtFacts(i, j, M);
        forall r: nat, s: nat {:trigger At(r, s, M)} | r < M && s < M
          ensures At(r, s, M) == At(i, j, M) <==> r == i && s == j
        {
          AtDistinct(r, s, i, j, M);
        }
        T[At(i, j, M)] := if i == M - 1 || j == i + 1 then 1 else 0;
        ans[At(i, j, M)] := if i == j then 1 else 0;
        j := j + 1;
      }
      i := i + 1;
    }
    forall r: nat, s: nat {:trigger At(r, s, M)} | r < M && s < M
      ensures E(Companion(M), r, s) % WORD == E(Companion(M), r, s) && E(Unit(M), r, s) % WORD == E(Unit(M), r, s)
    {
    }
  }

  /** `mult` into the scratch table and `assign` from it. */
  method Replace(c: array<nat>, tmp: array<nat>, a: array<nat>, b: array<nat>, M: nat, ghost p: Matrix, ghost q: Matrix)
    requires tmp != a && tmp != b && tmp != c && c.Length == M * M && tmp.Length == M * M
    requires Holds(a, p, M) && Holds(b, q, M)
    modifies c, tmp
    ensures Holds(c, Times(p, q, M), M)
  {
    hide *;
    Mult(tmp, a, b, M, p, q);
    Assign(c, tmp, M, Times(p, q, M));
  }

  /** `bench_fib_run`, for any exponent: the last entry is `F`, cut to a word. */
  method Run(N: nat, M: nat) returns (ans: array<nat>)
    requires 0 < M
    ensures Holds(ans, Power(Companion(M), N, M), M)
    ensures ans.Length == M * M && ans[M * M - 1] == F(N, M) % WORD
  {
    hide At, E, Times, Companion, Unit, Power;
    ghost var A := Companion(M);
    ans := new nat[M * M];
    var T := new nat[M * M];
    var tmp := new nat[M * M];
    Fill(T, ans, M);
    Start(M);
    ghost var a, t: nat := 0, 1;
    var n := N;
    while n > 0
      invariant 0 <= n && a + t * n == N && t > 0 && T != ans && T != tmp && ans != tmp && tmp.Length == M * M
      invariant fresh(T) && fresh(ans) && fresh(tmp)
      invariant Holds(ans, Power(A, a, M), M) && Holds(T, Power(A, t, M), M)
    {
      var h := n / 2;
      Doubled(t, n);
      if n % 2 == 1 {
        Replace(ans, tmp, ans, T, M, Power(A, a, M), Power(A, t, M));
        PowerAdd(A, a, t, M);
        a := a + t;
      }
      Replace(T, tmp, T, T, M, Power(A, t, M), Power(A, t, M));
      PowerAdd(A, t, t, M);
      t := t + t;
      n := h;
    }
    LastEntry(N, M);
    assert ans[At(M - 1, M - 1, M)] == F(N, M) % WORD;
  }

  lemma Start(M: nat)
    ensures Power(Companion(M), 0, M) == Unit(M) && Power(Companion(M), 1, M) == Companion(M)
  {
    PowerOne(Companion(M), M);
  }

  lemma Doubled(t: nat, n: nat)
    ensures t * n == (t + t) * (n / 2) + if n % 2 == 1 then t else 0
  {
    assert n == 2 * (n / 2) + n % 2;
    var h := n / 2;
    assert t * (2 * h) == (t + t) * h;
  }

  lemma LastEntry(N: nat, M: nat)
    requires 0 < M
    ensures At(M - 1, M - 1, M) == M * M - 1
    ensures F(N, M) == E(Power(Companion(M), N, M), M - 1, M - 1)
  {
  }
}
