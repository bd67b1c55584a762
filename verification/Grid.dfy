/** Square tables stored row by row. */
module Grid {
  import opened Powers

  /** The place of row `i`, column `j` in a table with rows of `N`. */
  function At(i: nat, j: nat, N: nat): nat { i * N + j }

  lemma AtFacts(i: nat, j: nat, N: nat)
    requires i < N && j < N
    ensures At(i, j, N) < N * N && At(i, j, N) / N == i && At(i, j, N) % N == j
  {
    Grows(i + 1, N, N);
    Succ(i, N);
    RemainderIs(At(i, j, N), N, i, j);
  }

  lemma RowStart(i: nat, j: nat, N: nat)
    ensures At(i, j, N) == At(i, 0, N) + j && At(i, N, N) == At(i + 1, 0, N)
    ensures i <= N ==> At(i, 0, N) <= N * N
    ensures At(0, 0, N) == 0 && At(N, 0, N) == N * N
  {
    Succ(i, N);
    if i <= N {
      Grows(i, N, N);
    }
  }

  /** Different cells have different places. */
  lemma AtDistinct(i: nat, j: nat, i': nat, j': nat, N: nat)
    requires i < N && j < N && i' < N && j' < N
    ensures At(i, j, N) == At(i', j', N) <==> i == i' && j == j'
  {
    AtFacts(i, j, N);
    AtFacts(i', j', N);
    hide At;
  }

  /** Every place is in a row and a column. */
  lemma CellOf(x: nat, N: nat)
    requires N > 0 && x < N * N
    ensures x / N < N && x % N < N && x == At(x / N, x % N, N)
  {
    DivMod(x, N);
    if x / N >= N {
      Grows(N, x / N, N);
    }
  }
}
