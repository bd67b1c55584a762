/** Inversions of a list, and what exchanging two of its elements does to their number. */
module InversionParity {
  import opened Counting

  /** Elements of `s` that are greater than `x`. */
  function Greater(s: seq<int>, x: int): nat {
    if s == [] then 0 else Greater(s[..|s| - 1], x) + if s[|s| - 1] > x then 1 else 0
  }

  /** Pairs out of order. */
  function Inversions(s: seq<int>): nat {
    if s == [] then 0 else Inversions(s[..|s| - 1]) + Greater(s[..|s| - 1], s[|s| - 1])
  }

  function Exchange(s: seq<int>, i: nat, j: nat): seq<int>
    requires i < |s| && j < |s|
  {
    s[i := s[j]][j := s[i]]
  }

  predicate SameParity(a: nat, b: nat) { a % 2 == b % 2 }

  lemma GreaterNext(s: seq<int>, x: int)
    requires s != []
    ensures Greater(s, x) == Greater(s[..|s| - 1], x) + if s[|s| - 1] > x then 1 else 0
  {
  }

  /** Neighbours may be exchanged without changing how many elements are greater than `x`. */
  lemma {:induction false} GreaterExchange(s: seq<int>, k: nat, x: int)
    requires k + 1 < |s|
    ensures Greater(Exchange(s, k, k + 1), x) == Greater(s, x)
    decreases |s|
  {
    hide Greater;
    var t := Exchange(s, k, k + 1);
    var n := |s| - 1;
    GreaterNext(s, x);
    GreaterNext(t, x);
    if k + 1 < n {
      assert t[..n] == Exchange(s[..n], k, k + 1);
      GreaterExchange(s[..n], k, x);
    } else {
      GreaterNext(s[..n], x);
      GreaterNext(t[..n], x);
      assert s[..n][..n - 1] == s[..n - 1] && t[..n][..n - 1] == s[..n - 1];
    }
  }

  lemma InversionsNext(s: seq<int>)
    requires s != []
    ensures Inversions(s) == Inversions(s[..|s| - 1]) + Greater(s[..|s| - 1], s[|s| - 1])
  {
  }

  /** Exchanging different neighbours adds or removes one inversion. */
  lemma {:induction false} NeighboursFlip(s: seq<int>, k: nat)
    requires k + 1 < |s| && s[k] != s[k + 1]
    ensures !SameParity(Inversions(Exchange(s, k, k + 1)), Inversions(s))
    decreases |s|
  {
    hide Greater, Inversions;
    var t := Exchange(s, k, k + 1);
    var n := |s| - 1;
    InversionsNext(s);
    InversionsNext(t);
    if k + 1 < n {
      assert t[..n] == Exchange(s[..n], k, k + 1);
      NeighboursFlip(s[..n], k);
      GreaterExchange(s[..n], k, s[n]);
    } else {
      var pre := s[..n - 1];
      InversionsNext(s[..n]);
      InversionsNext(t[..n]);
      GreaterNext(s[..n], s[n]);
      GreaterNext(t[..n], t[n]);
      assert s[..n][..n - 1] == pre && t[..n][..n - 1] == pre;
    }
  }

  lemma DistinctExchange(s: seq<int>, i: nat, j: nat)
    requires i < |s| && j < |s| && Distinct(s)
    ensures Distinct(Exchange(s, i, j))
  {
    var t := Exchange(s, i, j);
    forall a, b | 0 <= a < b < |t|
      ensures t[a] != t[b]
    {
      var a', b' := if a == i then j else if a == j then i else a, if b == i then j else if b == j then i else b;
      assert t[a] == s[a'] && t[b] == s[b'] && a' != b';
    }
  }

  /** Exchanging any two elements of a list without repetitions changes the parity of its inversions. */
  lemma {:induction false} ExchangeFlips(s: seq<int>, i: nat, j: nat)
    requires i < j < |s| && Distinct(s)
    ensures !SameParity(Inversions(Exchange(s, i, j)), Inversions(s))
    decreases j - i
  {
    hide Inversions;
    if j == i + 1 {
      NeighboursFlip(s, i);
    } else {
      var a := Exchange(s, i, i + 1);
      var b := Exchange(a, i + 1, j);
      DistinctExchange(s, i, i + 1);
      DistinctExchange(a, i + 1, j);
      NeighboursFlip(s, i);
      ExchangeFlips(a, i + 1, j);
      NeighboursFlip(b, i);
      assert Exchange(b, i, i + 1) == Exchange(s, i, j);
    }
  }

  lemma {:induction false} SortedHasNone(s: seq<int>)
    requires forall i, j :: 0 <= i < j < |s| ==> s[i] < s[j]
    ensures Inversions(s) == 0
    decreases |s|
  {
    if s != [] {
      SortedHasNone(s[..|s| - 1]);
      NoneGreater(s[..|s| - 1], s[|s| - 1]);
    }
  }

  lemma {:induction false} NoneGreater(s: seq<int>, x: int)
    requires forall i :: 0 <= i < |s| ==> s[i] <= x
    ensures Greater(s, x) == 0
    decreases |s|
  {
    if s != [] {
      NoneGreater(s[..|s| - 1], x);
    }
  }

  /** The nested loops that count pairs from the front count the same pairs. */
  function LaterSmaller(s: seq<int>, i: nat, n: nat): nat
    requires i < |s| && n <= |s|
    decreases n
  {
    if n <= i + 1 then 0 else LaterSmaller(s, i, n - 1) + if s[i] > s[n - 1] then 1 else 0
  }

  function PairsFrom(s: seq<int>, m: nat, n: nat): nat
    requires m <= |s| && n <= |s|
    decreases m
  {
    if m == 0 then 0 else PairsFrom(s, m - 1, n) + LaterSmaller(s, m - 1, n)
  }

  /** Counting by the later element or by the earlier one. */
  lemma {:induction false} PairsAreInversions(s: seq<int>, n: nat)
    requires n <= |s|
    ensures PairsFrom(s, |s|, n) == Inversions(s[..n])
    decreases n
  {
    if n == 0 {
      NoPairs(s, |s|, 0);
      assert s[..0] == [];
    } else {
      PairsAreInversions(s, n - 1);
      LastColumn(s, |s|, n);
      assert s[..n][..n - 1] == s[..n - 1];
      InversionsNext(s[..n]);
    }
  }

  lemma {:induction false} NoPairs(s: seq<int>, m: nat, n: nat)
    requires m <= |s| && n <= |s| && n == 0
    ensures PairsFrom(s, m, n) == 0
    decreases m
  {
    if m > 0 {
      NoPairs(s, m - 1, n);
    }
  }

  lemma {:induction false} LastColumn(s: seq<int>, m: nat, n: nat)
    requires m <= |s| && 0 < n <= |s|
    ensures PairsFrom(s, m, n) == PairsFrom(s, m, n - 1) + Greater(s[..if m < n - 1 then m else n - 1], s[n - 1])
    decreases m
  {
    if m > 0 {
      LastColumn(s, m - 1, n);
      if m <= n - 1 {
        assert s[..m][..m - 1] == s[..m - 1];
        GreaterNext(s[..m], s[n - 1]);
      }
    } else {
      assert s[..0] == [];
    }
  }
}
