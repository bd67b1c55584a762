/**
  * The order of suffixes, and why the skew algorithm may compare three characters at a time, recurse on
  * a string two thirds as long, and merge by comparing ranks.
  */
module SuffixOrder {
  /** The text with zeros after its end. */
  function At(s: seq<int>, i: nat): int { if i < |s| then s[i] else 0 }

  predicate Positive(s: seq<int>) { forall i :: 0 <= i < |s| ==> 1 <= s[i] }

  /** The suffix at `i` comes before the suffix at `j`, lexicographically; a proper prefix comes first. */
  predicate SufLess(s: seq<int>, i: nat, j: nat)
    decreases if i < |s| then |s| - i else 0
  {
    if j >= |s| then false
    else if i >= |s| then true
    else s[i] < s[j] || (s[i] == s[j] && SufLess(s, i + 1, j + 1))
  }

  /** `sa` lists every position once, in the order of the suffixes. */
  predicate IsSuffixArray(s: seq<int>, sa: seq<int>) {
    && |sa| == |s|
    && (forall k :: 0 <= k < |sa| ==> 0 <= sa[k] < |s|)
    && (forall p :: 0 <= p < |s| ==> p in sa)
    && (forall i, j :: 0 <= i < j < |sa| ==> SufLess(s, sa[i], sa[j]))
  }

  /** The suffixes agree on `k` characters; then the first one ends, or has the smaller character. */
  predicate DifferAfter(s: seq<int>, i: nat, j: nat, k: nat) {
    i + k <= |s| && j + k < |s| && s[i..i + k] == s[j..j + k] && (i + k == |s| || s[i + k] < s[j + k])
  }

  /** The order is the lexicographic one: decided by the first difference. */
  lemma {:induction false} SufLessMeans(s: seq<int>, i: nat, j: nat)
    requires i <= |s| && j <= |s|
    ensures SufLess(s, i, j) <==> exists k: nat :: DifferAfter(s, i, j, k)
    decreases |s| - i
  {
    assert j < |s| && (i == |s| || s[i] < s[j]) ==> DifferAfter(s, i, j, 0);
    if i < |s| && j < |s| && s[i] == s[j] {
      SufLessMeans(s, i + 1, j + 1);
      if SufLess(s, i + 1, j + 1) {
        var k: nat :| DifferAfter(s, i + 1, j + 1, k);
        DifferLater(s, i, j, k);
      }
      forall k: nat | DifferAfter(s, i, j, k) ensures SufLess(s, i + 1, j + 1) {
        DifferLater(s, i, j, k - 1);
      }
    } else {
      forall k: nat | DifferAfter(s, i, j, k) ensures k == 0 {
        FirstAgrees(s, i, j, k);
      }
    }
  }

  lemma FirstAgrees(s: seq<int>, i: nat, j: nat, k: nat)
    requires DifferAfter(s, i, j, k)
    ensures k > 0 ==> i < |s| && j < |s| && s[i] == s[j]
  {
    if k > 0 {
      assert s[i] == s[i..i + k][0];
      assert s[j] == s[j..j + k][0];
    }
  }

  lemma DifferLater(s: seq<int>, i: nat, j: nat, k: nat)
    requires i < |s| && j < |s| && s[i] == s[j]
    ensures DifferAfter(s, i, j, k + 1) <==> DifferAfter(s, i + 1, j + 1, k)
  {
    if i + 1 + k <= |s| && j + 1 + k <= |s| {
      assert s[i..i + 1 + k] == [s[i]] + s[i + 1..i + 1 + k];
      assert s[j..j + 1 + k] == [s[j]] + s[j + 1..j + 1 + k];
      if s[i..i + 1 + k] == s[j..j + 1 + k] {
        assert s[i + 1..i + 1 + k] == s[i..i + 1 + k][1..] == s[j + 1..j + 1 + k];
      }
    }
  }

  // ---- a strict total order ----

  lemma {:induction false} Irreflexive(s: seq<int>, i: nat)
    ensures !SufLess(s, i, i)
    decreases |s| - i
  {
    if i < |s| {
      Irreflexive(s, i + 1);
    }
  }

  lemma {:induction false} Total(s: seq<int>, i: nat, j: nat)
    requires i != j && i <= |s| && j <= |s|
    ensures SufLess(s, i, j) || SufLess(s, j, i)
    decreases |s| - i
  {
    if i < |s| && j < |s| {
      Total(s, i + 1, j + 1);
    }
  }

  lemma {:induction false} Transitive(s: seq<int>, i: nat, j: nat, k: nat)
    requires SufLess(s, i, j) && SufLess(s, j, k)
    ensures SufLess(s, i, k)
    decreases if i < |s| then |s| - i else 0
  {
    if i < |s| && s[i] == s[j] && s[j] == s[k] {
      Transitive(s, i + 1, j + 1, k + 1);
    }
  }

  lemma Asymmetric(s: seq<int>, i: nat, j: nat)
    ensures !(SufLess(s, i, j) && SufLess(s, j, i))
  {
    if SufLess(s, i, j) && SufLess(s, j, i) {
      Transitive(s, i, j, i);
      Irreflexive(s, i);
    }
  }

  predicate StrictlySorted(s: seq<int>, a: seq<int>) {
    && (forall k :: 0 <= k < |a| ==> 0 <= a[k])
    && (forall i, j :: 0 <= i < j < |a| ==> SufLess(s, a[i], a[j]))
  }

  /** Two strictly sorted lists of the same positions are the same list. */
  lemma {:induction false} SortedListsAgree(s: seq<int>, a: seq<int>, b: seq<int>)
    requires StrictlySorted(s, a) && StrictlySorted(s, b) && |a| == |b|
    requires forall k :: 0 <= k < |a| ==> a[k] in b
    requires forall k :: 0 <= k < |b| ==> b[k] in a
    ensures a == b
  {
    hide SufLess;
    if a != [] {
      var i :| 0 <= i < |b| && b[i] == a[0];
      var j :| 0 <= j < |a| && a[j] == b[0];
      if i > 0 && j > 0 {
        Asymmetric(s, a[0], b[0]);
      }
      assert a[0] == b[0];
      forall k | 0 <= k < |a[1..]| ensures a[1..][k] in b[1..] {
        TailElement(s, a, b, k + 1);
      }
      forall k | 0 <= k < |b[1..]| ensures b[1..][k] in a[1..] {
        TailElement(s, b, a, k + 1);
      }
      SortedListsAgree(s, a[1..], b[1..]);
    }
  }

  lemma TailElement(s: seq<int>, a: seq<int>, b: seq<int>, k: nat)
    requires StrictlySorted(s, a) && 0 < k < |a| && a[k] in b && b != [] && a[0] == b[0]
    ensures a[k] in b[1..]
  {
    Irreflexive(s, a[0]);
    var i :| 0 <= i < |b| && b[i] == a[k];
    assert i > 0 && b[1..][i - 1] == a[k];
  }

  /** A text has only one suffix array. */
  lemma SuffixArrayUnique(s: seq<int>, a: seq<int>, b: seq<int>)
    requires IsSuffixArray(s, a) && IsSuffixArray(s, b)
    ensures a == b
  {
    hide SufLess;
    SortedListsAgree(s, a, b);
  }

  // ---- three characters at a time ----

  predicate TripleLess(s: seq<int>, i: nat, j: nat) {
    || At(s, i) < At(s, j)
    || (At(s, i) == At(s, j) && (At(s, i + 1) < At(s, j + 1)
        || (At(s, i + 1) == At(s, j + 1) && At(s, i + 2) < At(s, j + 2))))
  }

  predicate TripleEq(s: seq<int>, i: nat, j: nat) {
    At(s, i) == At(s, j) && At(s, i + 1) == At(s, j + 1) && At(s, i + 2) == At(s, j + 2)
  }

  /** One character of a comparison, read through the zero padding. */
  lemma CharStep(s: seq<int>, i: nat, j: nat)
    requires Positive(s) && i != j && i <= |s| && j <= |s|
    ensures At(s, i) == At(s, j) ==> i < |s| && j < |s|
    ensures SufLess(s, i, j) <==> At(s, i) < At(s, j) || (At(s, i) == At(s, j) && SufLess(s, i + 1, j + 1))
  {
  }

  lemma TripleStep(s: seq<int>, i: nat, j: nat)
    requires Positive(s) && i != j && i <= |s| && j <= |s|
    ensures TripleEq(s, i, j) ==> i + 3 <= |s| && j + 3 <= |s|
    ensures SufLess(s, i, j) <==> TripleLess(s, i, j) || (TripleEq(s, i, j) && SufLess(s, i + 3, j + 3))
  {
    hide SufLess, Positive;
    CharStep(s, i, j);
    if At(s, i) == At(s, j) {
      CharStep(s, i + 1, j + 1);
      if At(s, i + 1) == At(s, j + 1) {
        CharStep(s, i + 2, j + 2);
      }
    }
  }

  // ---- the positions not divisible by three ----

  function N0(n: nat): nat { (n + 2) / 3 }
  function N1(n: nat): nat { (n + 1) / 3 }
  function N2(n: nat): nat { n / 3 }
  function N02(n: nat): nat { N0(n) + N2(n) }

  /** Index `u` of the reduced string stands for this position of the text: first the positions 1 mod 3
      (with `n` itself when n is 1 mod 3), then the positions 2 mod 3. */
  function Pos(n: nat, u: nat): nat { if u < N0(n) then 3 * u + 1 else 3 * (u - N0(n)) + 2 }

  function Index(n: nat, p: nat): nat { if p % 3 == 1 then p / 3 else p / 3 + N0(n) }

  lemma PosIndex(n: nat, u: nat)
    requires u < N02(n)
    ensures Pos(n, u) <= n && Pos(n, u) % 3 != 0 && Index(n, Pos(n, u)) == u
    ensures Pos(n, u) == n ==> n % 3 == 1 && u == N0(n) - 1
  {
  }

  lemma IndexPos(n: nat, p: nat)
    requires p % 3 != 0 && (p < n || (p == n && n % 3 == 1))
    ensures Index(n, p) < N02(n) && Pos(n, Index(n, p)) == p
  {
  }

  /** `names` orders the positions like their triples. */
  predicate NamesTriples(s: seq<int>, names: seq<int>) {
    && |names| == N02(|s|)
    && Positive(names)
    && (forall u, v :: 0 <= u < |names| && 0 <= v < |names| ==>
          (names[u] < names[v] <==> TripleLess(s, Pos(|s|, u), Pos(|s|, v))))
  }

  lemma NamesEqual(s: seq<int>, names: seq<int>, u: nat, v: nat)
    requires NamesTriples(s, names) && u < |names| && v < |names|
    ensures names[u] == names[v] <==> TripleEq(s, Pos(|s|, u), Pos(|s|, v))
  {
    hide Pos, At, N02, Positive;
    assert names[u] < names[v] <==> TripleLess(s, Pos(|s|, u), Pos(|s|, v));
    assert names[v] < names[u] <==> TripleLess(s, Pos(|s|, v), Pos(|s|, u));
  }

  /** Moving on by a whole triple without meeting the end stays inside one half of the reduced string. */
  lemma NextPos(n: nat, u: nat)
    requires u < N02(n) && Pos(n, u) + 3 <= n
    ensures u + 1 < N02(n) ==> Pos(n, u + 1) == Pos(n, u) + 3
    ensures u + 1 == N02(n) ==> Pos(n, u) + 3 == n
  {
  }

  /** The reduced string orders its suffixes as the text orders the suffixes they stand for. */
  lemma {:induction false} ReducedOrder(s: seq<int>, names: seq<int>, u: nat, v: nat)
    requires Positive(s) && NamesTriples(s, names)
    requires u < |names| && v < |names| && u != v
    ensures SufLess(names, u, v) <==> SufLess(s, Pos(|s|, u), Pos(|s|, v))
    decreases |names| - u
  {
    var n := |s|;
    var p, q := Pos(n, u), Pos(n, v);
    PosIndex(n, u);
    PosIndex(n, v);
    TripleStep(s, p, q);
    NamesEqual(s, names, u, v);
    if names[u] == names[v] {
      NextPos(n, u);
      NextPos(n, v);
      if u + 1 < |names| && v + 1 < |names| {
        ReducedOrder(s, names, u + 1, v + 1);
      }
    }
    hide Pos, At, N02, Positive, TripleLess, TripleEq;
  }

  // ---- ranks, and the comparisons of the merge ----

  /** `rank` numbers the positions not divisible by three in the order of their suffixes. */
  predicate Ranks(s: seq<int>, rank: seq<int>) {
    && |rank| == N02(|s|)
    && Positive(rank)
    && (forall u, v :: 0 <= u < |rank| && 0 <= v < |rank| ==>
          (rank[u] < rank[v] <==> SufLess(s, Pos(|s|, u), Pos(|s|, v))))
  }

  // lexicographic order of pairs and of triples
  predicate Leq2(a1: int, a2: int, b1: int, b2: int) { a1 < b1 || (a1 == b1 && a2 <= b2) }

  predicate Leq3(a1: int, a2: int, a3: int, b1: int, b2: int, b3: int) {
    a1 < b1 || (a1 == b1 && Leq2(a2, a3, b2, b3))
  }

  lemma RankLeq(s: seq<int>, rank: seq<int>, u: nat, v: nat)
    requires Positive(s) && Ranks(s, rank) && u < |rank| && v < |rank| && u != v
    ensures rank[u] <= rank[v] <==> SufLess(s, Pos(|s|, u), Pos(|s|, v))
  {
    PosIndex(|s|, u);
    PosIndex(|s|, v);
    Total(s, Pos(|s|, u), Pos(|s|, v));
    Asymmetric(s, Pos(|s|, u), Pos(|s|, v));
  }

  /** A suffix at 1 mod 3 against one at 0 mod 3: first character, then ranks. */
  lemma MergeCompare1(s: seq<int>, rank: seq<int>, u: nat, j: nat)
    requires Positive(s) && Ranks(s, rank) && u < N0(|s|) && j % 3 == 0 && j < |s| && Pos(|s|, u) < |s|
    ensures var i := Pos(|s|, u);
            Leq2(At(s, i), At(rank, u + N0(|s|)), At(s, j), At(rank, j / 3)) <==> SufLess(s, i, j)
  {
    var n, i := |s|, Pos(|s|, u);
    CharStep(s, i, j);
    assert Pos(n, j / 3) == j + 1;
    if At(s, i) == At(s, j) {
      if u + N0(n) < N02(n) {
        assert Pos(n, u + N0(n)) == i + 1;
        RankLeq(s, rank, u + N0(n), j / 3);
      } else {
        assert i + 1 == n;
      }
    }
  }

  /** A suffix at 2 mod 3 against one at 0 mod 3: two characters, then ranks. */
  lemma MergeCompare2(s: seq<int>, rank: seq<int>, u: nat, j: nat)
    requires Positive(s) && Ranks(s, rank) && N0(|s|) <= u < N02(|s|) && j % 3 == 0 && j < |s|
    ensures var i := Pos(|s|, u);
            Leq3(At(s, i), At(s, i + 1), At(rank, u - N0(|s|) + 1), At(s, j), At(s, j + 1), At(rank, j / 3 + N0(|s|)))
            <==> SufLess(s, i, j)
  {
    var n, i := |s|, Pos(|s|, u);
    CharStep(s, i, j);
    if At(s, i) == At(s, j) {
      CharStep(s, i + 1, j + 1);
      if At(s, i + 1) == At(s, j + 1) {
        assert Pos(n, u - N0(n) + 1) == i + 2;
        if j / 3 + N0(n) < N02(n) {
          assert Pos(n, j / 3 + N0(n)) == j + 2;
          RankLeq(s, rank, u - N0(n) + 1, j / 3 + N0(n));
        } else {
          assert j + 2 == n;
        }
      }
    }
  }

  // ---- merging two sorted lists of positions ----

  function Merge(s: seq<int>, a: seq<nat>, b: seq<nat>): seq<nat> {
    if a == [] then b
    else if b == [] then a
    else if SufLess(s, a[0], b[0]) then [a[0]] + Merge(s, a[1..], b)
    else [b[0]] + Merge(s, a, b[1..])
  }

  predicate Sorted(s: seq<int>, a: seq<nat>) { forall i, j :: 0 <= i < j < |a| ==> SufLess(s, a[i], a[j]) }

  lemma {:induction false} MergeMembers(s: seq<int>, a: seq<nat>, b: seq<nat>)
    ensures |Merge(s, a, b)| == |a| + |b|
    ensures forall x :: x in Merge(s, a, b) <==> x in a || x in b
  {
    if a != [] && b != [] {
      if SufLess(s, a[0], b[0]) {
        MergeMembers(s, a[1..], b);
        assert a == [a[0]] + a[1..];
      } else {
        MergeMembers(s, a, b[1..]);
        assert b == [b[0]] + b[1..];
      }
    }
  }

  lemma {:induction false} MergeSorted(s: seq<int>, a: seq<nat>, b: seq<nat>)
    requires Sorted(s, a) && Sorted(s, b)
    requires forall i, j :: 0 <= i < |a| && 0 <= j < |b| ==> a[i] != b[j] && a[i] <= |s| && b[j] <= |s|
    ensures Sorted(s, Merge(s, a, b))
  {
    if a != [] && b != [] {
      if SufLess(s, a[0], b[0]) {
        MergeSorted(s, a[1..], b);
        MergeMembers(s, a[1..], b);
        HeadFirst(s, a, b);
      } else {
        Total(s, a[0], b[0]);
        MergeSorted(s, a, b[1..]);
        MergeMembers(s, a, b[1..]);
        HeadFirst(s, b, a);
      }
    }
  }

  /** The smaller head comes before everything that is left. */
  lemma HeadFirst(s: seq<int>, a: seq<nat>, b: seq<nat>)
    requires Sorted(s, a) && Sorted(s, b) && a != [] && b != [] && SufLess(s, a[0], b[0])
    ensures forall x :: x in a[1..] || x in b ==> SufLess(s, a[0], x)
  {
    forall x | x in a[1..] || x in b ensures SufLess(s, a[0], x) {
      if x in a[1..] {
        var i :| 0 <= i < |a[1..]| && a[1..][i] == x;
        assert a[i + 1] == x;
      } else {
        var i :| 0 <= i < |b| && b[i] == x;
        if i > 0 {
          Transitive(s, a[0], b[0], b[i]);
        }
      }
    }
  }
}
