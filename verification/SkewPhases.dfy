/** The facts each phase of the skew algorithm hands to the next one. */
module SkewPhases {
  import opened RadixSort
  import opened SuffixOrder
  import opened Counting

  // ---- the positions not divisible by three ----

  function Sampled(m: nat): seq<int> {
    if m == 0 then [] else Sampled(m - 1) + if (m - 1) % 3 != 0 then [m - 1] else []
  }

  function Smaller(): (int, int) -> bool { (x, y) => x < y }

  predicate Increasing(a: seq<int>) { Ordered(a, Smaller()) }

  lemma {:induction false} SampledFacts(m: nat)
    ensures |Sampled(m)| == m - (m + 2) / 3
    ensures forall x :: x in Sampled(m) <==> 0 <= x < m && x % 3 != 0
    ensures Increasing(Sampled(m))
  {
    if m > 0 {
      SampledFacts(m - 1);
      var front := Sampled(m - 1);
      forall i | 0 <= i < |front| ensures front[i] < m - 1 {
        assert front[i] in front;
      }
    }
  }

  /** How many indices run through the sampling loop. */
  function Span(n: nat): nat { n + (N0(n) - N1(n)) }

  lemma SampledSpan(n: nat)
    ensures |Sampled(Span(n))| == N02(n)
    ensures forall u: nat :: u < N02(n) ==> Pos(n, u) in Sampled(Span(n))
    ensures forall x :: x in Sampled(Span(n)) ==> 0 <= x <= n && x % 3 != 0 && (x == n ==> n % 3 == 1)
  {
    SampledFacts(Span(n));
    forall u: nat | u < N02(n) ensures Pos(n, u) in Sampled(Span(n)) {
      PosIndex(n, u);
    }
  }

  // ---- the radix sort of the triples ----

  /** `q` lists the sampled positions by their triples, equal triples by position. */
  predicate TriplesSorted(s: seq<int>, q: seq<int>) {
    && |q| == N02(|s|)
    && (forall k :: 0 <= k < |q| ==> 0 <= q[k] <= |s| && q[k] % 3 != 0 && (q[k] == |s| ==> |s| % 3 == 1))
    && (forall u: nat :: u < |q| ==> Pos(|s|, u) in q)
    && (forall k, l :: 0 <= k < l < |q| ==>
          TripleLess(s, q[k], q[l]) || (TripleEq(s, q[k], q[l]) && q[k] < q[l]))
  }

  predicate InRange(a: seq<int>, n: nat) { forall i :: 0 <= i < |a| ==> 0 <= a[i] <= n }

  lemma SameElementsInRange(a: seq<int>, b: seq<int>, n: nat)
    requires SameElements(a, b) && InRange(b, n)
    ensures InRange(a, n)
  {
    forall i | 0 <= i < |a| ensures 0 <= a[i] <= n {
      assert a[i] in a;
      var k :| 0 <= k < |b| && b[k] == a[i];
    }
  }

  ghost predicate SameElements(a: seq<int>, b: seq<int>) { |a| == |b| && forall x :: x in a <==> x in b }

  /** One radix pass by the character `d` places on. */
  lemma OnePass(s: seq<int>, p: seq<int>, a: seq<int>, r: seq<int>, d: nat, K: nat, lt: (int, int) -> bool)
    requires forall x :: x in p ==> 0 <= x <= |s|
    requires SameElements(a, p) && Ordered(a, lt)
    requires forall x: nat :: x <= |s| ==> Key(r, x) == At(s, x + d)
    requires forall i: nat :: 0 <= At(s, i) <= K
    ensures KeysBelow(a, r, K + 1)
    ensures SameElements(StableSort(a, r, K), p) && Ordered(StableSort(a, r, K), ByKeyThen(r, lt))
  {
    hide At;
    forall i | 0 <= i < |a| ensures 0 <= Key(r, a[i]) < K + 1 {
      var x := a[i];
      assert x in a && x in p;
      assert 0 <= At(s, x + d) <= K;
    }
    StableSortSize(a, r, K);
    StableSortOrdered(a, r, K, lt);
    hide StableSort;
  }

  /** Three stable passes, from the last character of the triple to the first. */
  lemma ThreePasses(s: seq<int>, r0: seq<int>, r1: seq<int>, r2: seq<int>, K: nat)
    requires forall x: nat :: x <= |s| ==> Key(r0, x) == At(s, x) && Key(r1, x) == At(s, x + 1) && Key(r2, x) == At(s, x + 2)
    requires forall i: nat :: 0 <= At(s, i) <= K
    ensures var p := Sampled(Span(|s|));
            && InRange(p, |s|) && InRange(StableSort(p, r2, K), |s|)
            && InRange(StableSort(StableSort(p, r2, K), r1, K), |s|)
            && TriplesSorted(s, StableSort(StableSort(StableSort(p, r2, K), r1, K), r0, K))
  {
    hide StableSort, Sampled, Span, At, KeysBelow, Key, ByKeyThen, TripleLess, TripleEq, Smaller, N02, Pos;
    var p := Sampled(Span(|s|));
    var lt := Smaller();
    SampledSpan(|s|);
    SampledFacts(Span(|s|));
    OnePass(s, p, p, r2, 2, K, lt);
    var q2 := StableSort(p, r2, K);
    forall i | 0 <= i < |p| ensures 0 <= p[i] <= |s| { assert p[i] in p; }
    SameElementsInRange(q2, p, |s|);
    OnePass(s, p, q2, r1, 1, K, ByKeyThen(r2, lt));
    var q1 := StableSort(q2, r1, K);
    SameElementsInRange(q1, p, |s|);
    OnePass(s, p, q1, r0, 0, K, ByKeyThen(r1, ByKeyThen(r2, lt)));
    var q0 := StableSort(q1, r0, K);
    forall k | 0 <= k < |q0|
      ensures 0 <= q0[k] <= |s| && q0[k] % 3 != 0 && (q0[k] == |s| ==> |s| % 3 == 1)
    {
      assert q0[k] in q0;
    }
    forall k, l | 0 <= k < l < |q0|
      ensures TripleLess(s, q0[k], q0[l]) || (TripleEq(s, q0[k], q0[l]) && q0[k] < q0[l])
    {
      ByTripleKeys(s, r0, r1, r2, q0[k], q0[l]);
    }
  }

  lemma ByTripleKeys(s: seq<int>, r0: seq<int>, r1: seq<int>, r2: seq<int>, x: nat, y: nat)
    requires Key(r0, x) == At(s, x) && Key(r1, x) == At(s, x + 1) && Key(r2, x) == At(s, x + 2)
    requires Key(r0, y) == At(s, y) && Key(r1, y) == At(s, y + 1) && Key(r2, y) == At(s, y + 2)
    requires ByKeyThen(r0, ByKeyThen(r1, ByKeyThen(r2, Smaller())))(x, y)
    ensures TripleLess(s, x, y) || (TripleEq(s, x, y) && x < y)
  {
  }

  // ---- naming ----

  /** The name of the k-th triple in sorted order: one more at each change. */
  function Name(s: seq<int>, q: seq<int>, k: nat): nat
    requires k < |q| && forall i :: 0 <= i < |q| ==> 0 <= q[i]
  {
    if k == 0 then 1 else Name(s, q, k - 1) + if TripleEq(s, q[k - 1], q[k]) then 0 else 1
  }

  lemma {:induction false} NameOrder(s: seq<int>, q: seq<int>, k: nat, l: nat)
    requires TriplesSorted(s, q) && k < l < |q|
    ensures Name(s, q, k) <= Name(s, q, l)
    ensures Name(s, q, k) < Name(s, q, l) <==> TripleLess(s, q[k], q[l])
    decreases l
  {
    hide At, N02;
    if k < l - 1 {
      NameOrder(s, q, k, l - 1);
    }
  }

  lemma {:induction false} NameBound(s: seq<int>, q: seq<int>, k: nat)
    requires k < |q| && forall i :: 0 <= i < |q| ==> 0 <= q[i]
    ensures 1 <= Name(s, q, k) <= k + 1
    ensures Name(s, q, k) == k + 1 && k > 0 ==> Name(s, q, k - 1) == k
  {
    if k > 0 {
      NameBound(s, q, k - 1);
    }
  }

  /** `names` gives every sampled position, at its index, the name of its triple. */
  predicate Named(s: seq<int>, q: seq<int>, names: seq<int>)
    requires TriplesSorted(s, q)
  {
    && |names| == |q|
    && (forall k :: 0 <= k < |q| ==> Index(|s|, q[k]) < |q| && names[Index(|s|, q[k])] == Name(s, q, k))
  }

  /** The sorted place of the position that index `u` stands for. */
  lemma PlaceOf(s: seq<int>, q: seq<int>, u: nat) returns (k: nat)
    requires TriplesSorted(s, q) && u < |q|
    ensures k < |q| && q[k] == Pos(|s|, u) && Index(|s|, q[k]) == u
  {
    hide At;
    assert Pos(|s|, u) in q;
    k :| k < |q| && q[k] == Pos(|s|, u);
    PosIndex(|s|, u);
  }

  lemma NamesOrderTriples(s: seq<int>, q: seq<int>, names: seq<int>)
    requires TriplesSorted(s, q) && Named(s, q, names)
    ensures NamesTriples(s, names)
    ensures forall u :: 0 <= u < |names| ==> names[u] <= Name(s, q, |q| - 1)
  {
    hide At, Name, N02, TripleLess, TripleEq;
    forall u: nat | u < |names| ensures 1 <= names[u] <= Name(s, q, |q| - 1) {
      var k := PlaceOf(s, q, u);
      NameBound(s, q, k);
      if k < |q| - 1 {
        NameOrder(s, q, k, |q| - 1);
      }
    }
    forall u: nat, v: nat | u < |names| && v < |names|
      ensures names[u] < names[v] <==> TripleLess(s, Pos(|s|, u), Pos(|s|, v))
    {
      var k := PlaceOf(s, q, u);
      var l := PlaceOf(s, q, v);
      NamesCompare(s, q, k, l);
    }
  }

  lemma NamesCompare(s: seq<int>, q: seq<int>, k: nat, l: nat)
    requires TriplesSorted(s, q) && k < |q| && l < |q|
    ensures Name(s, q, k) < Name(s, q, l) <==> TripleLess(s, q[k], q[l])
  {
    hide Name, At, N02;
    TripleTrichotomy(s, q[k], q[l]);
    if k < l {
      NameOrder(s, q, k, l);
    } else if l < k {
      NameOrder(s, q, l, k);
    }
  }

  lemma TripleTrichotomy(s: seq<int>, i: nat, j: nat)
    ensures !(TripleLess(s, i, j) && TripleLess(s, j, i))
    ensures TripleEq(s, i, j) ==> !TripleLess(s, i, j) && !TripleLess(s, j, i)
    ensures TripleLess(s, i, j) || TripleLess(s, j, i) || TripleEq(s, i, j)
  {
    hide At;
  }

  /** When all names differ, the k-th triple has name k + 1. */
  lemma {:induction false} UniqueNames(s: seq<int>, q: seq<int>, k: nat, m: nat)
    requires m < |q| && k <= m && forall i :: 0 <= i < |q| ==> 0 <= q[i]
    requires Name(s, q, m) == m + 1
    ensures Name(s, q, k) == k + 1
    decreases m
  {
    hide Name;
    if k < m {
      NameBound(s, q, m);
      UniqueNames(s, q, k, m - 1);
    }
  }

  // ---- from names to ranks ----

  lemma UniqueNamePlaces(s: seq<int>, q: seq<int>, names: seq<int>, sa: seq<int>, k: nat)
    requires TriplesSorted(s, q) && Named(s, q, names) && |q| > 0
    requires Name(s, q, |q| - 1) == |q|
    requires |sa| == |names|
    requires forall i :: 0 <= i < |names| && 1 <= names[i] <= |names| ==> sa[names[i] - 1] == i
    requires k < |sa|
    ensures 0 <= sa[k] < |sa| && names[sa[k]] == k + 1
  {
    hide Name, At, N02;
    UniqueNames(s, q, k, |q| - 1);
    assert names[Index(|s|, q[k])] == k + 1;
  }

  /** Distinct names 1, 2, ... listed in order are a suffix array: the first character decides. */
  lemma InverseIsSuffixArray(names: seq<int>, sa: seq<int>)
    requires |sa| == |names|
    requires forall k :: 0 <= k < |sa| ==> 0 <= sa[k] < |sa| && names[sa[k]] == k + 1
    requires forall p :: 0 <= p < |names| ==> p in sa
    ensures IsSuffixArray(names, sa)
  {
    forall i, j | 0 <= i < j < |sa| ensures SufLess(names, sa[i], sa[j]) {
      assert names[sa[i]] < names[sa[j]];
    }
  }

  /** With unique names, inverting the names gives the suffix array of the reduced string. */
  lemma DirectSuffixArray(s: seq<int>, q: seq<int>, names: seq<int>, sa: seq<int>)
    requires TriplesSorted(s, q) && Named(s, q, names) && |q| > 0
    requires Name(s, q, |q| - 1) == |q|
    requires |sa| == |names|
    requires forall i :: 0 <= i < |names| && 1 <= names[i] <= |names| ==> sa[names[i] - 1] == i
    ensures IsSuffixArray(names, sa) && forall k :: 0 <= k < |sa| ==> names[sa[k]] == k + 1
  {
    hide Name, At, N02, NamesTriples;
    NamesOrderTriples(s, q, names);
    NamesInRange(s, q, names);
    forall k: nat | k < |sa| ensures 0 <= sa[k] < |sa| && names[sa[k]] == k + 1 {
      UniqueNamePlaces(s, q, names, sa, k);
    }
    hide TriplesSorted, Named, IsSuffixArray;
    forall p | 0 <= p < |names| ensures p in sa {
      assert sa[names[p] - 1] == p;
    }
    InverseIsSuffixArray(names, sa);
  }

  lemma NamesInRange(s: seq<int>, q: seq<int>, names: seq<int>)
    requires TriplesSorted(s, q) && Named(s, q, names) && |q| > 0
    requires Name(s, q, |q| - 1) == |q|
    ensures forall p :: 0 <= p < |names| ==> 1 <= names[p] <= |names|
  {
    NamesOrderTriples(s, q, names);
  }

  lemma RanksFromSuffixArray(s: seq<int>, names: seq<int>, sa: seq<int>, rank: seq<int>)
    requires Positive(s) && NamesTriples(s, names) && IsSuffixArray(names, sa)
    requires |rank| == |names| && forall k :: 0 <= k < |sa| ==> rank[sa[k]] == k + 1
    ensures Ranks(s, rank)
  {
    hide N02, Pos;
    forall u | 0 <= u < |rank| ensures 1 <= rank[u] {
      assert u in sa;
      var k :| 0 <= k < |sa| && sa[k] == u;
    }
    forall u: nat, v: nat | u < |rank| && v < |rank|
      ensures rank[u] < rank[v] <==> SufLess(s, Pos(|s|, u), Pos(|s|, v))
    {
      assert u in sa && v in sa;
      var k :| 0 <= k < |sa| && sa[k] == u;
      var l :| 0 <= l < |sa| && sa[l] == v;
      if u == v {
        Irreflexive(s, Pos(|s|, u));
      } else {
        ReducedOrder(s, names, u, v);
        if l < k {
          Asymmetric(names, u, v);
        }
      }
    }
  }

  lemma SuffixArrayDistinct(s: seq<int>, sa: seq<int>, i: nat, j: nat)
    requires IsSuffixArray(s, sa) && i < j < |sa|
    ensures sa[i] != sa[j]
  {
    Irreflexive(s, sa[i]);
  }

  // ---- the suffixes at multiples of three ----

  /** Three times the elements below `m`, in order. */
  function Thirds(sa: seq<int>, m: nat): seq<int> {
    if sa == [] then []
    else
      var last := sa[|sa| - 1];
      Thirds(sa[..|sa| - 1], m) + if last < m then [3 * last] else []
  }

  lemma ThirdsNext(sa: seq<int>, m: nat, i: nat)
    requires i < |sa|
    ensures Thirds(sa[..i + 1], m) == Thirds(sa[..i], m) + if sa[i] < m then [3 * sa[i]] else []
  {
    assert sa[..i + 1][..i] == sa[..i];
  }

  lemma {:induction false} ThirdsContains(sa: seq<int>, m: nat, x: int)
    requires x in sa && x < m
    ensures 3 * x in Thirds(sa, m)
  {
    var front, last := sa[..|sa| - 1], sa[|sa| - 1];
    assert sa == front + [last];
    if x != last {
      ThirdsContains(front, m, x);
    }
  }

  lemma {:induction false} ThirdsComeFrom(sa: seq<int>, m: nat, i: nat)
    requires i < |Thirds(sa, m)|
    ensures var y := Thirds(sa, m)[i]; y % 3 == 0 && y / 3 in sa && y / 3 < m
  {
    var front, last := sa[..|sa| - 1], sa[|sa| - 1];
    assert sa == front + [last];
    if i < |Thirds(front, m)| {
      ThirdsComeFrom(front, m, i);
    }
  }

  lemma {:induction false} ThirdsOrdered(sa: seq<int>, m: nat, lt: (int, int) -> bool)
    requires forall i, j :: 0 <= i < j < |sa| && sa[i] < m && sa[j] < m ==> lt(3 * sa[i], 3 * sa[j])
    ensures Ordered(Thirds(sa, m), lt)
  {
    if sa != [] {
      var front, last := sa[..|sa| - 1], sa[|sa| - 1];
      ThirdsOrdered(front, m, lt);
      var low := Thirds(front, m);
      forall i | 0 <= i < |low| && last < m ensures lt(low[i], 3 * last) {
        ThirdsComeFrom(front, m, i);
        var k :| 0 <= k < |front| && front[k] == low[i] / 3;
        assert sa[k] == front[k];
      }
    }
  }

  lemma {:induction false} ThirdsPrefix(sa: seq<int>, m: nat, i: nat)
    requires i <= |sa|
    ensures |Thirds(sa[..i], m)| <= |Thirds(sa, m)|
    ensures i < |sa| && sa[i] < m ==> |Thirds(sa[..i], m)| < |Thirds(sa, m)|
    decreases |sa| - i
  {
    if i == |sa| {
      assert sa[..i] == sa;
    } else {
      ThirdsNext(sa, m, i);
      ThirdsPrefix(sa, m, i + 1);
    }
  }

  function Multiples(m: nat): set<int> { set i | 0 <= i < m :: 3 * i }

  lemma {:induction false} MultiplesSize(m: nat)
    ensures |Multiples(m)| == m
  {
    if m > 0 {
      MultiplesSize(m - 1);
      assert Multiples(m) == Multiples(m - 1) + {3 * (m - 1)};
    }
  }

  function Below(s: seq<int>): (int, int) -> bool {
    (x, y) => 0 <= x && 0 <= y && SufLess(s, x + 1, y + 1)
  }

  lemma ThirdsBySuffix(s: seq<int>, names: seq<int>, sa: seq<int>)
    requires Positive(s) && NamesTriples(s, names) && IsSuffixArray(names, sa)
    ensures Ordered(Thirds(sa, N0(|s|)), Below(s))
  {
    hide At;
    var m := N0(|s|);
    forall i, j | 0 <= i < j < |sa| && sa[i] < m && sa[j] < m ensures Below(s)(3 * sa[i], 3 * sa[j]) {
      SuffixArrayDistinct(names, sa, i, j);
      ReducedOrder(s, names, sa[i], sa[j]);
    }
    ThirdsOrdered(sa, m, Below(s));
  }

  lemma ThirdsExact(sa: seq<int>, n: nat, m: nat, y: int)
    requires m <= n && |sa| == n && (forall k :: 0 <= k < n ==> 0 <= sa[k] < n) && (forall p :: 0 <= p < n ==> p in sa)
    ensures y in Thirds(sa, m) <==> 0 <= y < 3 * m && y % 3 == 0
  {
    if 0 <= y < 3 * m && y % 3 == 0 {
      assert y / 3 in sa;
      ThirdsContains(sa, m, y / 3);
    }
    if y in Thirds(sa, m) {
      var i :| 0 <= i < |Thirds(sa, m)| && Thirds(sa, m)[i] == y;
      ThirdsComeFrom(sa, m, i);
      var k :| 0 <= k < |sa| && sa[k] == y / 3;
    }
  }

  lemma ThirdsCount(b: seq<int>, m: nat)
    requires Distinct(b) && forall y :: y in b <==> 0 <= y < 3 * m && y % 3 == 0
    ensures |b| == m
  {
    DistinctSize(b);
    MultiplesSize(m);
    assert (set y | y in b) == Multiples(m) by {
      forall y | y in b ensures y in Multiples(m) {
        assert y == 3 * (y / 3);
      }
    }
  }

  /** The multiples of three are listed once each, ordered by what follows their first character. */
  lemma ThirdsOfSuffixArray(s: seq<int>, names: seq<int>, sa: seq<int>)
    requires Positive(s) && NamesTriples(s, names) && IsSuffixArray(names, sa)
    ensures var b := Thirds(sa, N0(|s|));
            && |b| == N0(|s|) && (forall y :: y in b <==> 0 <= y < 3 * N0(|s|) && y % 3 == 0)
            && Ordered(b, Below(s))
  {
    var m := N0(|s|);
    var b := Thirds(sa, m);
    ThirdsBySuffix(s, names, sa);
    forall i, j | 0 <= i < j < |b| ensures b[i] != b[j] {
      assert Below(s)(b[i], b[j]);
      Irreflexive(s, b[i] + 1);
    }
    forall y ensures y in b <==> 0 <= y < 3 * m && y % 3 == 0 {
      ThirdsExact(sa, |names|, m, y);
    }
    ThirdsCount(b, m);
  }

  // ---- the two sorted lists and their merge ----

  /** The positions listed by the suffix array of the reduced string, from its `t`-th entry on. */
  function SampleList(n: nat, sa: seq<int>, t: nat): seq<nat>
    requires t <= |sa| && forall k :: 0 <= k < |sa| ==> 0 <= sa[k]
  {
    seq<nat>(|sa| - t, i requires 0 <= i < |sa| - t => Pos(n, sa[t + i]))
  }

  /** The padding position `n`, when there is one, comes first. */
  lemma PaddingFirst(s: seq<int>, names: seq<int>, sa: seq<int>, k: nat)
    requires Positive(s) && NamesTriples(s, names) && IsSuffixArray(names, sa)
    requires k < |sa| && Pos(|s|, sa[k]) == |s|
    ensures k == 0 && |s| % 3 == 1
  {
    hide At;
    PosIndex(|s|, sa[k]);
    if k > 0 {
      SuffixArrayDistinct(names, sa, 0, k);
      ReducedOrder(s, names, sa[0], sa[k]);
    }
  }

  lemma SampleListFacts(s: seq<int>, names: seq<int>, sa: seq<int>)
    requires Positive(s) && NamesTriples(s, names) && IsSuffixArray(names, sa) && 2 <= |s|
    ensures N0(|s|) - N1(|s|) <= |sa|
    ensures var a := SampleList(|s|, sa, N0(|s|) - N1(|s|));
            && Sorted(s, a) && |a| + N0(|s|) == |s|
            && (forall i :: 0 <= i < |a| ==> a[i] < |s| && a[i] % 3 != 0)
            && (forall p: nat :: p < |s| && p % 3 != 0 ==> p in a)
  {
    hide *;
    NamesSize(s, names);
    ListSizes(names, sa, |s|);
    var n, t := |s|, N0(|s|) - N1(|s|);
    var a := SampleList(n, sa, t);
    forall i | 0 <= i < |a| ensures a[i] < n && a[i] % 3 != 0 {
      SampleListBelow(s, names, sa, t, i);
    }
    forall i, j | 0 <= i < j < |a| ensures SufLess(s, a[i], a[j]) {
      SampleListLess(s, names, sa, t, i, j);
    }
    assert Sorted(s, a) by { SortedFold(s, a); }
    forall p: nat | p < n && p % 3 != 0 ensures p in a {
      SampleListCovers(s, names, sa, p);
    }
  }

  lemma SortedFold(s: seq<int>, a: seq<nat>)
    requires forall i, j :: 0 <= i < j < |a| ==> SufLess(s, a[i], a[j])
    ensures Sorted(s, a)
  {
    hide SufLess;
  }

  lemma ListSizes(names: seq<int>, sa: seq<int>, n: nat)
    requires IsSuffixArray(names, sa) && |names| == N02(n) && 2 <= n
    ensures |sa| == N02(n) && forall k :: 0 <= k < |sa| ==> 0 <= sa[k] < |sa|
    ensures 0 <= N0(n) - N1(n) <= 1 <= |sa| && |SampleList(n, sa, N0(n) - N1(n))| == |sa| - (N0(n) - N1(n)) == n - N0(n)
  {
    hide SufLess, Pos;
  }

  lemma SampleListBelow(s: seq<int>, names: seq<int>, sa: seq<int>, t: nat, i: nat)
    requires Positive(s) && NamesTriples(s, names) && IsSuffixArray(names, sa) && |sa| == N02(|s|)
    requires (forall k :: 0 <= k < |sa| ==> 0 <= sa[k] < |sa|) && t == N0(|s|) - N1(|s|) && t + i < |sa|
    ensures i < |SampleList(|s|, sa, t)| && SampleList(|s|, sa, t)[i] < |s| && SampleList(|s|, sa, t)[i] % 3 != 0
  {
    hide Positive, NamesTriples, IsSuffixArray, Pos, N02, N0, N1;
    PosIndex(|s|, sa[t + i]);
    PadCount(|s|);
    if Pos(|s|, sa[t + i]) == |s| {
      PaddingFirst(s, names, sa, t + i);
    }
  }

  lemma SampleListLess(s: seq<int>, names: seq<int>, sa: seq<int>, t: nat, i: nat, j: nat)
    requires Positive(s) && NamesTriples(s, names) && IsSuffixArray(names, sa) && |names| == |sa|
    requires (forall k :: 0 <= k < |sa| ==> 0 <= sa[k] < |sa|) && i < j && t + j < |sa|
    ensures j < |SampleList(|s|, sa, t)| && SufLess(s, SampleList(|s|, sa, t)[i], SampleList(|s|, sa, t)[j])
  {
    hide Positive, NamesTriples, Pos, SufLess;
    SuffixArrayDistinct(names, sa, t + i, t + j);
    ReducedOrder(s, names, sa[t + i], sa[t + j]);
  }

  lemma PadCount(n: nat)
    ensures N0(n) - N1(n) == if n % 3 == 1 then 1 else 0
  {
  }

  lemma PlaceIn(names: seq<int>, sa: seq<int>, u: nat) returns (k: nat)
    requires IsSuffixArray(names, sa) && u < |names|
    ensures k < |sa| && sa[k] == u && forall i :: 0 <= i < |sa| ==> 0 <= sa[i]
  {
    assert u in sa;
    k :| k < |sa| && sa[k] == u;
  }

  lemma NamesSize(s: seq<int>, names: seq<int>)
    requires NamesTriples(s, names)
    ensures |names| == N02(|s|)
  {
  }

  lemma SampleListCovers(s: seq<int>, names: seq<int>, sa: seq<int>, p: nat)
    requires Positive(s) && NamesTriples(s, names) && IsSuffixArray(names, sa) && 2 <= |s|
    requires p < |s| && p % 3 != 0 && N0(|s|) - N1(|s|) <= |sa|
    ensures p in SampleList(|s|, sa, N0(|s|) - N1(|s|))
  {
    hide *;
    var n, t := |s|, N0(|s|) - N1(|s|);
    IndexPos(n, p);
    NamesSize(s, names);
    var k := PlaceIn(names, sa, Index(n, p));
    PadCount(n);
    if k < t {
      PaddingListed(s, names, sa);
    }
    SampleListAt(n, sa, t, k - t);
  }

  lemma SampleListAt(n: nat, sa: seq<int>, t: nat, i: nat)
    requires t + i < |sa| && forall k :: 0 <= k < |sa| ==> 0 <= sa[k]
    ensures Pos(n, sa[t + i]) in SampleList(n, sa, t)
  {
    assert SampleList(n, sa, t)[i] == Pos(n, sa[t + i]);
  }

  lemma PaddingListed(s: seq<int>, names: seq<int>, sa: seq<int>)
    requires Positive(s) && NamesTriples(s, names) && IsSuffixArray(names, sa) && |s| % 3 == 1
    ensures |sa| > 0 && Pos(|s|, sa[0]) == |s|
  {
    hide *;
    NamesSize(s, names);
    PadIndex(|s|);
    var k := PlaceIn(names, sa, N0(|s|) - 1);
    PaddingFirst(s, names, sa, k);
  }

  lemma PadIndex(n: nat)
    requires n % 3 == 1
    ensures 1 <= N0(n) <= N02(n) && Pos(n, N0(n) - 1) == n
  {
  }

  lemma ByFirstThenRest(s: seq<int>, r: seq<int>, x: int, y: int)
    requires 0 <= x < |s| && 0 <= y < |s| && Key(r, x) == s[x] && Key(r, y) == s[y]
    requires ByKeyThen(r, Below(s))(x, y)
    ensures SufLess(s, x, y)
  {
  }

  /** Sorting the multiples of three stably by their first character sorts their suffixes. */
  lemma ThirdsSortedByFirst(s: seq<int>, b: seq<int>, r: seq<int>, K: nat)
    requires Ordered(b, Below(s)) && forall i :: 0 <= i < |b| ==> 0 <= b[i] < |s|
    requires forall x: nat :: x < |s| ==> Key(r, x) == s[x] && 0 <= s[x] <= K
    ensures KeysBelow(b, r, K + 1) && SameElements(StableSort(b, r, K), b)
    ensures var c := StableSort(b, r, K);
            && (forall i :: 0 <= i < |c| ==> 0 <= c[i] < |s|)
            && (forall i, j :: 0 <= i < j < |c| ==> SufLess(s, c[i], c[j]))
  {
    hide StableSort, Start, SufLess, ByKeyThen, Below;
    StableSortSize(b, r, K);
    StableSortOrdered(b, r, K, Below(s));
    var c := StableSort(b, r, K);
    forall i | 0 <= i < |c| ensures 0 <= c[i] < |s| {
      assert c[i] in c;
    }
    forall i, j | 0 <= i < j < |c| ensures SufLess(s, c[i], c[j]) {
      ByFirstThenRest(s, r, c[i], c[j]);
    }
  }

  lemma MergedIsSuffixArray(s: seq<int>, a: seq<nat>, b: seq<nat>)
    requires Sorted(s, a) && Sorted(s, b) && |a| + |b| == |s|
    requires forall i :: 0 <= i < |a| ==> a[i] < |s| && a[i] % 3 != 0
    requires forall i :: 0 <= i < |b| ==> b[i] < |s| && b[i] % 3 == 0
    requires forall p: nat :: p < |s| && p % 3 != 0 ==> p in a
    requires forall p: nat :: p < |s| && p % 3 == 0 ==> p in b
    ensures IsSuffixArray(s, Merge(s, a, b))
  {
    hide SufLess;
    MergeMembers(s, a, b);
    MergeSorted(s, a, b);
    hide Merge;
    var m := Merge(s, a, b);
    forall k | 0 <= k < |m| ensures m[k] < |s| {
      assert m[k] in m;
    }
  }
}
