/** The skew suffix sort on arrays: `suffixArray`, with each of its loops as a method. */
module SkewSort {
  import opened RadixSort
  import opened SuffixOrder
  import opened SkewPhases

  /** A text of `n` characters in 1..K followed by three zeros. */
  predicate Padded(s: seq<int>, n: nat, K: nat) {
    && n + 3 <= |s|
    && (forall i :: 0 <= i < n ==> 1 <= s[i] <= K)
    && s[n] == 0 && s[n + 1] == 0 && s[n + 2] == 0
  }

  lemma PaddedKeys(s: seq<int>, n: nat, K: nat, off: nat)
    requires Padded(s, n, K) && off <= 2
    ensures forall x: nat :: x <= n ==> Key(s[off..], x) == At(s[..n], x + off)
    ensures forall i: nat :: 0 <= At(s[..n], i) <= K
  {
  }

  /** Positions of the suffixes at 1 and 2 mod 3, with the dummy one when n is 1 mod 3. */
  method SamplePositions(s12: array<int>, n: nat)
    requires s12.Length == N02(n) + 3
    modifies s12
    ensures s12[..N02(n)] == Sampled(Span(n))
    ensures s12[N02(n)..] == old(s12[N02(n)..])
  {
    hide Sampled;
    var i, j := 0, 0;
    SampledNext(0);
    SampledSpan(n);
    while i < n + (N0(n) - N1(n))
      invariant 0 <= i <= Span(n)
      invariant j == |Sampled(i)| <= N02(n)
      invariant s12[..j] == Sampled(i)
      invariant s12[N02(n)..] == old(s12[N02(n)..])
    {
      SampledNext(i);
      SampledFacts(i + 1);
      SampledFacts(Span(n));
      if i % 3 != 0 {
        s12[j] := i;
        j := j + 1;
      }
      i := i + 1;
    }
  }

  lemma SampledNext(m: nat)
    ensures Sampled(0) == []
    ensures Sampled(m + 1) == Sampled(m) + if m % 3 != 0 then [m] else []
  {
  }

  /** Radix-sorts the sampled positions by their triples, through both arrays. */
  method SortTriples(s: array<int>, s12: array<int>, SA12: array<int>, n: nat, n02: nat, K: nat)
    requires n + 3 <= s.Length && Padded(s[..], n, K)
    requires n02 == N02(n) && s12.Length == SA12.Length == n02 + 3
    requires s12 != s && SA12 != s && s12 != SA12
    requires s12[..n02] == Sampled(Span(n))
    modifies s12, SA12
    ensures TriplesSorted(s[..n], SA12[..n02])
    ensures s12[n02..] == old(s12[n02..])
  {
    hide Sampled, Span, StableSort, TriplesSorted, At, N02, Padded, InRange;
    ghost var text, was := s[..n], s[..];
    ghost var r0, r1, r2 := was[0..], was[1..], was[2..];
    PaddedKeys(was, n, K, 0);
    PaddedKeys(was, n, K, 1);
    PaddedKeys(was, n, K, 2);
    assert text == was[..n] && |text| == n;
    ThreePasses(text, r0, r1, r2, K);
    PassReady(s, s12, n, n02, K, 2);
    RadixPass(s12, SA12, s, 2, n02, K);
    assert s[2..] == r2 && s[..] == was;
    PassReady(s, SA12, n, n02, K, 1);
    RadixPass(SA12, s12, s, 1, n02, K);
    assert s[1..] == r1 && s[..] == was;
    PassReady(s, s12, n, n02, K, 0);
    RadixPass(s12, SA12, s, 0, n02, K);
    assert s[0..] == r0 && s[..] == was;
  }

  lemma PassReady(s: array<int>, a: array<int>, n: nat, n02: nat, K: nat, off: nat)
    requires n + 3 <= s.Length && Padded(s[..], n, K) && off <= 2 && n02 <= a.Length
    requires InRange(a[..n02], n)
    ensures forall i :: 0 <= i < n02 ==> 0 <= a[i] < s.Length - off && 0 <= s[off + a[i]] <= K
  {
    forall i | 0 <= i < n02 ensures 0 <= a[i] < s.Length - off && 0 <= s[off + a[i]] <= K {
      assert a[..n02][i] == a[i];
      assert s[..][off + a[i]] == s[off + a[i]];
    }
  }

  lemma IndexDistinct(s: seq<int>, q: seq<int>, k: nat)
    requires TriplesSorted(s, q) && k < |q|
    ensures Index(|s|, q[k]) < |q|
    ensures forall i :: 0 <= i < k ==> Index(|s|, q[i]) != Index(|s|, q[k])
  {
    hide At;
    IndexPos(|s|, q[k]);
    forall i | 0 <= i < k ensures Index(|s|, q[i]) != Index(|s|, q[k]) {
      IndexPos(|s|, q[i]);
      TripleTrichotomy(s, q[i], q[k]);
    }
  }

  lemma NameNext(s: seq<int>, q: seq<int>, k: nat)
    requires k < |q| && forall i :: 0 <= i < |q| ==> 0 <= q[i]
    ensures k == 0 ==> Name(s, q, k) == 1
    ensures k > 0 ==> Name(s, q, k) == Name(s, q, k - 1) + if TripleEq(s, q[k - 1], q[k]) then 0 else 1
  {
  }

  /** Numbers the triples in sorted order and writes each position's number at its index. */
  method NameTriples(s: array<int>, s12: array<int>, SA12: array<int>, n: nat, n0: nat, n02: nat, K: nat)
    returns (name: nat)
    requires n + 3 <= s.Length && Padded(s[..], n, K) && s12 != s && s12 != SA12
    requires n0 == N0(n) && n02 == N02(n) && s12.Length == SA12.Length == n02 + 3 && n02 > 0
    requires TriplesSorted(s[..n], SA12[..n02])
    modifies s12
    ensures Named(s[..n], SA12[..n02], s12[..n02])
    ensures name == Name(s[..n], SA12[..n02], n02 - 1)
    ensures s12[n02..] == old(s12[n02..])
  {
    hide *;
    ghost var text, q, pad := s[..n], SA12[..n02], s12[n02..];
    SortedRange(text, q);
    name := 0;
    var c0, c1, c2 := -1, -1, -1;
    for i := 0 to n02
      invariant s12[n02..] == pad
      invariant i == 0 ==> name == 0 && c0 == -1
      invariant i > 0 ==> name == Name(text, q, i - 1)
      invariant i > 0 ==> c0 == At(text, q[i - 1]) && c1 == At(text, q[i - 1] + 1) && c2 == At(text, q[i - 1] + 2)
      invariant forall k :: 0 <= k < i ==> Index(n, q[k]) < n02 && s12[Index(n, q[k])] == Name(text, q, k)
    {
      var x := SA12[i];
      assert x == q[i];
      SortedAt(text, q, i);
      if i > 0 {
        SortedAt(text, q, i - 1);
      }
      ReadTriple(s, n, K, x);
      NameNext(text, q, i);
      IndexDistinct(text, q, i);
      if i > 0 {
        TripleEqMeans(text, q[i - 1], x);
      }
      if s[x] != c0 || s[x + 1] != c1 || s[x + 2] != c2 {
        name := name + 1;
        c0, c1, c2 := s[x], s[x + 1], s[x + 2];
      }
      if x % 3 == 1 {
        s12[x / 3] := name;
      } else {
        s12[x / 3 + n0] := name;
      }
    }
    NamedIntro(text, q, s12[..n02]);
  }

  lemma NamedIntro(s: seq<int>, q: seq<int>, names: seq<int>)
    requires TriplesSorted(s, q) && |names| == |q| && forall i :: 0 <= i < |q| ==> 0 <= q[i]
    requires forall k :: 0 <= k < |q| ==> Index(|s|, q[k]) < |q| && names[Index(|s|, q[k])] == Name(s, q, k)
    ensures Named(s, q, names)
  {
  }

  lemma SortedRange(s: seq<int>, q: seq<int>)
    requires TriplesSorted(s, q)
    ensures |q| == N02(|s|) && forall i :: 0 <= i < |q| ==> 0 <= q[i] <= |s|
  {
  }

  lemma SortedAt(s: seq<int>, q: seq<int>, k: nat)
    requires TriplesSorted(s, q) && k < |q|
    ensures 0 <= q[k] <= |s|
    ensures Index(|s|, q[k]) == if q[k] % 3 == 1 then q[k] / 3 else q[k] / 3 + N0(|s|)
  {
    hide At;
  }

  lemma TripleEqMeans(s: seq<int>, i: nat, j: nat)
    ensures TripleEq(s, i, j) <==> At(s, i) == At(s, j) && At(s, i + 1) == At(s, j + 1) && At(s, i + 2) == At(s, j + 2)
  {
  }

  lemma ReadTriple(s: array<int>, n: nat, K: nat, x: int)
    requires n + 3 <= s.Length && Padded(s[..], n, K) && 0 <= x <= n
    ensures s[x] == At(s[..n], x) && s[x + 1] == At(s[..n], x + 1) && s[x + 2] == At(s[..n], x + 2)
    ensures 0 <= s[x]
  {
    assert s[..][x] == s[x];
  }

  /** The multiples of three, in the order of the suffixes that follow them. */
  method MultiplesOfThree(SA12: array<int>, s0: array<int>, n0: nat, n02: nat)
    requires n02 <= SA12.Length && s0.Length == n0 && s0 != SA12
    requires |Thirds(SA12[..n02], n0)| == n0
    modifies s0
    ensures s0[..] == Thirds(SA12[..n02], n0)
  {
    hide Thirds;
    ghost var sa := SA12[..n02];
    var j := 0;
    ThirdsOfNothing(sa, n0);
    for i := 0 to n02
      invariant SA12[..n02] == sa
      invariant j == |Thirds(sa[..i], n0)| <= n0
      invariant s0[..j] == Thirds(sa[..i], n0)
    {
      ThirdsNext(sa, n0, i);
      ThirdsPrefix(sa, n0, i);
      ThirdsPrefix(sa, n0, i + 1);
      if SA12[i] < n0 {
        s0[j] := 3 * SA12[i];
        j := j + 1;
      }
    }
    assert sa[..n02] == sa;
  }

  lemma ThirdsOfNothing(sa: seq<int>, m: nat)
    ensures Thirds(sa[..0], m) == []
  {
  }

  /** The comparison the merge makes between the head `u` of the sampled list and the head `j` of the
      multiples of three. */
  predicate SampleFirst(s: seq<int>, rank: seq<int>, n0: nat, u: nat, i: nat, j: nat)
    requires i + 1 < |s| && j + 1 < |s|
    requires if u < n0 then u + n0 < |rank| && j / 3 < |rank| else u - n0 + 1 < |rank| && j / 3 + n0 < |rank|
  {
    if u < n0 then Leq2(s[i], rank[u + n0], s[j], rank[j / 3])
    else Leq3(s[i], s[i + 1], rank[u - n0 + 1], s[j], s[j + 1], rank[j / 3 + n0])
  }

  predicate ZeroPadded(a: seq<int>, n: nat) {
    n + 3 == |a| && a[n] == 0 && a[n + 1] == 0 && a[n + 2] == 0
  }

  lemma SampleFirstReads(n: nat, n0: nat, n02: nat, u: nat, j: nat)
    requires n0 == N0(n) && n02 == N02(n) && u < n02 && j < n && j % 3 == 0 && Pos(n, u) < n
    ensures if u < n0 then u + n0 < n02 + 3 && j / 3 < n02 + 3 else u - n0 + 1 < n02 + 3 && j / 3 + n0 < n02 + 3
  {
  }

  lemma SampleFirstRight(s: seq<int>, rank: seq<int>, n: nat, n0: nat, n02: nat, K: nat, u: nat, j: nat)
    requires Padded(s, n, K) && n0 == N0(n) && n02 == N02(n)
    requires ZeroPadded(rank, n02) && Ranks(s[..n], rank[..n02])
    requires u < n02 && j < n && j % 3 == 0 && Pos(n, u) < n
    ensures if u < n0 then u + n0 < n02 + 3 && j / 3 < n02 + 3 else u - n0 + 1 < n02 + 3 && j / 3 + n0 < n02 + 3
    ensures SampleFirst(s, rank, n0, u, Pos(n, u), j) <==> SufLess(s[..n], Pos(n, u), j)
  {
    hide SufLess, Ranks, At, Pos, N0, N02, Padded;
    ReadText(s, n, K);
    ReadRank(rank, n02);
    SampleFirstReads(n, n0, n02, u, j);
    var text, r, i := s[..n], rank[..n02], Pos(n, u);
    TextPositive(s, n, K);
    RanksSize(text, r);
    if u < n0 {
      MergeCompare1(text, r, u, j);
    } else {
      MergeCompare2(text, r, u, j);
    }
  }

  lemma RanksSize(s: seq<int>, rank: seq<int>)
    requires Ranks(s, rank)
    ensures |rank| == N02(|s|)
  {
  }

  lemma ReadRank(rank: seq<int>, n02: nat)
    requires ZeroPadded(rank, n02)
    ensures forall x: nat :: x < n02 + 3 ==> At(rank[..n02], x) == rank[x]
  {
  }

  lemma ReadText(s: seq<int>, n: nat, K: nat)
    requires Padded(s, n, K)
    ensures forall x: nat :: x < n + 3 ==> At(s[..n], x) == s[x]
    ensures |s| >= n + 3
  {
  }

  lemma TextPositive(s: seq<int>, n: nat, K: nat)
    requires Padded(s, n, K)
    ensures Positive(s[..n])
  {
  }

  lemma MergeTake(s: seq<int>, a: seq<nat>, b: seq<nat>, x: nat, y: nat)
    requires x <= |a| && y <= |b|
    ensures x == |a| ==> Merge(s, a[x..], b[y..]) == b[y..]
    ensures y == |b| ==> Merge(s, a[x..], b[y..]) == a[x..]
    ensures x < |a| && y < |b| && SufLess(s, a[x], b[y]) ==>
              Merge(s, a[x..], b[y..]) == [a[x]] + Merge(s, a[x + 1..], b[y..])
    ensures x < |a| && y < |b| && !SufLess(s, a[x], b[y]) ==>
              Merge(s, a[x..], b[y..]) == [b[y]] + Merge(s, a[x..], b[y + 1..])
  {
    hide SufLess;
    if x < |a| { assert a[x..][1..] == a[x + 1..]; }
    if y < |b| { assert b[y..][1..] == b[y + 1..]; }
  }

  /** What the merge has written and what it has left make up the whole merge. */
  ghost predicate Merging(s: seq<int>, out: seq<int>, a: seq<nat>, b: seq<nat>, x: nat, y: nat) {
    x <= |a| && y <= |b| && |out| == x + y && out + Merge(s, a[x..], b[y..]) == Merge(s, a, b)
  }

  lemma MergingStep(s: seq<int>, out: seq<int>, a: seq<nat>, b: seq<nat>, x: nat, y: nat)
    requires Merging(s, out, a, b, x, y)
    ensures x < |a| && (y == |b| || SufLess(s, a[x], b[y])) ==> Merging(s, out + [a[x]], a, b, x + 1, y)
    ensures y < |b| && (x == |a| || !SufLess(s, a[x], b[y])) ==> Merging(s, out + [b[y]], a, b, x, y + 1)
    ensures x == |a| && y == |b| ==> out == Merge(s, a, b)
  {
    hide Merge, SufLess;
    MergeTake(s, a, b, x, y);
    if x < |a| {
      MergeTake(s, a, b, x + 1, y);
      assert [a[x]] + a[x + 1..] == a[x..];
      assert out + ([a[x]] + Merge(s, a[x + 1..], b[y..])) == (out + [a[x]]) + Merge(s, a[x + 1..], b[y..]);
    }
    if y < |b| {
      MergeTake(s, a, b, x, y + 1);
      assert [b[y]] + b[y + 1..] == b[y..];
      assert out + ([b[y]] + Merge(s, a[x..], b[y + 1..])) == (out + [b[y]]) + Merge(s, a[x..], b[y + 1..]);
    }
  }

  lemma MergingStart(s: seq<int>, a: seq<nat>, b: seq<nat>)
    ensures Merging(s, [], a, b, 0, 0)
  {
    assert a[0..] == a && b[0..] == b;
  }

  /** Once the sampled list is used up, the rest of the multiples of three follows. */
  method RestOfMultiples(SA0: array<int>, SA: array<int>, n0: nat, p0: nat, k0: nat,
                         ghost s: seq<int>, ghost a: seq<nat>, ghost b: seq<nat>) returns (k: nat)
    requires SA0.Length == n0 && SA0 != SA && SA0[..] == b && p0 <= n0 && k0 + (n0 - p0) <= SA.Length
    requires Merging(s, SA[..k0], a, b, |a|, p0)
    modifies SA
    ensures k == k0 + (n0 - p0) && SA[..k] == Merge(s, a, b) && SA[k..] == old(SA[k..])
  {
    hide Merge, SufLess;
    k := k0;
    var p := p0;
    ghost var end := k0 + (n0 - p0);
    while p < n0
      invariant p0 <= p <= n0 && k == k0 + (p - p0)
      invariant Merging(s, SA[..k], a, b, |a|, p)
      invariant SA[end..] == old(SA[end..])
    {
      MergingStep(s, SA[..k], a, b, |a|, p);
      ghost var out := SA[..k];
      SA[k] := SA0[p];
      assert SA[..k + 1] == out + [b[p]];
      p, k := p + 1, k + 1;
    }
    MergingStep(s, SA[..k], a, b, |a|, p);
  }

  /** The position `GetI` reads. */
  function GetI(x: nat, n0: nat): nat { if x < n0 then x * 3 + 1 else (x - n0) * 3 + 2 }

  lemma SampleAt(n: nat, sa: seq<int>, t0: nat, t: nat)
    requires forall x :: 0 <= x < |sa| ==> 0 <= sa[x]
    requires t0 <= t < |sa|
    ensures t - t0 < |SampleList(n, sa, t0)| == |sa| - t0
    ensures SampleList(n, sa, t0)[t - t0] == Pos(n, sa[t]) == GetI(sa[t], N0(n))
  {
  }

  /** Once the multiples of three are used up, the rest of the sampled list follows. */
  method RestOfSample(SA12: array<int>, SA: array<int>, n: nat, n0: nat, n02: nat, ghost t0: nat, t1: nat, k0: nat,
                      ghost s: seq<int>, ghost a: seq<nat>, ghost b: seq<nat>) returns (k: nat)
    requires n0 == N0(n) && n02 <= SA12.Length && SA12 != SA && t0 <= t1 <= n02 && k0 + (n02 - t1) <= SA.Length
    requires forall x :: 0 <= x < n02 ==> 0 <= SA12[x]
    requires a == SampleList(n, SA12[..n02], t0)
    requires Merging(s, SA[..k0], a, b, t1 - t0, |b|)
    modifies SA
    ensures k == k0 + (n02 - t1) && SA[..k] == Merge(s, a, b) && SA[k..] == old(SA[k..])
  {
    hide Merge, SufLess;
    k := k0;
    var t := t1;
    ghost var end := k0 + (n02 - t1);
    while t < n02
      invariant t1 <= t <= n02 && k == k0 + (t - t1)
      invariant Merging(s, SA[..k], a, b, t - t0, |b|)
      invariant SA[end..] == old(SA[end..])
    {
      MergingStep(s, SA[..k], a, b, t - t0, |b|);
      ghost var out := SA[..k];
      SampleAt(n, SA12[..n02], t0, t);
      SA[k] := GetI(SA12[t], n0);
      assert SA[..k + 1] == out + [a[t - t0]];
      t, k := t + 1, k + 1;
    }
    MergingStep(s, SA[..k], a, b, t - t0, |b|);
  }

  /** The text, the ranks and the two sorted lists that the merge reads. */
  ghost predicate MergeInput(s: array<int>, s12: array<int>, SA12: array<int>, SA0: array<int>, n: nat, n0: nat, n02: nat,
                             t0: nat, K: nat, a: seq<nat>, b: seq<nat>)
    reads s, s12, SA12, SA0
  {
    && n + 3 <= s.Length && Padded(s[..], n, K)
    && n0 == N0(n) && n02 == N02(n) && t0 < n02 && 0 < n0
    && s12.Length == SA12.Length == n02 + 3 && SA0.Length == n0
    && ZeroPadded(s12[..], n02) && Ranks(s[..n], s12[..n02])
    && (forall x :: 0 <= x < n02 ==> 0 <= SA12[x] < n02)
    && a == SampleList(n, SA12[..n02], t0) && |a| == n02 - t0 && |a| + n0 == n
    && (forall i :: 0 <= i < |a| ==> a[i] < n)
    && SA0[..] == b && (forall i :: 0 <= i < |b| ==> b[i] < n && b[i] % 3 == 0)
  }

  /** One comparison of the merge: the smaller of the two heads, and where it came from. */
  method SmallerHead(s: array<int>, s12: array<int>, SA12: array<int>, SA0: array<int>, n: nat, n0: nat, n02: nat, K: nat,
                     t: nat, p: nat, ghost t0: nat, ghost a: seq<nat>, ghost b: seq<nat>)
    returns (sample: bool, pos: nat)
    requires MergeInput(s, s12, SA12, SA0, n, n0, n02, t0, K, a, b) && t0 <= t < n02 && p < n0
    ensures sample <==> SufLess(s[..n], a[t - t0], b[p])
    ensures pos == if sample then a[t - t0] else b[p]
  {
    hide *;
    HeadsCompared(s, s12, SA12, SA0, n, n0, n02, K, t, p, t0, a, b);
    var i := GetI(SA12[t], n0);
    var j := SA0[p];
    if SA12[t] < n0 {
      sample := Leq2(s[i], s12[SA12[t] + n0], s[j], s12[j / 3]);
    } else {
      sample := Leq3(s[i], s[i + 1], s12[SA12[t] - n0 + 1], s[j], s[j + 1], s12[j / 3 + n0]);
    }
    pos := if sample then i else j;
  }

  lemma HeadsCompared(s: array<int>, s12: array<int>, SA12: array<int>, SA0: array<int>, n: nat, n0: nat, n02: nat, K: nat,
                      t: nat, p: nat, t0: nat, a: seq<nat>, b: seq<nat>)
    requires MergeInput(s, s12, SA12, SA0, n, n0, n02, t0, K, a, b) && t0 <= t < n02 && p < n0
    ensures t < SA12.Length && p < SA0.Length && 0 <= SA12[t] && 0 <= SA0[p] && p < |b| && t - t0 < |a| && n <= s.Length
    ensures var u, i, j := SA12[t], GetI(SA12[t], n0), SA0[p];
            && a[t - t0] == i && b[p] == j && i + 1 < s.Length && j + 1 < s.Length
            && (if u < n0 then u + n0 < s12.Length && j / 3 < s12.Length else u - n0 + 1 < s12.Length && j / 3 + n0 < s12.Length)
            && ((if u < n0 then Leq2(s[i], s12[u + n0], s[j], s12[j / 3])
                 else Leq3(s[i], s[i + 1], s12[u - n0 + 1], s[j], s[j + 1], s12[j / 3 + n0])) <==> SufLess(s[..n], i, j))
  {
    hide SufLess, Ranks, N02, Leq2, Leq3;
    assert SA12[..n02][t] == SA12[t];
    SampleAt(n, SA12[..n02], t0, t);
    hide SampleList, Padded, ZeroPadded;
    SampleFirstRight(s[..], s12[..], n, n0, n02, K, SA12[t], SA0[p]);
    assert s[..][..n] == s[..n] && s12[..][..n02] == s12[..n02];
  }

  /** Writes the smaller head to the output. */
  method Emit(SA: array<int>, k: nat, n: nat, sample: bool, pos: nat,
              ghost s: seq<int>, ghost a: seq<nat>, ghost b: seq<nat>, ghost x: nat, ghost y: nat)
    requires k < n <= SA.Length && x < |a| && y < |b|
    requires Merging(s, SA[..k], a, b, x, y)
    requires sample <==> SufLess(s, a[x], b[y])
    requires pos == if sample then a[x] else b[y]
    modifies SA
    ensures if sample then Merging(s, SA[..k + 1], a, b, x + 1, y) else Merging(s, SA[..k + 1], a, b, x, y + 1)
    ensures SA[n..] == old(SA[n..])
  {
    hide *;
    MergingStep(s, SA[..k], a, b, x, y);
    ghost var out := SA[..k];
    SA[k] := pos;
    assert SA[..k + 1] == out + [pos];
  }

  /** Merges the two sorted lists of suffixes. */
  method MergeSuffixes(s: array<int>, s12: array<int>, SA12: array<int>, SA0: array<int>, SA: array<int>,
                       n: nat, n0: nat, n1: nat, n02: nat, K: nat, ghost a: seq<nat>, ghost b: seq<nat>)
    requires n1 <= n0 && n <= SA.Length && MergeInput(s, s12, SA12, SA0, n, n0, n02, n0 - n1, K, a, b)
    requires SA != s && SA != s12 && SA != SA12 && SA != SA0
    modifies SA
    ensures SA[..n] == Merge(s[..n], a, b)
    ensures SA[n..] == old(SA[n..])
  {
    hide *;
    MergeSizes(s, s12, SA12, SA0, n, n0, n02, n0 - n1, K, a, b);
    ghost var text, t0 := s[..n], n0 - n1;
    var p, t, k := 0, n0 - n1, 0;
    MergingStart(text, a, b);
    assert SA[..0] == [];
    while k < n
      invariant SA[n..] == old(SA[n..])
      invariant if k < n then 0 <= p < n0 && t0 <= t < n02 && k == p + (t - t0) && Merging(text, SA[..k], a, b, t - t0, p)
                else SA[..n] == Merge(text, a, b)
      decreases n - k
    {
      var sample, pos := SmallerHead(s, s12, SA12, SA0, n, n0, n02, K, t, p, t0, a, b);
      Emit(SA, k, n, sample, pos, text, a, b, t - t0, p);
      k := k + 1;
      if sample {
        t := t + 1;
        if t == n02 {
          k := RestOfMultiples(SA0, SA, n0, p, k, text, a, b);
        }
      } else {
        p := p + 1;
        if p == n0 {
          k := RestOfSample(SA12, SA, n, n0, n02, t0, t, k, text, a, b);
        }
      }
    }
  }

  lemma MergeSizes(s: array<int>, s12: array<int>, SA12: array<int>, SA0: array<int>, n: nat, n0: nat, n02: nat,
                   t0: nat, K: nat, a: seq<nat>, b: seq<nat>)
    requires MergeInput(s, s12, SA12, SA0, n, n0, n02, t0, K, a, b)
    ensures n0 == N0(n) && t0 < n02 <= SA12.Length && 0 < n0 == SA0.Length == |b| && |a| == n02 - t0 && |a| + n0 == n
    ensures n <= s.Length && SA0[..] == b && forall x :: 0 <= x < n02 ==> 0 <= SA12[x]
    ensures a == SampleList(n, SA12[..n02], t0)
  {
  }

  lemma NamesAreText(s: seq<int>, q: seq<int>, s12: seq<int>, n02: nat, name: nat)
    requires 0 < n02 && ZeroPadded(s12, n02)
    requires TriplesSorted(s, q) && |q| == n02 && Named(s, q, s12[..n02]) && name == Name(s, q, n02 - 1)
    ensures Padded(s12, n02, name) && 1 <= name <= n02
  {
    hide Name, N02;
    NamesOrderTriples(s, q, s12[..n02]);
    NameBound(s, q, n02 - 1);
    assert forall i :: 0 <= i < n02 ==> s12[i] == s12[..n02][i];
  }

  lemma NamesDistinct(s: seq<int>, q: seq<int>, names: seq<int>, u: nat, v: nat)
    requires TriplesSorted(s, q) && Named(s, q, names) && |q| > 0 && Name(s, q, |q| - 1) == |q|
    requires u < |names| && v < |names| && u != v
    ensures names[u] != names[v]
  {
    hide Name, N02, At;
    var k := PlaceOf(s, q, u);
    var l := PlaceOf(s, q, v);
    UniqueNames(s, q, k, |q| - 1);
    UniqueNames(s, q, l, |q| - 1);
  }

  /** Writes every sampled position's place in the suffix array of the names, counted from 1. */
  method StoreRanks(s12: array<int>, SA12: array<int>, n02: nat, ghost names: seq<int>)
    requires s12.Length == n02 + 3 && n02 <= SA12.Length && s12 != SA12
    requires |names| == n02 && IsSuffixArray(names, SA12[..n02])
    modifies s12
    ensures forall k :: 0 <= k < n02 ==> 0 <= SA12[k] < n02 && s12[SA12[k]] == k + 1
    ensures s12[n02..] == old(s12[n02..])
  {
    ghost var sa := SA12[..n02];
    forall i: nat, j: nat | i < j < n02 ensures sa[i] != sa[j] {
      SuffixArrayDistinct(names, sa, i, j);
    }
    hide SufLess;
    for i := 0 to n02
      invariant s12[n02..] == old(s12[n02..])
      invariant forall k :: 0 <= k < i ==> s12[sa[k]] == k + 1
    {
      assert SA12[i] == sa[i];
      s12[SA12[i]] := i + 1;
    }
    assert forall k :: 0 <= k < n02 ==> SA12[k] == sa[k];
  }

  /** Without equal names, the names are the ranks already. */
  method InvertNames(s12: array<int>, SA12: array<int>, n02: nat, ghost s: seq<int>, ghost q: seq<int>)
    requires n02 <= s12.Length && n02 <= SA12.Length && s12 != SA12 && 0 < n02
    requires TriplesSorted(s, q) && |q| == n02 && Named(s, q, s12[..n02]) && Name(s, q, n02 - 1) == n02
    modifies SA12
    ensures IsSuffixArray(s12[..n02], SA12[..n02])
    ensures forall k :: 0 <= k < n02 ==> 0 <= SA12[k] < n02 && s12[SA12[k]] == k + 1
  {
    hide *;
    ghost var names := s12[..n02];
    AllNamesDistinct(s, q, names);
    for i := 0 to n02
      invariant forall p :: 0 <= p < i ==> SA12[names[p] - 1] == p
    {
      assert s12[i] == names[i];
      SA12[s12[i] - 1] := i;
    }
    DirectSuffixArray(s, q, names, SA12[..n02]);
    SuffixArrayRange(names, SA12[..n02]);
  }

  lemma AllNamesDistinct(s: seq<int>, q: seq<int>, names: seq<int>)
    requires TriplesSorted(s, q) && Named(s, q, names) && |q| > 0 && Name(s, q, |q| - 1) == |q|
    ensures |names| == |q|
    ensures forall p :: 0 <= p < |names| ==> 1 <= names[p] <= |names|
    ensures forall u, v :: 0 <= u < |names| && 0 <= v < |names| && u != v ==> names[u] != names[v]
  {
    hide Name, N02, TriplesSorted, At;
    NamesInRange(s, q, names);
    forall u, v | 0 <= u < |names| && 0 <= v < |names| && u != v ensures names[u] != names[v] {
      NamesDistinct(s, q, names, u, v);
    }
  }

  lemma SuffixArrayRange(s: seq<int>, sa: seq<int>)
    requires IsSuffixArray(s, sa)
    ensures forall k :: 0 <= k < |sa| ==> 0 <= sa[k] < |sa|
  {
  }

  lemma ReducedIsShorter(n: nat)
    requires 2 <= n
    ensures 0 < N02(n) < n && N1(n) <= N0(n) <= N1(n) + 1 && N0(n) - N1(n) < N02(n) && 0 < N0(n) <= N02(n)
  {
  }

  /** What the sample phases leave behind: the suffix array of a string that names the triples, and the
      rank of each sampled suffix. */
  ghost predicate SampleSorted(s: seq<int>, names: seq<int>, sa: seq<int>, s12: seq<int>, n02: nat) {
    && n02 == N02(|s|) && |sa| == n02 && ZeroPadded(s12, n02)
    && NamesTriples(s, names) && IsSuffixArray(names, sa) && Ranks(s, s12[..n02])
  }

  lemma SampleIsSorted(s: seq<int>, q: seq<int>, names: seq<int>, sa: seq<int>, s12: seq<int>, n02: nat)
    requires Positive(s) && TriplesSorted(s, q) && Named(s, q, names) && n02 == N02(|s|)
    requires |sa| == n02 && IsSuffixArray(names, sa) && ZeroPadded(s12, n02)
    requires forall k :: 0 <= k < n02 ==> 0 <= sa[k] < n02 && s12[sa[k]] == k + 1
    ensures SampleSorted(s, names, sa, s12, n02)
  {
    hide *;
    hide SufLess;
    NamesOrderTriples(s, q, names);
    assert |names| == n02 && |s12| == n02 + 3 by { NamedSize(s, q, names, s12, n02); }
    RanksFromSuffixArray(s, names, sa, s12[..n02]);
    SampleSortedIntro(s, names, sa, s12, n02);
  }

  lemma NamedSize(s: seq<int>, q: seq<int>, names: seq<int>, s12: seq<int>, n02: nat)
    requires TriplesSorted(s, q) && Named(s, q, names) && n02 == N02(|s|) && ZeroPadded(s12, n02)
    ensures |names| == n02 == |q| && |s12| == n02 + 3
  {
  }

  lemma SampleSortedIntro(s: seq<int>, names: seq<int>, sa: seq<int>, s12: seq<int>, n02: nat)
    requires n02 == N02(|s|) && |sa| == n02 && ZeroPadded(s12, n02)
    requires NamesTriples(s, names) && IsSuffixArray(names, sa) && Ranks(s, s12[..n02])
    ensures SampleSorted(s, names, sa, s12, n02)
  {
  }

  lemma ZeroPaddedTail(a: seq<int>, n: nat)
    requires |a| == n + 3
    ensures ZeroPadded(a, n) <==> a[n..] == [0, 0, 0]
  {
    if a[n..] == [0, 0, 0] {
      assert a[n] == a[n..][0] && a[n + 1] == a[n..][1] && a[n + 2] == a[n..][2];
    }
  }

  /** The phases that sort the suffixes at 1 and 2 mod 3, up to and including the recursion. */
  method SortSample(s: array<int>, s12: array<int>, SA12: array<int>, n: nat, n0: nat, n02: nat, K: nat)
    returns (ghost names: seq<int>)
    requires 2 <= n && n + 3 <= s.Length && Padded(s[..], n, K)
    requires n0 == N0(n) && n02 == N02(n) && s12.Length == SA12.Length == n02 + 3
    requires s12 != s && SA12 != s && s12 != SA12
    requires s12[n02..] == [0, 0, 0]
    modifies s12, SA12
    ensures SampleSorted(s[..n], names, SA12[..n02], s12[..], n02)
    decreases n, 0
  {
    hide *;
    ReducedIsShorter(n);
    ghost var text := s[..n];
    TextPositive(s[..], n, K);
    assert s[..][..n] == text;
    SamplePositions(s12, n);
    SortTriples(s, s12, SA12, n, n02, K);
    ghost var q := SA12[..n02];
    var name := NameTriples(s, s12, SA12, n, n0, n02, K);
    names := s12[..n02];
    ZeroPaddedTail(s12[..], n02);
    NamedSize(text, q, names, s12[..], n02);
    NamesAreText(text, q, s12[..], n02, name);
    if name < n02 {
      SuffixArray(s12, SA12, n02, name);
      StoreRanks(s12, SA12, n02, names);
    } else {
      InvertNames(s12, SA12, n02, text, q);
    }
    ZeroPaddedTail(s12[..], n02);
    SampleIsSorted(text, q, names, SA12[..n02], s12[..], n02);
  }

  lemma MergeReady(s: array<int>, s12: array<int>, SA12: array<int>, SA0: array<int>, n: nat, n0: nat, n02: nat,
                   t0: nat, K: nat, names: seq<int>, a: seq<nat>, b: seq<nat>)
    requires n + 3 <= s.Length && Padded(s[..], n, K) && n0 == N0(n) && n02 == N02(n) && t0 < n02 && 0 < n0
    requires s12.Length == SA12.Length == n02 + 3 && SA0.Length == n0
    requires SampleSorted(s[..n], names, SA12[..n02], s12[..], n02)
    requires (forall x :: 0 <= x < n02 ==> 0 <= SA12[x] < n02) && a == SampleList(n, SA12[..n02], t0)
    requires |a| == n02 - t0 && |a| + n0 == n && forall i :: 0 <= i < |a| ==> a[i] < n
    requires SA0[..] == b && forall i :: 0 <= i < |b| ==> b[i] < n && b[i] % 3 == 0
    ensures MergeInput(s, s12, SA12, SA0, n, n0, n02, t0, K, a, b)
  {
    hide Ranks, Padded, SampleList, NamesTriples, IsSuffixArray;
    SampleRange(s[..n], names, SA12[..n02], s12[..], n02);
  }

  /** The last phases: sort the multiples of three, and merge. */
  method MergePhase(s: array<int>, s12: array<int>, SA12: array<int>, SA: array<int>, n: nat, n0: nat, n1: nat, n02: nat,
                    K: nat, ghost names: seq<int>)
    requires 2 <= n && n + 3 <= s.Length && Padded(s[..], n, K) && n <= SA.Length
    requires n0 == N0(n) && n1 == N1(n) && n02 == N02(n) && s12.Length == SA12.Length == n02 + 3
    requires SA != s && SA != s12 && SA != SA12
    requires SampleSorted(s[..n], names, SA12[..n02], s12[..], n02)
    modifies SA
    ensures IsSuffixArray(s[..n], SA[..n])
    ensures SA[n..] == old(SA[n..])
  {
    hide *;
    ReducedIsShorter(n);
    var s0, SA0 := new int[n0], new int[n0];
    ghost var chars, sa, rank := s[..], SA12[..n02], s12[..];
    assert chars[..n] == s[..n];
    SampleRange(chars[..n], names, sa, rank, n02);
    SampleGivesThirds(chars, n, K, names, sa, rank, n02);
    MultiplesOfThree(SA12, s0, n0, n02);
    KeysReady(s, s0, n, K);
    assert s0[..n0] == s0[..] && s[0..] == chars[0..];
    SortedThirds(chars, n, K, s0[..], n0);
    RadixPass(s0, SA0, s, 0, n0, K);
    assert SA0[..n0] == SA0[..];
    ghost var a: seq<nat>, b: seq<nat> := SampleList(n, sa, n0 - n1), SA0[..];
    SampleGivesMerge(chars, n, K, names, sa, rank, n02, n0 - n1, a, b);
    assert forall x :: 0 <= x < n02 ==> SA12[x] == sa[x];
    MergeReady(s, s12, SA12, SA0, n, n0, n02, n0 - n1, K, names, a, b);
    MergeSuffixes(s, s12, SA12, SA0, SA, n, n0, n1, n02, K, a, b);
  }

  /** `suffixArray`: leaves in `SA` the suffix array of the first `n` characters of `s`. */
  method SuffixArray(s: array<int>, SA: array<int>, n: nat, K: nat)
    requires 2 <= n && n + 3 <= s.Length && Padded(s[..], n, K) && n <= SA.Length && SA != s
    modifies SA
    ensures IsSuffixArray(s[..n], SA[..n])
    ensures SA[n..] == old(SA[n..])
    decreases n, 1
  {
    hide *;
    ReducedIsShorter(n);
    var n0, n1, n2 := (n + 2) / 3, (n + 1) / 3, n / 3;
    var n02 := n0 + n2;
    Thirds3(n);
    var s12, SA12 := new int[n02 + 3], new int[n02 + 3];
    s12[n02], s12[n02 + 1], s12[n02 + 2] := 0, 0, 0;
    SA12[n02], SA12[n02 + 1], SA12[n02 + 2] := 0, 0, 0;
    assert s12[n02..] == [0, 0, 0];
    ghost var names := SortSample(s, s12, SA12, n, n0, n02, K);
    MergePhase(s, s12, SA12, SA, n, n0, n1, n02, K, names);
  }

  lemma Thirds3(n: nat)
    ensures N0(n) == (n + 2) / 3 && N1(n) == (n + 1) / 3 && N02(n) == (n + 2) / 3 + n / 3
  {
  }

  lemma TextFacts(s: seq<int>, n: nat, K: nat)
    requires Padded(s, n, K)
    ensures |s[..n]| == n && Positive(s[..n])
    ensures forall x: nat :: x < n ==> Key(s[0..], x) == s[..n][x] && 0 <= s[..n][x] <= K
  {
  }

  lemma SampleGivesThirds(s: seq<int>, n: nat, K: nat, names: seq<int>, sa: seq<int>, s12: seq<int>, n02: nat)
    requires Padded(s, n, K) && SampleSorted(s[..n], names, sa, s12, n02)
    ensures |Thirds(sa, N0(n))| == N0(n)
    ensures forall y :: y in Thirds(sa, N0(n)) <==> 0 <= y < n && y % 3 == 0
    ensures Ordered(Thirds(sa, N0(n)), Below(s[..n]))
  {
    hide Thirds, Below, IsSuffixArray, NamesTriples, Ranks, Ordered, At;
    TextFacts(s, n, K);
    ThirdsOfSuffixArray(s[..n], names, sa);
  }

  lemma KeysReady(s: array<int>, s0: array<int>, n: nat, K: nat)
    requires n + 3 <= s.Length && Padded(s[..], n, K)
    requires forall y :: y in s0[..] ==> 0 <= y < n
    ensures forall i :: 0 <= i < s0.Length ==> 0 <= s0[i] < s.Length - 0 && 0 <= s[0 + s0[i]] <= K
  {
    forall i | 0 <= i < s0.Length ensures 0 <= s0[i] < s.Length - 0 && 0 <= s[0 + s0[i]] <= K {
      assert s0[..][i] in s0[..];
      assert s[..][s0[i]] == s[s0[i]];
    }
  }

  /** The second list of the merge: all multiples of three, by their suffixes. */
  lemma SortedThirds(s: seq<int>, n: nat, K: nat, s0: seq<int>, m: nat)
    requires Padded(s, n, K) && |s0| == m
    requires forall y :: y in s0 <==> 0 <= y < n && y % 3 == 0
    requires Ordered(s0, Below(s[..n]))
    ensures var b := StableSort(s0, s[0..], K);
            && |b| == m && (forall i :: 0 <= i < |b| ==> 0 <= b[i] < n && b[i] % 3 == 0)
            && (forall i, j :: 0 <= i < j < |b| ==> SufLess(s[..n], b[i], b[j]))
            && (forall p: nat :: p < n && p % 3 == 0 ==> p in b)
  {
    hide Below, Ordered, At, StableSort, SufLess;
    TextFacts(s, n, K);
    forall i | 0 <= i < |s0| ensures 0 <= s0[i] < |s[..n]| {
      assert s0[i] in s0;
    }
    ThirdsSortedByFirst(s[..n], s0, s[0..], K);
    var b := StableSort(s0, s[0..], K);
    forall i | 0 <= i < |b| ensures b[i] % 3 == 0 {
      assert b[i] in b;
    }
  }

  lemma SampleGivesMerge(s: seq<int>, n: nat, K: nat, names: seq<int>, sa: seq<int>, s12: seq<int>, n02: nat, t0: nat,
                         a: seq<nat>, b: seq<nat>)
    requires 2 <= n && Padded(s, n, K) && SampleSorted(s[..n], names, sa, s12, n02) && t0 == N0(n) - N1(n)
    requires t0 <= |sa| && (forall k :: 0 <= k < |sa| ==> 0 <= sa[k]) && a == SampleList(n, sa, t0)
    requires |b| == N0(n) && (forall i :: 0 <= i < |b| ==> b[i] < n && b[i] % 3 == 0)
    requires forall i, j :: 0 <= i < j < |b| ==> SufLess(s[..n], b[i], b[j])
    requires forall p: nat :: p < n && p % 3 == 0 ==> p in b
    ensures |a| + N0(n) == n && |a| == n02 - t0 && forall i :: 0 <= i < |a| ==> a[i] < n
    ensures IsSuffixArray(s[..n], Merge(s[..n], a, b))
  {
    hide SufLess, Merge, IsSuffixArray, NamesTriples, Ranks, At;
    TextFacts(s, n, K);
    SampleListFacts(s[..n], names, sa);
    MergedIsSuffixArray(s[..n], a, b);
  }

  lemma SampleRange(s: seq<int>, names: seq<int>, sa: seq<int>, s12: seq<int>, n02: nat)
    requires SampleSorted(s, names, sa, s12, n02)
    ensures |sa| == n02 && |s12| == n02 + 3 && forall k :: 0 <= k < |sa| ==> 0 <= sa[k] < n02
    ensures ZeroPadded(s12, n02) && Ranks(s, s12[..n02])
  {
  }
}
