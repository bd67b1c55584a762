/** Counting sort as `radixPass` does it, proved equal to a stable sort written as a function. */
module RadixSort {
  /** The key of `x`; positions outside `r` have key 0. */
  function Key(r: seq<int>, x: int): int { if 0 <= x < |r| then r[x] else 0 }

  predicate KeysBelow(a: seq<int>, r: seq<int>, m: nat) {
    forall i :: 0 <= i < |a| ==> 0 <= Key(r, a[i]) < m
  }

  /** The elements of `a` with key `v`, in their order in `a`. */
  function Bucket(a: seq<int>, r: seq<int>, v: int): seq<int> {
    if a == [] then []
    else
      var last := a[|a| - 1];
      Bucket(a[..|a| - 1], r, v) + if Key(r, last) == v then [last] else []
  }

  /** The elements of `a` with keys below `m`, by key and then by their order in `a`. */
  function SortedBelow(a: seq<int>, r: seq<int>, m: nat): seq<int> {
    if m == 0 then [] else SortedBelow(a, r, m - 1) + Bucket(a, r, m - 1)
  }

  /** The stable sort of `a` by keys in 0..K. */
  function StableSort(a: seq<int>, r: seq<int>, K: nat): seq<int> { SortedBelow(a, r, K + 1) }

  function Start(a: seq<int>, r: seq<int>, v: nat): nat { |SortedBelow(a, r, v)| }

  // ---- what the stable sort is ----

  lemma {:induction false} BucketMembers(a: seq<int>, r: seq<int>, v: int, x: int)
    ensures multiset(Bucket(a, r, v))[x] == if Key(r, x) == v then multiset(a)[x] else 0
  {
    if a != [] {
      BucketMembers(a[..|a| - 1], r, v, x);
      assert a == a[..|a| - 1] + [a[|a| - 1]];
    }
  }

  lemma SortedBelowNext(a: seq<int>, r: seq<int>, m: nat)
    ensures SortedBelow(a, r, 0) == []
    ensures SortedBelow(a, r, m + 1) == SortedBelow(a, r, m) + Bucket(a, r, m)
  {
  }

  lemma MultisetOfSum(a: seq<int>, b: seq<int>, x: int)
    ensures multiset(a + b)[x] == multiset(a)[x] + multiset(b)[x]
  {
  }

  lemma {:induction false} SortedBelowMembers(a: seq<int>, r: seq<int>, m: nat, x: int)
    ensures multiset(SortedBelow(a, r, m))[x] == if 0 <= Key(r, x) < m then multiset(a)[x] else 0
  {
    hide *;
    if m > 0 {
      SortedBelowMembers(a, r, m - 1, x);
      BucketMembers(a, r, m - 1, x);
      MultisetOfSum(SortedBelow(a, r, m - 1), Bucket(a, r, m - 1), x);
      SortedBelowNext(a, r, m - 1);
    } else {
      SortedBelowNext(a, r, 0);
    }
  }

  /** It is a rearrangement. */
  lemma StableSortPermutes(a: seq<int>, r: seq<int>, K: nat)
    requires KeysBelow(a, r, K + 1)
    ensures multiset(StableSort(a, r, K)) == multiset(a)
  {
    forall x ensures multiset(StableSort(a, r, K))[x] == multiset(a)[x] {
      SortedBelowMembers(a, r, K + 1, x);
      assert x in multiset(a) ==> x in a;
    }
  }

  lemma StableSortSize(a: seq<int>, r: seq<int>, K: nat)
    requires KeysBelow(a, r, K + 1)
    ensures |StableSort(a, r, K)| == |a|
    ensures forall x :: x in StableSort(a, r, K) <==> x in a
  {
    StableSortPermutes(a, r, K);
    assert |multiset(StableSort(a, r, K))| == |multiset(a)|;
    forall x ensures x in StableSort(a, r, K) <==> x in a {
      assert x in multiset(a) <==> x in multiset(StableSort(a, r, K));
    }
  }

  predicate Ordered(a: seq<int>, lt: (int, int) -> bool) {
    forall i, j :: 0 <= i < j < |a| ==> lt(a[i], a[j])
  }

  lemma {:induction false} BucketOrdered(a: seq<int>, r: seq<int>, v: int, lt: (int, int) -> bool)
    requires Ordered(a, lt)
    ensures Ordered(Bucket(a, r, v), lt)
    ensures forall x :: x in Bucket(a, r, v) ==> x in a && Key(r, x) == v
  {
    if a != [] {
      var front, last := a[..|a| - 1], a[|a| - 1];
      BucketOrdered(front, r, v, lt);
      var low := Bucket(front, r, v);
      forall i | 0 <= i < |low| ensures low[i] in a && lt(low[i], last) {
        assert low[i] in low;
        var k :| 0 <= k < |front| && front[k] == low[i];
        assert a[k] == low[i];
      }
    }
  }

  /** Sorted by key, and elements of equal key stay in the order `lt` they came in. */
  function ByKeyThen(r: seq<int>, lt: (int, int) -> bool): (int, int) -> bool {
    (x, y) => Key(r, x) < Key(r, y) || (Key(r, x) == Key(r, y) && lt(x, y))
  }

  lemma {:induction false} SortedBelowOrdered(a: seq<int>, r: seq<int>, m: nat, lt: (int, int) -> bool)
    requires Ordered(a, lt)
    ensures Ordered(SortedBelow(a, r, m), ByKeyThen(r, lt))
    ensures forall x :: x in SortedBelow(a, r, m) ==> Key(r, x) < m
  {
    hide SortedBelow, Bucket;
    SortedBelowNext(a, r, if m > 0 then m - 1 else 0);
    if m > 0 {
      SortedBelowOrdered(a, r, m - 1, lt);
      BucketOrdered(a, r, m - 1, lt);
      var low, high := SortedBelow(a, r, m - 1), Bucket(a, r, m - 1);
      forall i, j | 0 <= i < j < |low + high| ensures ByKeyThen(r, lt)((low + high)[i], (low + high)[j]) {
        if i < |low| <= j {
          assert low[i] in low && high[j - |low|] in high;
        } else if |low| <= i {
          assert high[i - |low|] in high && high[j - |low|] in high;
        }
      }
    }
  }

  lemma StableSortOrdered(a: seq<int>, r: seq<int>, K: nat, lt: (int, int) -> bool)
    requires Ordered(a, lt)
    ensures Ordered(StableSort(a, r, K), ByKeyThen(r, lt))
  {
    SortedBelowOrdered(a, r, K + 1, lt);
  }

  // ---- the counting method ----

  lemma {:induction false} StartMonotone(a: seq<int>, r: seq<int>, v: nat, w: nat)
    requires v < w
    ensures Start(a, r, v) + |Bucket(a, r, v)| <= Start(a, r, w)
  {
    if v + 1 < w {
      StartMonotone(a, r, v, w - 1);
    }
  }

  lemma StartNext(a: seq<int>, r: seq<int>, v: nat)
    ensures Start(a, r, 0) == 0 && Start(a, r, v + 1) == Start(a, r, v) + |Bucket(a, r, v)|
  {
  }

  lemma BucketNext(a: seq<int>, r: seq<int>, i: nat, v: int)
    requires i < |a|
    ensures Bucket(a[..i + 1], r, v) == Bucket(a[..i], r, v) + if Key(r, a[i]) == v then [a[i]] else []
  {
    assert a[..i + 1][..i] == a[..i];
  }

  lemma {:induction false} BucketPrefix(a: seq<int>, r: seq<int>, i: nat, v: int)
    requires i <= |a|
    ensures |Bucket(a[..i], r, v)| <= |Bucket(a, r, v)|
    ensures i < |a| && Key(r, a[i]) == v ==> |Bucket(a[..i], r, v)| < |Bucket(a, r, v)|
    decreases |a| - i
  {
    if i == |a| {
      assert a[..i] == a;
    } else {
      BucketNext(a, r, i, v);
      BucketPrefix(a, r, i + 1, v);
    }
  }

  lemma StartTotal(a: seq<int>, r: seq<int>, m: nat)
    requires KeysBelow(a, r, m) && m > 0
    ensures Start(a, r, m) == |a|
  {
    StableSortSize(a, r, m - 1);
  }

  /** Counts occurrences (the first two loops). */
  method CountKeys(a: array<int>, r: array<int>, off: nat, n: nat, K: nat) returns (c: array<int>)
    requires n <= a.Length && off <= r.Length
    requires forall i :: 0 <= i < n ==> 0 <= a[i] < r.Length - off && 0 <= r[off + a[i]] <= K
    ensures fresh(c) && c.Length == K + 1
    ensures forall v :: 0 <= v <= K ==> c[v] == |Bucket(a[..n], r[off..], v)|
  {
    c := new int[K + 1];
    for i := 0 to K + 1
      invariant forall v :: 0 <= v < i ==> c[v] == 0
    {
      c[i] := 0;
    }
    ghost var keys := r[off..];
    assert a[..0] == [];
    for i := 0 to n
      invariant r[off..] == keys
      invariant forall v :: 0 <= v <= K ==> c[v] == |Bucket(a[..i], keys, v)|
    {
      forall v | 0 <= v <= K
        ensures Bucket(a[..i + 1], keys, v) == Bucket(a[..i], keys, v) + if Key(keys, a[i]) == v then [a[i]] else []
      {
        BucketNext(a[..i + 1], keys, i, v);
        assert a[..i + 1][..i + 1] == a[..i + 1] && a[..i + 1][..i] == a[..i];
      }
      assert Key(keys, a[i]) == r[off + a[i]];
      c[r[off + a[i]]] := c[r[off + a[i]]] + 1;
    }
  }

  /** Exclusive prefix sums (the third loop). */
  method PrefixSums(c: array<int>, K: nat, ghost a: seq<int>, ghost keys: seq<int>)
    requires c.Length == K + 1
    requires forall v :: 0 <= v <= K ==> c[v] == |Bucket(a, keys, v)|
    modifies c
    ensures forall v :: 0 <= v <= K ==> c[v] == Start(a, keys, v)
  {
    hide SortedBelow, Bucket;
    StartNext(a, keys, 0);
    var i, sum := 0, 0;
    while i <= K
      invariant 0 <= i <= K + 1
      invariant sum == Start(a, keys, i)
      invariant forall v :: 0 <= v < i ==> c[v] == Start(a, keys, v)
      invariant forall v :: i <= v <= K ==> c[v] == |Bucket(a, keys, v)|
    {
      StartNext(a, keys, i);
      var t := c[i];
      c[i] := sum;
      sum := sum + t;
      i := i + 1;
    }
  }

  ghost predicate Placed(b: seq<int>, c: seq<int>, a: seq<int>, keys: seq<int>, i: nat, v: nat) {
    && v < |c| && i <= |a|
    && 0 <= c[v] == Start(a, keys, v) + |Bucket(a[..i], keys, v)| <= |b|
    && b[Start(a, keys, v)..c[v]] == Bucket(a[..i], keys, v)
  }

  /** Placing element `i` extends its own bucket and touches no other. */
  lemma PlaceOne(b: seq<int>, c: seq<int>, a: seq<int>, keys: seq<int>, i: nat, k: nat, v: nat)
    requires i < |a| && k == Key(keys, a[i]) < |c| && |a| <= |b|
    requires Placed(b, c, a, keys, i, k) && Placed(b, c, a, keys, i, v)
    requires c[k] < |b|
    ensures Placed(b[c[k] := a[i]], c[k := c[k] + 1], a, keys, i + 1, v)
  {
    hide SortedBelow, Bucket;
    BucketNext(a, keys, i, v);
    BucketPrefix(a, keys, i, v);
    BucketPrefix(a, keys, i, k);
    if k < v {
      StartMonotone(a, keys, k, v);
    } else if v < k {
      StartMonotone(a, keys, v, k);
    }
  }

  /** Distributes the elements to their places (the last loop). */
  method Distribute(a: array<int>, b: array<int>, r: array<int>, off: nat, n: nat, c: array<int>, K: nat)
    requires n <= a.Length && n <= b.Length && off <= r.Length && c.Length == K + 1
    requires b != a && b != r && c != a && c != b && c != r
    requires forall i :: 0 <= i < n ==> 0 <= a[i] < r.Length - off && 0 <= r[off + a[i]] <= K
    requires forall v :: 0 <= v <= K ==> c[v] == Start(a[..n], r[off..], v)
    modifies b, c
    ensures b[..n] == StableSort(a[..n], r[off..], K)
    ensures b[n..] == old(b[n..])
  {
    hide SortedBelow, Bucket;
    ghost var items, keys, tail := a[..n], r[off..], b[n..];
    assert KeysBelow(items, keys, K + 1);
    forall v: nat | v <= K ensures Placed(b[..n], c[..], items, keys, 0, v) {
      PlacedInitially(b[..n], c[..], items, keys, v, K);
    }
    for i := 0 to n
      invariant a[..n] == items && r[off..] == keys && b[n..] == tail
      invariant forall v: nat :: v <= K ==> Placed(b[..n], c[..], items, keys, i, v)
    {
      var x := a[i];
      var k := r[off + x];
      assert k == Key(keys, items[i]) && Placed(b[..n], c[..], items, keys, i, k);
      SlotFree(b[..n], c[..], items, keys, i, k, K);
      ghost var b0, c0 := b[..n], c[..];
      ghost var b1, c1, next := b0[c0[k] := x], c0[k := c0[k] + 1], i + 1;
      forall v: nat | v <= K ensures Placed(b1, c1, items, keys, next, v) {
        PlaceOne(b0, c0, items, keys, i, k, v);
      }
      b[c[k]] := x;
      c[k] := c[k] + 1;
      assert b[..n] == b1 && c[..] == c1;
    }
    AllPlaced(b[..n], c[..], items, keys, K);
  }

  lemma PlacedInitially(b: seq<int>, c: seq<int>, a: seq<int>, keys: seq<int>, v: nat, K: nat)
    requires KeysBelow(a, keys, K + 1) && v <= K < |c| && |b| == |a|
    requires c[v] == Start(a, keys, v)
    ensures Placed(b, c, a, keys, 0, v)
  {
    StartMonotone(a, keys, v, K + 1);
    StartTotal(a, keys, K + 1);
    assert a[..0] == [];
  }

  lemma SlotFree(b: seq<int>, c: seq<int>, a: seq<int>, keys: seq<int>, i: nat, k: nat, K: nat)
    requires KeysBelow(a, keys, K + 1) && k <= K && |b| == |a|
    requires i < |a| && k == Key(keys, a[i]) && Placed(b, c, a, keys, i, k)
    ensures c[k] < |b|
  {
    hide SortedBelow, Bucket;
    BucketPrefix(a, keys, i, k);
    StartMonotone(a, keys, k, K + 1);
    StartTotal(a, keys, K + 1);
  }

  lemma {:induction false} PlacedBelow(b: seq<int>, c: seq<int>, a: seq<int>, keys: seq<int>, m: nat, K: nat)
    requires KeysBelow(a, keys, K + 1) && |b| == |a| && m <= K + 1 == |c|
    requires forall v: nat :: v <= K ==> Placed(b, c, a, keys, |a|, v)
    ensures Start(a, keys, m) <= |b| && b[..Start(a, keys, m)] == SortedBelow(a, keys, m)
  {
    hide SortedBelow, Bucket;
    SortedBelowNext(a, keys, if m > 0 then m - 1 else 0);
    if m > 0 {
      PlacedBelow(b, c, a, keys, m - 1, K);
      assert Placed(b, c, a, keys, |a|, m - 1);
      assert a[..|a|] == a;
      StartNext(a, keys, m - 1);
    }
  }

  lemma AllPlaced(b: seq<int>, c: seq<int>, a: seq<int>, keys: seq<int>, K: nat)
    requires KeysBelow(a, keys, K + 1) && |b| == |a| && K + 1 == |c|
    requires forall v: nat :: v <= K ==> Placed(b, c, a, keys, |a|, v)
    ensures b == StableSort(a, keys, K)
  {
    PlacedBelow(b, c, a, keys, K + 1, K);
    StartTotal(a, keys, K + 1);
  }

  /** `radixPass`: leaves in `b` the first `n` elements of `a`, stably sorted by the keys `r[off..]`. */
  method RadixPass(a: array<int>, b: array<int>, r: array<int>, off: nat, n: nat, K: nat)
    requires n <= a.Length && n <= b.Length && off <= r.Length
    requires b != a && b != r
    requires forall i :: 0 <= i < n ==> 0 <= a[i] < r.Length - off && 0 <= r[off + a[i]] <= K
    modifies b
    ensures b[..n] == StableSort(a[..n], r[off..], K)
    ensures b[n..] == old(b[n..])
  {
    hide SortedBelow, Bucket;
    var c := CountKeys(a, r, off, n, K);
    PrefixSums(c, K, a[..n], r[off..]);
    Distribute(a, b, r, off, n, c, K);
  }
}
