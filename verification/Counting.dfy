/** Counting the elements of lists without repetitions. */
module Counting {
  predicate Distinct<T(==)>(a: seq<T>) { forall i, j :: 0 <= i < j < |a| ==> a[i] != a[j] }

  lemma {:induction false} DistinctSize<T>(a: seq<T>)
    requires Distinct(a)
    ensures |set x | x in a| == |a|
  {
    if a != [] {
      var front, last := a[..|a| - 1], a[|a| - 1];
      DistinctSize(front);
      assert (set x | x in a) == (set x | x in front) + {last};
    }
  }

  function Range(m: nat): (r: set<int>)
    ensures |r| == m && forall x :: x in r <==> 0 <= x < m
  {
    if m == 0 then {} else Range(m - 1) + {m - 1}
  }

  lemma SubsetSize<T>(a: set<T>, b: set<T>)
    requires a <= b
    ensures |a| <= |b|
  {
    assert b == a + (b - a);
  }

  /** Distinct numbers below `m` are at most `m` many. */
  lemma DistinctBelow(a: seq<int>, m: nat)
    requires Distinct(a) && forall i :: 0 <= i < |a| ==> 0 <= a[i] < m
    ensures |a| <= m
  {
    DistinctSize(a);
    SubsetSize((set x | x in a), Range(m));
  }

  /** A list of `m` numbers below `m` has no repetition exactly when every number occurs. */
  lemma AllPresent(a: seq<nat>, m: nat)
    requires |a| == m && forall k :: 0 <= k < m ==> a[k] < m
    ensures Distinct(a) <==> forall x :: 0 <= x < m ==> x in a
  {
    var b: seq<int> := a;
    var used := set x | x in b;
    if Distinct(b) {
      DistinctSize(b);
      forall x | 0 <= x < m
        ensures x in b
      {
        if x !in used {
          SubsetSize(used + {x}, Range(m));
        }
      }
    }
    if forall x :: 0 <= x < m ==> x in b {
      SubsetSize(Range(m), used);
      ManyDistinct(b);
    }
  }

  lemma {:induction false} ManyDistinct(a: seq<int>)
    ensures var used := set x | x in a; |used| <= |a| && (|used| == |a| ==> Distinct(a))
  {
    if a != [] {
      var front, last := a[..|a| - 1], a[|a| - 1];
      ManyDistinct(front);
      var used := set x | x in a;
      var before := set x | x in front;
      assert used == before + {last};
      if last in before {
        assert used == before;
      } else {
        assert forall i :: 0 <= i < |front| ==> front[i] in before;
      }
    }
  }

  /** The same, by counting: no number occurs twice. */
  ghost predicate Once(s: seq<nat>) { forall p: nat :: multiset(s)[p] <= 1 }

  lemma {:induction false} OnceIsDistinct(s: seq<nat>)
    ensures Once(s) <==> Distinct(s)
  {
    if s != [] {
      var front: seq<nat> := s[..|s| - 1];
      var last := s[|s| - 1];
      OnceIsDistinct(front);
      assert s == front + [last];
      assert forall p: nat :: multiset(s)[p] == multiset(front)[p] + if p == last then 1 else 0;
      if last in front {
        var i :| 0 <= i < |front| && front[i] == last;
        assert s[i] == s[|s| - 1];
        assert multiset(s)[last] > 1;
      } else {
        assert multiset(front)[last] == 0;
        if Distinct(front) {
          assert forall i :: 0 <= i < |front| ==> front[i] != last;
        }
        if Distinct(s) {
          assert forall i :: 0 <= i < |front| ==> front[i] == s[i];
        }
        if Once(s) {
          assert forall p: nat :: multiset(front)[p] <= multiset(s)[p];
        }
      }
    }
  }

  lemma OnceParts(s: seq<nat>, a: seq<nat>, b: seq<nat>)
    requires Once(s) && multiset(s) == multiset(a) + multiset(b)
    ensures Once(a) && Once(b)
    ensures forall p :: p in a ==> p !in b
  {
    forall z: nat
      ensures multiset(a)[z] <= 1 && multiset(b)[z] <= 1 && !(z in a && z in b)
    {
      assert multiset(s)[z] == multiset(a)[z] + multiset(b)[z] <= 1;
    }
  }

  lemma SameMembers(a: seq<nat>, b: seq<nat>, p: nat)
    requires multiset(a) == multiset(b)
    ensures p in a <==> p in b
  {
    assert p in a <==> p in multiset(a);
    assert p in b <==> p in multiset(b);
  }
}
