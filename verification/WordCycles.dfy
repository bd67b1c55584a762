/** Words whose stretches may be rotated, and how far rotating three neighbours at a time can sort them. */
module WordCycles {
  import opened Counting

  /** The stretch of `m` letters from `p` on, its last letter moved to the front. */
  function RotR(w: seq<nat>, p: nat, m: nat): (r: seq<nat>)
    requires 0 < m && p + m <= |w|
    ensures |r| == |w|
  {
    seq(|w|, x requires 0 <= x < |w| => if x == p then w[p + m - 1] else if p < x < p + m then w[x - 1] else w[x])
  }

  /** Its first letter moved to the end. */
  function RotL(w: seq<nat>, p: nat, m: nat): (r: seq<nat>)
    requires 0 < m && p + m <= |w|
    ensures |r| == |w|
  {
    seq(|w|, x requires 0 <= x < |w| => if x == p + m - 1 then w[p] else if p <= x < p + m - 1 then w[x + 1] else w[x])
  }

  /** Rotating a long stretch around a rotation of three moves the latter by one place. */
  lemma ShiftedRight(w: seq<nat>, s: nat, m: nat, j: nat)
    requires 0 < m && s + m <= |w| && s <= j && j + 4 <= s + m
    ensures RotL(RotR(RotR(w, s, m), j + 1, 3), s, m) == RotR(w, j, 3)
  {
    var a := RotR(w, s, m);
    var b := RotR(a, j + 1, 3);
    var c := RotL(b, s, m);
    forall x | 0 <= x < |w|
      ensures c[x] == RotR(w, j, 3)[x]
    {
      if s <= x < s + m - 1 {
        assert c[x] == b[x + 1];
      }
    }
  }

  lemma ShiftedLeft(w: seq<nat>, s: nat, m: nat, j: nat)
    requires 0 < m && s + m <= |w| && s < j && j + 3 <= s + m
    ensures RotR(RotR(RotL(w, s, m), j - 1, 3), s, m) == RotR(w, j, 3)
  {
    var a := RotL(w, s, m);
    var b := RotR(a, j - 1, 3);
    var c := RotR(b, s, m);
    forall x | 0 <= x < |w|
      ensures c[x] == RotR(w, j, 3)[x]
    {
      if s < x < s + m {
        assert c[x] == b[x - 1];
      }
    }
  }

  ghost predicate SameLetters(w: seq<nat>, v: seq<nat>) {
    |w| == |v| && Distinct(w) && Distinct(v) && forall x :: x in w <==> x in v
  }

  lemma RotKeeps(w: seq<nat>, p: nat, m: nat)
    requires 0 < m && p + m <= |w| && Distinct(w)
    ensures SameLetters(RotR(w, p, m), w)
  {
    var r := RotR(w, p, m);
    forall x, y | 0 <= x < y < |r|
      ensures r[x] != r[y]
    {
      var x' := if x == p then p + m - 1 else if p < x < p + m then x - 1 else x;
      var y' := if y == p then p + m - 1 else if p < y < p + m then y - 1 else y;
      assert r[x] == w[x'] && r[y] == w[y'] && x' != y';
    }
    forall x | x in w
      ensures x in r
    {
      var i :| 0 <= i < |w| && w[i] == x;
      assert r[if i == p + m - 1 then p else if p <= i < p + m - 1 then i + 1 else i] == x;
    }
  }

  predicate Inside(js: seq<nat>, n: nat) { forall i :: 0 <= i < |js| ==> js[i] + 3 <= n }

  /** Rotations of three, at the places `js` in turn. */
  function Tris(w: seq<nat>, js: seq<nat>): (r: seq<nat>)
    requires Inside(js, |w|)
    ensures |r| == |w|
    decreases |js|
  {
    if js == [] then w else Tris(RotR(w, js[0], 3), js[1..])
  }

  lemma {:induction false} TrisJoin(w: seq<nat>, js: seq<nat>, ks: seq<nat>)
    requires Inside(js, |w|) && Inside(ks, |w|)
    ensures Inside(js + ks, |w|) && Tris(w, js + ks) == Tris(Tris(w, js), ks)
    decreases |js|
  {
    if js == [] {
      assert js + ks == ks;
    } else {
      TrisJoin(RotR(w, js[0], 3), js[1..], ks);
      assert (js + ks)[1..] == js[1..] + ks;
    }
  }

  lemma {:induction false} TrisKeep(w: seq<nat>, js: seq<nat>)
    requires Inside(js, |w|) && Distinct(w)
    ensures SameLetters(Tris(w, js), w)
    decreases |js|
  {
    if js != [] {
      RotKeeps(w, js[0], 3);
      TrisKeep(RotR(w, js[0], 3), js[1..]);
    }
  }

  /** A letter can be brought forward to any place that has two after it, past letters that stay in order before it. */
  lemma {:induction false} BringTo(w: seq<nat>, i: nat, k: nat) returns (js: seq<nat>)
    requires k <= i < |w| && k + 3 <= |w|
    ensures Inside(js, |w|) && Tris(w, js)[..k] == w[..k] && Tris(w, js)[k] == w[i]
    decreases i - k
  {
    if i == k {
      js := [];
    } else if i == k + 1 {
      var a := RotR(w, k, 3);
      js := [k, k];
      assert js[1..] == [k] && js[1..][1..] == [];
      assert Tris(w, js) == Tris(a, [k]) == Tris(RotR(a, k, 3), []);
      assert RotR(a, k, 3)[..k] == w[..k];
    } else {
      var a := RotR(w, i - 2, 3);
      var ks := BringTo(a, i - 2, k);
      js := [i - 2] + ks;
      assert js[1..] == ks;
      assert a[..k] == w[..k];
    }
  }

  /** All letters but the last two can be put in their places. */
  lemma {:induction false} SortTo(w: seq<nat>, v: seq<nat>, k: nat) returns (js: seq<nat>)
    requires SameLetters(w, v) && k + 2 <= |w| && w[..k] == v[..k]
    ensures Inside(js, |w|) && Tris(w, js)[..|w| - 2] == v[..|w| - 2] && SameLetters(Tris(w, js), v)
    decreases |w| - k
  {
    if k + 2 == |w| {
      js := [];
    } else {
      forall x | 0 <= x < k
        ensures w[x] != v[k]
      {
        assert w[x] == w[..k][x] == v[..k][x];
      }
      assert v[k] in w;
      var i :| 0 <= i < |w| && w[i] == v[k];
      var ks := BringTo(w, i, k);
      var a := Tris(w, ks);
      TrisKeep(w, ks);
      assert a[..k + 1] == a[..k] + [a[k]] && v[..k + 1] == v[..k] + [v[k]];
      var ls := SortTo(a, v, k + 1);
      TrisJoin(w, ks, ls);
      js := ks + ls;
    }
  }

  /** The last two are then in place, or exchanged. */
  lemma LastTwo(w: seq<nat>, v: seq<nat>)
    requires SameLetters(w, v) && 2 <= |w| && w[..|w| - 2] == v[..|w| - 2]
    ensures w == v || w == v[|v| - 2 := v[|v| - 1]][|v| - 1 := v[|v| - 2]]
  {
    var n := |w|;
    forall x | 0 <= x < n - 2
      ensures w[x] == v[x] && w[x] != v[n - 1] && w[x] != v[n - 2] && v[x] != w[n - 1] && v[x] != w[n - 2]
    {
      assert w[x] == w[..n - 2][x] == v[..n - 2][x] == v[x];
    }
    assert v[n - 1] in w && v[n - 2] in w;
    var i :| 0 <= i < n && w[i] == v[n - 1];
    var j :| 0 <= j < n && w[j] == v[n - 2];
    assert i >= n - 2 && j >= n - 2 && i != j;
  }

  // ---- a gap that moves through a row of letters ----

  /** The letters without the one at `b`. */
  function Without(lin: seq<nat>, b: nat): (w: seq<nat>)
    requires b < |lin|
    ensures |w| == |lin| - 1
  {
    lin[..b] + lin[b + 1..]
  }

  /** The gap at `b` and the letter at `c` change places. */
  function Jump(lin: seq<nat>, b: nat, c: nat): (r: seq<nat>)
    requires b < |lin| && c < |lin|
    ensures |r| == |lin|
  {
    lin[b := lin[c]][c := lin[b]]
  }

  lemma WithoutAt(lin: seq<nat>, b: nat, x: nat)
    requires b < |lin| && x + 1 < |lin|
    ensures Without(lin, b)[x] == lin[if x < b then x else x + 1]
  {
  }

  /** A letter that jumps back over `m - 1` others rotates a stretch of `m`. */
  lemma JumpRight(lin: seq<nat>, b: nat, m: nat)
    requires 0 < m && b + m < |lin|
    ensures Without(Jump(lin, b, b + m), b + m) == RotR(Without(lin, b), b, m)
  {
    var l, r := Without(Jump(lin, b, b + m), b + m), RotR(Without(lin, b), b, m);
    forall x | 0 <= x < |l|
      ensures l[x] == r[x]
    {
      WithoutAt(Jump(lin, b, b + m), b + m, x);
      WithoutAt(lin, b, x);
      WithoutAt(lin, b, b + m - 1);
      if x > 0 {
        WithoutAt(lin, b, x - 1);
      }
    }
  }

  lemma JumpLeft(lin: seq<nat>, b: nat, m: nat)
    requires 0 < m && b + m < |lin|
    ensures Without(Jump(lin, b + m, b), b) == RotL(Without(lin, b + m), b, m)
  {
    var l, r := Without(Jump(lin, b + m, b), b), RotL(Without(lin, b + m), b, m);
    forall x | 0 <= x < |l|
      ensures l[x] == r[x]
    {
      WithoutAt(Jump(lin, b + m, b), b, x);
      WithoutAt(lin, b + m, x);
      WithoutAt(lin, b + m, b);
      if x + 1 < |l| {
        WithoutAt(lin, b + m, x + 1);
      }
    }
  }

  /** To the next place and no further, the word stays. */
  lemma JumpOne(w: seq<nat>, p: nat)
    requires p < |w|
    ensures RotR(w, p, 1) == w && RotL(w, p, 1) == w
  {
  }

  /** A word and its gap determine the row. */
  lemma RowFromWord(lin: seq<nat>, b: nat)
    requires b < |lin|
    ensures forall x :: 0 <= x < |lin| && x != b ==> lin[x] == Without(lin, b)[if x < b then x else x - 1]
  {
  }
}
