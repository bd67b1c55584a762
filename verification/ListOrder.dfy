/** Sorting a list with a comparison that fills in the keys while it compares: orders, merging, and links. */
module ListOrder {
  import opened Counting

  /** `cmp_complex`, or `cmp_idx` with or without regenerating the data. */
  datatype Mode = ByData | ByIdx(regen: bool)

  datatype Info = Info(data16: int, idx: int)

  /** Bit 7 of the data: the low seven bits are a remembered result. */
  predicate Cached(data: int) { data / 128 % 2 == 1 }

  /** The data with its upper byte copied into the lower. */
  function Regenerated(data: int): int { data - data % 256 + data / 256 % 256 }

  /** A comparison has been here before. */
  predicate Touched(m: Mode, x: Info) {
    match m
    case ByData => Cached(x.data16)
    case ByIdx(regen) => regen ==> x.data16 == Regenerated(x.data16)
  }

  function Key(m: Mode, x: Info): int {
    match m
    case ByData => x.data16 % 128
    case ByIdx(_) => x.idx
  }

  /** What comparisons may do to an element: nothing once touched, and never change index or upper byte. */
  predicate Evolves(m: Mode, x: Info, x': Info) {
    && x'.idx == x.idx && x'.data16 / 256 == x.data16 / 256
    && (Touched(m, x) ==> x' == x)
    && (m.ByIdx? ==> x'.data16 == x.data16 || x'.data16 == Regenerated(x.data16))
  }

  /** What is left of an element `x` that has been compared, in plain arithmetic: its index and upper byte always;
      then a low byte with bit 7 set that never changes again, a copy of the upper byte, or the old low byte. */
  predicate Settled(m: Mode, x: Info, x': Info) {
    && x'.idx == x.idx && x'.data16 / 256 == x.data16 / 256
    && match m
       case ByData => x'.data16 / 128 % 2 == 1 && (x.data16 / 128 % 2 == 1 ==> x'.data16 == x.data16)
       case ByIdx(true) => x'.data16 % 256 == x'.data16 / 256 % 256
       case ByIdx(false) => x'.data16 == x.data16
  }

  ghost predicate AllEvolve(m: Mode, view: seq<Info>, view': seq<Info>) {
    |view'| == |view| && forall i :: 0 <= i < |view| ==> Evolves(m, view[i], view'[i])
  }

  lemma RegeneratedFacts(data: int)
    ensures Regenerated(data) / 256 == data / 256 && Regenerated(Regenerated(data)) == Regenerated(data)
  {
  }

  /** Regenerating copies the upper byte of the data into the lower one and keeps the upper one. */
  lemma RegeneratedIs(data: int)
    ensures Regenerated(data) % 256 == data / 256 % 256 && Regenerated(data) / 256 == data / 256
  {
  }

  lemma TouchedIsSettled(m: Mode, x: Info, x': Info)
    requires Evolves(m, x, x') && Touched(m, x')
    ensures Settled(m, x, x')
  {
    RegeneratedIs(x'.data16);
    hide Regenerated;
  }

  lemma EvolvesTrans(m: Mode, x: Info, y: Info, z: Info)
    requires Evolves(m, x, y) && Evolves(m, y, z)
    ensures Evolves(m, x, z) && (Touched(m, x) ==> Touched(m, y))
  {
    RegeneratedFacts(x.data16);
    RegeneratedFacts(y.data16);
    hide Regenerated, Cached;
  }

  lemma AllEvolveTrans(m: Mode, u: seq<Info>, v: seq<Info>, w: seq<Info>)
    requires AllEvolve(m, u, v) && AllEvolve(m, v, w)
    ensures AllEvolve(m, u, w)
  {
    hide Evolves;
    forall i | 0 <= i < |u|
      ensures Evolves(m, u[i], w[i])
    {
      EvolvesTrans(m, u[i], v[i], w[i]);
    }
  }

  lemma AllEvolveRefl(m: Mode, u: seq<Info>)
    ensures AllEvolve(m, u, u)
  {
  }

  // ---- the order ----

  /** Elements are known by their places in the original list. Both keys are known and in order, and equal
      keys stay in the original order. */
  predicate Le(m: Mode, view: seq<Info>, i: nat, j: nat) {
    && i < |view| && j < |view| && Touched(m, view[i]) && Touched(m, view[j])
    && (Key(m, view[i]) < Key(m, view[j]) || (Key(m, view[i]) == Key(m, view[j]) && i < j))
  }

  ghost predicate Ordered(m: Mode, view: seq<Info>, s: seq<nat>) {
    forall k, l :: 0 <= k < l < |s| ==> Le(m, view, s[k], s[l])
  }

  lemma LeTrans(m: Mode, view: seq<Info>, i: nat, j: nat, k: nat)
    requires Le(m, view, i, j) && Le(m, view, j, k)
    ensures Le(m, view, i, k)
  {
  }

  lemma LeEvolves(m: Mode, view: seq<Info>, view': seq<Info>, i: nat, j: nat)
    requires Le(m, view, i, j) && AllEvolve(m, view, view')
    ensures Le(m, view', i, j)
  {
    hide Touched, Key;
    assert Evolves(m, view[i], view'[i]) && Evolves(m, view[j], view'[j]);
  }

  /** Later comparisons keep what is in order in order. */
  lemma OrderedEvolves(m: Mode, view: seq<Info>, view': seq<Info>, s: seq<nat>)
    requires Ordered(m, view, s) && AllEvolve(m, view, view')
    ensures Ordered(m, view', s)
  {
    hide Le, AllEvolve;
    forall k, l | 0 <= k < l < |s|
      ensures Le(m, view', s[k], s[l])
    {
      LeEvolves(m, view, view', s[k], s[l]);
    }
  }

  /** The order in plain terms: by the low seven bits of the data or by index, and equal keys by first place. */
  lemma OrderedMeans(m: Mode, view: seq<Info>, s: seq<nat>, k: nat, l: nat)
    requires Ordered(m, view, s) && k < l < |s|
    ensures s[k] < |view| && s[l] < |view|
    ensures var x, y := view[s[k]], view[s[l]];
            var lo, hi := if m.ByData? then x.data16 % 128 else x.idx, if m.ByData? then y.data16 % 128 else y.idx;
            lo < hi || (lo == hi && s[k] < s[l])
  {
    assert Le(m, view, s[k], s[l]);
  }

  /** Everything in an ordered list of two or more has been compared. */
  lemma OrderedTouched(m: Mode, view: seq<Info>, s: seq<nat>, k: nat)
    requires Ordered(m, view, s) && |s| >= 2 && k < |s|
    ensures s[k] < |view| && Touched(m, view[s[k]])
  {
    hide Touched, Key;
    if k > 0 {
      assert Le(m, view, s[0], s[k]);
    } else {
      assert Le(m, view, s[0], s[1]);
    }
  }

  // ---- merging ----

  ghost predicate AllBelow(a: seq<nat>, b: seq<nat>) { forall x, y :: x in a && y in b ==> x < y }

  /** Two runs partly merged into `out`. */
  ghost predicate Merging(m: Mode, view: seq<Info>, out: seq<nat>, a: seq<nat>, b: seq<nat>) {
    Ordered(m, view, out + a) && Ordered(m, view, out + b) && AllBelow(a, b)
  }

  lemma MergeStarts(m: Mode, view: seq<Info>, a: seq<nat>, b: seq<nat>)
    requires Ordered(m, view, a) && Ordered(m, view, b) && AllBelow(a, b)
    ensures Merging(m, view, [], a, b)
  {
    assert [] + a == a && [] + b == b;
  }

  lemma OrderedCat(m: Mode, view: seq<Info>, s: seq<nat>, x: nat, t: seq<nat>)
    requires Ordered(m, view, s + [x]) && Ordered(m, view, s + t) && (t != [] ==> Le(m, view, x, t[0]))
    ensures Ordered(m, view, s + [x] + t)
  {
    hide Le;
    var all := s + [x] + t;
    forall k, l | 0 <= k < l < |all|
      ensures Le(m, view, all[k], all[l])
    {
      if l <= |s| {
        assert all[k] == (s + [x])[k] && all[l] == (s + [x])[l];
      } else if k != |s| {
        var k' := if k < |s| then k else k - 1;
        assert all[k] == (s + t)[k'] && all[l] == (s + t)[l - 1];
      } else if l > |s| + 1 {
        assert all[l] == (s + t)[l - 1] && t[0] == (s + t)[|s|];
        LeTrans(m, view, x, t[0], all[l]);
      }
    }
  }

  lemma OrderedPrefix(m: Mode, view: seq<Info>, s: seq<nat>, t: seq<nat>)
    requires Ordered(m, view, s + t)
    ensures Ordered(m, view, s) && Ordered(m, view, t)
  {
    hide Le;
    forall k, l | 0 <= k < l < |s|
      ensures Le(m, view, s[k], s[l])
    {
      assert s[k] == (s + t)[k] && s[l] == (s + t)[l];
    }
    forall k, l | 0 <= k < l < |t|
      ensures Le(m, view, t[k], t[l])
    {
      assert t[k] == (s + t)[|s| + k] && t[l] == (s + t)[|s| + l];
    }
  }

  lemma TakeFirst(m: Mode, view: seq<Info>, out: seq<nat>, a: seq<nat>, b: seq<nat>)
    requires Merging(m, view, out, a, b) && a != [] && (b != [] ==> Le(m, view, a[0], b[0]))
    ensures Merging(m, view, out + [a[0]], a[1..], b)
  {
    hide Le, Ordered;
    assert out + a == (out + [a[0]]) + a[1..];
    assert forall x :: x in a[1..] ==> x in a;
    OrderedPrefix(m, view, out + [a[0]], a[1..]);
    OrderedCat(m, view, out, a[0], b);
  }

  lemma TakeSecond(m: Mode, view: seq<Info>, out: seq<nat>, a: seq<nat>, b: seq<nat>)
    requires Merging(m, view, out, a, b) && b != [] && (a != [] ==> Le(m, view, b[0], a[0]))
    ensures Merging(m, view, out + [b[0]], a, b[1..])
  {
    hide Le, Ordered;
    assert out + b == (out + [b[0]]) + b[1..];
    assert forall x :: x in b[1..] ==> x in b;
    OrderedPrefix(m, view, out + [b[0]], b[1..]);
    OrderedCat(m, view, out, b[0], a);
  }

  lemma MergeEnds(m: Mode, view: seq<Info>, out: seq<nat>)
    requires Merging(m, view, out, [], [])
    ensures Ordered(m, view, out)
  {
    assert out + [] == out;
  }

  lemma MergingEvolves(m: Mode, view: seq<Info>, view': seq<Info>, out: seq<nat>, a: seq<nat>, b: seq<nat>)
    requires Merging(m, view, out, a, b) && AllEvolve(m, view, view')
    ensures Merging(m, view', out, a, b)
  {
    hide Ordered, AllEvolve;
    OrderedEvolves(m, view, view', out + a);
    OrderedEvolves(m, view, view', out + b);
  }

  /** The comparison of the two heads decides which one is next, equal keys going to the first run. */
  lemma Compared(m: Mode, view: seq<Info>, out: seq<nat>, a: seq<nat>, b: seq<nat>)
    requires Merging(m, view, out, a, b) && a != [] && b != [] && a[0] < |view| && b[0] < |view|
    requires Touched(m, view[a[0]]) && Touched(m, view[b[0]])
    ensures if Key(m, view[a[0]]) <= Key(m, view[b[0]]) then Le(m, view, a[0], b[0]) else Le(m, view, b[0], a[0])
  {
    hide Touched, Key, Ordered;
    assert a[0] in a && b[0] in b;
  }

  // ---- what sortedness determines ----

  /** There is only one way to arrange the same elements in order. */
  lemma {:induction false} OrderUnique(m: Mode, view: seq<Info>, s: seq<nat>, t: seq<nat>)
    requires Ordered(m, view, s) && Ordered(m, view, t) && multiset(s) == multiset(t)
    ensures s == t
    decreases |s|
  {
    hide Le, Ordered;
    if s == [] {
      assert |t| == |multiset(t)| == |multiset(s)| == 0;
    } else {
      var x := s[0];
      SameMembers(s, t, x);
      assert |t| == |multiset(t)| == |multiset(s)| == |s|;
      var y := t[0];
      SameMembers(s, t, y);
      FirstIsLeast(m, view, s, y);
      FirstIsLeast(m, view, t, x);
      if x != y {
        LeAntisym(m, view, x, y);
      }
      assert s == [x] + s[1..] && t == [y] + t[1..];
      assert multiset(s[1..]) == multiset(s) - multiset{x};
      assert multiset(t[1..]) == multiset(t) - multiset{y};
      OrderedPrefix(m, view, [x], s[1..]);
      OrderedPrefix(m, view, [y], t[1..]);
      OrderUnique(m, view, s[1..], t[1..]);
    }
  }

  lemma LeAntisym(m: Mode, view: seq<Info>, x: nat, y: nat)
    requires Le(m, view, x, y)
    ensures !Le(m, view, y, x)
  {
  }

  lemma FirstIsLeast(m: Mode, view: seq<Info>, s: seq<nat>, y: nat)
    requires Ordered(m, view, s) && y in s
    ensures y == s[0] || Le(m, view, s[0], y)
  {
    hide Le;
    var i :| 0 <= i < |s| && s[i] == y;
    if i > 0 {
      assert Le(m, view, s[0], s[i]);
    }
  }

  /** Sorting by data and then back by index, with regeneration, leaves every element as it was. */
  lemma DataRestored(u: seq<Info>, v: seq<Info>, w: seq<Info>, i: nat)
    requires AllEvolve(ByData, u, v) && AllEvolve(ByIdx(true), v, w) && i < |u|
    requires Touched(ByIdx(true), u[i]) && Touched(ByIdx(true), w[i])
    ensures w[i] == u[i]
  {
    assert Evolves(ByData, u[i], v[i]) && Evolves(ByIdx(true), v[i], w[i]);
    UpperByteDecides(u[i].data16, w[i].data16);
  }

  lemma UpperByteDecides(a: int, b: int)
    requires a == Regenerated(a) && b == Regenerated(b) && a / 256 == b / 256
    ensures a == b
  {
  }

  // ---- links ----

  // `nx[i]` is the place of the element that element `i` links to, or -1.

  predicate Chain(nx: seq<int>, s: seq<nat>) {
    |s| > 0 ==> s[0] < |nx| && (|s| > 1 ==> nx[s[0]] == s[1]) && Chain(nx, s[1..])
  }

  /** A chain that ends in the null link. */
  predicate ChainEnd(nx: seq<int>, s: seq<nat>) {
    |s| > 0 ==> s[0] < |nx| && nx[s[0]] == First(s[1..]) && ChainEnd(nx, s[1..])
  }

  function First(s: seq<nat>): int { if s == [] then -1 else s[0] }

  function LinkTo(nx: seq<int>, done: seq<nat>, e: nat): seq<int>
    requires done != [] ==> done[|done| - 1] < |nx|
  {
    if done == [] then nx else nx[done[|done| - 1] := e]
  }

  lemma {:induction false} ChainFrame(nx: seq<int>, s: seq<nat>, i: nat, x: int)
    requires Chain(nx, s) && i < |nx| && i !in s
    ensures Chain(nx[i := x], s)
  {
    if s != [] {
      ChainFrame(nx, s[1..], i, x);
    }
  }

  lemma {:induction false} ChainEndFrame(nx: seq<int>, s: seq<nat>, i: nat, x: int)
    requires ChainEnd(nx, s) && i < |nx| && i !in s
    ensures ChainEnd(nx[i := x], s)
  {
    if s != [] {
      ChainEndFrame(nx, s[1..], i, x);
    }
  }

  lemma {:induction false} ChainIn(nx: seq<int>, s: seq<nat>, x: nat)
    requires (Chain(nx, s) || ChainEnd(nx, s)) && x in s
    ensures x < |nx|
  {
    if x != s[0] {
      if Chain(nx, s) {
        ChainIn(nx, s[1..], x);
      } else {
        ChainIn(nx, s[1..], x);
      }
    }
  }

  /** Linking the last element to a new one. */
  lemma {:induction false} ChainAppend(nx: seq<int>, s: seq<nat>, e: nat)
    requires s != [] && Chain(nx, s) && Once(s) && e < |nx|
    ensures s[|s| - 1] < |nx| && Chain(nx[s[|s| - 1] := e], s + [e])
  {
    ChainIn(nx, s, s[|s| - 1]);
    OnceIsDistinct(s);
    if |s| == 1 {
      assert (s + [e])[1..] == [e];
    } else {
      assert (s + [e])[1..] == s[1..] + [e];
      OnceParts(s, [s[0]], s[1..]) by { assert s == [s[0]] + s[1..]; }
      ChainAppend(nx, s[1..], e);
    }
  }

  /** Terminating a chain. */
  lemma {:induction false} ChainClosed(nx: seq<int>, s: seq<nat>)
    requires s != [] && Chain(nx, s) && Once(s)
    ensures s[|s| - 1] < |nx| && ChainEnd(nx[s[|s| - 1] := -1], s)
  {
    ChainIn(nx, s, s[|s| - 1]);
    OnceIsDistinct(s);
    if |s| > 1 {
      OnceParts(s, [s[0]], s[1..]) by { assert s == [s[0]] + s[1..]; }
      ChainClosed(nx, s[1..]);
    } else {
      assert s[1..] == [];
    }
  }

  lemma {:induction false} ChainSplit(nx: seq<int>, s: seq<nat>, t: seq<nat>)
    requires ChainEnd(nx, s + t)
    ensures Chain(nx, s) && ChainEnd(nx, t)
  {
    if s == [] {
      assert s + t == t;
    } else {
      assert (s + t)[1..] == s[1..] + t;
      ChainSplit(nx, s[1..], t);
    }
  }

  /** The links in the middle of a merge: what is done, what is left of the first run, and what is left from the
      second run on. */
  ghost predicate Links(nx: seq<int>, done: seq<nat>, a: seq<nat>, bs: seq<nat>) {
    Once(done + a + bs) && Chain(nx, done) && Chain(nx, a) && ChainEnd(nx, bs)
  }

  lemma LinksParts(done: seq<nat>, a: seq<nat>, bs: seq<nat>, e: nat)
    requires Once(done + a + bs)
    ensures Once(done) && (forall x :: x in done ==> x !in a && x !in bs)
    ensures Once(a + bs)
  {
    assert done + a + bs == done + (a + bs);
    OnceParts(done + a + bs, done, a + bs);
    assert forall x :: x in a ==> x in a + bs;
    assert forall x :: x in bs ==> x in a + bs;
  }

  lemma LinkFirst(nx: seq<int>, done: seq<nat>, a: seq<nat>, bs: seq<nat>)
    requires Links(nx, done, a, bs) && a != []
    ensures a[0] < |nx| && (|a| > 1 ==> nx[a[0]] == a[1]) && (done != [] ==> done[|done| - 1] < |nx|)
    ensures Links(LinkTo(nx, done, a[0]), done + [a[0]], a[1..], bs)
  {
    hide Once;
    var e := a[0];
    LinksParts(done, a, bs, e);
    assert done + a + bs == (done + [e]) + a[1..] + bs;
    if done == [] {
      assert done + [e] == [e];
      assert [e][1..] == [];
    } else {
      var last := done[|done| - 1];
      ChainIn(nx, done, last);
      assert forall x :: x in a[1..] ==> x in a;
      ChainAppend(nx, done, e);
      ChainFrame(nx, a[1..], last, e);
      ChainEndFrame(nx, bs, last, e);
    }
  }

  lemma LinkSecond(nx: seq<int>, done: seq<nat>, a: seq<nat>, bs: seq<nat>)
    requires Links(nx, done, a, bs) && bs != []
    ensures bs[0] < |nx| && nx[bs[0]] == First(bs[1..]) && (done != [] ==> done[|done| - 1] < |nx|)
    ensures Links(LinkTo(nx, done, bs[0]), done + [bs[0]], a, bs[1..])
  {
    hide Once;
    var e := bs[0];
    LinksParts(done, a, bs, e);
    OncePermuted(done, a, bs);
    if done == [] {
      assert done + [e] == [e];
      assert [e][1..] == [];
    } else {
      var last := done[|done| - 1];
      ChainIn(nx, done, last);
      assert forall x :: x in bs[1..] ==> x in bs;
      ChainAppend(nx, done, e);
      ChainFrame(nx, a, last, e);
      ChainEndFrame(nx, bs[1..], last, e);
    }
  }

  lemma OncePermuted(done: seq<nat>, a: seq<nat>, bs: seq<nat>)
    requires Once(done + a + bs) && bs != []
    ensures Once((done + [bs[0]]) + a + bs[1..])
  {
    var all: seq<nat>, all': seq<nat> := done + a + bs, (done + [bs[0]]) + a + bs[1..];
    assert bs == [bs[0]] + bs[1..];
    assert multiset(all') == multiset(all);
    forall p: nat
      ensures multiset(all')[p] <= 1
    {
      assert multiset(all')[p] == multiset(all)[p];
    }
  }

  lemma {:induction false} ChainNext(nx: seq<int>, s: seq<nat>, i: nat)
    requires ChainEnd(nx, s) && i < |s|
    ensures s[i] < |nx| && nx[s[i]] == First(s[i + 1..])
  {
    if i > 0 {
      ChainNext(nx, s[1..], i - 1);
      assert s[1..][i..] == s[i + 1..];
    }
  }

  // ---- runs ----

  function Flat(runs: seq<seq<nat>>): seq<nat> { if runs == [] then [] else runs[0] + Flat(runs[1..]) }

  /** The list is cut into ordered runs of `size` elements, the last one maybe shorter, each made of
      elements that were before those of the next. */
  ghost predicate Runs(m: Mode, view: seq<Info>, runs: seq<seq<nat>>, size: nat) {
    runs != [] ==>
      && 0 < |runs[0]| <= size && (|runs| > 1 ==> |runs[0]| == size)
      && Ordered(m, view, runs[0]) && AllBelow(runs[0], Flat(runs[1..]))
      && Runs(m, view, runs[1..], size)
  }

  predicate AllFull(runs: seq<seq<nat>>, size: nat) { forall k :: 0 <= k < |runs| ==> |runs[k]| == size }

  lemma {:induction false} FlatAppend(runs: seq<seq<nat>>, r: seq<nat>)
    ensures Flat(runs + [r]) == Flat(runs) + r
  {
    if runs == [] {
      assert Flat([r]) == r + Flat([]) == r;
      assert runs + [r] == [r];
    } else {
      assert (runs + [r])[1..] == runs[1..] + [r];
      FlatAppend(runs[1..], r);
    }
  }

  lemma {:induction false} RunsAppend(m: Mode, view: seq<Info>, runs: seq<seq<nat>>, size: nat, r: seq<nat>)
    requires Runs(m, view, runs, size) && AllFull(runs, size) && 0 < |r| <= size
    requires Ordered(m, view, r) && AllBelow(Flat(runs), r)
    ensures Runs(m, view, runs + [r], size)
  {
    hide Ordered;
    if runs == [] {
      assert (runs + [r])[1..] == [];
    } else {
      assert (runs + [r])[1..] == runs[1..] + [r];
      assert forall x :: x in Flat(runs[1..]) ==> x in Flat(runs);
      RunsAppend(m, view, runs[1..], size, r);
      FlatAppend(runs[1..], r);
      assert forall x :: x in runs[0] ==> x in Flat(runs);
    }
  }

  lemma {:induction false} RunsEvolve(m: Mode, view: seq<Info>, view': seq<Info>, runs: seq<seq<nat>>, size: nat)
    requires Runs(m, view, runs, size) && AllEvolve(m, view, view')
    ensures Runs(m, view', runs, size)
  {
    hide Ordered, AllEvolve;
    if runs != [] {
      OrderedEvolves(m, view, view', runs[0]);
      RunsEvolve(m, view, view', runs[1..], size);
    }
  }

  /** The elements from place `lo` on, one by one. */
  function Singles(lo: nat, n: nat): seq<seq<nat>>
    requires lo <= n
    decreases n - lo
  {
    if lo == n then [] else [[lo]] + Singles(lo + 1, n)
  }

  function Places(lo: nat, n: nat): seq<nat>
    requires lo <= n
    decreases n - lo
  {
    if lo == n then [] else [lo] + Places(lo + 1, n)
  }

  lemma {:induction false} SinglesRuns(m: Mode, view: seq<Info>, lo: nat, n: nat)
    requires lo <= n
    ensures |Singles(lo, n)| == n - lo && Flat(Singles(lo, n)) == Places(lo, n) && Runs(m, view, Singles(lo, n), 1)
    decreases n - lo
  {
    if lo < n {
      SinglesRuns(m, view, lo + 1, n);
      assert Singles(lo, n)[1..] == Singles(lo + 1, n);
      PlacesFrom(lo + 1, n);
    }
  }

  lemma {:induction false} PlacesFrom(lo: nat, n: nat)
    requires lo <= n
    ensures |Places(lo, n)| == n - lo && Once(Places(lo, n))
    ensures forall k :: 0 <= k < n - lo ==> Places(lo, n)[k] == lo + k
    ensures forall x :: x in Places(lo, n) <==> lo <= x < n
    decreases n - lo
  {
    if lo < n {
      PlacesFrom(lo + 1, n);
      var rest: seq<nat> := Places(lo + 1, n);
      assert Places(lo, n) == [lo] + rest;
      forall p: nat
        ensures multiset(Places(lo, n))[p] <= 1
      {
        assert multiset(Places(lo, n))[p] == multiset{lo}[p] + multiset(rest)[p];
        assert p in rest <==> multiset(rest)[p] > 0;
      }
    }
  }

  lemma BelowMerged(a: seq<nat>, b: seq<nat>, rest: seq<nat>, merged: seq<nat>, done: seq<nat>)
    requires AllBelow(a, b + rest) && AllBelow(b, rest) && AllBelow(done, a + (b + rest))
    requires multiset(merged) == multiset(a) + multiset(b)
    ensures AllBelow(a, b) && AllBelow(done, merged) && AllBelow(done + merged, rest)
  {
    assert forall x :: x in b ==> x in b + rest;
    assert forall x :: x in rest ==> x in b + rest;
    assert forall x :: x in a + (b + rest) <==> x in a || x in b + rest;
    assert multiset(merged) == multiset(a + b);
    forall x | x in merged
      ensures x in a || x in b
    {
      SameMembers(merged, a + b, x);
    }
  }

  /** The second run, if there is one, and what follows it. */
  function Second(runs: seq<seq<nat>>): seq<nat> { if |runs| > 1 then runs[1] else [] }

  function After(runs: seq<seq<nat>>): seq<seq<nat>> { if |runs| > 1 then runs[2..] else [] }

  lemma NextRuns(m: Mode, view: seq<Info>, runs: seq<seq<nat>>, size: nat)
    requires Runs(m, view, runs, size) && runs != []
    ensures Flat(runs) == runs[0] + (Second(runs) + Flat(After(runs)))
    ensures 0 < |runs[0]| <= size && (|runs[0]| < size ==> Second(runs) + Flat(After(runs)) == [])
    ensures |Second(runs)| <= size && (|Second(runs)| < size ==> Flat(After(runs)) == [])
    ensures Ordered(m, view, runs[0]) && Ordered(m, view, Second(runs)) && Runs(m, view, After(runs), size)
    ensures AllBelow(runs[0], Second(runs) + Flat(After(runs))) && AllBelow(Second(runs), Flat(After(runs)))
    ensures Flat(After(runs)) != [] ==> |runs[0]| == |Second(runs)| == size
    ensures After(runs) != [] ==> Flat(After(runs)) != []
    ensures multiset(Flat(runs)) == multiset(runs[0]) + multiset(Second(runs)) + multiset(Flat(After(runs)))
  {
    hide Ordered;
    if |runs| == 1 {
      assert runs[1..] == [];
      assert Flat(runs) == runs[0] + [];
      OrderedNothing(m, view);
    } else {
      assert runs[1..][0] == runs[1] && runs[1..][1..] == runs[2..];
    }
  }

  lemma OrderedNothing(m: Mode, view: seq<Info>)
    ensures Ordered(m, view, [])
  {
  }

  lemma LinksSplit(nx: seq<int>, done: seq<nat>, a: seq<nat>, bs: seq<nat>)
    requires Links(nx, done, [], a + bs)
    ensures Links(nx, done, a, bs)
  {
    ChainSplit(nx, a, bs);
    assert done + [] + (a + bs) == done + a + bs;
  }
}
