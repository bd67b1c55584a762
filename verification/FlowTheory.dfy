/**
  * Flows on a network of paired arcs: arc 2k and arc 2k+1 run between the same two vertices in opposite
  * directions and carry opposite flows. Cuts bound flows, and a flow that saturates a cut is maximum.
  */
module FlowTheory {
  datatype Arc = Arc(from: nat, to: nat, cap: int)

  /** The partner of arc `i`: `i ^ 1`. */
  function Pair(i: nat): nat { if i % 2 == 0 then i + 1 else i - 1 }

  /** Vertices are below `n`, and partners run between the same vertices. */
  predicate Paired(net: seq<Arc>, n: nat) {
    && |net| % 2 == 0
    && (forall i :: 0 <= i < |net| ==> net[i].from < n && net[i].to < n)
    && (forall i: nat {:trigger Pair(i)} :: i < |net| ==> net[Pair(i)].from == net[i].to && net[Pair(i)].to == net[i].from)
  }

  /** Flow within capacity, opposite on partners. */
  predicate Admissible(net: seq<Arc>, f: seq<int>) {
    && |f| == |net| && |net| % 2 == 0
    && (forall i :: 0 <= i < |net| ==> f[i] <= net[i].cap)
    && (forall i: nat {:trigger Pair(i)} :: i < |net| ==> f[Pair(i)] == -f[i])
  }

  /** Net flow out of `v` over the first `k` arcs. */
  function OutUpTo(net: seq<Arc>, f: seq<int>, v: nat, k: nat): int
    requires k <= |net| == |f|
  {
    if k == 0 then 0 else OutUpTo(net, f, v, k - 1) + if net[k - 1].from == v then f[k - 1] else 0
  }

  function Out(net: seq<Arc>, f: seq<int>, v: nat): int
    requires |net| == |f|
  {
    OutUpTo(net, f, v, |net|)
  }

  /** An admissible flow that gains and loses nothing except at `s` and `t`. */
  predicate IsFlow(net: seq<Arc>, f: seq<int>, n: nat, s: nat, t: nat) {
    Admissible(net, f) && forall v: nat :: v < n && v != s && v != t ==> Out(net, f, v) == 0
  }

  // ---- pushing along one arc ----

  function Push(f: seq<int>, i: nat, g: int): seq<int>
    requires i < |f| && Pair(i) < |f|
  {
    f[i := f[i] + g][Pair(i) := f[Pair(i)] - g]
  }

  lemma {:induction false} OutAfterUpdate(net: seq<Arc>, f: seq<int>, i: nat, x: int, v: nat, k: nat)
    requires k <= |net| == |f| && i < |f|
    ensures OutUpTo(net, f[i := x], v, k) == OutUpTo(net, f, v, k) + if i < k && net[i].from == v then x - f[i] else 0
  {
    if k > 0 {
      OutAfterUpdate(net, f, i, x, v, k - 1);
    }
  }

  /** Pushing `g` along arc `i` moves `g` from its start to its end. */
  lemma PushMoves(net: seq<Arc>, f: seq<int>, n: nat, i: nat, g: int, v: nat)
    requires Paired(net, n) && Admissible(net, f) && i < |net| && 0 <= g <= net[i].cap - f[i]
    ensures Pair(i) < |f| && Admissible(net, Push(f, i, g))
    ensures Out(net, Push(f, i, g), v) ==
            Out(net, f, v) + (if v == net[i].from then g else 0) - (if v == net[i].to then g else 0)
  {
    OutAfterUpdate(net, f, i, f[i] + g, v, |net|);
    OutAfterUpdate(net, f[i := f[i] + g], Pair(i), f[Pair(i)] - g, v, |net|);
  }

  // ---- cuts ----

  /** Flow over the first `k` arcs that start inside `inside`. */
  function FromInside(net: seq<Arc>, f: seq<int>, inside: seq<bool>, k: nat): int
    requires k <= |net| == |f| && Paired(net, |inside|)
  {
    if k == 0 then 0
    else FromInside(net, f, inside, k - 1) + if inside[net[k - 1].from] then f[k - 1] else 0
  }

  /** Sum of `w` over the first `k` arcs that leave `inside`. */
  function Leaving(net: seq<Arc>, w: seq<int>, inside: seq<bool>, k: nat): int
    requires k <= |net| == |w| && Paired(net, |inside|)
  {
    if k == 0 then 0
    else Leaving(net, w, inside, k - 1) + if inside[net[k - 1].from] && !inside[net[k - 1].to] then w[k - 1] else 0
  }

  /** Net flow out of the vertices of `inside` below `v`, over the first `k` arcs. */
  function OutOfInside(net: seq<Arc>, f: seq<int>, inside: seq<bool>, v: nat, k: nat): int
    requires k <= |net| == |f| && v <= |inside|
  {
    if v == 0 then 0
    else OutOfInside(net, f, inside, v - 1, k) + if inside[v - 1] then OutUpTo(net, f, v - 1, k) else 0
  }

  lemma {:induction false} OneMoreArc(net: seq<Arc>, f: seq<int>, inside: seq<bool>, v: nat, k: nat)
    requires k < |net| == |f| && v <= |inside|
    ensures OutOfInside(net, f, inside, v, k + 1) ==
            OutOfInside(net, f, inside, v, k) + if net[k].from < v && inside[net[k].from] then f[k] else 0
  {
    if v > 0 {
      OneMoreArc(net, f, inside, v - 1, k);
    }
  }

  lemma {:induction false} NoArcs(net: seq<Arc>, f: seq<int>, inside: seq<bool>, v: nat)
    requires |net| == |f| && v <= |inside|
    ensures OutOfInside(net, f, inside, v, 0) == 0
  {
    if v > 0 {
      NoArcs(net, f, inside, v - 1);
    }
  }

  /** Summing by vertex or by arc is the same. */
  lemma {:induction false} ByVertexByArc(net: seq<Arc>, f: seq<int>, inside: seq<bool>, k: nat)
    requires k <= |net| == |f| && Paired(net, |inside|)
    ensures OutOfInside(net, f, inside, |inside|, k) == FromInside(net, f, inside, k)
  {
    if k == 0 {
      NoArcs(net, f, inside, |inside|);
    } else {
      ByVertexByArc(net, f, inside, k - 1);
      OneMoreArc(net, f, inside, |inside|, k - 1);
    }
  }

  /** With conservation, the vertices of a set containing s and not t lose what s sends. */
  lemma {:induction false} OnlySource(net: seq<Arc>, f: seq<int>, inside: seq<bool>, s: nat, t: nat, v: nat)
    requires IsFlow(net, f, |inside|, s, t) && s < |inside| && t < |inside| && inside[s] && !inside[t]
    requires v <= |inside|
    ensures OutOfInside(net, f, inside, v, |net|) == if s < v then Out(net, f, s) else 0
  {
    hide OutUpTo;
    if v > 0 {
      OnlySource(net, f, inside, s, t, v - 1);
      assert v - 1 != s && inside[v - 1] ==> Out(net, f, v - 1) == 0;
    }
  }

  /** Arcs within the set cancel in pairs: only the leaving ones count. */
  lemma {:induction false} InnerArcsCancel(net: seq<Arc>, f: seq<int>, inside: seq<bool>, k: nat)
    requires 2 * k <= |net| && Paired(net, |inside|) && Admissible(net, f)
    ensures FromInside(net, f, inside, 2 * k) == Leaving(net, f, inside, 2 * k)
  {
    if k > 0 {
      InnerArcsCancel(net, f, inside, k - 1);
      var i := 2 * (k - 1);
      assert Pair(i) == i + 1;
      assert FromInside(net, f, inside, 2 * k) ==
             FromInside(net, f, inside, i) + (if inside[net[i].from] then f[i] else 0)
             + (if inside[net[i + 1].from] then f[i + 1] else 0);
      assert Leaving(net, f, inside, 2 * k) ==
             Leaving(net, f, inside, i) + (if inside[net[i].from] && !inside[net[i].to] then f[i] else 0)
             + (if inside[net[i + 1].from] && !inside[net[i + 1].to] then f[i + 1] else 0);
    }
  }

  /** The value of a flow is its net flow over any cut. */
  lemma ValueAcrossCut(net: seq<Arc>, f: seq<int>, inside: seq<bool>, s: nat, t: nat)
    requires Paired(net, |inside|) && IsFlow(net, f, |inside|, s, t)
    requires s < |inside| && t < |inside| && inside[s] && !inside[t]
    ensures Out(net, f, s) == Leaving(net, f, inside, |net|)
  {
    hide OutUpTo, FromInside, Leaving, OutOfInside;
    OnlySource(net, f, inside, s, t, |inside|);
    ByVertexByArc(net, f, inside, |net|);
    InnerArcsCancel(net, f, inside, |net| / 2);
  }

  function Caps(net: seq<Arc>): seq<int> { seq(|net|, i requires 0 <= i < |net| => net[i].cap) }

  lemma {:induction false} LeavingBound(net: seq<Arc>, f: seq<int>, inside: seq<bool>, k: nat)
    requires k <= |net| && Paired(net, |inside|) && Admissible(net, f)
    ensures Leaving(net, f, inside, k) <= Leaving(net, Caps(net), inside, k)
    ensures (forall i :: 0 <= i < k && inside[net[i].from] && !inside[net[i].to] ==> f[i] == net[i].cap) ==>
              Leaving(net, f, inside, k) == Leaving(net, Caps(net), inside, k)
  {
    if k > 0 {
      LeavingBound(net, f, inside, k - 1);
    }
  }

  /** No arc out of the set has room left. */
  predicate Saturated(net: seq<Arc>, f: seq<int>, inside: seq<bool>)
    requires |net| == |f| && Paired(net, |inside|)
  {
    forall i :: 0 <= i < |net| && inside[net[i].from] && f[i] < net[i].cap ==> inside[net[i].to]
  }

  /** Weak duality: no flow exceeds the capacity of a cut. */
  lemma CutBoundsFlow(net: seq<Arc>, g: seq<int>, inside: seq<bool>, s: nat, t: nat)
    requires Paired(net, |inside|) && IsFlow(net, g, |inside|, s, t)
    requires s < |inside| && t < |inside| && inside[s] && !inside[t]
    ensures Out(net, g, s) <= Leaving(net, Caps(net), inside, |net|)
  {
    ValueAcrossCut(net, g, inside, s, t);
    LeavingBound(net, g, inside, |net|);
  }

  /** A flow that saturates a cut equals the cut's capacity, and no flow is larger. */
  lemma SaturatedCutIsMaximum(net: seq<Arc>, f: seq<int>, inside: seq<bool>, s: nat, t: nat, g: seq<int>)
    requires Paired(net, |inside|) && IsFlow(net, f, |inside|, s, t) && IsFlow(net, g, |inside|, s, t)
    requires s < |inside| && t < |inside| && inside[s] && !inside[t]
    requires Saturated(net, f, inside)
    ensures Out(net, f, s) == Leaving(net, Caps(net), inside, |net|)
    ensures Out(net, g, s) <= Out(net, f, s)
  {
    hide OutUpTo, Leaving;
    ValueAcrossCut(net, f, inside, s, t);
    LeavingBound(net, f, inside, |net|);
    CutBoundsFlow(net, g, inside, s, t);
  }
}
