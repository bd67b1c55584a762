/** What one search and one push of Dinic's algorithm do to a flow, as facts about sequences. */
module DinicSteps {
  import opened Counting
  import opened FlowTheory

  datatype Edge = Edge(from: nat, to: nat, cap: int, flow: int)

  function Net(e: seq<Edge>): (net: seq<Arc>)
    ensures |net| == |e|
  {
    seq(|e|, i requires 0 <= i < |e| => Arc(e[i].from, e[i].to, e[i].cap))
  }

  function Flows(e: seq<Edge>): (f: seq<int>)
    ensures |f| == |e|
  {
    seq(|e|, i requires 0 <= i < |e| => e[i].flow)
  }

  lemma SetFlow(e: seq<Edge>, i: nat, x: int)
    requires i < |e|
    ensures Net(e[i := e[i].(flow := x)]) == Net(e)
    ensures Flows(e[i := e[i].(flow := x)]) == Flows(e)[i := x]
  {
  }

  // ---- adjacency lists threaded through the edge array ----

  /** The last arc before `k` that leaves `u`, or -1. */
  function Last(net: seq<Arc>, u: nat, k: nat): int
    requires k <= |net|
  {
    if k == 0 then -1 else if net[k - 1].from == u then k - 1 else Last(net, u, k - 1)
  }

  lemma {:induction false} LastFacts(net: seq<Arc>, u: nat, k: nat)
    requires k <= |net|
    ensures -1 <= Last(net, u, k) < k
    ensures 0 <= Last(net, u, k) ==> net[Last(net, u, k)].from == u
    ensures forall i :: Last(net, u, k) < i < k ==> net[i].from != u
  {
    if k > 0 {
      LastFacts(net, u, k - 1);
    }
  }

  lemma {:induction false} LastPrefix(net: seq<Arc>, more: seq<Arc>, u: nat, k: nat)
    requires k <= |net|
    ensures Last(net + more, u, k) == Last(net, u, k)
  {
    if k > 0 {
      LastPrefix(net, more, u, k - 1);
    }
  }

  /** `head` and `nxt` thread the arcs of every vertex from the newest to the oldest. */
  predicate Threaded(net: seq<Arc>, head: seq<int>, nxt: seq<int>, n: nat) {
    && |head| == n && |net| <= |nxt|
    && (forall u :: 0 <= u < n ==> head[u] == Last(net, u, |net|))
    && (forall i :: 0 <= i < |net| ==> nxt[i] == Last(net, net[i].from, i))
  }

  lemma FirstInList(net: seq<Arc>, head: seq<int>, nxt: seq<int>, n: nat, x: nat)
    requires Threaded(net, head, nxt, n) && x < n
    ensures -1 <= head[x] < |net| && (head[x] >= 0 ==> net[head[x]].from == x)
    ensures forall i :: head[x] < i < |net| ==> net[i].from != x
  {
    LastFacts(net, x, |net|);
  }

  lemma NextInList(net: seq<Arc>, head: seq<int>, nxt: seq<int>, n: nat, i: nat)
    requires Threaded(net, head, nxt, n) && i < |net|
    ensures -1 <= nxt[i] < i && (nxt[i] >= 0 ==> net[nxt[i]].from == net[i].from)
    ensures forall k :: nxt[i] < k < i ==> net[k].from != net[i].from
  {
    LastFacts(net, net[i].from, i);
  }

  // ---- what a depth-first push does ----

  /** Neither end of arc `i` has a level below `l`. */
  predicate AtLevel(net: seq<Arc>, d: seq<int>, i: nat, l: int)
    requires i < |net| && Paired(net, |d|)
  {
    l <= d[net[i].from] && l <= d[net[i].to]
  }

  /** From `f` to `f'`, `r` more units leave `x` and reach `t`; nothing else changes its balance, arcs
      touching lower levels keep their flow, and with r = 0 nothing changed at all. */
  predicate Pushed(net: seq<Arc>, d: seq<int>, t: nat, f: seq<int>, f': seq<int>, x: nat, r: int)
    requires Paired(net, |d|) && x < |d|
  {
    && Admissible(net, f) && Admissible(net, f') && 0 <= r
    && (forall v: nat :: v < |d| ==>
          Out(net, f', v) == Out(net, f, v) + (if v == x then r else 0) - (if v == t then r else 0))
    && (forall i :: 0 <= i < |net| && !AtLevel(net, d, i, d[x]) ==> f'[i] == f[i])
    && (r == 0 ==> f' == f)
  }

  lemma NothingPushed(net: seq<Arc>, d: seq<int>, t: nat, f: seq<int>, x: nat)
    requires Paired(net, |d|) && x < |d| && Admissible(net, f)
    ensures Pushed(net, d, t, f, f, x, 0)
    ensures x == t ==> forall a :: 0 <= a ==> Pushed(net, d, t, f, f, x, a)
  {
    hide OutUpTo;
  }

  /** The arc that is being followed keeps its flow during the recursive push. */
  lemma ArcUntouched(net: seq<Arc>, d: seq<int>, t: nat, f: seq<int>, f': seq<int>, i: nat, g: int)
    requires Paired(net, |d|) && i < |net| && d[net[i].from] + 1 == d[net[i].to]
    requires Pushed(net, d, t, f, f', net[i].to, g)
    ensures f'[i] == f[i]
  {
    hide OutUpTo;
  }

  /** After the recursive push from the arc's end, pushing along the arc completes a push from its start. */
  lemma PushOn(net: seq<Arc>, d: seq<int>, t: nat, f0: seq<int>, f1: seq<int>, f2: seq<int>, i: nat, r: int, g: int)
    requires Paired(net, |d|) && i < |net| && d[net[i].from] + 1 == d[net[i].to]
    requires Pushed(net, d, t, f0, f1, net[i].from, r)
    requires Pushed(net, d, t, f1, f2, net[i].to, g)
    requires g <= net[i].cap - f1[i] && 0 < g
    ensures Pair(i) < |f2| && Pushed(net, d, t, f0, Push(f2, i, g), net[i].from, r + g)
  {
    hide OutUpTo;
    ArcUntouched(net, d, t, f1, f2, i, g);
    forall v: nat | v < |d| {
      PushMoves(net, f2, |d|, i, g, v);
    }
    PushMoves(net, f2, |d|, i, g, 0);
    assert net[Pair(i)].from == net[i].to && net[Pair(i)].to == net[i].from;
  }

  // ---- level paths ----

  /** A path of `k` arcs with room left, each one level up, leads from `x` to `t`. */
  ghost predicate CanPush(net: seq<Arc>, f: seq<int>, d: seq<int>, x: nat, t: nat, k: nat)
    requires |net| == |f| && Paired(net, |d|) && x < |d|
    decreases k
  {
    if k == 0 then x == t
    else exists i: nat :: StartsPath(net, f, d, x, i) && CanPush(net, f, d, net[i].to, t, k - 1)
  }

  /** Arc `i` leaves `x`, has room left and goes up one level. */
  predicate StartsPath(net: seq<Arc>, f: seq<int>, d: seq<int>, x: nat, i: nat)
    requires |net| == |f| && Paired(net, |d|) && x < |d|
  {
    i < |net| && net[i].from == x && f[i] < net[i].cap && d[net[i].to] == d[x] + 1
  }

  lemma PathArc(net: seq<Arc>, f: seq<int>, d: seq<int>, x: nat, t: nat, k: nat) returns (i: nat)
    requires |net| == |f| && Paired(net, |d|) && x < |d| && CanPush(net, f, d, x, t, k) && x != t
    ensures 0 < k && StartsPath(net, f, d, x, i) && CanPush(net, f, d, net[i].to, t, k - 1)
  {
    i :| StartsPath(net, f, d, x, i) && CanPush(net, f, d, net[i].to, t, k - 1);
  }

  /** Every reached vertex but the source was reached by an arc with room left, from one level down. */
  ghost predicate HasParents(net: seq<Arc>, f: seq<int>, d: seq<int>, vis: seq<bool>, s: nat)
    requires |net| == |f| && Paired(net, |d|) && |vis| == |d| && s < |d|
  {
    && vis[s] && d[s] == 0
    && (forall v: nat :: v < |d| && vis[v] ==> 0 <= d[v])
    && (forall v: nat :: v < |d| && vis[v] && v != s ==>
          exists i: nat :: i < |net| && net[i].to == v && vis[net[i].from] && StartsPath(net, f, d, net[i].from, i))
  }

  lemma PathGrows(net: seq<Arc>, f: seq<int>, d: seq<int>, i: nat, t: nat, k: nat)
    requires |net| == |f| && Paired(net, |d|) && i < |net|
    requires StartsPath(net, f, d, net[i].from, i) && CanPush(net, f, d, net[i].to, t, k)
    ensures CanPush(net, f, d, net[i].from, t, k + 1)
  {
    assert CanPush(net, f, d, net[i].to, t, k + 1 - 1);
  }

  lemma ParentOf(net: seq<Arc>, f: seq<int>, d: seq<int>, vis: seq<bool>, s: nat, v: nat) returns (i: nat)
    requires |net| == |f| && Paired(net, |d|) && |vis| == |d| && s < |d| && HasParents(net, f, d, vis, s)
    requires v < |d| && vis[v] && v != s
    ensures i < |net| && net[i].to == v && vis[net[i].from] && StartsPath(net, f, d, net[i].from, i)
    ensures 0 <= d[net[i].from] == d[v] - 1
  {
    i :| i < |net| && net[i].to == v && vis[net[i].from] && StartsPath(net, f, d, net[i].from, i);
  }

  /** From a reached vertex that can push to `t`, the path extends back to the source. */
  lemma {:induction false} BackToSource(net: seq<Arc>, f: seq<int>, d: seq<int>, vis: seq<bool>, s: nat, t: nat, v: nat, k: nat)
    returns (l: nat)
    requires |net| == |f| && Paired(net, |d|) && |vis| == |d| && s < |d| && HasParents(net, f, d, vis, s)
    requires v < |d| && vis[v] && CanPush(net, f, d, v, t, k)
    ensures CanPush(net, f, d, s, t, l)
    decreases d[v]
  {
    hide CanPush, StartsPath, HasParents;
    if v == s {
      l := k;
    } else {
      var i := ParentOf(net, f, d, vis, s, v);
      PathGrows(net, f, d, i, t, k);
      l := BackToSource(net, f, d, vis, s, t, net[i].from, k + 1);
    }
  }

  lemma {:induction false} UpperBound(d: seq<int>) returns (b: int)
    ensures forall v :: 0 <= v < |d| ==> d[v] <= b
  {
    if d == [] {
      b := 0;
    } else {
      b := UpperBound(d[1..]);
      if b < d[0] {
        b := d[0];
      }
      forall v | 0 <= v < |d| ensures d[v] <= b {
        if v > 0 {
          assert d[v] == d[1..][v - 1];
        }
      }
    }
  }

  // ---- breadth-first search ----

  /** `q` lists the reached vertices once each, and all of them were reached level by level. */
  ghost predicate Searching(net: seq<Arc>, f: seq<int>, d: seq<int>, vis: seq<bool>, q: seq<int>, s: nat) {
    && |net| == |f| && Paired(net, |d|) && |vis| == |d| && s < |d|
    && HasParents(net, f, d, vis, s)
    && Distinct(q)
    && (forall k :: 0 <= k < |q| ==> 0 <= q[k] < |d| && vis[q[k]])
    && (forall v :: 0 <= v < |d| && vis[v] ==> v in q)
  }

  /** Every arc of `x` after `lo` that has room left leads to a reached vertex. */
  predicate Scanned(net: seq<Arc>, f: seq<int>, vis: seq<bool>, x: int, lo: int)
    requires |net| == |f| && Paired(net, |vis|)
  {
    forall j :: lo < j < |net| && 0 <= j && net[j].from == x && f[j] < net[j].cap ==> vis[net[j].to]
  }

  predicate AllScanned(net: seq<Arc>, f: seq<int>, vis: seq<bool>, q: seq<int>, upTo: nat)
    requires |net| == |f| && Paired(net, |vis|)
  {
    upTo <= |q| && forall k :: 0 <= k < upTo ==> Scanned(net, f, vis, q[k], -1)
  }

  lemma SearchStart(net: seq<Arc>, f: seq<int>, d: seq<int>, vis: seq<bool>, s: nat)
    requires |net| == |f| && Paired(net, |d|) && |vis| == |d| && s < |d|
    requires forall v :: 0 <= v < |vis| ==> vis[v] == (v == s)
    requires d[s] == 0
    ensures Searching(net, f, d, vis, [s], s)
  {
  }

  /** Reaching a new vertex `v = net[i].to` from a reached one. */
  lemma Discover(net: seq<Arc>, f: seq<int>, d: seq<int>, vis: seq<bool>, q: seq<int>, s: nat, i: nat)
    requires Searching(net, f, d, vis, q, s)
    requires i < |net| && vis[net[i].from] && !vis[net[i].to] && f[i] < net[i].cap
    ensures var v := net[i].to;
            Searching(net, f, d[v := d[net[i].from] + 1], vis[v := true], q + [v], s) && |q| < |d|
  {
    var v := net[i].to;
    var d', vis', q' := d[v := d[net[i].from] + 1], vis[v := true], q + [v];
    assert Distinct(q');
    DistinctBelow(q', |d|);
    DiscoverParents(net, f, d, vis, s, i);
    forall u | 0 <= u < |d'| && vis'[u] ensures u in q' {
      if u == v {
        assert q'[|q|] == v;
      } else {
        assert u in q;
      }
    }
  }

  lemma DiscoverParents(net: seq<Arc>, f: seq<int>, d: seq<int>, vis: seq<bool>, s: nat, i: nat)
    requires |net| == |f| && Paired(net, |d|) && |vis| == |d| && s < |d| && HasParents(net, f, d, vis, s)
    requires i < |net| && vis[net[i].from] && !vis[net[i].to] && f[i] < net[i].cap
    ensures var v := net[i].to; HasParents(net, f, d[v := d[net[i].from] + 1], vis[v := true], s)
  {
    var v := net[i].to;
    var d', vis' := d[v := d[net[i].from] + 1], vis[v := true];
    forall u: nat | u < |d'| && vis'[u] && u != s
      ensures exists j: nat :: j < |net| && net[j].to == u && vis'[net[j].from] && StartsPath(net, f, d', net[j].from, j)
    {
      if u == v {
        assert StartsPath(net, f, d', net[i].from, i);
      } else {
        var j := ParentOf(net, f, d, vis, s, u);
        assert StartsPath(net, f, d', net[j].from, j);
      }
    }
  }

  /** Reaching more vertices keeps what was scanned. */
  lemma ScannedGrows(net: seq<Arc>, f: seq<int>, vis: seq<bool>, q: seq<int>, upTo: nat, v: nat, x: int, lo: int)
    requires |net| == |f| && Paired(net, |vis|) && v < |vis|
    ensures AllScanned(net, f, vis, q, upTo) ==> AllScanned(net, f, vis[v := true], q + [v], upTo)
    ensures Scanned(net, f, vis, x, lo) ==> Scanned(net, f, vis[v := true], x, lo)
  {
  }

  /** When the whole queue is scanned, no arc with room left leaves the reached vertices. */
  lemma SearchDone(net: seq<Arc>, f: seq<int>, d: seq<int>, vis: seq<bool>, q: seq<int>, s: nat)
    requires Searching(net, f, d, vis, q, s) && AllScanned(net, f, vis, q, |q|)
    ensures Saturated(net, f, vis)
  {
    forall i | 0 <= i < |net| && vis[net[i].from] && f[i] < net[i].cap ensures vis[net[i].to] {
      var k :| 0 <= k < |q| && q[k] == net[i].from;
      assert Scanned(net, f, vis, q[k], -1);
    }
  }

  // ---- building the graph ----

  /** Adding an arc puts it at the head of its vertex's list. */
  lemma ThreadArc(net: seq<Arc>, head: seq<int>, nxt: seq<int>, n: nat, arc: Arc)
    requires Threaded(net, head, nxt, n) && arc.from < n && |net| < |nxt|
    ensures Threaded(net + [arc], head[arc.from := |net|], nxt[|net| := head[arc.from]], n)
  {
    var net' := net + [arc];
    forall u: nat | u < n ensures Last(net', u, |net|) == head[u] {
      LastPrefix(net, [arc], u, |net|);
    }
    forall i: nat | i < |net| ensures Last(net', net[i].from, i) == nxt[i] {
      LastPrefix(net, [arc], net[i].from, i);
    }
  }

  lemma PairArcs(net: seq<Arc>, n: nat, u: nat, v: nat, c: int)
    requires Paired(net, n) && u < n && v < n
    ensures Paired(net + [Arc(u, v, c), Arc(v, u, 0)], n)
  {
    var more := net + [Arc(u, v, c), Arc(v, u, 0)];
    forall i: nat {:trigger Pair(i)} | i < |more| ensures more[Pair(i)].from == more[i].to && more[Pair(i)].to == more[i].from {
      if i < |net| {
        assert Pair(i) < |net|;
      }
    }
  }

  // ---- the flow over a whole run ----

  /** Without flow, every network with non-negative capacities carries a flow. */
  lemma {:induction false} NoFlowOut(net: seq<Arc>, f: seq<int>, v: nat, k: nat)
    requires k <= |net| == |f| && forall i :: 0 <= i < |f| ==> f[i] == 0
    ensures OutUpTo(net, f, v, k) == 0
  {
    if k > 0 {
      NoFlowOut(net, f, v, k - 1);
    }
  }

  lemma ZeroIsFlow(net: seq<Arc>, f: seq<int>, n: nat, s: nat, t: nat)
    requires Paired(net, n) && |f| == |net| && forall i :: 0 <= i < |f| ==> f[i] == 0
    requires forall i :: 0 <= i < |net| ==> 0 <= net[i].cap
    ensures IsFlow(net, f, n, s, t) && Out(net, f, s) == 0
  {
    forall v: nat ensures Out(net, f, v) == 0 {
      NoFlowOut(net, f, v, |net|);
    }
  }

  /** The capacity out of `v` over the first `k` arcs. */
  function CapOut(net: seq<Arc>, v: nat, k: nat): int
    requires k <= |net|
  {
    if k == 0 then 0 else CapOut(net, v, k - 1) + if net[k - 1].from == v then net[k - 1].cap else 0
  }

  lemma {:induction false} OutBounded(net: seq<Arc>, f: seq<int>, v: nat, k: nat)
    requires Admissible(net, f) && k <= |net|
    ensures OutUpTo(net, f, v, k) <= CapOut(net, v, k)
  {
    if k > 0 {
      OutBounded(net, f, v, k - 1);
    }
  }

  /** A push from the source keeps a flow a flow and adds to its value. */
  lemma PushFromSource(net: seq<Arc>, d: seq<int>, s: nat, t: nat, f: seq<int>, f': seq<int>, r: int)
    requires Paired(net, |d|) && s < |d| && s != t && IsFlow(net, f, |d|, s, t) && Pushed(net, d, t, f, f', s, r)
    ensures IsFlow(net, f', |d|, s, t) && Out(net, f', s) == Out(net, f, s) + r
  {
    hide OutUpTo;
  }

  /** `f` has the largest value of all flows. */
  ghost predicate IsMaximum(net: seq<Arc>, f: seq<int>, n: nat, s: nat, t: nat)
    requires |f| == |net|
  {
    forall g: seq<int> :: IsFlow(net, g, n, s, t) ==> Out(net, g, s) <= Out(net, f, s)
  }

  /** A failed search proves the flow maximum: the reached vertices are a cut of the same capacity. */
  lemma FailedSearchIsMaximum(net: seq<Arc>, f: seq<int>, d: seq<int>, vis: seq<bool>, s: nat, t: nat)
    requires |net| == |f| && Paired(net, |d|) && |vis| == |d| && s < |d| && t < |d|
    requires IsFlow(net, f, |d|, s, t) && HasParents(net, f, d, vis, s) && Saturated(net, f, vis) && !vis[t]
    ensures Out(net, f, s) == Leaving(net, Caps(net), vis, |net|)
    ensures IsMaximum(net, f, |d|, s, t)
  {
    hide OutUpTo, Leaving;
    SaturatedCutIsMaximum(net, f, vis, s, t, f);
    forall g: seq<int> | IsFlow(net, g, |d|, s, t) ensures Out(net, g, s) <= Out(net, f, s) {
      SaturatedCutIsMaximum(net, f, vis, s, t, g);
    }
  }
}
