/** Dinic's maximum-flow algorithm on its arrays. */
module Dinic {
  import opened Counting
  import opened FlowTheory
  import opened DinicSteps

  function Min(x: int, y: int): int { if x < y then x else y }

  class Dinic {
    var n: nat
    var m: nat
    var s: nat
    var t: nat
    const edges: array<Edge>
    const head: array<int>
    const nxt: array<int>
    const d: array<int>
    const cur: array<int>
    const queue: array<int>
    const vis: array<bool>

    /** The arrays are as long as they must be, and no two of them are the same. */
    ghost predicate Arrays()
      reads `n, `m
    {
      && m <= edges.Length == nxt.Length
      && head.Length == d.Length == cur.Length == queue.Length == vis.Length == n
      && head != nxt && head != d && head != cur && head != queue
      && nxt != d && nxt != cur && nxt != queue
      && d != cur && d != queue && cur != queue
    }

    /** The arrays, with source and sink set. */
    ghost predicate Shape()
      reads this
    {
      Arrays() && s < n && t < n
    }

    ghost function Graph(): (net: seq<Arc>)
      requires Arrays()
      reads `n, `m, edges
      ensures |net| == m
    {
      Net(edges[..m])
    }

    ghost function Flow(): (f: seq<int>)
      requires Arrays()
      reads `n, `m, edges
      ensures |f| == m
    {
      Flows(edges[..m])
    }

    /** `init`: room for `size` edges between `count` vertices. */
    constructor (count: nat, size: nat)
      ensures Arrays() && n == count && m == 0 && edges.Length == size
      ensures Paired(Graph(), n) && Threaded(Graph(), head[..], nxt[..], n)
      ensures fresh(edges) && fresh(head) && fresh(nxt) && fresh(d) && fresh(cur) && fresh(queue) && fresh(vis)
    {
      n, m, s, t := count, 0, 0, 0;
      edges := new Edge[size];
      head := new int[count](_ => -1);
      nxt := new int[size];
      vis := new bool[count];
      d := new int[count];
      cur := new int[count];
      queue := new int[count];
    }

    /** Appends one directed edge and threads it. */
    method Append(u: nat, v: nat, c: int)
      requires Arrays() && u < n && v < n && m < edges.Length
      requires Threaded(Graph(), head[..], nxt[..], n)
      modifies this`m, edges, head, nxt
      ensures Arrays() && m == old(m) + 1
      ensures Graph() == old(Graph()) + [Arc(u, v, c)] && Flow() == old(Flow()) + [0]
      ensures Threaded(Graph(), head[..], nxt[..], n)
    {
      ghost var e0, h0, x0 := edges[..m], head[..], nxt[..];
      ThreadArc(Graph(), h0, x0, n, Arc(u, v, c));
      hide Last;
      edges[m] := Edge(u, v, c, 0);
      nxt[m] := head[u];
      head[u] := m;
      m := m + 1;
      assert edges[..m] == e0 + [Edge(u, v, c, 0)];
      assert head[..] == h0[u := |e0|] && nxt[..] == x0[|e0| := h0[u]];
    }

    /** A pair of edges, forward with capacity `c` and backward with none; nothing for capacity 0. */
    method AddEdge(u: nat, v: nat, c: int)
      requires Arrays() && u < n && v < n && m + 2 <= edges.Length
      requires Paired(Graph(), n) && Threaded(Graph(), head[..], nxt[..], n)
      modifies this`m, edges, head, nxt
      ensures Arrays()
      ensures Graph() == old(Graph()) + if c == 0 then [] else [Arc(u, v, c), Arc(v, u, 0)]
      ensures Flow() == old(Flow()) + if c == 0 then [] else [0, 0]
      ensures Paired(Graph(), n) && Threaded(Graph(), head[..], nxt[..], n)
    {
      hide Last;
      if c == 0 {
        return;
      }
      PairArcs(Graph(), n, u, v, c);
      ghost var net := Graph();
      Append(u, v, c);
      Append(v, u, 0);
      assert net + [Arc(u, v, c)] + [Arc(v, u, 0)] == net + [Arc(u, v, c), Arc(v, u, 0)];
    }

    /** Adding to the flow of edge `i`. */
    method AddFlow(i: nat, g: int, ghost net: seq<Arc>)
      requires Shape() && i < m && Graph() == net
      modifies edges
      ensures Graph() == net && Flow() == old(Flow())[i := old(Flow())[i] + g]
    {
      hide Net, Flows;
      SetFlow(edges[..m], i, edges[i].flow + g);
      FlowOf(edges[..m], i);
      ghost var was := edges[..m];
      edges[i] := edges[i].(flow := edges[i].flow + g);
      assert edges[..m] == was[i := was[i].(flow := was[i].flow + g)];
    }

    /** Flow along edge `i`, and back along its partner. */
    method PushArc(i: nat, g: int, ghost net: seq<Arc>)
      requires Shape() && i < m && Pair(i) < m && Graph() == net
      modifies edges
      ensures Graph() == net && Flow() == Push(old(Flow()), i, g)
    {
      hide *;
      Sizes();
      PushIs(Flow(), i, g);
      AddFlow(i, g, net);
      AddFlow(Pair(i), -g, net);
    }

    static lemma FlowOf(e: seq<Edge>, i: nat)
      requires i < |e|
      ensures Flows(e)[i] == e[i].flow && Net(e)[i] == Arc(e[i].from, e[i].to, e[i].cap)
    {
    }

    /** The depth-first push: sends at most `a0` units from `x` to `t` along level paths. */
    method DFS(x: nat, a0: int, ghost net: seq<Arc>, ghost top: int, ghost k: nat) returns (flow: int)
      requires Shape() && Graph() == net && Paired(net, n) && Threaded(net, cur[..], nxt[..m], n)
      requires x < n && 0 <= a0 && Admissible(net, Flow())
      requires forall v :: 0 <= v < n ==> d[v] <= top
      modifies edges
      ensures Graph() == net && 0 <= flow <= a0
      ensures Pushed(net, d[..], t, old(Flow()), Flow(), x, flow)
      ensures 0 < a0 && CanPush(net, old(Flow()), d[..], x, t, k) ==> 0 < flow
      decreases top - d[x], 1
    {
      hide *;
      Sizes();
      ghost var level, f0 := d[..], Flow();
      NothingPushed(net, level, t, f0, x);
      if x == t || a0 == 0 {
        return a0;
      }
      flow := 0;
      var a := a0;
      FirstInList(net, cur[..], nxt[..m], n, x);
      var i := cur[x];
      ghost var canPush := CanPush(net, f0, level, x, t, k);
      ghost var w: nat := 0;
      if canPush {
        w := PathArc(net, f0, level, x, t, k);
        assert w < m && net[w].from == x && w <= i by { StartsPathFacts(net, f0, level, x, w); }
      }
      while i != -1
        invariant -1 <= i < m && (i >= 0 ==> net[i].from == x)
        invariant a == a0 - flow && 0 < a && 0 <= flow
        invariant Graph() == net && Pushed(net, level, t, f0, Flow(), x, flow)
        invariant canPush && flow == 0 ==> w <= i
        decreases i + 1
      {
        PushedFacts(net, level, t, f0, Flow(), x, flow);
        StartsPathFacts(net, f0, level, x, w);
        EdgeFacts(net, i);
        if d[x] + 1 == d[edges[i].to] {
          var f := Follow(x, i, a, net, f0, flow, top, if k > 0 then k - 1 else 0);
          if f > 0 {
            flow := flow + f;
            a := a - f;
            if a == 0 {
              break;
            }
          }
        }
        NextInList(net, cur[..], nxt[..m], n, i);
        i := nxt[i];
      }
    }

    /** One arc of the push: what its end can send is pushed along it, after `flow` units from `x` already. */
    method Follow(x: nat, i: nat, a: int, ghost net: seq<Arc>, ghost f0: seq<int>, ghost flow: int, ghost top: int, ghost k: nat)
      returns (f: int)
      requires Shape() && Graph() == net && Paired(net, n) && Threaded(net, cur[..], nxt[..m], n)
      requires x < n && i < m && 0 < a && net[i].from == x && d[x] + 1 == d[net[i].to]
      requires Pushed(net, d[..], t, f0, Flow(), x, flow)
      requires forall v :: 0 <= v < n ==> d[v] <= top
      modifies edges
      ensures Graph() == net && 0 <= f <= a && Pushed(net, d[..], t, f0, Flow(), x, flow + f)
      ensures StartsPath(net, old(Flow()), d[..], x, i) && CanPush(net, old(Flow()), d[..], net[i].to, t, k) ==> 0 < f
      decreases top - d[x], 0
    {
      hide *;
      Sizes();
      ghost var level, f1 := d[..], Flow();
      var e := edges[i];
      PushedFacts(net, level, t, f0, f1, x, flow);
      EdgeFacts(net, i);
      StartsPathFacts(net, f1, level, x, i);
      MinFacts(a, e.cap - e.flow);
      f := DFS(e.to, Min(a, e.cap - e.flow), net, top, k);
      ghost var f2 := Flow();
      if f > 0 {
        PushOn(net, level, t, f0, f1, f2, i, flow, f);
        PushArc(i, f, net);
      } else {
        PushedFacts(net, level, t, f1, f2, e.to, f);
      }
    }

    /** The breadth-first search: levels in `d`, reached vertices in `vis`. */
    method BFS(ghost net: seq<Arc>) returns (found: bool)
      requires Shape() && Graph() == net && Paired(net, n) && Threaded(net, head[..], nxt[..m], n)
      modifies vis, d, queue
      ensures found == vis[t]
      ensures HasParents(net, Flow(), d[..], vis[..], s)
      ensures Saturated(net, Flow(), vis[..])
    {
      hide *;
      Sizes();
      Separate();
      ghost var f := Flow();
      for i := 0 to n
        invariant forall v :: 0 <= v < i ==> !vis[v]
      {
        vis[i] := false;
      }
      var qf, qr := 0, 0;
      queue[qr] := s;
      qr := qr + 1;
      d[s] := 0;
      vis[s] := true;
      SearchStart(net, f, d[..], vis[..], s);
      assert queue[..qr] == [s];
      NoneScanned(net, f, vis[..], queue[..qr]);
      while qf != qr
        invariant 0 <= qf <= qr <= n
        invariant Searching(net, f, d[..], vis[..], queue[..qr], s)
        invariant AllScanned(net, f, vis[..], queue[..qr], qf)
        decreases n - qf
      {
        var x := queue[qf];
        SearchingFacts(net, f, d[..], vis[..], queue[..qr], s, qf);
        qf := qf + 1;
        qr := Scan(x, qf - 1, qr, net);
        ScannedNext(net, f, vis[..], queue[..qr], qf - 1);
      }
      SearchDone(net, f, d[..], vis[..], queue[..qr], s);
      SearchingParents(net, f, d[..], vis[..], queue[..qr], s);
      found := vis[t];
    }

    /** The inner loop: every arc of `x`, the vertex just taken from the queue. */
    method Scan(x: int, qf: nat, qr0: nat, ghost net: seq<Arc>) returns (qr: nat)
      requires Shape() && Graph() == net && Paired(net, n) && Threaded(net, head[..], nxt[..m], n)
      requires qf < qr0 <= n && 0 <= x < n && x == queue[qf]
      requires Searching(net, Flow(), d[..], vis[..], queue[..qr0], s)
      requires AllScanned(net, Flow(), vis[..], queue[..qr0], qf)
      modifies vis, d, queue
      ensures qr0 <= qr <= n && queue[..qr0] == old(queue[..qr0])
      ensures Searching(net, Flow(), d[..], vis[..], queue[..qr], s)
      ensures AllScanned(net, Flow(), vis[..], queue[..qr], qf)
      ensures Scanned(net, Flow(), vis[..], x, -1)
    {
      hide *;
      Sizes();
      Separate();
      ghost var f, taken := Flow(), queue[..qr0];
      qr := qr0;
      FirstInList(net, head[..], nxt[..m], n, x);
      SearchingFacts(net, f, d[..], vis[..], queue[..qr], s, qf);
      var i := head[x];
      ScannedFrom(net, f, vis[..], x, m - 1, i);
      while i != -1
        invariant -1 <= i < m && (i >= 0 ==> net[i].from == x)
        invariant qr0 <= qr <= n && queue[..qr0] == taken && vis[x]
        invariant Searching(net, f, d[..], vis[..], queue[..qr], s)
        invariant AllScanned(net, f, vis[..], queue[..qr], qf)
        invariant Scanned(net, f, vis[..], x, i)
        decreases i + 1
      {
        var e := edges[i];
        EdgeFacts(net, i);
        if !vis[e.to] && e.cap > e.flow {
          ghost var vis0, d0, q0 := vis[..], d[..], queue[..qr];
          Discover(net, f, d0, vis0, q0, s, i);
          ScannedGrows(net, f, vis0, q0, qf, e.to, x, i);
          vis[e.to] := true;
          d[e.to] := d[x] + 1;
          queue[qr] := e.to;
          qr := qr + 1;
          assert vis[..] == vis0[e.to := true] && d[..] == d0[e.to := d0[x] + 1] && queue[..qr] == q0 + [e.to];
        }
        NextInList(net, head[..], nxt[..m], n, i);
        ScannedOne(net, f, vis[..], x, i, nxt[i]);
        i := nxt[i];
      }
    }

    lemma Separate()
      requires Shape()
      ensures head != nxt && head != d && head != cur && head != queue
      ensures nxt != d && nxt != cur && nxt != queue && d != cur && d != queue && cur != queue
    {
    }

    static lemma NoneScanned(net: seq<Arc>, f: seq<int>, vis: seq<bool>, q: seq<int>)
      requires |net| == |f| && Paired(net, |vis|)
      ensures AllScanned(net, f, vis, q, 0)
    {
    }

    static lemma SearchingFacts(net: seq<Arc>, f: seq<int>, d: seq<int>, vis: seq<bool>, q: seq<int>, s: nat, k: nat)
      requires Searching(net, f, d, vis, q, s) && k < |q|
      ensures 0 <= q[k] < |d| && |vis| == |d| && vis[q[k]]
    {
    }

    static lemma SearchingParents(net: seq<Arc>, f: seq<int>, d: seq<int>, vis: seq<bool>, q: seq<int>, s: nat)
      requires Searching(net, f, d, vis, q, s)
      ensures HasParents(net, f, d, vis, s)
    {
    }

    static lemma ScannedNext(net: seq<Arc>, f: seq<int>, vis: seq<bool>, q: seq<int>, k: nat)
      requires |net| == |f| && Paired(net, |vis|) && k < |q|
      requires AllScanned(net, f, vis, q, k) && Scanned(net, f, vis, q[k], -1)
      ensures AllScanned(net, f, vis, q, k + 1)
    {
    }

    /** Arcs after the head of the list do not leave `x`. */
    static lemma ScannedFrom(net: seq<Arc>, f: seq<int>, vis: seq<bool>, x: int, hi: int, lo: int)
      requires |net| == |f| && Paired(net, |vis|)
      requires hi == |net| - 1 && forall j :: lo < j < |net| && 0 <= j ==> net[j].from != x
      ensures Scanned(net, f, vis, x, lo)
    {
    }

    static lemma ScannedOne(net: seq<Arc>, f: seq<int>, vis: seq<bool>, x: int, i: nat, lo: int)
      requires |net| == |f| && Paired(net, |vis|) && i < |net|
      requires Scanned(net, f, vis, x, i) && (f[i] < net[i].cap ==> vis[net[i].to])
      requires -1 <= lo < i && net[i].from == x && forall j :: lo < j < i ==> net[j].from != net[i].from
      ensures Scanned(net, f, vis, x, lo)
    {
    }

    /** The maximum flow from `source` to `sink`, added to the flow already there. */
    method Maxflow(source: nat, sink: nat, ghost net: seq<Arc>) returns (flow: int)
      requires Arrays() && Graph() == net && Paired(net, n) && Threaded(net, head[..], nxt[..m], n)
      requires source < n && sink < n && source != sink && IsFlow(net, Flow(), n, source, sink)
      modifies this`s, this`t, edges, vis, d, cur, queue
      ensures Arrays() && Graph() == net && IsFlow(net, Flow(), n, source, sink)
      ensures flow == Out(net, Flow(), source) - Out(net, old(Flow()), source)
      ensures IsMaximum(net, Flow(), n, source, sink)
      ensures !vis[sink] && vis[source] && Out(net, Flow(), source) == Leaving(net, Caps(net), vis[..], |net|)
    {
      hide *;
      s, t := source, sink;
      assert Shape() by { ArraysShape(); }
      Sizes();
      Separate();
      flow := 0;
      ghost var f0 := Flow();
      ghost var room := CapOut(net, source, |net|);
      FlowIsAdmissible(net, Flow(), n, s, t);
      var found := BFS(net);
      while found
        invariant Shape() && s == source && t == sink && Graph() == net && Threaded(net, head[..], nxt[..m], n)
        invariant IsFlow(net, Flow(), n, s, t) && flow == Out(net, Flow(), s) - Out(net, f0, s)
        invariant found == vis[t] && HasParents(net, Flow(), d[..], vis[..], s) && Saturated(net, Flow(), vis[..])
        decreases room - Out(net, Flow(), s)
      {
        CopyHeads();
        ghost var f1 := Flow();
        ghost var top := UpperBound(d[..]);
        FlowIsAdmissible(net, f1, n, s, t);
        AtSink(net, f1, d[..], t);
        ghost var k := BackToSource(net, f1, d[..], vis[..], s, t, t, 0);
        var f := DFS(s, 0x3f3f3f, net, top, k);
        flow := flow + f;
        PushFromSource(net, d[..], s, t, f1, Flow(), f);
        FlowIsAdmissible(net, Flow(), n, s, t);
        ValueBounded(net, Flow(), s);
        found := BFS(net);
      }
      ParentsReachSource(net, Flow(), d[..], vis[..], s);
      FailedSearchIsMaximum(net, Flow(), d[..], vis[..], s, t);
    }

    /** The start of every round: `cur` is a copy of `head`. */
    method CopyHeads()
      requires Shape()
      modifies cur
      ensures cur[..] == head[..]
    {
      for i := 0 to n
        invariant forall v :: 0 <= v < i ==> cur[v] == head[v]
      {
        cur[i] := head[i];
      }
    }

    lemma ArraysShape()
      ensures Arrays() && s < n && t < n ==> Shape()
    {
    }

    static lemma FlowIsAdmissible(net: seq<Arc>, f: seq<int>, n: nat, s: nat, t: nat)
      requires IsFlow(net, f, n, s, t)
      ensures Admissible(net, f)
    {
    }

    static lemma AtSink(net: seq<Arc>, f: seq<int>, d: seq<int>, t: nat)
      requires |net| == |f| && Paired(net, |d|) && t < |d|
      ensures CanPush(net, f, d, t, t, 0)
    {
    }

    static lemma ValueBounded(net: seq<Arc>, f: seq<int>, s: nat)
      requires Admissible(net, f)
      ensures Out(net, f, s) <= CapOut(net, s, |net|)
    {
      OutBounded(net, f, s, |net|);
    }

    static lemma ParentsReachSource(net: seq<Arc>, f: seq<int>, d: seq<int>, vis: seq<bool>, s: nat)
      requires |net| == |f| && Paired(net, |d|) && |vis| == |d| && s < |d| && HasParents(net, f, d, vis, s)
      ensures vis[s]
    {
    }

    lemma Sizes()
      requires Shape()
      ensures Arrays()
      ensures m <= edges.Length == nxt.Length
      ensures head.Length == d.Length == cur.Length == queue.Length == vis.Length == n
      ensures s < n && t < n
    {
    }

    /** Edge `i` as an arc and a flow. */
    lemma EdgeFacts(net: seq<Arc>, i: nat)
      requires Shape() && Graph() == net && Paired(net, n) && i < m
      ensures net[i] == Arc(edges[i].from, edges[i].to, edges[i].cap) && Flow()[i] == edges[i].flow
      ensures edges[i].from < n && edges[i].to < n && Pair(i) < m
    {
      FlowOf(edges[..m], i);
    }

    static lemma StartsPathFacts(net: seq<Arc>, f: seq<int>, d: seq<int>, x: nat, i: nat)
      requires |net| == |f| && Paired(net, |d|) && x < |d|
      ensures StartsPath(net, f, d, x, i) <==>
              i < |net| && net[i].from == x && f[i] < net[i].cap && d[net[i].to] == d[x] + 1
    {
    }

    static lemma PushedFacts(net: seq<Arc>, d: seq<int>, t: nat, f: seq<int>, f': seq<int>, x: nat, r: int)
      requires Paired(net, |d|) && x < |d| && Pushed(net, d, t, f, f', x, r)
      ensures Admissible(net, f') && |f'| == |net| && (r == 0 ==> f' == f) && 0 <= r
      ensures forall i :: 0 <= i < |net| ==> f'[i] <= net[i].cap
    {
    }

    static lemma MinFacts(x: int, y: int)
      ensures Min(x, y) <= x && Min(x, y) <= y && (Min(x, y) == x || Min(x, y) == y)
      ensures 0 <= x && 0 <= y ==> 0 <= Min(x, y)
      ensures 0 < x && 0 < y ==> 0 < Min(x, y)
    {
    }

    static lemma PushIs(f: seq<int>, i: nat, g: int)
      requires i < |f| && Pair(i) < |f|
      ensures Push(f, i, g) == f[i := f[i] + g][Pair(i) := f[i := f[i] + g][Pair(i)] + -g]
    {
    }
  }
}
