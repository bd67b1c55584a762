/** `core_list_mergesort` on linked nodes, with the comparisons that change what they compare. */
module ListSort {
  import opened Counting
  import opened ListOrder

  class ListData {
    var data16: int
    var idx: int

    constructor (data16: int, idx: int)
      ensures this.data16 == data16 && this.idx == idx
    {
      this.data16, this.idx := data16, idx;
    }
  }

  class ListHead {
    var next: ListHead?
    const info: ListData

    constructor (info: ListData, next: ListHead?)
      ensures this.info == info && this.next == next
    {
      this.info, this.next := info, next;
    }
  }

  function Signed16(x: int): int { (x + 0x8000) % 0x1_0000 - 0x8000 }

  /** The number with the same 16 low bits in the range of a signed halfword. */
  lemma Signed16Is(x: int)
    ensures -0x8000 <= Signed16(x) < 0x8000 && (x - Signed16(x)) % 0x1_0000 == 0
  {
  }

  /** The benchmark's results. The two kernels may answer anything that depends on how often they ran before,
      on their seed and on the checksum. */
  class Results {
    var crc: int
    var crcstate: int
    var crcmatrix: int
    var calls: nat
    const state: (nat, int, int) -> int
    const matrix: (nat, int, int) -> int
    const crcu16: (int, int) -> int

    constructor (state: (nat, int, int) -> int, matrix: (nat, int, int) -> int, crcu16: (int, int) -> int)
      ensures this.state == state && this.matrix == matrix && this.crcu16 == crcu16
      ensures crc == 0 && crcstate == 0 && crcmatrix == 0 && calls == 0
    {
      this.state, this.matrix, this.crcu16 := state, matrix, crcu16;
      crc, crcstate, crcmatrix, calls := 0, 0, 0, 0;
    }
  }

  /** The low seven bits that a fresh computation gives an element. */
  function Fresh(res: Results, data: int): int
    reads res
  {
    var seed := data / 8 % 16 * 17;
    match data % 8
    case 0 => Signed16(res.state(res.calls, if seed < 0x22 then 0x22 else seed, res.crc))
    case 1 => Signed16(res.matrix(res.calls, seed, res.crc))
    case _ => data
  }

  ghost function InfoOf(d: ListData): Info
    reads d
  {
    Info(d.data16, d.idx)
  }

  /** A kernel's checksum is its first result that is not zero. */
  function FirstOf(crc: int, flag: int, res: Results, data: int): int
    reads res
  {
    if crc == 0 && !Cached(data) && data % 8 == flag then Fresh(res, data) % 0x1_0000 else crc
  }

  /** `calc_func`: computes at most once per element and remembers. */
  method CalcFunc(pdata: ListData, res: Results) returns (retval: int)
    modifies pdata`data16, res
    ensures Touched(ByData, InfoOf(pdata)) && retval == Key(ByData, InfoOf(pdata))
    ensures Evolves(ByData, old(InfoOf(pdata)), InfoOf(pdata))
    ensures old(Cached(pdata.data16)) ==> res.crc == old(res.crc) && res.calls == old(res.calls)
    ensures !old(Cached(pdata.data16)) ==> retval == old(Fresh(res, pdata.data16)) % 128
    ensures !old(Cached(pdata.data16)) ==> res.crc == res.crcu16(old(Fresh(res, pdata.data16)) % 0x1_0000, old(res.crc))
    ensures res.crcstate == old(FirstOf(res.crcstate, 0, res, pdata.data16))
    ensures res.crcmatrix == old(FirstOf(res.crcmatrix, 1, res, pdata.data16))
    ensures res.calls == old(res.calls) + if !old(Cached(pdata.data16)) && old(pdata.data16) % 8 < 2 then 1 else 0
  {
    var data := pdata.data16;
    if data / 128 % 2 == 1 {
      return data % 128;
    }
    var flag := data % 8;
    var dtype := data / 8 % 16;
    dtype := dtype + dtype * 16;
    if flag == 0 {
      if dtype < 0x22 {
        dtype := 0x22;
      }
      retval := Signed16(res.state(res.calls, dtype, res.crc));
      res.calls := res.calls + 1;
      if res.crcstate == 0 {
        res.crcstate := retval % 0x1_0000;
      }
    } else if flag == 1 {
      retval := Signed16(res.matrix(res.calls, dtype, res.crc));
      res.calls := res.calls + 1;
      if res.crcmatrix == 0 {
        res.crcmatrix := retval % 0x1_0000;
      }
    } else {
      retval := data;
    }
    res.crc := res.crcu16(retval % 0x1_0000, res.crc);
    retval := retval % 128;
    Remembered(data, retval);
    pdata.data16 := data - data % 256 + 128 + retval;
  }

  lemma Remembered(data: int, r: int)
    requires 0 <= r < 128
    ensures var x := data - data % 256 + 128 + r;
            Cached(x) && x % 128 == r && x / 256 == data / 256
  {
    var h := data / 256;
    assert data - data % 256 + 128 + r == 256 * h + (128 + r);
    assert 256 * h + (128 + r) == 128 * (2 * h + 1) + r;
  }

  lemma CopiesUpper(data: int)
    ensures data - data % 256 + data / 256 % 256 == Regenerated(data)
  {
  }

  /** `cmp_complex` and `cmp_idx`. */
  method Cmp(m: Mode, a: ListData, b: ListData, res: Results?) returns (r: int)
    requires if m.ByData? then res != null else m.regen <==> res == null
    modifies a`data16, b`data16, if res == null then {} else {res}
    ensures Touched(m, InfoOf(a)) && Touched(m, InfoOf(b))
    ensures Evolves(m, old(InfoOf(a)), InfoOf(a)) && Evolves(m, old(InfoOf(b)), InfoOf(b))
    ensures r == Key(m, InfoOf(a)) - Key(m, InfoOf(b))
    ensures r == if m.ByData? then a.data16 % 128 - b.data16 % 128 else a.idx - b.idx
    ensures Settled(m, old(InfoOf(a)), InfoOf(a)) && Settled(m, old(InfoOf(b)), InfoOf(b))
  {
    ghost var x, y := InfoOf(a), InfoOf(b);
    hide Cached, Regenerated, Settled;
    if m.ByData? {
      var val1 := CalcFunc(a, res);
      var val2 := CalcFunc(b, res);
      TouchedIsSettled(m, x, InfoOf(a));
      TouchedIsSettled(m, y, InfoOf(b));
      return val1 - val2;
    }
    if res == null {
      RegeneratedFacts(a.data16);
      RegeneratedFacts(b.data16);
      CopiesUpper(a.data16);
      a.data16 := a.data16 - a.data16 % 256 + a.data16 / 256 % 256;
      CopiesUpper(b.data16);
      b.data16 := b.data16 - b.data16 % 256 + b.data16 / 256 % 256;
    }
    r := a.idx - b.idx;
    TouchedIsSettled(m, x, InfoOf(a));
    TouchedIsSettled(m, y, InfoOf(b));
  }

  // ---- the list in memory ----

  // `orig` holds the nodes in their order at the start; a list is given by places in `orig`.

  ghost function Infos(orig: seq<ListHead>): set<ListData> { set x | x in orig :: x.info }

  ghost function ResSet(res: Results?): set<Results> { if res == null then {} else {res} }

  ghost function View(orig: seq<ListHead>): (view: seq<Info>)
    reads Infos(orig)
    ensures |view| == |orig| && forall i :: 0 <= i < |orig| ==> view[i] == InfoOf(orig[i].info)
  {
    seq(|orig|, i requires 0 <= i < |orig| reads Infos(orig) => InfoOf(orig[i].info))
  }

  ghost function At(orig: seq<ListHead>, i: int): ListHead?
    requires i < |orig|
  {
    if i < 0 then null else orig[i]
  }

  /** The links in memory are `nx`. */
  ghost predicate Linked(orig: seq<ListHead>, nx: seq<int>)
    reads orig
  {
    |nx| == |orig| && forall i :: 0 <= i < |orig| ==> nx[i] < |orig| && orig[i].next == At(orig, nx[i])
  }

  ghost predicate Apart(orig: seq<ListHead>) { forall i, j :: 0 <= i < j < |orig| ==> orig[i] != orig[j] }

  ghost predicate InList(orig: seq<ListHead>, s: seq<nat>) { forall x :: x in s ==> x < |orig| }

  /** `list` and `tail` are the ends of the part that is done. */
  ghost predicate Ends(orig: seq<ListHead>, done: seq<nat>, list: ListHead?, tail: ListHead?) {
    && InList(orig, done)
    && if done == [] then list == null && tail == null
       else done[0] < |orig| && done[|done| - 1] < |orig| && list == orig[done[0]] && tail == orig[done[|done| - 1]]
  }

  /** Appending a node to the part that is done. */
  method Append(e: ListHead, list: ListHead?, tail: ListHead?, ghost orig: seq<ListHead>, ghost nx: seq<int>,
                ghost done: seq<nat>, ghost i: nat)
    returns (list': ListHead, tail': ListHead)
    requires Apart(orig) && Linked(orig, nx) && Ends(orig, done, list, tail) && i < |orig| && e == orig[i]
    modifies orig
    ensures Ends(orig, done + [i], list', tail') && View(orig) == old(View(orig))
    ensures (done != [] ==> done[|done| - 1] < |nx|) && Linked(orig, LinkTo(nx, done, i))
  {
    if tail != null {
      tail.next := e;
      list' := list;
    } else {
      list' := e;
    }
    tail' := e;
  }

  /** What the merge of two runs starts from: the nodes done, the two runs, and what comes after them. */
  ghost predicate Merge(orig: seq<ListHead>, nx: seq<int>, done: seq<nat>, a: seq<nat>, b: seq<nat>, rest: seq<nat>,
                        p: ListHead?, q: ListHead?, psize: nat, qsize: nat)
    reads orig
  {
    && Linked(orig, nx) && Links(nx, done, a, b + rest) && InList(orig, a) && InList(orig, b + rest)
    && (a != [] ==> p == At(orig, First(a))) && psize == |a|
    && First(b + rest) < |orig| && q == At(orig, First(b + rest))
    && |b| <= qsize && (|b| < qsize ==> rest == [])
  }

  lemma MergeHeads(orig: seq<ListHead>, nx: seq<int>, done: seq<nat>, a: seq<nat>, b: seq<nat>, rest: seq<nat>,
                   p: ListHead?, q: ListHead?, psize: nat, qsize: nat)
    requires Merge(orig, nx, done, a, b, rest, p, q, psize, qsize)
    ensures Linked(orig, nx) && Links(nx, done, a, b + rest)
    ensures (qsize > 0 && q != null) <==> b != []
    ensures psize > 0 <==> a != []
    ensures a != [] ==> a[0] < |orig| && p == orig[a[0]]
    ensures b != [] ==> b[0] < |orig| && q == orig[b[0]]
    ensures First(b + rest) < |orig| && q == At(orig, First(b + rest))
  {
    hide Links, Linked;
    if b + rest != [] {
      assert (b + rest)[0] in b + rest;
    }
    assert a != [] ==> a[0] in a;
  }

  lemma MergeFirst(orig: seq<ListHead>, nx: seq<int>, done: seq<nat>, a: seq<nat>, b: seq<nat>, rest: seq<nat>,
                   p: ListHead?, q: ListHead?, psize: nat, qsize: nat)
    returns (next: ListHead?)
    requires Merge(orig, nx, done, a, b, rest, p, q, psize, qsize) && a != []
    ensures p != null && next == p.next && psize > 0
    ensures a[0] < |nx| && (done != [] ==> done[|done| - 1] < |nx|)
    ensures AfterTake(orig, LinkTo(nx, done, a[0]), done + [a[0]], a[1..], b, rest, next, q, psize - 1, qsize)
  {
    LinkFirst(nx, done, a, b + rest);
    assert forall x :: x in a[1..] ==> x in a;
    assert a[0] in a;
    hide Links;
    next := p.next;
  }

  lemma MergeSecond(orig: seq<ListHead>, nx: seq<int>, done: seq<nat>, a: seq<nat>, b: seq<nat>, rest: seq<nat>,
                    p: ListHead?, q: ListHead?, psize: nat, qsize: nat)
    returns (next: ListHead?)
    requires Merge(orig, nx, done, a, b, rest, p, q, psize, qsize) && b != []
    ensures q != null && next == q.next && qsize > 0
    ensures b[0] < |nx| && (done != [] ==> done[|done| - 1] < |nx|)
    ensures AfterTake(orig, LinkTo(nx, done, b[0]), done + [b[0]], a, b[1..], rest, p, next, psize, qsize - 1)
  {
    LinkSecond(nx, done, a, b + rest);
    assert (b + rest)[1..] == b[1..] + rest && (b + rest)[0] == b[0];
    assert forall x :: x in b[1..] + rest ==> x in b + rest;
    assert b[0] in b + rest;
    hide Links;
    next := q.next;
  }

  /** The same as `Merge`, but for the links in memory. */
  ghost predicate AfterTake(orig: seq<ListHead>, nx: seq<int>, done: seq<nat>, a: seq<nat>, b: seq<nat>, rest: seq<nat>,
                            p: ListHead?, q: ListHead?, psize: nat, qsize: nat)
  {
    && Links(nx, done, a, b + rest) && InList(orig, a) && InList(orig, b + rest)
    && First(a) < |orig| && (a != [] ==> p == At(orig, First(a))) && psize == |a|
    && First(b + rest) < |orig| && q == At(orig, First(b + rest))
    && |b| <= qsize && (|b| < qsize ==> rest == [])
  }

  lemma MergeAgain(orig: seq<ListHead>, nx: seq<int>, done: seq<nat>, a: seq<nat>, b: seq<nat>, rest: seq<nat>,
                   p: ListHead?, q: ListHead?, psize: nat, qsize: nat)
    requires Linked(orig, nx) && AfterTake(orig, nx, done, a, b, rest, p, q, psize, qsize)
    ensures Merge(orig, nx, done, a, b, rest, p, q, psize, qsize)
  {
    hide Links, Linked;
  }

  lemma Shift(done: seq<nat>, out: seq<nat>, i: nat, m: multiset<nat>, s: seq<nat>)
    requires s != [] && s[0] == i
    ensures (done + out) + [i] == done + (out + [i])
    ensures multiset(out + [i]) + multiset(s[1..]) == multiset(out) + multiset(s)
    ensures (multiset(out) + multiset(s)) + m == (multiset(out + [i]) + multiset(s[1..])) + m
    ensures (multiset(out) + m) + multiset(s) == (multiset(out + [i]) + m) + multiset(s[1..])
  {
    assert s == [i] + s[1..];
    assert multiset(s) == multiset{i} + multiset(s[1..]);
  }

  /** The head of the first run is next. */
  method TakeP(p: ListHead, q: ListHead?, psize: nat, ghost qsize: nat, list: ListHead?, tail: ListHead?,
               ghost orig: seq<ListHead>, ghost nx: seq<int>, ghost done: seq<nat>, ghost a: seq<nat>, ghost b: seq<nat>,
               ghost rest: seq<nat>)
    returns (p': ListHead?, list': ListHead, tail': ListHead, ghost nx': seq<int>)
    requires Apart(orig) && Merge(orig, nx, done, a, b, rest, p, q, psize, qsize) && Ends(orig, done, list, tail) && a != []
    modifies orig
    ensures psize > 0 && Merge(orig, nx', done + [a[0]], a[1..], b, rest, p', q, psize - 1, qsize)
    ensures Ends(orig, done + [a[0]], list', tail') && View(orig) == old(View(orig))
  {
    hide *;
    MergeHeads(orig, nx, done, a, b, rest, p, q, psize, qsize);
    ghost var next := MergeFirst(orig, nx, done, a, b, rest, p, q, psize, qsize);
    p' := p.next;
    nx' := LinkTo(nx, done, a[0]);
    list', tail' := Append(p, list, tail, orig, nx, done, a[0]);
    MergeAgain(orig, nx', done + [a[0]], a[1..], b, rest, p', q, psize - 1, qsize);
  }

  /** The head of the second run is next. */
  method TakeQ(p: ListHead?, q: ListHead, ghost psize: nat, qsize: nat, list: ListHead?, tail: ListHead?,
               ghost orig: seq<ListHead>, ghost nx: seq<int>, ghost done: seq<nat>, ghost a: seq<nat>, ghost b: seq<nat>,
               ghost rest: seq<nat>)
    returns (q': ListHead?, list': ListHead, tail': ListHead, ghost nx': seq<int>)
    requires Apart(orig) && Merge(orig, nx, done, a, b, rest, p, q, psize, qsize) && Ends(orig, done, list, tail) && b != []
    modifies orig
    ensures qsize > 0 && Merge(orig, nx', done + [b[0]], a, b[1..], rest, p, q', psize, qsize - 1)
    ensures Ends(orig, done + [b[0]], list', tail') && View(orig) == old(View(orig))
  {
    hide *;
    MergeHeads(orig, nx, done, a, b, rest, p, q, psize, qsize);
    ghost var next := MergeSecond(orig, nx, done, a, b, rest, p, q, psize, qsize);
    q' := q.next;
    nx' := LinkTo(nx, done, b[0]);
    list', tail' := Append(q, list, tail, orig, nx, done, b[0]);
    MergeAgain(orig, nx', done + [b[0]], a, b[1..], rest, p, q', psize, qsize - 1);
  }

  /** The inner loop: merges two runs onto the part that is done. */
  method MergeRuns(m: Mode, res: Results?, insize: nat, p0: ListHead, q0: ListHead?, psize0: nat,
                   list0: ListHead?, tail0: ListHead?, ghost orig: seq<ListHead>, ghost nx0: seq<int>,
                   ghost done: seq<nat>, ghost a0: seq<nat>, ghost b0: seq<nat>, ghost rest: seq<nat>)
    returns (q: ListHead?, list: ListHead?, tail: ListHead?, ghost nx: seq<int>, ghost out: seq<nat>)
    requires if m.ByData? then res != null else m.regen <==> res == null
    requires Apart(orig) && Merge(orig, nx0, done, a0, b0, rest, p0, q0, psize0, insize) && Ends(orig, done, list0, tail0)
    requires Merging(m, View(orig), [], a0, b0)
    modifies orig, Infos(orig), ResSet(res)
    ensures AllEvolve(m, old(View(orig)), View(orig)) && Ordered(m, View(orig), out)
    ensures multiset(out) == multiset(a0) + multiset(b0)
    ensures Linked(orig, nx) && Links(nx, done + out, [], rest) && Ends(orig, done + out, list, tail)
    ensures First(rest) < |orig| && q == At(orig, First(rest))
  {
    hide *;
    var p: ListHead? := p0;
    var psize, qsize := psize0, insize;
    q, list, tail := q0, list0, tail0;
    nx, out := nx0, [];
    ghost var a, b := a0, b0;
    AllEvolveRefl(m, View(orig));
    assert done + [] == done;
    while psize > 0 || (qsize > 0 && q != null)
      invariant Merge(orig, nx, done + out, a, b, rest, p, q, psize, qsize) && Ends(orig, done + out, list, tail)
      invariant Merging(m, View(orig), out, a, b)
      invariant AllEvolve(m, old(View(orig)), View(orig))
      invariant multiset(out) + multiset(a) + multiset(b) == multiset(a0) + multiset(b0)
      decreases |a| + |b|
    {
      ghost var view := View(orig);
      MergeHeads(orig, nx, done + out, a, b, rest, p, q, psize, qsize);
      p, q, psize, qsize, list, tail, nx, out, a, b :=
        MergeOne(m, res, p, q, psize, qsize, list, tail, orig, nx, done, out, a, b, rest);
      AllEvolveTrans(m, old(View(orig)), view, View(orig));
    }
    MergeHeads(orig, nx, done + out, a, b, rest, p, q, psize, qsize);
    MergeEnds(m, View(orig), out);
    assert b + rest == rest;
  }

  /** One round of the inner loop. */
  method MergeOne(m: Mode, res: Results?, p: ListHead?, q: ListHead?, psize: nat, qsize: nat, list: ListHead?, tail: ListHead?,
                  ghost orig: seq<ListHead>, ghost nx: seq<int>, ghost done: seq<nat>, ghost out: seq<nat>, ghost a: seq<nat>,
                  ghost b: seq<nat>, ghost rest: seq<nat>)
    returns (p': ListHead?, q': ListHead?, psize': nat, qsize': nat, list': ListHead?, tail': ListHead?,
             ghost nx': seq<int>, ghost out': seq<nat>, ghost a': seq<nat>, ghost b': seq<nat>)
    requires if m.ByData? then res != null else m.regen <==> res == null
    requires Apart(orig) && Merge(orig, nx, done + out, a, b, rest, p, q, psize, qsize) && Ends(orig, done + out, list, tail)
    requires Merging(m, View(orig), out, a, b) && (a != [] || b != [])
    modifies orig, Infos(orig), ResSet(res)
    ensures Merge(orig, nx', done + out', a', b', rest, p', q', psize', qsize') && Ends(orig, done + out', list', tail')
    ensures Merging(m, View(orig), out', a', b') && AllEvolve(m, old(View(orig)), View(orig))
    ensures multiset(out') + multiset(a') + multiset(b') == multiset(out) + multiset(a) + multiset(b)
    ensures |a'| + |b'| < |a| + |b|
  {
    hide *;
    p', q', psize', qsize' := p, q, psize, qsize;
    a', b' := a, b;
    MergeHeads(orig, nx, done + out, a, b, rest, p, q, psize, qsize);
    var first := Decide(m, res, p, q, psize, qsize, orig, nx, out, a, b);
    if first {
      TakeFirst(m, View(orig), out, a, b);
      Shift(done, out, a[0], multiset(b), a);
      p', list', tail', nx' := TakeP(p, q, psize, qsize, list, tail, orig, nx, done + out, a, b, rest);
      psize' := psize - 1;
      out', a' := out + [a[0]], a[1..];
    } else {
      TakeSecond(m, View(orig), out, a, b);
      Shift(done, out, b[0], multiset(a), b);
      q', list', tail', nx' := TakeQ(p, q, psize, qsize, list, tail, orig, nx, done + out, a, b, rest);
      qsize' := qsize - 1;
      out', b' := out + [b[0]], b[1..];
    }
  }

  /** Whether the next node comes from the first run. */
  method Decide(m: Mode, res: Results?, p: ListHead?, q: ListHead?, psize: nat, qsize: nat, ghost orig: seq<ListHead>,
                ghost nx: seq<int>, ghost out: seq<nat>, ghost a: seq<nat>, ghost b: seq<nat>)
    returns (first: bool)
    requires if m.ByData? then res != null else m.regen <==> res == null
    requires (psize > 0 <==> a != []) && (qsize > 0 && q != null <==> b != []) && (a != [] || b != [])
    requires (a != [] ==> a[0] < |orig| && p == orig[a[0]]) && (b != [] ==> b[0] < |orig| && q == orig[b[0]])
    requires Linked(orig, nx) && Merging(m, View(orig), out, a, b)
    modifies Infos(orig), ResSet(res)
    ensures Linked(orig, nx)
    ensures AllEvolve(m, old(View(orig)), View(orig)) && Merging(m, View(orig), out, a, b)
    ensures if first then a != [] && (b != [] ==> Le(m, View(orig), a[0], b[0]))
            else b != [] && (a != [] ==> Le(m, View(orig), b[0], a[0]))
  {
    hide *;
    AllEvolveRefl(m, View(orig));
    if psize == 0 {
      first := false;
    } else if qsize == 0 || q == null {
      first := true;
    } else {
      first := CompareHeads(m, res, p, q, orig, nx, out, a, b);
    }
  }

  /** One comparison of the two heads. */
  method CompareHeads(m: Mode, res: Results?, p: ListHead, q: ListHead, ghost orig: seq<ListHead>, ghost nx: seq<int>,
                      ghost out: seq<nat>, ghost a: seq<nat>, ghost b: seq<nat>)
    returns (first: bool)
    requires if m.ByData? then res != null else m.regen <==> res == null
    requires a != [] && b != [] && a[0] < |orig| && b[0] < |orig| && p == orig[a[0]] && q == orig[b[0]]
    requires Linked(orig, nx) && Merging(m, View(orig), out, a, b)
    modifies Infos(orig), ResSet(res)
    ensures Linked(orig, nx)
    ensures AllEvolve(m, old(View(orig)), View(orig)) && Merging(m, View(orig), out, a, b)
    ensures if first then Le(m, View(orig), a[0], b[0]) else Le(m, View(orig), b[0], a[0])
  {
    hide Merging, Ordered, Touched, Key, Evolves, Le;
    ghost var view := View(orig);
    assert p.info in Infos(orig) && q.info in Infos(orig);
    var r := Cmp(m, p.info, q.info, res);
    forall i | 0 <= i < |orig|
      ensures Evolves(m, view[i], View(orig)[i])
    {
      EvolvesRefl(m, view[i]);
    }
    MergingEvolves(m, view, View(orig), out, a, b);
    Compared(m, View(orig), out, a, b);
    first := r <= 0;
  }

  lemma EvolvesRefl(m: Mode, x: Info)
    ensures Evolves(m, x, x)
  {
  }

  /** Steps `insize` places along, or to the end. */
  method Step(p: ListHead, insize: nat, ghost orig: seq<ListHead>, ghost nx: seq<int>, ghost s: seq<nat>)
    returns (q: ListHead?, psize: nat)
    requires 0 < insize && Linked(orig, nx) && ChainEnd(nx, s) && InList(orig, s) && s != [] && p == At(orig, First(s))
    ensures psize == (if insize < |s| then insize else |s|)
    ensures First(s[psize..]) < |orig| && q == At(orig, First(s[psize..]))
  {
    hide ChainEnd;
    q := p;
    psize := 0;
    var i := 0;
    assert s[0..] == s && s[0] in s;
    while i < insize
      invariant 0 <= i <= insize && i == psize < |s| && First(s[i..]) < |orig| && q == At(orig, First(s[i..])) && q != null
    {
      ChainNext(nx, s, i);
      psize := psize + 1;
      q := q.next;
      if q == null {
        break;
      }
      i := i + 1;
    }
  }

  /** `list` is the null-terminated list of the nodes `s`. */
  ghost predicate IsList(orig: seq<ListHead>, nx: seq<int>, s: seq<nat>, list: ListHead?)
    reads orig
  {
    && Linked(orig, nx) && ChainEnd(nx, s) && Once(s) && InList(orig, s)
    && First(s) < |orig| && list == At(orig, First(s))
  }

  /** The state between two merges of a pass. */
  ghost predicate Passing(m: Mode, orig: seq<ListHead>, nx: seq<int>, outRuns: seq<seq<nat>>, runs: seq<seq<nat>>,
                          size: nat, p: ListHead?, list: ListHead?, tail: ListHead?)
    reads orig, Infos(orig)
  {
    && Linked(orig, nx) && Links(nx, Flat(outRuns), [], Flat(runs)) && InList(orig, Flat(runs))
    && First(Flat(runs)) < |orig| && p == At(orig, First(Flat(runs))) && Ends(orig, Flat(outRuns), list, tail)
    && Runs(m, View(orig), outRuns, 2 * size) && (runs != [] ==> AllFull(outRuns, 2 * size))
    && Runs(m, View(orig), runs, size) && AllBelow(Flat(outRuns), Flat(runs))
  }

  lemma PassStarts(m: Mode, orig: seq<ListHead>, nx: seq<int>, runs: seq<seq<nat>>, size: nat, p: ListHead?)
    requires IsList(orig, nx, Flat(runs), p) && Runs(m, View(orig), runs, size)
    ensures Passing(m, orig, nx, [], runs, size, p, null, null)
  {
    hide Once;
    var s := Flat(runs);
    assert [] + [] + s == s;
  }

  /** What the next merge of a pass starts from. */
  lemma MergeIntro(m: Mode, orig: seq<ListHead>, nx: seq<int>, outRuns: seq<seq<nat>>, runs: seq<seq<nat>>, size: nat,
                   p: ListHead?, q: ListHead?, list: ListHead?, tail: ListHead?, psize: nat)
    requires Passing(m, orig, nx, outRuns, runs, size, p, list, tail) && runs != []
    requires psize == (if size < |Flat(runs)| then size else |Flat(runs)|)
    requires First(Flat(runs)[psize..]) < |orig| && q == At(orig, First(Flat(runs)[psize..]))
    ensures Ends(orig, Flat(outRuns), list, tail)
    ensures Merge(orig, nx, Flat(outRuns), runs[0], Second(runs), Flat(After(runs)), p, q, psize, size)
    ensures Merging(m, View(orig), [], runs[0], Second(runs))
  {
    hide Ordered, Once, Chain, ChainEnd, Runs, Linked, Flat, After, Second;
    var view, a, b, rest := View(orig), runs[0], Second(runs), Flat(After(runs));
    NextRuns(m, view, runs, size);
    LinksSplit(nx, Flat(outRuns), a, b + rest);
    assert forall x :: x in a ==> x in a + (b + rest);
    assert forall x :: x in b + rest ==> x in a + (b + rest);
    assert (a + (b + rest))[|a|..] == b + rest;
    assert forall x :: x in b ==> x in b + rest;
    MergeStarts(m, view, a, b);
  }

  /** After a merge, the pass goes on with the runs that are left. */
  lemma PassGoesOn(m: Mode, orig: seq<ListHead>, view: seq<Info>, nx: seq<int>, outRuns: seq<seq<nat>>, runs: seq<seq<nat>>,
                   size: nat, q: ListHead?, list: ListHead?, tail: ListHead?, out: seq<nat>)
    requires 0 < size && Runs(m, view, outRuns, 2 * size) && AllFull(outRuns, 2 * size) && Runs(m, view, runs, size) && runs != []
    requires AllBelow(Flat(outRuns), Flat(runs)) && InList(orig, Flat(runs)) && AllEvolve(m, view, View(orig))
    requires Ordered(m, View(orig), out) && multiset(out) == multiset(runs[0]) + multiset(Second(runs))
    requires Linked(orig, nx) && Links(nx, Flat(outRuns) + out, [], Flat(After(runs)))
    requires Ends(orig, Flat(outRuns) + out, list, tail)
    requires First(Flat(After(runs))) < |orig| && q == At(orig, First(Flat(After(runs))))
    ensures Passing(m, orig, nx, outRuns + [out], After(runs), size, q, list, tail)
    ensures multiset(Flat(outRuns + [out])) + multiset(Flat(After(runs))) == multiset(Flat(outRuns)) + multiset(Flat(runs))
  {
    hide Ordered, Links, Ends, Linked, Flat, After, Second, Runs;
    var a, b, rest := runs[0], Second(runs), Flat(After(runs));
    NextRuns(m, view, runs, size);
    BelowMerged(a, b, rest, out, Flat(outRuns));
    RunsEvolve(m, view, View(orig), outRuns, 2 * size);
    RunsEvolve(m, view, View(orig), After(runs), size);
    assert |out| == |multiset(out)| == |multiset(a)| + |multiset(b)| == |a| + |b|;
    RunsAppend(m, View(orig), outRuns, 2 * size, out);
    FlatAppend(outRuns, out);
    assert forall x :: x in rest ==> x in a + (b + rest);
  }

  lemma PassingParts(m: Mode, orig: seq<ListHead>, nx: seq<int>, outRuns: seq<seq<nat>>, runs: seq<seq<nat>>,
                     size: nat, p: ListHead?, list: ListHead?, tail: ListHead?)
    requires Passing(m, orig, nx, outRuns, runs, size, p, list, tail)
    ensures Linked(orig, nx) && ChainEnd(nx, Flat(runs)) && InList(orig, Flat(runs))
    ensures First(Flat(runs)) < |orig| && p == At(orig, First(Flat(runs)))
    ensures Runs(m, View(orig), outRuns, 2 * size) && Runs(m, View(orig), runs, size)
    ensures runs != [] ==> AllFull(outRuns, 2 * size)
    ensures AllBelow(Flat(outRuns), Flat(runs))
    ensures p != null <==> runs != []
    ensures runs != [] ==> Flat(runs) != []
    ensures Ends(orig, Flat(outRuns), list, tail)
  {
    hide Ordered, Once, Chain, ChainEnd, Linked, Ends;
    if Flat(runs) != [] {
      assert Flat(runs)[0] in Flat(runs);
    }
  }

  /** One pass: merges the runs two by two. */
  method Pass(m: Mode, res: Results?, insize: nat, list0: ListHead, ghost orig: seq<ListHead>, ghost nx0: seq<int>,
              ghost runs0: seq<seq<nat>>)
    returns (list: ListHead, nmerges: nat, ghost nx: seq<int>, ghost outRuns: seq<seq<nat>>)
    requires if m.ByData? then res != null else m.regen <==> res == null
    requires Apart(orig) && 0 < insize && runs0 != []
    requires IsList(orig, nx0, Flat(runs0), list0) && Runs(m, View(orig), runs0, insize)
    modifies orig, Infos(orig), ResSet(res)
    ensures AllEvolve(m, old(View(orig)), View(orig))
    ensures IsList(orig, nx, Flat(outRuns), list) && Runs(m, View(orig), outRuns, 2 * insize)
    ensures multiset(Flat(outRuns)) == multiset(Flat(runs0))
    ensures nmerges == |outRuns| == (|runs0| + 1) / 2
  {
    hide Passing, AllEvolve, Flat, Runs, Ordered, Once, IsList, Linked, InList, ChainEnd, AllFull, AllBelow, Ends, After,
         Second, Merge, Merging, Apart, First, Links, Chain;
    var p: ListHead? := list0;
    var list': ListHead?, tail: ListHead? := null, null;
    nmerges := 0;
    nx, outRuns := nx0, [];
    ghost var runs := runs0;
    PassStarts(m, orig, nx, runs, insize, p);
    AllEvolveRefl(m, View(orig));
    FlatNothing();
    while p != null
      invariant Passing(m, orig, nx, outRuns, runs, insize, p, list', tail)
      invariant AllEvolve(m, old(View(orig)), View(orig))
      invariant multiset(Flat(outRuns)) + multiset(Flat(runs)) == multiset(Flat(runs0))
      invariant nmerges == |outRuns| && nmerges + (|runs| + 1) / 2 == (|runs0| + 1) / 2
      invariant runs == [] ==> outRuns != []
      decreases |runs|
    {
      ghost var view, done := View(orig), Flat(outRuns);
      nmerges := nmerges + 1;
      PassingParts(m, orig, nx, outRuns, runs, insize, p, list', tail);
      var q, psize := Step(p, insize, orig, nx, Flat(runs));
      MergeIntro(m, orig, nx, outRuns, runs, insize, p, q, list', tail, psize);
      ghost var out;
      p, list', tail, nx, out := MergeRuns(m, res, insize, p, q, psize, list', tail, orig, nx, done,
                                           runs[0], Second(runs), Flat(After(runs)));
      AllEvolveTrans(m, old(View(orig)), view, View(orig));
      PassGoesOn(m, orig, view, nx, outRuns, runs, insize, p, list', tail, out);
      AfterSize(runs);
      outRuns, runs := outRuns + [out], After(runs);
    }
    PassingParts(m, orig, nx, outRuns, runs, insize, p, list', tail);
    list, nx := CloseList(m, list', tail, orig, nx, outRuns, insize);
  }

  lemma FlatNothing()
    ensures Flat([]) == []
  {
  }

  lemma AfterSize(runs: seq<seq<nat>>)
    requires runs != []
    ensures |After(runs)| < |runs| && (|After(runs)| + 1) / 2 + 1 == (|runs| + 1) / 2
  {
  }

  /** The null link at the end of the new list. */
  method CloseList(m: Mode, list': ListHead?, tail: ListHead?, ghost orig: seq<ListHead>, ghost nx: seq<int>,
                   ghost outRuns: seq<seq<nat>>, ghost size: nat)
    returns (list: ListHead, ghost nx': seq<int>)
    requires Apart(orig) && outRuns != [] && 0 < size && Passing(m, orig, nx, outRuns, [], size, null, list', tail)
    modifies orig
    ensures IsList(orig, nx', Flat(outRuns), list) && View(orig) == old(View(orig))
  {
    hide Ordered, Runs, AllBelow, Once, Flat;
    ghost var s := Flat(outRuns);
    FlatNothing();
    FlatSome(m, View(orig), outRuns, 2 * size);
    assert s + [] + [] == s;
    ChainClosed(nx, s);
    nx' := nx[s[|s| - 1] := -1];
    tail.next := null;
    list := list';
    hide Chain, ChainEnd;
  }

  lemma FlatSome(m: Mode, view: seq<Info>, runs: seq<seq<nat>>, size: nat)
    requires Runs(m, view, runs, size) && runs != []
    ensures Flat(runs) != []
  {
  }

  /** `core_list_mergesort`: the same nodes in a null-terminated list, in order by their remembered keys, equal
      keys in their original order. On the empty list `ok` is false, where a null tail is written through. */
  method Mergesort(list0: ListHead?, m: Mode, res: Results?, ghost orig: seq<ListHead>, ghost nx0: seq<int>)
    returns (ok: bool, list: ListHead?, ghost nx: seq<int>, ghost s: seq<nat>)
    requires if m.ByData? then res != null else m.regen <==> res == null
    requires Apart(orig) && IsList(orig, nx0, Places(0, |orig|), list0)
    modifies orig, Infos(orig), ResSet(res)
    ensures ok <==> orig != []
    ensures ok ==> IsList(orig, nx, s, list) && multiset(s) == multiset(Places(0, |orig|))
    ensures ok ==> Ordered(m, View(orig), s) && AllEvolve(m, old(View(orig)), View(orig))
    ensures |orig| >= 2 ==> forall i :: 0 <= i < |orig| ==> Touched(m, View(orig)[i])
    ensures |orig| >= 2 ==> forall i :: 0 <= i < |orig| ==> Settled(m, old(View(orig))[i], View(orig)[i])
  {
    hide *;
    list, nx, s := list0, nx0, [];
    EmptyIsNull(orig, nx, list0);
    if list0 == null {
      return false, list, nx, s;
    }
    ok := true;
    ghost var n := |orig|;
    ghost var runs := Singles(0, n);
    SinglesRuns(m, View(orig), 0, n);
    AllEvolveRefl(m, View(orig));
    RunsOfSome(n);
    var insize := 1;
    while true
      invariant ok && list != null && 0 < insize && runs != [] && IsList(orig, nx, Flat(runs), list) && Runs(m, View(orig), runs, insize)
      invariant AllEvolve(m, old(View(orig)), View(orig)) && multiset(Flat(runs)) == multiset(Places(0, n))
      decreases |runs|
    {
      ghost var view := View(orig);
      var nmerges;
      ghost var before := |runs|;
      list, nmerges, nx, runs := Pass(m, res, insize, list, orig, nx, runs);
      AllEvolveTrans(m, old(View(orig)), view, View(orig));
      if nmerges <= 1 {
        OneRun(m, View(orig), runs, 2 * insize);
        s := Flat(runs);
        AllTouched(m, View(orig), s);
        AllSettled(m, old(View(orig)), View(orig));
        return;
      }
      insize := insize * 2;
    }
  }

  lemma OneRun(m: Mode, view: seq<Info>, runs: seq<seq<nat>>, size: nat)
    requires Runs(m, view, runs, size) && |runs| == 1
    ensures Ordered(m, view, Flat(runs))
  {
    hide Ordered;
    assert runs[1..] == [];
    assert Flat(runs) == runs[0] + [] == runs[0];
  }

  lemma EmptyIsNull(orig: seq<ListHead>, nx: seq<int>, list: ListHead?)
    requires IsList(orig, nx, Places(0, |orig|), list)
    ensures list == null <==> orig == []
  {
  }

  lemma RunsOfSome(n: nat)
    requires n > 0
    ensures Singles(0, n) != []
  {
  }

  lemma AllSettled(m: Mode, view: seq<Info>, view': seq<Info>)
    requires AllEvolve(m, view, view') && (|view| >= 2 ==> forall i :: 0 <= i < |view'| ==> Touched(m, view'[i]))
    ensures |view| >= 2 ==> forall i :: 0 <= i < |view| ==> Settled(m, view[i], view'[i])
  {
    hide Touched, Settled, Evolves;
    if |view| >= 2 {
      forall i | 0 <= i < |view| ensures Settled(m, view[i], view'[i]) {
        TouchedIsSettled(m, view[i], view'[i]);
      }
    }
  }

  /** A sorted list of two or more has had every element compared. */
  lemma AllTouched(m: Mode, view: seq<Info>, s: seq<nat>)
    requires Ordered(m, view, s) && multiset(s) == multiset(Places(0, |view|))
    ensures |view| >= 2 ==> forall i :: 0 <= i < |view| ==> Touched(m, view[i])
  {
    hide Ordered, Touched, Places;
    PlacesFrom(0, |view|);
    if |view| >= 2 {
      assert |s| == |multiset(s)| == |Places(0, |view|)|;
      forall i: nat | i < |view|
        ensures Touched(m, view[i])
      {
        SameMembers(s, Places(0, |view|), i);
        var k :| 0 <= k < |s| && s[k] == i;
        OrderedTouched(m, view, s, k);
      }
    }
  }
}
