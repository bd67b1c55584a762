/** Page tables in page-granular memory, the tree they hold, and what one write does to it. */
module PageMemory {
  import opened Counting
  import opened PageTree

  type Memory = seq<seq<nat>>

  predicate Shape(mem: Memory, E: nat) { forall p :: 0 <= p < |mem| ==> |mem[p]| == E }

  /** What the memory management unit finds for a path of table indices, whoever owns the tables. */
  function Walk(mem: Memory, w: nat, q: seq<nat>): nat
    decreases |q|
  {
    if q == [] || (Present(w) && Large(w)) then w
    else if Present(w) && Page(w) < |mem| && q[0] < |mem[Page(w)]| then Walk(mem, mem[Page(w)][q[0]], q[1..])
    else 0
  }

  /** The tree of the tables owned by an address space: `w` is an entry with `k` levels of tables below it. */
  function Abs(mem: Memory, w: nat, k: nat, E: nat): Tree
    requires Shape(mem, E)
    decreases k, 1
  {
    if k > 0 && Owned(w) && Page(w) < |mem| then Table(w, AbsKids(mem, Page(w), E, k - 1, E)) else Word(w)
  }

  function AbsKids(mem: Memory, p: nat, n: nat, k: nat, E: nat): (kids: seq<Tree>)
    requires Shape(mem, E) && p < |mem| && n <= E
    ensures |kids| == n
    decreases k, 2, n
  {
    if n == 0 then [] else AbsKids(mem, p, n - 1, k, E) + [Abs(mem, mem[p][n - 1], k, E)]
  }

  lemma {:induction false} AbsKid(mem: Memory, p: nat, n: nat, k: nat, E: nat, j: nat)
    requires Shape(mem, E) && p < |mem| && j < n <= E
    ensures AbsKids(mem, p, n, k, E)[j] == Abs(mem, mem[p][j], k, E)
  {
    if j < n - 1 {
      AbsKid(mem, p, n - 1, k, E, j);
    }
  }

  lemma AbsTable(mem: Memory, w: nat, k: nat, E: nat, j: nat)
    requires Shape(mem, E) && Abs(mem, w, k, E).Table? && j < E
    ensures k > 0 && Owned(w) && Page(w) < |mem| && Abs(mem, w, k, E).e == w && |Abs(mem, w, k, E).kids| == E
    ensures Abs(mem, w, k, E).kids[j] == Abs(mem, mem[Page(w)][j], k - 1, E)
  {
    AbsKid(mem, Page(w), E, k - 1, E, j);
  }

  lemma AbsWord(mem: Memory, w: nat, k: nat, E: nat)
    requires Shape(mem, E)
    ensures Abs(mem, w, k, E).e == w
    ensures Abs(mem, w, k, E).Table? <==> k > 0 && Owned(w) && Page(w) < |mem|
    ensures Abs(mem, w, k, E).Table? ==> |Abs(mem, w, k, E).kids| == E
  {
  }

  lemma {:induction false} PagesInMemory(mem: Memory, w: nat, k: nat, E: nat, p: nat)
    requires Shape(mem, E) && p in Pages(Abs(mem, w, k, E))
    ensures p < |mem|
    decreases k
  {
    hide Abs;
    var t := Abs(mem, w, k, E);
    AbsWord(mem, w, k, E);
    if p in PagesUpTo(t, |t.kids|) {
      var j := PageOfSome(t, |t.kids|, p);
      AbsTable(mem, w, k, E, j);
      PagesInMemory(mem, mem[Page(w)][j], k - 1, E, p);
    }
  }

  /** Memory outside the tree's own pages does not matter to it. */
  lemma {:induction false} AbsFrame(mem: Memory, mem': Memory, w: nat, k: nat, E: nat)
    requires Shape(mem, E) && Shape(mem', E) && |mem'| == |mem|
    requires forall p :: p in Pages(Abs(mem, w, k, E)) && p < |mem| ==> mem'[p] == mem[p]
    ensures Abs(mem', w, k, E) == Abs(mem, w, k, E)
    decreases k
  {
    hide Abs;
    var t, t' := Abs(mem, w, k, E), Abs(mem', w, k, E);
    AbsWord(mem, w, k, E);
    AbsWord(mem', w, k, E);
    if t.Table? {
      TablePages(t);
      forall j | 0 <= j < E
        ensures t'.kids[j] == t.kids[j]
      {
        AbsTable(mem, w, k, E, j);
        AbsTable(mem', w, k, E, j);
        forall p | p in Pages(t.kids[j])
          ensures p in Pages(t)
        {
          PagesOfKid(t, E, j, p);
        }
        assert Page(w) in Pages(t);
        AbsFrame(mem, mem', mem[Page(w)][j], k - 1, E);
      }
      assert t'.kids == t.kids;
    }
  }

  // ---- writing one entry ----

  /** The page that holds the last entry of a path. */
  function Holder(t: Tree, q: seq<nat>): nat
    requires q != [] && Reaches(t, q)
  {
    if |q| == 1 then Page(t.e) else Holder(t.kids[q[0]], q[1..])
  }

  lemma {:induction false} HolderIn(t: Tree, q: seq<nat>)
    requires q != [] && Reaches(t, q)
    ensures Holder(t, q) in Pages(t)
    ensures |q| > 1 ==> Holder(t, q) in Pages(t.kids[q[0]])
  {
    TablePages(t);
    if |q| > 1 {
      HolderIn(t.kids[q[0]], q[1..]);
      PagesOfKid(t, |t.kids|, q[0], Holder(t, q));
    }
  }

  /** Different children have different pages. */
  lemma {:induction false} DistinctKids(t: Tree, n: nat, i: nat, j: nat, p: nat)
    requires t.Table? && n <= |t.kids| && Once(PagesUpTo(t, n)) && i < n && j < n && i != j
    requires p in Pages(t.kids[i])
    ensures p !in Pages(t.kids[j])
  {
    hide *;
    NextPages(t, n);
    OnceParts(PagesUpTo(t, n), PagesUpTo(t, n - 1), Pages(t.kids[n - 1]));
    if i < n - 1 && j < n - 1 {
      DistinctKids(t, n - 1, i, j, p);
    } else if p in Pages(t.kids[j]) {
      PagesOfKid(t, n - 1, if i < j then i else j, p);
    }
  }

  lemma {:induction false} DistinctKid(t: Tree, n: nat, j: nat)
    requires t.Table? && j < n <= |t.kids| && Once(PagesUpTo(t, n))
    ensures Once(Pages(t.kids[j]))
  {
    hide *;
    NextPages(t, n);
    OnceParts(PagesUpTo(t, n), PagesUpTo(t, n - 1), Pages(t.kids[n - 1]));
    if j < n - 1 {
      DistinctKid(t, n - 1, j);
    }
  }

  lemma DistinctTable(t: Tree)
    requires t.Table? && Once(Pages(t))
    ensures Once(PagesUpTo(t, |t.kids|)) && Page(t.e) !in PagesUpTo(t, |t.kids|)
  {
    hide *;
    TablePages(t);
    OnceParts(Pages(t), PagesUpTo(t, |t.kids|), [Page(t.e)]);
    assert Page(t.e) in [Page(t.e)];
  }

  function Write(mem: Memory, p: nat, j: nat, x: nat): Memory
    requires p < |mem| && j < |mem[p]|
  {
    var page: seq<nat> := mem[p][j := x];
    mem[p := page]
  }

  /** Writing the last entry of a path replaces the subtree there and nothing else. */
  lemma {:induction false} WriteEntry(mem: Memory, w: nat, k: nat, E: nat, q: seq<nat>, x: nat)
    requires Shape(mem, E) && 0 < |q| <= k && IsPath(q, E)
    requires Reaches(Abs(mem, w, k, E), q) && Once(Pages(Abs(mem, w, k, E)))
    ensures var t, p, j := Abs(mem, w, k, E), Holder(Abs(mem, w, k, E), q), q[|q| - 1];
            && p < |mem| && Shape(Write(mem, p, j, x), E)
            && Abs(Write(mem, p, j, x), w, k, E) == Put(t, q, Abs(Write(mem, p, j, x), x, k - |q|, E))
    decreases k
  {
    hide Abs;
    var t, p, j := Abs(mem, w, k, E), Holder(Abs(mem, w, k, E), q), q[|q| - 1];
    HolderIn(t, q);
    PagesInMemory(mem, w, k, E, p);
    var mem' := Write(mem, p, j, x);
    var t' := Abs(mem', w, k, E);
    AbsWord(mem, w, k, E);
    AbsWord(mem', w, k, E);
    DistinctTable(t);
    forall i | 0 <= i < E
      ensures t'.kids[i] == if i == q[0] then Put(t.kids[i], q[1..], Abs(mem', x, k - |q|, E)) else t.kids[i]
    {
      WriteBelow(mem, w, k, E, q, x, i);
    }
    assert t'.kids == t.kids[q[0] := Put(t.kids[q[0]], q[1..], Abs(mem', x, k - |q|, E))];
  }

  /** Neither the other entries of the table nor what hangs off them is written. */
  lemma OtherKid(t: Tree, q: seq<nat>, i: nat)
    requires q != [] && Reaches(t, q) && Once(Pages(t)) && i < |t.kids| && i != q[0]
    ensures Holder(t, q) !in Pages(t.kids[i])
    ensures |q| > 1 ==> Holder(t, q) != Page(t.e)
    ensures |q| == 1 ==> Holder(t, q) == Page(t.e)
  {
    var p := Holder(t, q);
    HolderIn(t, q);
    DistinctTable(t);
    hide Pages, PagesUpTo, Once;
    if |q| > 1 {
      PagesOfKid(t, |t.kids|, q[0], p);
      DistinctKids(t, |t.kids|, q[0], i, p);
    } else if p in Pages(t.kids[i]) {
      PagesOfKid(t, |t.kids|, i, p);
    }
  }

  lemma HolderBelow(t: Tree, q: seq<nat>)
    requires |q| > 1 && Reaches(t, q) && Once(Pages(t))
    ensures Holder(t, q) == Holder(t.kids[q[0]], q[1..]) && Holder(t, q) != Page(t.e)
    ensures Once(Pages(t.kids[q[0]]))
  {
    HolderIn(t, q);
    DistinctTable(t);
    hide Pages, PagesUpTo, Once;
    PagesOfKid(t, |t.kids|, q[0], Holder(t, q));
    DistinctKid(t, |t.kids|, q[0]);
  }

  lemma {:induction false} WriteBelow(mem: Memory, w: nat, k: nat, E: nat, q: seq<nat>, x: nat, i: nat)
    requires Shape(mem, E) && 0 < |q| <= k && IsPath(q, E) && i < E
    requires Reaches(Abs(mem, w, k, E), q) && Once(Pages(Abs(mem, w, k, E)))
    requires Holder(Abs(mem, w, k, E), q) < |mem| && Abs(mem, w, k, E).Table? && |Abs(mem, w, k, E).kids| == E
    ensures var t, p, j := Abs(mem, w, k, E), Holder(Abs(mem, w, k, E), q), q[|q| - 1];
            var mem' := Write(mem, p, j, x);
            && Shape(mem', E) && Abs(mem', w, k, E).Table? && |Abs(mem', w, k, E).kids| == E
            && Abs(mem', w, k, E).kids[i] ==
               if i == q[0] then Put(t.kids[i], q[1..], Abs(mem', x, k - |q|, E)) else t.kids[i]
    decreases k, 0
  {
    hide Abs, Pages, PagesUpTo, Once, Present, User, Page;
    var t, p, j := Abs(mem, w, k, E), Holder(Abs(mem, w, k, E), q), q[|q| - 1];
    var mem' := Write(mem, p, j, x);
    AbsWord(mem, w, k, E);
    AbsWord(mem', w, k, E);
    AbsTable(mem, w, k, E, i);
    AbsTable(mem', w, k, E, i);
    if i != q[0] {
      OtherKid(t, q, i);
      assert mem'[Page(w)][i] == mem[Page(w)][i];
      AbsFrame(mem, mem', mem[Page(w)][i], k - 1, E);
    } else if |q| > 1 {
      HolderBelow(t, q);
      assert mem'[Page(w)][i] == mem[Page(w)][i];
      WriteEntry(mem, mem[Page(w)][i], k - 1, E, q[1..], x);
    }
  }

  // ---- filling in one table ----

  /** The entry a path leads to is the word in memory. */
  lemma {:induction false} EntryAt(mem: Memory, w: nat, k: nat, E: nat, q: seq<nat>)
    requires Shape(mem, E) && 0 < |q| <= k && IsPath(q, E) && Reaches(Abs(mem, w, k, E), q)
    ensures var t := Abs(mem, w, k, E);
            && Holder(t, q) < |mem| && mem[Holder(t, q)][q[|q| - 1]] == Sub(t, q).e
            && Sub(t, q) == Abs(mem, Sub(t, q).e, k - |q|, E)
    decreases k
  {
    hide Abs;
    AbsWord(mem, w, k, E);
    AbsTable(mem, w, k, E, q[0]);
    var e := mem[Page(w)][q[0]];
    if |q| > 1 {
      EntryAt(mem, e, k - 1, E, q[1..]);
    } else {
      AbsWord(mem, e, k - 1, E);
    }
  }

  function ZeroPage(E: nat): seq<nat> { seq(E, _ => 0) }

  lemma {:induction false} AbsZeros(mem: Memory, p: nat, n: nat, k: nat, E: nat)
    requires Shape(mem, E) && p < |mem| && n <= E && mem[p] == ZeroPage(E)
    ensures AbsKids(mem, p, n, k, E) == seq(n, _ => Word(0))
  {
    if n > 0 {
      AbsZeros(mem, p, n - 1, k, E);
    }
  }

  lemma AbsEmptyTable(mem: Memory, p: nat, k: nat, E: nat)
    requires Shape(mem, E) && p < |mem| && mem[p] == ZeroPage(E) && 0 < k
    ensures Abs(mem, TableWord(p), k, E) == EmptyTable(p, E)
  {
    TableWordFacts(p);
    AbsZeros(mem, p, E, k - 1, E);
  }

  /** A zeroed page that no table uses, hooked in at the last entry of a path, is an empty table there. */
  lemma FillEntry(mem: Memory, w: nat, k: nat, E: nat, q: seq<nat>, p: nat)
    requires Shape(mem, E) && 0 < |q| < k && IsPath(q, E) && p < |mem|
    requires Reaches(Abs(mem, w, k, E), q) && Once(Pages(Abs(mem, w, k, E))) && p !in Pages(Abs(mem, w, k, E))
    ensures var t, mem1 := Abs(mem, w, k, E), mem[p := ZeroPage(E)];
            var h, j := Holder(t, q), q[|q| - 1];
            && Shape(mem1, E) && Abs(mem1, w, k, E) == t && h < |mem| && h in Pages(t)
            && Shape(Write(mem1, h, j, TableWord(p)), E)
            && Abs(Write(mem1, h, j, TableWord(p)), w, k, E) == Put(t, q, EmptyTable(p, E))
  {
    hide Abs, Pages, PagesUpTo, Once, TableWord;
    var t, mem1 := Abs(mem, w, k, E), mem[p := ZeroPage(E)];
    AbsFrame(mem, mem1, w, k, E);
    WriteEntry(mem1, w, k, E, q, TableWord(p));
    HolderIn(t, q);
    AbsEmptyTable(Write(mem1, Holder(t, q), q[|q| - 1], TableWord(p)), p, k - |q|, E);
  }

  // ---- shapes of trees ----

  /** A subtree with `k` levels below it holds complete tables behind writable entries and, above the last level,
      no other present entry. */
  predicate Clean(t: Tree, k: nat, E: nat) {
    match t
    case Word(e) => k > 0 ==> !Present(e)
    case Table(e, kids) => k > 0 && !Large(e) && Writable(e) && |kids| == E && forall j :: 0 <= j < E ==> Clean(kids[j], k - 1, E)
  }

  /** Every entry that the address space owns above the last level is followed by its table. */
  predicate Solid(t: Tree, k: nat) {
    match t
    case Word(e) => k > 0 ==> !Owned(e)
    case Table(_, kids) => k > 0 && forall j :: 0 <= j < |kids| ==> Solid(kids[j], k - 1)
  }

  /** No table of another owner on the way. */
  predicate OwnPath(t: Tree, q: seq<nat>) {
    q != [] ==> if t.Table? then !Large(t.e) && q[0] < |t.kids| && OwnPath(t.kids[q[0]], q[1..]) else !Present(t.e)
  }

  lemma CleanOwnPath(t: Tree, q: seq<nat>, E: nat)
    requires Clean(t, |q|, E) && IsPath(q, E)
    ensures OwnPath(t, q)
  {
  }

  lemma NewTableSmall(page: nat)
    ensures !Large(TableWord(page)) && Writable(TableWord(page))
  {
    TableWordFacts(page);
  }

  lemma ZerosClean(k: nat, E: nat)
    ensures Clean(Word(0), k, E)
  {
  }

  lemma {:induction false} GrowClean(t: Tree, q: seq<nat>, pool: seq<nat>, E: nat)
    requires Clean(t, |q|, E) && IsPath(q, E) && Need(t, q) <= |pool|
    ensures Clean(Grow(t, q, pool, E).0, |q|, E)
    decreases |q|
  {
    if q == [] {
    } else if t.Table? {
      GrowClean(t.kids[q[0]], q[1..], pool, E);
    } else {
      ZerosClean(|q| - 1, E);
      NewTableSmall(pool[0]);
      GrowClean(Word(0), q[1..], pool[1..], E);
    }
  }

  lemma {:induction false} PutClean(t: Tree, q: seq<nat>, x: nat, E: nat)
    requires Clean(t, |q|, E) && Reaches(t, q)
    ensures Clean(Put(t, q, Word(x)), |q|, E)
    decreases |q|
  {
    if q != [] {
      PutClean(t.kids[q[0]], q[1..], x, E);
    }
  }

  /** The memory management unit finds what the tree says. */
  lemma {:induction false} WalkIsGet(mem: Memory, w: nat, q: seq<nat>, E: nat)
    requires Shape(mem, E) && IsPath(q, E) && OwnPath(Abs(mem, w, |q|, E), q)
    ensures Walk(mem, w, q) == Get(Abs(mem, w, |q|, E), q)
    decreases |q|
  {
    var t := Abs(mem, w, |q|, E);
    AbsWord(mem, w, |q|, E);
    if q != [] && t.Table? {
      AbsTable(mem, w, |q|, E, q[0]);
      WalkIsGet(mem, mem[Page(w)][q[0]], q[1..], E);
    }
  }

  // ---- what a walk allows ----

  /** The tables on the way below the root hang off writable entries that map no large page. */
  predicate TablesOpen(t: Tree, q: seq<nat>) {
    q != [] && t.Table? && q[0] < |t.kids| ==>
      && (t.kids[q[0]].Table? ==> Writable(t.kids[q[0]].e) && !Large(t.kids[q[0]].e))
      && TablesOpen(t.kids[q[0]], q[1..])
  }

  /** Every entry that the walk of `q` reads between the root `w` and the last one is there and is present, writable
      and user: what the last entry allows is then what the walk allows. */
  predicate Opened(mem: Memory, w: nat, q: seq<nat>)
    decreases |q|
  {
    |q| > 1 ==>
      && w / 4096 < |mem| && q[0] < |mem[w / 4096]|
      && var e := mem[w / 4096][q[0]];
         e % 2 == 1 && e / 2 % 2 == 1 && e / 4 % 2 == 1 && e / 128 % 2 == 0 && Opened(mem, e, q[1..])
  }

  lemma {:induction false} CleanOpen(t: Tree, k: nat, q: seq<nat>, E: nat)
    requires Clean(t, k, E)
    ensures TablesOpen(t, q)
    decreases |q|
  {
    if q != [] && t.Table? && q[0] < |t.kids| {
      CleanOpen(t.kids[q[0]], k - 1, q[1..], E);
    }
  }

  /** New tables are as open as the ones that were there. */
  lemma {:induction false} GrowOpen(t: Tree, q: seq<nat>, pool: seq<nat>, E: nat)
    requires IsPath(q, E) && Need(t, q) <= |pool| && TablesOpen(t, q)
    ensures TablesOpen(Grow(t, q, pool, E).0, q)
    decreases |q|
  {
    if q != [] {
      if t.Table? && q[0] < |t.kids| {
        GrowOpen(t.kids[q[0]], q[1..], pool, E);
        GrowKeepsWord(t.kids[q[0]], q[1..], pool, E);
      } else {
        GrowOpen(Word(0), q[1..], pool[1..], E);
        GrowKeepsWord(Word(0), q[1..], pool[1..], E);
      }
    }
  }

  /** Growing keeps the word of a table, and gives an entry without one the word of a new table. */
  lemma GrowKeepsWord(t: Tree, q: seq<nat>, pool: seq<nat>, E: nat)
    requires IsPath(q, E) && Need(t, q) <= |pool|
    ensures q == [] ==> Grow(t, q, pool, E).0 == t
    ensures q != [] && t.Table? && q[0] < |t.kids| ==> Grow(t, q, pool, E).0.e == t.e
    ensures q != [] && t.Word? ==> Writable(Grow(t, q, pool, E).0.e) && !Large(Grow(t, q, pool, E).0.e)
  {
    if q != [] && t.Word? {
      NewTableSmall(pool[0]);
    }
  }

  lemma {:induction false} OpenInMemory(mem: Memory, w: nat, q: seq<nat>, E: nat)
    requires Shape(mem, E) && IsPath(q, E) && Reaches(Abs(mem, w, |q|, E), q) && TablesOpen(Abs(mem, w, |q|, E), q)
    ensures Opened(mem, w, q)
    decreases |q|
  {
    hide Abs;
    if |q| > 1 {
      AbsTable(mem, w, |q|, E, q[0]);
      var e := mem[Page(w)][q[0]];
      AbsWord(mem, e, |q| - 1, E);
      OpenInMemory(mem, e, q[1..], E);
    }
  }

  // ---- tables of the kernel ----

  /** All tables under `w` are among the pages `K`. */
  predicate KernelTables(mem: Memory, w: nat, k: nat, K: set<nat>)
    decreases k
  {
    k > 0 && Present(w) && !Large(w) ==>
      && Page(w) in K && Page(w) < |mem|
      && forall j :: 0 <= j < |mem[Page(w)]| ==> KernelTables(mem, mem[Page(w)][j], k - 1, K)
  }

  ghost predicate Agree(mem: Memory, mem': Memory, K: set<nat>) {
    |mem'| == |mem| && forall p: nat :: p in K && p < |mem| ==> mem'[p] == mem[p]
  }

  lemma {:induction false} KernelFrame(mem: Memory, mem': Memory, w: nat, k: nat, K: set<nat>)
    requires KernelTables(mem, w, k, K) && Agree(mem, mem', K)
    ensures KernelTables(mem', w, k, K)
    decreases k
  {
    if k > 0 && Present(w) && !Large(w) {
      forall j | 0 <= j < |mem'[Page(w)]|
        ensures KernelTables(mem', mem'[Page(w)][j], k - 1, K)
      {
        KernelFrame(mem, mem', mem[Page(w)][j], k - 1, K);
      }
    }
  }

  lemma {:induction false} KernelWalk(mem: Memory, mem': Memory, w: nat, q: seq<nat>, K: set<nat>)
    requires KernelTables(mem, w, |q|, K) && Agree(mem, mem', K)
    ensures Walk(mem', w, q) == Walk(mem, w, q)
    decreases |q|
  {
    if q != [] && Present(w) && !Large(w) && q[0] < |mem[Page(w)]| {
      KernelWalk(mem, mem', mem[Page(w)][q[0]], q[1..], K);
    }
  }
}
