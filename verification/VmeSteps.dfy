/** What holds while `ptwalk` goes down the tables, and what every address space keeps. */
module VmeSteps {
  import opened Counting
  import opened PageTree
  import opened PageMemory
  import opened VmeConfig

  /** Where a walk reads: the field of the address space, or a table page. */
  datatype TablePtr = Cell | Frame(page: nat)

  /** A snapshot of what the routines work on. */
  datatype Snap = Snap(mem: Memory, pool: seq<nat>, ptr: nat)

  function TreeOf(s: Snap, L: nat, E: nat): Tree
    requires Shape(s.mem, E)
  {
    Abs(s.mem, s.ptr, L, E)
  }

  /** The pages in use by the address space, and the free ones. */
  function Stock(s: Snap, L: nat, E: nat): seq<nat>
    requires Shape(s.mem, E)
  {
    Pages(TreeOf(s, L, E)) + s.pool
  }

  /** No page is both used and free, or used or free twice; all exist. */
  ghost predicate Sound(s: Snap, L: nat, E: nat) {
    && Shape(s.mem, E) && Once(Stock(s, L, E))
    && forall p :: p in s.pool ==> p < |s.mem|
  }

  /** Only pages from the stock have changed, and the stock is still the same. */
  ghost predicate Kept(s0: Snap, s: Snap, L: nat, E: nat)
    requires Shape(s0.mem, E) && Shape(s.mem, E)
  {
    && |s.mem| == |s0.mem| && multiset(Stock(s, L, E)) == multiset(Stock(s0, L, E))
    && forall p: nat :: p < |s0.mem| && p !in Stock(s0, L, E) ==> s.mem[p] == s0.mem[p]
  }

  /** Filling in along `q` from here ends as it would have from `s0`. */
  predicate OnTheWay(s0: Snap, s: Snap, q: seq<nat>, E: nat)
    requires Shape(s0.mem, E) && Shape(s.mem, E) && IsPath(q, E)
  {
    var t0, t := TreeOf(s0, |q|, E), TreeOf(s, |q|, E);
    && Need(t0, q) + |s.pool| == Need(t, q) + |s0.pool|
    && (Need(t, q) <= |s.pool| && Need(t0, q) <= |s0.pool| ==> Grow(t, q, s.pool, E) == Grow(t0, q, s0.pool, E))
  }

  /** The state at the head of round `i` of the loop. */
  ghost predicate Walking(s0: Snap, s: Snap, q: seq<nat>, i: nat, cur: TablePtr, E: nat) {
    && Sound(s0, |q|, E) && Sound(s, |q|, E) && IsPath(q, E) && i <= |q| && Kept(s0, s, |q|, E) && OnTheWay(s0, s, q, E)
    && var t := TreeOf(s, |q|, E);
    && OwnPath(t, q) && Reaches(t, q[..i])
    && cur == if i == 0 then Cell else Frame(Holder(t, q[..i]))
  }

  /** The word at a table pointer. */
  predicate Readable(s: Snap, cur: TablePtr, index: nat) {
    match cur
    case Cell => index == 0
    case Frame(p) => p < |s.mem| && index < |s.mem[p]|
  }

  function Read(s: Snap, cur: TablePtr, index: nat): nat
    requires Readable(s, cur, index)
  {
    match cur
    case Cell => s.ptr
    case Frame(p) => s.mem[p][index]
  }

  function Store(s: Snap, cur: TablePtr, index: nat, x: nat): Snap
    requires Readable(s, cur, index)
  {
    match cur
    case Cell => s.(ptr := x)
    case Frame(p) => s.(mem := Write(s.mem, p, index, x))
  }

  /** The index used in round `i`. */
  function IndexAt(q: seq<nat>, i: nat): nat
    requires i <= |q|
  {
    if i == 0 then 0 else q[i - 1]
  }

  lemma WalkStarts(s0: Snap, q: seq<nat>, E: nat)
    requires Sound(s0, |q|, E) && IsPath(q, E) && OwnPath(TreeOf(s0, |q|, E), q)
    ensures Walking(s0, s0, q, 0, Cell, E)
  {
    hide Abs, Pages, Grow, Need, OwnPath;
    assert q[..0] == [];
  }

  /** The entry read in round `i` is the one at the end of the path so far. */
  lemma EntryRead(s: Snap, q: seq<nat>, i: nat, E: nat)
    requires Shape(s.mem, E) && IsPath(q, E) && i <= |q| && Reaches(TreeOf(s, |q|, E), q[..i])
    ensures var t := TreeOf(s, |q|, E);
            var cur := if i == 0 then Cell else Frame(Holder(t, q[..i]));
            && Readable(s, cur, IndexAt(q, i)) && Read(s, cur, IndexAt(q, i)) == Sub(t, q[..i]).e
            && Sub(t, q[..i]) == Abs(s.mem, Sub(t, q[..i]).e, |q| - i, E)
  {
    hide Abs, Reaches;
    if i == 0 {
      SubNothing(TreeOf(s, |q|, E), q[..0]);
      AbsWord(s.mem, s.ptr, |q|, E);
    } else {
      EntryAt(s.mem, s.ptr, |q|, E, q[..i]);
    }
  }

  lemma SubNothing(t: Tree, q: seq<nat>)
    requires q == []
    ensures Reaches(t, q) && Sub(t, q) == t
  {
  }

  /** On the own path, a present entry above the last level has a table. */
  lemma OwnEntry(t: Tree, q: seq<nat>, i: nat)
    requires i < |q| && Reaches(t, q[..i]) && OwnPath(t, q)
    ensures Sub(t, q[..i]).Table? ==> q[i] < |Sub(t, q[..i]).kids|
    ensures Sub(t, q[..i]).Word? ==> !Present(Sub(t, q[..i]).e)
  {
    if i > 0 {
      assert q[..i][1..] == q[1..][..i - 1] && q[..i][0] == q[0];
      OwnEntry(t.kids[q[0]], q[1..], i - 1);
    }
  }

  lemma {:induction false} HolderMore(t: Tree, q: seq<nat>, j: nat)
    requires Reaches(t, q) && Reaches(t, q + [j])
    ensures Holder(t, q + [j]) == Page(Sub(t, q).e)
  {
    if q != [] {
      assert (q + [j])[1..] == q[1..] + [j];
      HolderMore(t.kids[q[0]], q[1..], j);
    }
  }

  /** One round over a present entry. */
  lemma WalkDown(s0: Snap, s: Snap, q: seq<nat>, i: nat, cur: TablePtr, E: nat)
    requires Walking(s0, s, q, i, cur, E)
    ensures Readable(s, cur, IndexAt(q, i))
    ensures var e := Read(s, cur, IndexAt(q, i));
            i < |q| && Present(e) ==> Walking(s0, s, q, i + 1, Frame(Page(e)), E)
  {
    hide Abs, Sound, Kept, OnTheWay, Reaches, OwnPath, Present, Read, Readable;
    ShapeOf(s, |q|, E);
    EntryRead(s, q, i, E);
    var t := TreeOf(s, |q|, E);
    if i < |q| {
      OwnEntry(t, q, i);
      if Sub(t, q[..i]).Table? {
        assert q[..i] + [q[i]] == q[..i + 1];
        ReachesMore(t, q[..i], q[i]);
        HolderMore(t, q[..i], q[i]);
      }
    }
  }

  lemma ShapeOf(s: Snap, L: nat, E: nat)
    requires Sound(s, L, E)
    ensures Shape(s.mem, E)
  {
  }

  /** Taking the first free page, clearing it and hooking it in. */
  function Filled(s: Snap, cur: TablePtr, index: nat, E: nat): Snap
    requires s.pool != [] && s.pool[0] < |s.mem| && Readable(Cleared(s, E), cur, index)
  {
    Store(Cleared(s, E), cur, index, TableWord(s.pool[0]))
  }

  function Cleared(s: Snap, E: nat): Snap
    requires s.pool != [] && s.pool[0] < |s.mem|
  {
    Snap(s.mem[s.pool[0] := ZeroPage(E)], s.pool[1..], s.ptr)
  }

  lemma FirstFree(s: Snap, L: nat, E: nat)
    requires Sound(s, L, E) && s.pool != []
    ensures s.pool[0] < |s.mem| && s.pool[0] !in Pages(TreeOf(s, L, E)) && Once(Pages(TreeOf(s, L, E)))
  {
    hide Once, Pages;
    OnceParts(Stock(s, L, E), Pages(TreeOf(s, L, E)), s.pool);
    assert s.pool[0] in s.pool;
  }

  /** The tree after filling in one table. */
  lemma FilledTree(s: Snap, q: seq<nat>, i: nat, E: nat)
    requires Sound(s, |q|, E) && IsPath(q, E) && i < |q| && s.pool != []
    requires Reaches(TreeOf(s, |q|, E), q[..i]) && Sub(TreeOf(s, |q|, E), q[..i]).Word?
    ensures var t := TreeOf(s, |q|, E);
            var cur := if i == 0 then Cell else Frame(Holder(t, q[..i]));
            && s.pool[0] < |s.mem| && Readable(Cleared(s, E), cur, IndexAt(q, i))
            && var s' := Filled(s, cur, IndexAt(q, i), E);
            && Shape(s'.mem, E) && |s'.mem| == |s.mem| && s'.pool == s.pool[1..]
            && TreeOf(s', |q|, E) == Put(t, q[..i], EmptyTable(s.pool[0], E))
            && (forall p: nat :: p < |s.mem| && p !in Stock(s, |q|, E) ==> s'.mem[p] == s.mem[p])
  {
    hide Abs, Pages, TableWord, Reaches, Once;
    var t, p := TreeOf(s, |q|, E), s.pool[0];
    FirstFree(s, |q|, E);
    if i == 0 {
      var s' := Filled(s, Cell, 0, E);
      AbsEmptyTable(s'.mem, p, |q|, E);
      PutNothing(t, q[..0], EmptyTable(p, E));
    } else {
      FillEntry(s.mem, s.ptr, |q|, E, q[..i], p);
    }
  }

  lemma PutNothing(t: Tree, q: seq<nat>, x: Tree)
    requires q == []
    ensures Reaches(t, q) && Put(t, q, x) == x
  {
  }

  lemma {:induction false} OwnPathFilled(t: Tree, q: seq<nat>, i: nat, page: nat, E: nat)
    requires i < |q| && IsPath(q, E) && Reaches(t, q[..i]) && OwnPath(t, q)
    ensures OwnPath(Put(t, q[..i], EmptyTable(page, E)), q)
  {
    if i > 0 {
      assert q[..i][1..] == q[1..][..i - 1] && q[..i][0] == q[0];
      OwnPathFilled(t.kids[q[0]], q[1..], i - 1, page, E);
    } else {
      ZeroOwnPath(q[1..]);
      NewTableSmall(page);
    }
  }

  lemma ZeroOwnPath(q: seq<nat>)
    ensures OwnPath(Word(0), q)
  {
  }

  /** The stock is the same after a page went from the pool into the tree. */
  lemma StockFilled(t: Tree, q: seq<nat>, pool: seq<nat>, E: nat)
    requires Reaches(t, q) && Sub(t, q).Word? && pool != []
    ensures multiset(Pages(Put(t, q, EmptyTable(pool[0], E))) + pool[1..]) == multiset(Pages(t) + pool)
  {
    hide Pages;
    var t' := Put(t, q, EmptyTable(pool[0], E));
    PutPages(t, q, EmptyTable(pool[0], E));
    EmptyTablePages(pool[0], E);
    WordPages(Sub(t, q).e);
    var none: seq<nat> := [];
    Neutral(multiset(Pages(t')), none);
    assert pool == [pool[0]] + pool[1..];
    assert multiset(pool) == multiset([pool[0]]) + multiset(pool[1..]);
  }

  lemma SoundFilled(s: Snap, s': Snap, L: nat, E: nat)
    requires Sound(s, L, E) && Shape(s'.mem, E) && |s'.mem| == |s.mem| && s.pool != [] && s'.pool == s.pool[1..]
    requires multiset(Stock(s', L, E)) == multiset(Stock(s, L, E))
    ensures Sound(s', L, E)
  {
    hide Stock;
    forall p | p in s'.pool
      ensures p < |s'.mem|
    {
      assert p in s.pool;
    }
    assert forall p: nat :: multiset(Stock(s', L, E))[p] == multiset(Stock(s, L, E))[p];
  }

  lemma KeptMore(s0: Snap, s: Snap, s': Snap, L: nat, E: nat)
    requires Shape(s0.mem, E) && Shape(s.mem, E) && Shape(s'.mem, E) && Kept(s0, s, L, E) && Kept(s, s', L, E)
    ensures Kept(s0, s', L, E)
  {
    hide Stock, Shape;
    forall p: nat | p < |s0.mem| && p !in Stock(s0, L, E)
      ensures s'.mem[p] == s0.mem[p]
    {
      SameMembers(Stock(s, L, E), Stock(s0, L, E), p);
    }
  }

  lemma OnTheWayFilled(s0: Snap, s: Snap, s': Snap, q: seq<nat>, i: nat, E: nat)
    requires Shape(s0.mem, E) && Shape(s.mem, E) && Shape(s'.mem, E) && IsPath(q, E) && i < |q|
    requires OnTheWay(s0, s, q, E) && s.pool != [] && s'.pool == s.pool[1..]
    requires Reaches(TreeOf(s, |q|, E), q[..i]) && Sub(TreeOf(s, |q|, E), q[..i]).Word?
    requires TreeOf(s', |q|, E) == Put(TreeOf(s, |q|, E), q[..i], EmptyTable(s.pool[0], E))
    ensures OnTheWay(s0, s', q, E)
  {
    hide TreeOf, Grow, Need, Put;
    GrowStep(TreeOf(s, |q|, E), q, i, s.pool, E);
  }

  /** One round over an absent entry, with a page to spare. */
  lemma WalkFill(s0: Snap, s: Snap, q: seq<nat>, i: nat, cur: TablePtr, E: nat)
    requires Walking(s0, s, q, i, cur, E) && i < |q| && s.pool != []
    requires Readable(s, cur, IndexAt(q, i)) && !Present(Read(s, cur, IndexAt(q, i)))
    ensures s.pool[0] < |s.mem| && Readable(Cleared(s, E), cur, IndexAt(q, i))
    ensures Walking(s0, Filled(s, cur, IndexAt(q, i), E), q, i + 1, Frame(s.pool[0]), E)
  {
    hide *;
    WalkingParts(s0, s, q, i, cur, E);
    EntryRead(s, q, i, E);
    var t := TreeOf(s, |q|, E);
    AbsentWord(s, Sub(t, q[..i]).e, |q| - i, E);
    FilledTree(s, q, i, E);
    var s' := Filled(s, cur, IndexAt(q, i), E);
    var t' := TreeOf(s', |q|, E);
    StockFilled(t, q[..i], s.pool, E);
    StockIs(s, |q|, E);
    StockIs(s', |q|, E);
    SoundFilled(s, s', |q|, E);
    KeptIs(s, s', |q|, E);
    KeptMore(s0, s, s', |q|, E);
    OnTheWayFilled(s0, s, s', q, i, E);
    OwnPathFilled(t, q, i, s.pool[0], E);
    PutReaches(t, q[..i], EmptyTable(s.pool[0], E));
    NextTable(t', q, i, s.pool[0], E);
    WalkingFold(s0, s', q, i + 1, Frame(s.pool[0]), E);
  }

  lemma NextTable(t: Tree, q: seq<nat>, i: nat, page: nat, E: nat)
    requires i < |q| && IsPath(q, E) && Reaches(t, q[..i]) && Sub(t, q[..i]) == EmptyTable(page, E)
    ensures Reaches(t, q[..i + 1]) && Holder(t, q[..i + 1]) == page
  {
    hide TableWord;
    assert q[..i] + [q[i]] == q[..i + 1];
    ReachesMore(t, q[..i], q[i]);
    HolderMore(t, q[..i], q[i]);
    TableWordFacts(page);
  }

  lemma AbsentWord(s: Snap, e: nat, k: nat, E: nat)
    requires Shape(s.mem, E) && !Present(e)
    ensures Abs(s.mem, e, k, E).Word?
  {
  }

  lemma StockIs(s: Snap, L: nat, E: nat)
    requires Shape(s.mem, E)
    ensures Stock(s, L, E) == Pages(TreeOf(s, L, E)) + s.pool
  {
  }

  lemma KeptIs(s0: Snap, s: Snap, L: nat, E: nat)
    requires Shape(s0.mem, E) && Shape(s.mem, E)
    ensures Kept(s0, s, L, E) <==>
            && |s.mem| == |s0.mem| && multiset(Stock(s, L, E)) == multiset(Stock(s0, L, E))
            && forall p: nat :: p < |s0.mem| && p !in Stock(s0, L, E) ==> s.mem[p] == s0.mem[p]
  {
  }

  lemma WalkingParts(s0: Snap, s: Snap, q: seq<nat>, i: nat, cur: TablePtr, E: nat)
    requires Walking(s0, s, q, i, cur, E)
    ensures Sound(s0, |q|, E) && Sound(s, |q|, E) && Shape(s0.mem, E) && Shape(s.mem, E) && IsPath(q, E) && i <= |q|
    ensures Kept(s0, s, |q|, E) && OnTheWay(s0, s, q, E)
    ensures OwnPath(TreeOf(s, |q|, E), q) && Reaches(TreeOf(s, |q|, E), q[..i])
    ensures cur == if i == 0 then Cell else Frame(Holder(TreeOf(s, |q|, E), q[..i]))
  {
  }

  lemma WalkingFold(s0: Snap, s: Snap, q: seq<nat>, i: nat, cur: TablePtr, E: nat)
    requires Shape(s0.mem, E) && Shape(s.mem, E) && 0 < i <= |q|
    requires Sound(s0, |q|, E) && Sound(s, |q|, E) && IsPath(q, E) && Kept(s0, s, |q|, E) && OnTheWay(s0, s, q, E)
    requires OwnPath(TreeOf(s, |q|, E), q) && Reaches(TreeOf(s, |q|, E), q[..i])
    requires cur == Frame(Holder(TreeOf(s, |q|, E), q[..i]))
    ensures Walking(s0, s, q, i, cur, E)
  {
  }

  /** Without a page to spare the walk cannot be completed. */
  lemma WalkStuck(s0: Snap, s: Snap, q: seq<nat>, i: nat, cur: TablePtr, E: nat)
    requires Walking(s0, s, q, i, cur, E) && i < |q| && s.pool == []
    requires Readable(s, cur, IndexAt(q, i)) && !Present(Read(s, cur, IndexAt(q, i)))
    ensures Shape(s0.mem, E) && Need(TreeOf(s0, |q|, E), q) > |s0.pool|
  {
    hide *;
    WalkingParts(s0, s, q, i, cur, E);
    EntryRead(s, q, i, E);
    var t := TreeOf(s, |q|, E);
    AbsentWord(s, Sub(t, q[..i]).e, |q| - i, E);
    GrowStep(t, q, i, s.pool, E);
    OnTheWayIs(s0, s, q, E);
  }

  lemma OnTheWayIs(s0: Snap, s: Snap, q: seq<nat>, E: nat)
    requires Shape(s0.mem, E) && Shape(s.mem, E) && IsPath(q, E) && OnTheWay(s0, s, q, E)
    ensures var t0, t := TreeOf(s0, |q|, E), TreeOf(s, |q|, E);
            && Need(t0, q) + |s.pool| == Need(t, q) + |s0.pool|
            && (Need(t, q) <= |s.pool| && Need(t0, q) <= |s0.pool| ==> Grow(t, q, s.pool, E) == Grow(t0, q, s0.pool, E))
  {
  }

  /** At the end the tree is the one that growing along the path gives. */
  lemma WalkEnds(s0: Snap, s: Snap, q: seq<nat>, cur: TablePtr, E: nat)
    requires Walking(s0, s, q, |q|, cur, E) && q != []
    ensures Shape(s0.mem, E) && Shape(s.mem, E) && IsPath(q, E) && Kept(s0, s, |q|, E) && Sound(s, |q|, E)
    ensures var t0, t := TreeOf(s0, |q|, E), TreeOf(s, |q|, E);
            && Need(t0, q) <= |s0.pool| && Grow(t0, q, s0.pool, E) == (t, s.pool)
            && Reaches(t, q) && cur == Frame(Holder(t, q))
            && Readable(s, cur, q[|q| - 1]) && Read(s, cur, q[|q| - 1]) == Sub(t, q).e
  {
    hide *;
    WalkingParts(s0, s, q, |q|, cur, E);
    var t := TreeOf(s, |q|, E);
    assert q[..|q|] == q;
    NeedIsZero(t, q);
    GrowNothing(t, q, s.pool, E);
    OnTheWayIs(s0, s, q, E);
    EntryRead(s, q, |q|, E);
    LastIndex(q);
  }

  /** The outcome of a completed walk: the tree with every table along `q`, and where its last entry is. */
  ghost predicate Walked(s0: Snap, s: Snap, q: seq<nat>, E: nat, page: nat, index: nat) {
    && q != [] && IsPath(q, E) && Shape(s0.mem, E) && Sound(s, |q|, E) && Kept(s0, s, |q|, E)
    && var t0, t := TreeOf(s0, |q|, E), TreeOf(s, |q|, E);
    && Need(t0, q) <= |s0.pool| && Grow(t0, q, s0.pool, E) == (t, s.pool)
    && Reaches(t, q) && page == Holder(t, q) && index == q[|q| - 1]
    && page < |s.mem| && index < |s.mem[page]| && s.mem[page][index] == Sub(t, q).e
  }

  lemma WalkReturns(s0: Snap, s: Snap, q: seq<nat>, cur: TablePtr, E: nat)
    requires Walking(s0, s, q, |q|, cur, E) && q != []
    ensures cur.Frame? && Walked(s0, s, q, E, cur.page, q[|q| - 1])
    ensures Shape(s0.mem, E) && Need(TreeOf(s0, |q|, E), q) <= |s0.pool|
  {
    WalkEnds(s0, s, q, cur, E);
    hide Walking, Sound, Kept, TreeOf, Grow, Need, Reaches, Holder, Sub;
  }

  lemma LastIndex(q: seq<nat>)
    requires q != []
    ensures IndexAt(q, |q|) == q[|q| - 1]
  {
  }

  // ---- what every address space keeps ----

  /** A page-table tree over the kernel's top-level entries: complete tables in user space, copies
      of the kernel's entries elsewhere. */
  predicate SpaceTree(cfg: Config, t: Tree, kernel: seq<nat>)
    requires |cfg.tables| > 1 && 0 < cfg.levels && 0 < |cfg.areas| && |kernel| == Entries(cfg)
  {
    t.Table? && !Large(t.e) && |t.kids| == Entries(cfg) &&
    forall j :: 0 <= j < Entries(cfg) ==>
      if UserIndex(cfg, j) then Clean(t.kids[j], cfg.levels - 1, Entries(cfg))
      else t.kids[j] == Word(TopEntry(cfg, kernel, j))
  }

  function TopEntry(cfg: Config, kernel: seq<nat>, j: nat): nat
    requires |cfg.tables| > 1 && j < |kernel|
  {
    if KernelIndex(cfg, |cfg.areas|, j) then kernel[j] else 0
  }

  predicate NotOwned(kernel: seq<nat>) { forall j :: 0 <= j < |kernel| ==> !Owned(kernel[j]) }

  lemma CleanFacts(t: Tree, k: nat, E: nat)
    requires Clean(t, k, E)
    ensures Full(t, E) && Depth(t, k) && Solid(t, k)
  {
  }

  lemma SpaceFacts(cfg: Config, t: Tree, kernel: seq<nat>)
    requires |cfg.tables| > 1 && 0 < cfg.levels && 0 < |cfg.areas| && |kernel| == Entries(cfg)
    requires SpaceTree(cfg, t, kernel) && NotOwned(kernel)
    ensures Full(t, Entries(cfg)) && Depth(t, cfg.levels) && Solid(t, cfg.levels)
  {
    forall j | 0 <= j < Entries(cfg)
      ensures Full(t.kids[j], Entries(cfg)) && Depth(t.kids[j], cfg.levels - 1) && Solid(t.kids[j], cfg.levels - 1)
    {
      if UserIndex(cfg, j) {
        CleanFacts(t.kids[j], cfg.levels - 1, Entries(cfg));
      }
    }
  }

  /** A path into user space. */
  predicate UserTablePath(cfg: Config, q: seq<nat>)
    requires |cfg.tables| > 1 && 0 < |cfg.areas|
  {
    |q| == cfg.levels > 0 && IsPath(q, Entries(cfg)) && UserIndex(cfg, q[0])
  }

  lemma SpacePath(cfg: Config, t: Tree, kernel: seq<nat>, q: seq<nat>)
    requires |cfg.tables| > 1 && 0 < cfg.levels && 0 < |cfg.areas| && |kernel| == Entries(cfg)
    requires SpaceTree(cfg, t, kernel) && UserTablePath(cfg, q)
    ensures OwnPath(t, q)
  {
    CleanOwnPath(t.kids[q[0]], q[1..], Entries(cfg));
  }

  /** Growing and mapping in user space keep the shape. */
  lemma SpaceGrown(cfg: Config, t: Tree, kernel: seq<nat>, q: seq<nat>, pool: seq<nat>)
    requires |cfg.tables| > 1 && 0 < cfg.levels && 0 < |cfg.areas| && |kernel| == Entries(cfg)
    requires SpaceTree(cfg, t, kernel) && UserTablePath(cfg, q) && Need(t, q) <= |pool|
    ensures SpaceTree(cfg, Grow(t, q, pool, Entries(cfg)).0, kernel)
  {
    GrowClean(t.kids[q[0]], q[1..], pool, Entries(cfg));
  }

  lemma SpacePut(cfg: Config, t: Tree, kernel: seq<nat>, q: seq<nat>, x: nat)
    requires |cfg.tables| > 1 && 0 < cfg.levels && 0 < |cfg.areas| && |kernel| == Entries(cfg)
    requires SpaceTree(cfg, t, kernel) && UserTablePath(cfg, q) && Reaches(t, q)
    ensures SpaceTree(cfg, Put(t, q, Word(x)), kernel)
  {
    PutClean(t.kids[q[0]], q[1..], x, Entries(cfg));
  }

  /** How a walk from the root of an address space goes on: in user space through its own tables, elsewhere
      as it would from the kernel's entry. */
  lemma SpaceWalk(cfg: Config, s: Snap, kernel: seq<nat>, q: seq<nat>)
    requires |cfg.tables| > 1 && 0 < cfg.levels && 0 < |cfg.areas| && |kernel| == Entries(cfg)
    requires Shape(s.mem, Entries(cfg)) && SpaceTree(cfg, TreeOf(s, cfg.levels, Entries(cfg)), kernel)
    requires |q| == cfg.levels && IsPath(q, Entries(cfg))
    ensures Walk(s.mem, s.ptr, q) ==
            if UserIndex(cfg, q[0]) then Get(TreeOf(s, cfg.levels, Entries(cfg)), q)
            else Walk(s.mem, TopEntry(cfg, kernel, q[0]), q[1..])
  {
    var t := TreeOf(s, cfg.levels, Entries(cfg));
    if UserIndex(cfg, q[0]) {
      SpacePath(cfg, t, kernel, q);
      WalkIsGet(s.mem, s.ptr, q, Entries(cfg));
    } else {
      AbsTable(s.mem, s.ptr, cfg.levels, Entries(cfg), q[0]);
      AbsWord(s.mem, s.mem[Page(s.ptr)][q[0]], cfg.levels - 1, Entries(cfg));
    }
  }

  /** The kernel's page table `kpt` and the tables below it lie in the pages `K`; no entry is marked user. */
  ghost predicate KernelOk(cfg: Config, mem: Memory, kpt: nat, K: set<nat>)
    requires |cfg.tables| > 1 && 0 < cfg.levels
  {
    && kpt < |mem| && kpt in K && |mem[kpt]| == Entries(cfg) && NotOwned(mem[kpt])
    && forall j :: 0 <= j < Entries(cfg) ==> KernelTables(mem, mem[kpt][j], cfg.levels - 1, K)
  }

  /** Free and used pages are never the kernel's, and never page 0, which stands for failure. */
  ghost predicate Apart(stock: seq<nat>, K: set<nat>) { forall p :: p in stock ==> p !in K && p != 0 }

  ghost predicate SpaceOk(cfg: Config, s: Snap, kpt: nat, K: set<nat>)
    requires Known(cfg)
  {
    Layout(cfg);
    && Sound(s, cfg.levels, Entries(cfg)) && KernelOk(cfg, s.mem, kpt, K) && Apart(Stock(s, cfg.levels, Entries(cfg)), K)
    && SpaceTree(cfg, TreeOf(s, cfg.levels, Entries(cfg)), s.mem[kpt])
  }

  lemma KernelStays(cfg: Config, s0: Snap, s: Snap, kpt: nat, K: set<nat>)
    requires Known(cfg) && |cfg.tables| > 1 && 0 < cfg.levels
    requires Shape(s0.mem, Entries(cfg)) && Shape(s.mem, Entries(cfg))
    requires KernelOk(cfg, s0.mem, kpt, K) && Apart(Stock(s0, cfg.levels, Entries(cfg)), K)
    requires Kept(s0, s, cfg.levels, Entries(cfg))
    ensures Agree(s0.mem, s.mem, K) && s.mem[kpt] == s0.mem[kpt] && KernelOk(cfg, s.mem, kpt, K)
    ensures Apart(Stock(s, cfg.levels, Entries(cfg)), K)
  {
    hide Stock, Entries;
    forall j | 0 <= j < Entries(cfg)
      ensures KernelTables(s.mem, s.mem[kpt][j], cfg.levels - 1, K)
    {
      KernelFrame(s0.mem, s.mem, s0.mem[kpt][j], cfg.levels - 1, K);
    }
    forall p | p in Stock(s, cfg.levels, Entries(cfg))
      ensures p !in K && p != 0
    {
      SameMembers(Stock(s, cfg.levels, Entries(cfg)), Stock(s0, cfg.levels, Entries(cfg)), p);
    }
  }

  /** What a mapping in user space does to a well-formed address space: every walk, through user or kernel
      tables, leads where it led before, except along the path of the mapping. */
  lemma MappingKeeps(cfg: Config, s0: Snap, s: Snap, kpt: nat, K: set<nat>, q: seq<nat>, x: nat, r: seq<nat>)
    requires Known(cfg) && |cfg.tables| > 1 && 0 < |cfg.areas| && SpaceOk(cfg, s0, kpt, K) && UserTablePath(cfg, q)
    requires Shape(s0.mem, Entries(cfg)) && Need(TreeOf(s0, cfg.levels, Entries(cfg)), q) <= |s0.pool|
    requires Sound(s, cfg.levels, Entries(cfg)) && Shape(s.mem, Entries(cfg)) && Kept(s0, s, cfg.levels, Entries(cfg))
    requires var grown := Grow(TreeOf(s0, cfg.levels, Entries(cfg)), q, s0.pool, Entries(cfg)).0;
             Reaches(grown, q) && TreeOf(s, cfg.levels, Entries(cfg)) == Put(grown, q, Word(x))
    requires |r| == cfg.levels && IsPath(r, Entries(cfg))
    ensures SpaceOk(cfg, s, kpt, K)
    ensures Walk(s.mem, s.ptr, r) == if r == q then x else Walk(s0.mem, s0.ptr, r)
  {
    hide *;
    SpaceParts(cfg, s0, kpt, K);
    UserPathParts(cfg, q);
    PathHead(r, Entries(cfg));
    var E, t0 := Entries(cfg), TreeOf(s0, cfg.levels, Entries(cfg));
    var grown := Grow(t0, q, s0.pool, E).0;
    KernelStays(cfg, s0, s, kpt, K);
    KernelParts(cfg, s0.mem, kpt, K, r[0]);
    KernelParts(cfg, s.mem, kpt, K, r[0]);
    SpaceFacts(cfg, t0, s0.mem[kpt]);
    SpaceGrown(cfg, t0, s0.mem[kpt], q, s0.pool);
    SpacePut(cfg, grown, s0.mem[kpt], q, x);
    SpaceFold(cfg, s, kpt, K);
    SpaceWalk(cfg, s0, s0.mem[kpt], r);
    SpaceWalk(cfg, s, s0.mem[kpt], r);
    GetAfterGrow(t0, q, s0.pool, E, r);
    GetAfterPut(grown, q, x, r);
    TopEntryIs(cfg, s0.mem[kpt], r[0]);
    KernelWalk(s0.mem, s.mem, s0.mem[kpt][r[0]], r[1..], K);
    WalkZero(s0.mem, r[1..]);
    WalkZero(s.mem, r[1..]);
  }

  lemma TopEntryIs(cfg: Config, kernel: seq<nat>, j: nat)
    requires |cfg.tables| > 1 && j < |kernel|
    ensures TopEntry(cfg, kernel, j) == 0 || TopEntry(cfg, kernel, j) == kernel[j]
  {
  }

  lemma PathHead(q: seq<nat>, E: nat)
    requires q != [] && IsPath(q, E)
    ensures q[0] < E && IsPath(q[1..], E)
  {
  }

  lemma WalkZero(mem: Memory, q: seq<nat>)
    ensures Walk(mem, 0, q) == 0
  {
  }

  lemma UserPathParts(cfg: Config, q: seq<nat>)
    requires |cfg.tables| > 1 && 0 < |cfg.areas| && UserTablePath(cfg, q)
    ensures |q| == cfg.levels > 0 && IsPath(q, Entries(cfg)) && UserIndex(cfg, q[0]) && q[0] < Entries(cfg)
  {
  }

  lemma KernelParts(cfg: Config, mem: Memory, kpt: nat, K: set<nat>, j: nat)
    requires |cfg.tables| > 1 && 0 < cfg.levels && KernelOk(cfg, mem, kpt, K)
    ensures kpt < |mem| && kpt in K && |mem[kpt]| == Entries(cfg) && NotOwned(mem[kpt])
    ensures j < Entries(cfg) ==> KernelTables(mem, mem[kpt][j], cfg.levels - 1, K)
  {
  }

  lemma SpaceParts(cfg: Config, s: Snap, kpt: nat, K: set<nat>)
    requires Known(cfg) && SpaceOk(cfg, s, kpt, K)
    ensures |cfg.tables| == cfg.levels + 1 > 1 && 0 < |cfg.areas| && Shape(s.mem, Entries(cfg))
    ensures Sound(s, cfg.levels, Entries(cfg)) && KernelOk(cfg, s.mem, kpt, K)
    ensures Apart(Stock(s, cfg.levels, Entries(cfg)), K)
    ensures kpt < |s.mem| && |s.mem[kpt]| == Entries(cfg) && NotOwned(s.mem[kpt])
    ensures SpaceTree(cfg, TreeOf(s, cfg.levels, Entries(cfg)), s.mem[kpt])
  {
    Layout(cfg);
  }

  lemma SpaceFold(cfg: Config, s: Snap, kpt: nat, K: set<nat>)
    requires Known(cfg) && |cfg.tables| == cfg.levels + 1 > 1 && 0 < |cfg.areas| && Shape(s.mem, Entries(cfg))
    requires Sound(s, cfg.levels, Entries(cfg)) && KernelOk(cfg, s.mem, kpt, K)
    requires Apart(Stock(s, cfg.levels, Entries(cfg)), K)
    requires kpt < |s.mem| && |s.mem[kpt]| == Entries(cfg)
    requires SpaceTree(cfg, TreeOf(s, cfg.levels, Entries(cfg)), s.mem[kpt])
    ensures SpaceOk(cfg, s, kpt, K)
  {
  }

  // ---- the steps of `map` ----

  /** Writing the entry at the end of a walk. */
  lemma EntryWritten(s: Snap, q: seq<nat>, E: nat, x: nat)
    requires Sound(s, |q|, E) && Shape(s.mem, E) && IsPath(q, E) && q != []
    requires Reaches(TreeOf(s, |q|, E), q) && Sub(TreeOf(s, |q|, E), q).Word?
    ensures Holder(TreeOf(s, |q|, E), q) < |s.mem| && q[|q| - 1] < E
    ensures var s' := Store(s, Frame(Holder(TreeOf(s, |q|, E), q)), q[|q| - 1], x);
            && Shape(s'.mem, E) && s'.pool == s.pool && s'.ptr == s.ptr
            && TreeOf(s', |q|, E) == Put(TreeOf(s, |q|, E), q, Word(x))
            && Sound(s', |q|, E) && Kept(s, s', |q|, E)
  {
    var t := TreeOf(s, |q|, E);
    HolderIn(t, q);
    StockDistinct(s, |q|, E);
    WriteEntry(s.mem, s.ptr, |q|, E, q, x);
    hide *;
    PathLast(q, E);
    var s' := StoreFrame(s, Holder(t, q), q[|q| - 1], x);
    TreeOfIs(s, |q|, E);
    TreeOfIs(s', |q|, E);
    AbsLeaf(s'.mem, x, E);
    PutWordPages(t, q, x);
    StockIs(s, |q|, E);
    StockIs(s', |q|, E);
    StockOfEqual(Pages(t), Pages(TreeOf(s', |q|, E)), s.pool);
    KeptIs(s, s', |q|, E);
    SoundSame(s, s', |q|, E);
  }

  lemma StoreFrame(s: Snap, p: nat, index: nat, x: nat) returns (s': Snap)
    requires p < |s.mem| && index < |s.mem[p]|
    ensures Readable(s, Frame(p), index)
    ensures s' == Store(s, Frame(p), index, x) && s'.mem == Write(s.mem, p, index, x) && s'.pool == s.pool && s'.ptr == s.ptr
    ensures |s'.mem| == |s.mem| && forall i :: 0 <= i < |s.mem| && i != p ==> s'.mem[i] == s.mem[i]
  {
    s' := Store(s, Frame(p), index, x);
  }

  lemma StockDistinct(s: Snap, L: nat, E: nat)
    requires Sound(s, L, E)
    ensures Once(Pages(TreeOf(s, L, E)))
  {
    hide Once, Pages;
    OnceParts(Stock(s, L, E), Pages(TreeOf(s, L, E)), s.pool);
  }

  lemma PathLast(q: seq<nat>, E: nat)
    requires q != [] && IsPath(q, E)
    ensures q[|q| - 1] < E
  {
  }

  lemma TreeOfIs(s: Snap, L: nat, E: nat)
    requires Shape(s.mem, E)
    ensures TreeOf(s, L, E) == Abs(s.mem, s.ptr, L, E)
  {
  }

  lemma AbsLeaf(mem: Memory, x: nat, E: nat)
    requires Shape(mem, E)
    ensures Abs(mem, x, 0, E) == Word(x)
  {
  }

  lemma StockOfEqual(a: seq<nat>, b: seq<nat>, pool: seq<nat>)
    requires multiset(a) == multiset(b)
    ensures multiset(a + pool) == multiset(b + pool)
    ensures forall p :: p in a ==> p in a + pool
  {
  }

  lemma SoundSame(s: Snap, s': Snap, L: nat, E: nat)
    requires Sound(s, L, E) && Shape(s'.mem, E) && Shape(s.mem, E) && |s'.mem| == |s.mem| && s'.pool == s.pool
    requires multiset(Stock(s', L, E)) == multiset(Stock(s, L, E))
    ensures Sound(s', L, E)
  {
    hide Stock;
    assert forall p: nat :: multiset(Stock(s', L, E))[p] == multiset(Stock(s, L, E))[p];
  }

  // ---- a new address space ----

  function RootWord(page: nat): nat { page * 4096 + 5 }

  lemma RootWordFacts(page: nat)
    ensures Owned(RootWord(page)) && Page(RootWord(page)) == page && !Large(RootWord(page))
  {
    Fields(page, 1, 0);
  }

  /** The free pages: all different, existing, not the kernel's. */
  ghost predicate FreeOk(mem: Memory, pool: seq<nat>, K: set<nat>) {
    Once(pool) && Apart(pool, K) && forall p :: p in pool ==> p < |mem|
  }

  /** The first free page has become a top-level table with the kernel's entries. */
  ghost predicate TopTableMade(cfg: Config, s0: Snap, s: Snap, kpt: nat)
    requires |cfg.tables| > 1
  {
    && s0.pool != [] && s.pool == s0.pool[1..] && |s.mem| == |s0.mem| && s0.pool[0] < |s.mem| && kpt < |s0.mem|
    && s.ptr == RootWord(s0.pool[0])
    && (forall i :: 0 <= i < |s0.mem| && i != s0.pool[0] ==> s.mem[i] == s0.mem[i])
    && |s.mem[s0.pool[0]]| == Entries(cfg) == |s0.mem[kpt]|
    && forall j :: 0 <= j < Entries(cfg) ==> s.mem[s0.pool[0]][j] == TopEntry(cfg, s0.mem[kpt], j)
  }

  lemma NewTree(cfg: Config, s0: Snap, s: Snap, kpt: nat)
    requires Known(cfg) && |cfg.tables| > 1 && 0 < cfg.levels && TopTableMade(cfg, s0, s, kpt)
    requires Shape(s.mem, Entries(cfg)) && NotOwned(s0.mem[kpt])
    ensures var t := TreeOf(s, cfg.levels, Entries(cfg));
            && t.Table? && t.e == s.ptr && |t.kids| == Entries(cfg) && Pages(t) == [s0.pool[0]]
            && forall j :: 0 <= j < Entries(cfg) ==> t.kids[j] == Word(TopEntry(cfg, s0.mem[kpt], j))
  {
    hide Pages, PagesUpTo, Entries, TopEntry, Owned, RootWord;
    var t, E := TreeOf(s, cfg.levels, Entries(cfg)), Entries(cfg);
    RootWordFacts(s0.pool[0]);
    AbsWord(s.mem, s.ptr, cfg.levels, E);
    forall j | 0 <= j < E
      ensures t.kids[j] == Word(TopEntry(cfg, s0.mem[kpt], j))
    {
      AbsTable(s.mem, s.ptr, cfg.levels, E, j);
      TopEntryIs(cfg, s0.mem[kpt], j);
      AbsWord(s.mem, TopEntry(cfg, s0.mem[kpt], j), cfg.levels - 1, E);
      ZeroNotOwned();
    }
    ZeroPages(t, E);
    TablePages(t);
  }

  lemma ZeroNotOwned()
    ensures !Owned(0)
  {
  }

  /** `protect` makes a well-formed address space: all kernel addresses as in the kernel's own table, nothing else. */
  lemma NewSpace(cfg: Config, s0: Snap, s: Snap, kpt: nat, K: set<nat>, r: seq<nat>)
    requires Known(cfg) && |cfg.tables| == cfg.levels + 1 > 1 && 0 < |cfg.areas| && TopTableMade(cfg, s0, s, kpt)
    requires Shape(s0.mem, Entries(cfg)) && Shape(s.mem, Entries(cfg))
    requires KernelOk(cfg, s0.mem, kpt, K) && FreeOk(s0.mem, s0.pool, K)
    requires |r| == cfg.levels && IsPath(r, Entries(cfg))
    ensures Pages(TreeOf(s, cfg.levels, Entries(cfg))) == [s0.pool[0]]
    ensures SpaceOk(cfg, s, kpt, K) && r[0] < |s0.mem[kpt]|
    ensures Walk(s.mem, s.ptr, r) ==
            if KernelIndex(cfg, |cfg.areas|, r[0]) then Walk(s0.mem, s0.mem[kpt][r[0]], r[1..]) else 0
  {
    hide *;
    var E, t := Entries(cfg), TreeOf(s, cfg.levels, Entries(cfg));
    KernelParts(cfg, s0.mem, kpt, K, 0);
    NewTree(cfg, s0, s, kpt);
    NewAgree(cfg, s0, s, kpt, K);
    StockIs(s, cfg.levels, E);
    TopTableParts(cfg, s0, s, kpt);
    assert s0.pool == [s0.pool[0]] + s.pool;
    NewKernel(cfg, s0, s, kpt, K);
    NewSound(s0, s, cfg.levels, E, K);
    NewSpaceTree(cfg, t, s0.mem[kpt], s0.pool[0]);
    SpaceFold(cfg, s, kpt, K);
    PathHead(r, E);
    SpaceWalk(cfg, s, s0.mem[kpt], r);
    UserOrKernel(cfg, s0.mem[kpt], r[0]);
    KernelParts(cfg, s0.mem, kpt, K, r[0]);
    KernelWalk(s0.mem, s.mem, s0.mem[kpt][r[0]], r[1..], K);
    WalkZero(s.mem, r[1..]);
    GetEmptySpace(t, r, cfg, s0.mem[kpt]);
  }

  lemma GetEmptySpace(t: Tree, r: seq<nat>, cfg: Config, kernel: seq<nat>)
    requires |cfg.tables| > 1 && |kernel| == Entries(cfg) && t.Table? && |t.kids| == Entries(cfg) && r != [] && r[0] < Entries(cfg)
    requires forall j :: 0 <= j < Entries(cfg) ==> t.kids[j] == Word(TopEntry(cfg, kernel, j))
    ensures TopEntry(cfg, kernel, r[0]) == 0 ==> Get(t, r) == 0
  {
    hide TopEntry;
    ZeroGet(r[1..]);
  }

  lemma UserOrKernel(cfg: Config, kernel: seq<nat>, j: nat)
    requires Known(cfg) && |cfg.tables| > 1 && 0 < |cfg.areas| && j < Entries(cfg) == |kernel|
    ensures UserIndex(cfg, j) ==> !KernelIndex(cfg, |cfg.areas|, j)
    ensures TopEntry(cfg, kernel, j) == if KernelIndex(cfg, |cfg.areas|, j) then kernel[j] else 0
  {
    if UserIndex(cfg, j) {
      UserNotKernel(cfg, j);
    }
  }

  lemma TopTableParts(cfg: Config, s0: Snap, s: Snap, kpt: nat)
    requires |cfg.tables| > 1 && TopTableMade(cfg, s0, s, kpt)
    ensures s0.pool != [] && s.pool == s0.pool[1..] && |s.mem| == |s0.mem| && kpt < |s0.mem|
    ensures s.ptr == RootWord(s0.pool[0]) && !Large(s.ptr)
    ensures s0.pool[0] in s0.pool
    ensures forall i :: 0 <= i < |s0.mem| && i != s0.pool[0] ==> s.mem[i] == s0.mem[i]
  {
    RootWordFacts(s0.pool[0]);
  }

  lemma NewAgree(cfg: Config, s0: Snap, s: Snap, kpt: nat, K: set<nat>)
    requires |cfg.tables| > 1 && TopTableMade(cfg, s0, s, kpt) && FreeOk(s0.mem, s0.pool, K) && kpt in K
    ensures Agree(s0.mem, s.mem, K) && s.mem[kpt] == s0.mem[kpt]
  {
    assert s0.pool[0] in s0.pool;
  }

  lemma NewKernel(cfg: Config, s0: Snap, s: Snap, kpt: nat, K: set<nat>)
    requires |cfg.tables| > 1 && 0 < cfg.levels && KernelOk(cfg, s0.mem, kpt, K) && Agree(s0.mem, s.mem, K)
    ensures KernelOk(cfg, s.mem, kpt, K)
  {
    hide Entries;
    forall j | 0 <= j < Entries(cfg)
      ensures KernelTables(s.mem, s.mem[kpt][j], cfg.levels - 1, K)
    {
      KernelFrame(s0.mem, s.mem, s0.mem[kpt][j], cfg.levels - 1, K);
    }
  }

  lemma NewSound(s0: Snap, s: Snap, L: nat, E: nat, K: set<nat>)
    requires Shape(s.mem, E) && s0.pool != [] && s0.pool == [s0.pool[0]] + s.pool && |s.mem| == |s0.mem|
    requires FreeOk(s0.mem, s0.pool, K) && Stock(s, L, E) == s0.pool
    ensures Sound(s, L, E) && Apart(Stock(s, L, E), K)
  {
    hide Stock;
    forall p | p in s.pool
      ensures p < |s.mem|
    {
      assert p in s0.pool;
    }
  }

  lemma NewSpaceTree(cfg: Config, t: Tree, kernel: seq<nat>, page: nat)
    requires Known(cfg) && |cfg.tables| > 1 && 0 < cfg.levels && 0 < |cfg.areas| && |kernel| == Entries(cfg)
    requires t.Table? && |t.kids| == Entries(cfg) && t.e == RootWord(page)
    requires forall j :: 0 <= j < Entries(cfg) ==> t.kids[j] == Word(TopEntry(cfg, kernel, j))
    ensures SpaceTree(cfg, t, kernel)
  {
    hide Entries, UserIndex, KernelIndex;
    RootWordFacts(page);
    forall j | 0 <= j < Entries(cfg) && UserIndex(cfg, j)
      ensures Clean(t.kids[j], cfg.levels - 1, Entries(cfg))
    {
      UserOrKernel(cfg, kernel, j);
    }
  }

  // ---- one mapping ----

  /** A page-table entry as `map` writes it; `prot` 0 removes the mapping, bit 1 makes it writable. */
  function Pte(pa: nat, prot: nat): nat {
    if prot == 0 then 0 else pa + 5 + if prot / 2 % 2 == 1 then 2 else 0
  }

  /** When `map` does not panic. */
  predicate Mappable(cfg: Config, t: Tree, pool: seq<nat>, va: nat, pa: nat, prot: nat)
    requires |cfg.tables| == cfg.levels + 1 && 0 < |cfg.areas|
  {
    && InUser(cfg, va) && va % PGSIZE == 0 && pa % PGSIZE == 0
    && Need(t, Path(cfg, va)) <= |pool|
    && (prot == 0 <==> Present(Get(t, Path(cfg, va))))
  }

  /** The effect of one mapping: the tree, the stock of pages, and every walk. */
  ghost predicate Mapped(cfg: Config, s0: Snap, s: Snap, q: seq<nat>, x: nat)
    requires |cfg.tables| > 1 && Shape(s0.mem, Entries(cfg)) && Shape(s.mem, Entries(cfg))
  {
    var L, E := cfg.levels, Entries(cfg);
    && IsPath(q, E) && Need(TreeOf(s0, L, E), q) <= |s0.pool|
    && (TreeOf(s, L, E), s.pool) == Apply(TreeOf(s0, L, E), s0.pool, Request(q, x), E)
    && Kept(s0, s, L, E)
    && forall r: seq<nat> :: |r| == L && IsPath(r, E) ==>
         Walk(s.mem, s.ptr, r) == if r == q then x else Walk(s0.mem, s0.ptr, r)
  }

  lemma MappableIs(cfg: Config, t: Tree, pool: seq<nat>, va: nat, pa: nat, prot: nat)
    requires |cfg.tables| == cfg.levels + 1 && 0 < |cfg.areas|
    ensures Mappable(cfg, t, pool, va, pa, prot) <==>
            && InUser(cfg, va) && va % PGSIZE == 0 && pa % PGSIZE == 0
            && Need(t, Path(cfg, va)) <= |pool| && (prot == 0 <==> Present(Get(t, Path(cfg, va))))
  {
  }

  lemma PteIs(pa: nat, prot: nat)
    ensures Pte(pa, prot) == if prot == 0 then 0 else pa + 1 + 4 + if prot / 2 % 2 == 1 then 2 else 0
  {
  }

  lemma MapStarts(cfg: Config, s0: Snap, kpt: nat, K: set<nat>, va: nat)
    requires Known(cfg) && SpaceOk(cfg, s0, kpt, K) && |cfg.areas| > 0 && InUser(cfg, va)
    ensures |cfg.tables| == cfg.levels + 1 > 1 && |Path(cfg, va)| == cfg.levels && UserTablePath(cfg, Path(cfg, va))
    ensures Sound(s0, cfg.levels, Entries(cfg)) && Shape(s0.mem, Entries(cfg))
    ensures OwnPath(TreeOf(s0, cfg.levels, Entries(cfg)), Path(cfg, va)) && 0 !in s0.pool
  {
    hide *;
    SpaceParts(cfg, s0, kpt, K);
    PathOk(cfg, va);
    UserPath(cfg, va);
    UserTableFold(cfg, Path(cfg, va));
    SpacePath(cfg, TreeOf(s0, cfg.levels, Entries(cfg)), s0.mem[kpt], Path(cfg, va));
    NoZero(s0, cfg.levels, Entries(cfg), K);
  }

  lemma UserTableFold(cfg: Config, q: seq<nat>)
    requires |cfg.tables| > 1 && 0 < |cfg.areas| && |q| == cfg.levels > 0 && IsPath(q, Entries(cfg)) && UserIndex(cfg, q[0])
    ensures UserTablePath(cfg, q)
  {
  }

  lemma NoZero(s: Snap, L: nat, E: nat, K: set<nat>)
    requires Shape(s.mem, E) && Apart(Stock(s, L, E), K)
    ensures 0 !in s.pool
  {
    hide Pages;
    assert forall p :: p in s.pool ==> p in Stock(s, L, E);
  }

  lemma PathOk(cfg: Config, addr: nat)
    requires Known(cfg)
    ensures |cfg.tables| == cfg.levels + 1 && 0 < cfg.levels && |Path(cfg, addr)| == cfg.levels && IsPath(Path(cfg, addr), Entries(cfg))
    ensures forall i :: 0 <= i <= cfg.levels ==> IndexOf(addr, cfg.tables[i]) == IndexAt(Path(cfg, addr), i)
  {
    PathFacts(cfg, addr);
    Layout(cfg);
    hide Path, IndexOf, Entries;
  }

  lemma GetIsSub(t: Tree, q: seq<nat>)
    requires Reaches(t, q)
    ensures Get(t, q) == Sub(t, q).e
  {
  }

  lemma WalkedParts(s0: Snap, s: Snap, q: seq<nat>, E: nat, page: nat, index: nat)
    requires Walked(s0, s, q, E, page, index)
    ensures q != [] && IsPath(q, E) && Shape(s0.mem, E) && Shape(s.mem, E) && Sound(s, |q|, E) && Kept(s0, s, |q|, E)
    ensures var t0, t := TreeOf(s0, |q|, E), TreeOf(s, |q|, E);
            && Need(t0, q) <= |s0.pool| && Grow(t0, q, s0.pool, E) == (t, s.pool)
            && Reaches(t, q) && page == Holder(t, q) && index == q[|q| - 1]
            && page < |s.mem| && index < |s.mem[page]| && s.mem[page][index] == Sub(t, q).e
  {
  }

  /** After the walk, the entry found is the one the tree had all along. */
  lemma MapWalked(cfg: Config, s0: Snap, s1: Snap, kpt: nat, K: set<nat>, q: seq<nat>, page: nat, index: nat)
    requires Known(cfg) && |cfg.tables| == cfg.levels + 1 > 1 && 0 < |cfg.areas| && SpaceOk(cfg, s0, kpt, K)
    requires UserTablePath(cfg, q) && |q| == cfg.levels && Walked(s0, s1, q, Entries(cfg), page, index)
    ensures Shape(s0.mem, Entries(cfg)) && page < |s1.mem| && index < |s1.mem[page]|
    ensures Need(TreeOf(s0, cfg.levels, Entries(cfg)), q) <= |s0.pool|
    ensures s1.mem[page][index] == Get(TreeOf(s0, cfg.levels, Entries(cfg)), q)
    ensures Shape(s1.mem, Entries(cfg)) && Reaches(TreeOf(s1, cfg.levels, Entries(cfg)), q)
    ensures Sub(TreeOf(s1, cfg.levels, Entries(cfg)), q).Word?
  {
    hide *;
    var E := Entries(cfg);
    SpaceParts(cfg, s0, kpt, K);
    var t0 := TreeOf(s0, cfg.levels, E);
    WalkedParts(s0, s1, q, E, page, index);
    var t1 := TreeOf(s1, cfg.levels, E);
    SpaceFacts(cfg, t0, s0.mem[kpt]);
    GetAfterGrow(t0, q, s0.pool, E, q);
    GrowDepth(t0, q, s0.pool, E);
    PutDepth(t1, q, 0);
    GetIsSub(t1, q);
  }

  lemma ReachesOwn(t: Tree, q: seq<nat>, x: nat)
    requires Reaches(t, q) && OwnPath(t, q)
    ensures Reaches(Put(t, q, Word(x)), q) && OwnPath(Put(t, q, Word(x)), q)
  {
  }

  lemma {:induction false} GrownOwnPath(t: Tree, q: seq<nat>, pool: seq<nat>, E: nat)
    requires IsPath(q, E) && Need(t, q) <= |pool| && OwnPath(t, q)
    ensures OwnPath(Grow(t, q, pool, E).0, q)
    decreases |q|
  {
    if q == [] {
    } else if t.Table? {
      GrownOwnPath(t.kids[q[0]], q[1..], pool, E);
    } else {
      ZeroOwnPath(q[1..]);
      NewTableSmall(pool[0]);
      GrownOwnPath(Word(0), q[1..], pool[1..], E);
    }
  }

  /** Writing the entry. */
  lemma MapWritten(cfg: Config, s0: Snap, s1: Snap, s2: Snap, kpt: nat, K: set<nat>, q: seq<nat>, x: nat, page: nat, index: nat)
    requires Known(cfg) && |cfg.tables| == cfg.levels + 1 > 1 && 0 < |cfg.areas| && SpaceOk(cfg, s0, kpt, K)
    requires UserTablePath(cfg, q) && |q| == cfg.levels && Walked(s0, s1, q, Entries(cfg), page, index)
    requires page < |s1.mem| && index < |s1.mem[page]| && s2 == Snap(Write(s1.mem, page, index, x), s1.pool, s1.ptr)
    ensures Shape(s1.mem, Entries(cfg)) && Shape(s2.mem, Entries(cfg)) && Reaches(TreeOf(s1, cfg.levels, Entries(cfg)), q)
    ensures Sound(s2, cfg.levels, Entries(cfg)) && Kept(s1, s2, cfg.levels, Entries(cfg)) && s2.pool == s1.pool
    ensures TreeOf(s2, cfg.levels, Entries(cfg)) == Put(TreeOf(s1, cfg.levels, Entries(cfg)), q, Word(x))
    ensures OwnPath(TreeOf(s2, cfg.levels, Entries(cfg)), q) && 0 !in s2.pool
    ensures Reaches(TreeOf(s2, cfg.levels, Entries(cfg)), q)
  {
    hide *;
    var E, L := Entries(cfg), cfg.levels;
    SpaceParts(cfg, s0, kpt, K);
    WalkedParts(s0, s1, q, E, page, index);
    MapWalked(cfg, s0, s1, kpt, K, q, page, index);
    var t0, t1 := TreeOf(s0, L, E), TreeOf(s1, L, E);
    EntryWritten(s1, q, E, x);
    var s' := StoreFrame(s1, page, index, x);
    SpacePath(cfg, t0, s0.mem[kpt], q);
    GrownOwnPath(t0, q, s0.pool, E);
    ReachesOwn(t1, q, x);
    KernelStays(cfg, s0, s1, kpt, K);
    NoZero(s1, L, E, K);
  }

  lemma RootStays(t: Tree, q: seq<nat>, pool: seq<nat>, E: nat, x: nat)
    requires IsPath(q, E) && Need(t, q) <= |pool| && q != [] && t.Table? && q[0] < |t.kids| && Reaches(Grow(t, q, pool, E).0, q)
    ensures Put(Grow(t, q, pool, E).0, q, Word(x)).e == t.e
  {
  }

  lemma SpaceRoot(cfg: Config, t: Tree, kernel: seq<nat>)
    requires |cfg.tables| > 1 && 0 < cfg.levels && 0 < |cfg.areas| && |kernel| == Entries(cfg) && SpaceTree(cfg, t, kernel)
    ensures t.Table? && |t.kids| == Entries(cfg)
  {
  }

  /** The walk at the end of `map` finds everything in place. */
  lemma MapEnds(cfg: Config, s0: Snap, s1: Snap, s2: Snap, s3: Snap, kpt: nat, K: set<nat>, q: seq<nat>, x: nat,
                page: nat, index: nat, page': nat, index': nat)
    requires Known(cfg) && |cfg.tables| == cfg.levels + 1 > 1 && 0 < |cfg.areas| && SpaceOk(cfg, s0, kpt, K)
    requires UserTablePath(cfg, q) && |q| == cfg.levels && Walked(s0, s1, q, Entries(cfg), page, index)
    requires page < |s1.mem| && index < |s1.mem[page]| && s2 == Snap(Write(s1.mem, page, index, x), s1.pool, s1.ptr)
    requires Walked(s2, s3, q, Entries(cfg), page', index')
    ensures Shape(s0.mem, Entries(cfg)) && Shape(s3.mem, Entries(cfg))
    ensures SpaceOk(cfg, s3, kpt, K) && s3.ptr == s0.ptr && Mapped(cfg, s0, s3, q, x)
  {
    hide *;
    var E, L := Entries(cfg), cfg.levels;
    SpaceParts(cfg, s0, kpt, K);
    WalkedParts(s0, s1, q, E, page, index);
    WalkedParts(s2, s3, q, E, page', index');
    MapWritten(cfg, s0, s1, s2, kpt, K, q, x, page, index);
    var t0, t1, t2, t3 := TreeOf(s0, L, E), TreeOf(s1, L, E), TreeOf(s2, L, E), TreeOf(s3, L, E);
    GrowNothing(t2, q, s2.pool, E);
    KeptMore(s0, s1, s2, L, E);
    KeptMore(s0, s2, s3, L, E);
    forall r: seq<nat> | |r| == L && IsPath(r, E)
      ensures Walk(s3.mem, s3.ptr, r) == if r == q then x else Walk(s0.mem, s0.ptr, r)
    {
      MappingKeeps(cfg, s0, s3, kpt, K, q, x, r);
    }
    MappingKeeps(cfg, s0, s3, kpt, K, q, x, q);
    SpaceRoot(cfg, t0, s0.mem[kpt]);
    PathHead(q, E);
    RootStays(t0, q, s0.pool, E, x);
    TreeOfIs(s0, L, E);
    TreeOfIs(s3, L, E);
    AbsWord(s0.mem, s0.ptr, L, E);
    AbsWord(s3.mem, s3.ptr, L, E);
    ApplyIs(t0, s0.pool, Request(q, x), E);
    MappedFold(cfg, s0, s3, q, x);
  }

  lemma MappedFold(cfg: Config, s0: Snap, s: Snap, q: seq<nat>, x: nat)
    requires |cfg.tables| > 1 && Shape(s0.mem, Entries(cfg)) && Shape(s.mem, Entries(cfg))
    requires IsPath(q, Entries(cfg)) && Need(TreeOf(s0, cfg.levels, Entries(cfg)), q) <= |s0.pool|
    requires (TreeOf(s, cfg.levels, Entries(cfg)), s.pool) ==
             Apply(TreeOf(s0, cfg.levels, Entries(cfg)), s0.pool, Request(q, x), Entries(cfg))
    requires Kept(s0, s, cfg.levels, Entries(cfg))
    requires forall r: seq<nat> :: |r| == cfg.levels && IsPath(r, Entries(cfg)) ==>
               Walk(s.mem, s.ptr, r) == if r == q then x else Walk(s0.mem, s0.ptr, r)
    ensures Mapped(cfg, s0, s, q, x)
  {
  }

  // ---- what a mapping allows ----

  /** A walk that fills in tables leaves its path open. */
  lemma WalkOpens(s0: Snap, s: Snap, q: seq<nat>, E: nat, page: nat, index: nat)
    requires Walked(s0, s, q, E, page, index)
    ensures Shape(s0.mem, E) && (TablesOpen(TreeOf(s0, |q|, E), q) ==> Opened(s.mem, s.ptr, q))
  {
    hide *;
    WalkedParts(s0, s, q, E, page, index);
    if TablesOpen(TreeOf(s0, |q|, E), q) {
      GrowOpen(TreeOf(s0, |q|, E), q, s0.pool, E);
      TreeOfIs(s, |q|, E);
      OpenInMemory(s.mem, s.ptr, q, E);
    }
  }

  /** The paths of an address space into user space are open as far as its tables go. */
  lemma SpaceOpen(cfg: Config, t: Tree, kernel: seq<nat>, q: seq<nat>)
    requires |cfg.tables| > 1 && 0 < cfg.levels && 0 < |cfg.areas| && |kernel| == Entries(cfg)
    requires SpaceTree(cfg, t, kernel) && UserTablePath(cfg, q)
    ensures TablesOpen(t, q)
  {
    CleanOpen(t.kids[q[0]], cfg.levels - 1, q[1..], Entries(cfg));
  }

  lemma {:induction false} GetReaches(t: Tree, q: seq<nat>)
    requires Get(t, q) != 0
    ensures Reaches(t, q)
  {
    if q != [] {
      GetReaches(t.kids[q[0]], q[1..]);
    }
  }

  /** Whatever user address has an entry, the path to it is open. */
  lemma MappedOpen(cfg: Config, s: Snap, kpt: nat, K: set<nat>, q: seq<nat>)
    requires Known(cfg) && |cfg.tables| == cfg.levels + 1 > 1 && 0 < |cfg.areas| && SpaceOk(cfg, s, kpt, K)
    requires UserTablePath(cfg, q) && Walk(s.mem, s.ptr, q) != 0
    ensures Opened(s.mem, s.ptr, q)
  {
    hide *;
    SpaceParts(cfg, s, kpt, K);
    UserPathParts(cfg, q);
    WalkFinds(cfg, s, kpt, K, q);
    GetReaches(TreeOf(s, cfg.levels, Entries(cfg)), q);
    SpaceOpen(cfg, TreeOf(s, cfg.levels, Entries(cfg)), s.mem[kpt], q);
    TreeOfIs(s, cfg.levels, Entries(cfg));
    OpenInMemory(s.mem, s.ptr, q, Entries(cfg));
  }

  /** After the walk at the end of `map`, the path is open. */
  lemma MapOpens(cfg: Config, s2: Snap, s3: Snap, kpt: nat, K: set<nat>, q: seq<nat>, page: nat, index: nat)
    requires Known(cfg) && |cfg.tables| == cfg.levels + 1 > 1 && 0 < |cfg.areas| && SpaceOk(cfg, s3, kpt, K)
    requires UserTablePath(cfg, q) && |q| == cfg.levels && Walked(s2, s3, q, Entries(cfg), page, index)
    ensures Opened(s3.mem, s3.ptr, q)
  {
    hide *;
    SpaceParts(cfg, s3, kpt, K);
    WalkedParts(s2, s3, q, Entries(cfg), page, index);
    SpaceOpen(cfg, TreeOf(s3, cfg.levels, Entries(cfg)), s3.mem[kpt], q);
    TreeOfIs(s3, cfg.levels, Entries(cfg));
    OpenInMemory(s3.mem, s3.ptr, q, Entries(cfg));
  }

  /** The entry for user space that the tree has is the one that the walk finds. */
  lemma WalkFinds(cfg: Config, s: Snap, kpt: nat, K: set<nat>, q: seq<nat>)
    requires Known(cfg) && |cfg.tables| == cfg.levels + 1 > 1 && 0 < |cfg.areas| && SpaceOk(cfg, s, kpt, K)
    requires Shape(s.mem, Entries(cfg)) && UserTablePath(cfg, q)
    ensures Walk(s.mem, s.ptr, q) == Get(TreeOf(s, cfg.levels, Entries(cfg)), q)
  {
    hide *;
    SpaceParts(cfg, s, kpt, K);
    UserPathParts(cfg, q);
    SpaceWalk(cfg, s, s.mem[kpt], q);
  }

  /** The entry that `map` writes, field by field: the page, present, user, and writable as asked for. */
  lemma PteBits(pa: nat, prot: nat)
    requires pa % 4096 == 0
    ensures prot == 0 ==> Pte(pa, prot) == 0
    ensures prot != 0 ==>
              var e := Pte(pa, prot);
              e / 4096 == pa / 4096 && e % 2 == 1 && e / 4 % 2 == 1 && (e / 2 % 2 == 1 <==> prot / 2 % 2 == 1)
  {
    Fields(pa / 4096, 1, 0);
    Fields(pa / 4096, 1, 1);
  }

  // ---- copying the kernel's entries ----

  /** What entry `j` of the new table holds after the areas before `i` and `n` rounds of area `i`. */
  function CopiedEntry(cfg: Config, kernel: seq<nat>, i: nat, n: nat, j: nat): nat
    requires |cfg.tables| > 1 && i <= |cfg.areas| && (n > 0 ==> i < |cfg.areas|) && j < |kernel|
  {
    if KernelIndex(cfg, i, j) || (n > 0 && Visited(cfg, cfg.areas[i], n, j)) then kernel[j] else 0
  }

  predicate Copied(cfg: Config, kernel: seq<nat>, i: nat, n: nat, upt: seq<nat>)
    requires |cfg.tables| > 1 && i <= |cfg.areas| && (n > 0 ==> i < |cfg.areas|)
  {
    |upt| == |kernel| == Entries(cfg) && forall j :: 0 <= j < Entries(cfg) ==> upt[j] == CopiedEntry(cfg, kernel, i, n, j)
  }

  lemma CopyRound(cfg: Config, kernel: seq<nat>, i: nat, n: nat, upt: seq<nat>)
    requires Known(cfg) && |cfg.tables| > 1 && i < |cfg.areas| && cfg.areas[i].kernel && n < Span(cfg, cfg.areas[i])
    requires Copied(cfg, kernel, i, n, upt)
    ensures var cur := Cursor(cfg, cfg.areas[i], n);
            var index := IndexOf(cur, cfg.tables[1]);
            && cur != cfg.areas[i].end && Wrap(cur + Unit(cfg), WordSize(cfg)) == Cursor(cfg, cfg.areas[i], n + 1)
            && index < |upt| && Copied(cfg, kernel, i, n + 1, upt[index := kernel[index]])
  {
    hide KernelIndex, Visited, Cursor, IndexOf, Wrap, Unit, WordSize, Span, KernelAreaOf, Entries;
    var a := cfg.areas[i];
    KernelAreas(cfg, i);
    var index := IndexOf(Cursor(cfg, a, n), cfg.tables[1]);
    TopIndexBelow(cfg, Cursor(cfg, a, n));
    CopyStep(cfg, a, n, 0);
    var next := upt[index := kernel[index]];
    forall j | 0 <= j < Entries(cfg)
      ensures next[j] == CopiedEntry(cfg, kernel, i, n + 1, j)
    {
      CopyStep(cfg, a, n, j);
      NoneVisited(cfg, a, j);
    }
  }

  lemma TopIndexBelow(cfg: Config, addr: nat)
    requires Known(cfg)
    ensures |cfg.tables| > 1 && IndexOf(addr, cfg.tables[1]) < Entries(cfg)
  {
    IndexBelow(addr, cfg.tables[1]);
  }

  lemma NoneVisited(cfg: Config, a: VmArea, j: nat)
    requires Known(cfg)
    ensures |cfg.tables| > 1 && !Visited(cfg, a, 0, j)
  {
    Products(cfg);
  }

  /** An area is finished, or is none of the kernel's. */
  lemma AreaCopied(cfg: Config, kernel: seq<nat>, i: nat, upt: seq<nat>)
    requires Known(cfg) && |cfg.tables| > 1 && i < |cfg.areas|
    requires Copied(cfg, kernel, i, if cfg.areas[i].kernel then Span(cfg, cfg.areas[i]) else 0, upt)
    ensures Copied(cfg, kernel, i + 1, 0, upt)
  {
    hide Visited, Span, Entries;
    forall j | 0 <= j < Entries(cfg)
      ensures upt[j] == CopiedEntry(cfg, kernel, i + 1, 0, j)
    {
      NoneVisited(cfg, cfg.areas[i], j);
      MoreAreas(cfg, i, j);
    }
  }

  lemma MoreAreas(cfg: Config, i: nat, j: nat)
    requires |cfg.tables| > 1 && i < |cfg.areas|
    ensures KernelIndex(cfg, i + 1, j) <==>
            KernelIndex(cfg, i, j) || (cfg.areas[i].kernel && Visited(cfg, cfg.areas[i], Span(cfg, cfg.areas[i]), j))
  {
  }

  lemma CopyStarts(cfg: Config, kernel: seq<nat>)
    requires |cfg.tables| > 1 && |kernel| == Entries(cfg)
    ensures Copied(cfg, kernel, 0, 0, ZeroPage(Entries(cfg)))
  {
    hide Entries;
  }

  lemma CopyDone(cfg: Config, s0: Snap, s: Snap, kpt: nat)
    requires |cfg.tables| > 1 && s0.pool != [] && s.pool == s0.pool[1..] && |s.mem| == |s0.mem| && s0.pool[0] < |s.mem|
    requires kpt < |s0.mem| && s.ptr == RootWord(s0.pool[0])
    requires forall i :: 0 <= i < |s0.mem| && i != s0.pool[0] ==> s.mem[i] == s0.mem[i]
    requires Copied(cfg, s0.mem[kpt], |cfg.areas|, 0, s.mem[s0.pool[0]])
    ensures TopTableMade(cfg, s0, s, kpt)
  {
    hide Entries, KernelIndex, RootWord;
  }

  // ---- two address spaces ----

  /** Two address spaces share no table. */
  ghost predicate Separate(s: Snap, ptr: nat, L: nat, E: nat)
    requires Shape(s.mem, E)
  {
    forall p :: p in Pages(Abs(s.mem, ptr, L, E)) ==> p !in Stock(s, L, E)
  }

  /** Whatever is done to one address space within its stock of pages, every other one keeps its tables,
      stays well-formed and apart, and translates as before. */
  lemma OtherSpace(cfg: Config, s0: Snap, s: Snap, ptr: nat, kpt: nat, K: set<nat>, r: seq<nat>)
    requires Known(cfg) && |cfg.tables| == cfg.levels + 1 > 1 && 0 < |cfg.areas|
    requires Shape(s0.mem, Entries(cfg)) && Shape(s.mem, Entries(cfg)) && Sound(s, cfg.levels, Entries(cfg))
    requires KernelOk(cfg, s0.mem, kpt, K) && Apart(Stock(s0, cfg.levels, Entries(cfg)), K)
    requires Kept(s0, s, cfg.levels, Entries(cfg))
    requires SpaceOk(cfg, Snap(s0.mem, s0.pool, ptr), kpt, K) && Separate(s0, ptr, cfg.levels, Entries(cfg))
    requires |r| == cfg.levels && IsPath(r, Entries(cfg))
    ensures TreeOf(Snap(s.mem, s.pool, ptr), cfg.levels, Entries(cfg)) == TreeOf(Snap(s0.mem, s0.pool, ptr), cfg.levels, Entries(cfg))
    ensures SpaceOk(cfg, Snap(s.mem, s.pool, ptr), kpt, K) && Separate(s, ptr, cfg.levels, Entries(cfg))
    ensures Walk(s.mem, ptr, r) == Walk(s0.mem, ptr, r)
  {
    hide *;
    var L, E, b0, b := cfg.levels, Entries(cfg), Snap(s0.mem, s0.pool, ptr), Snap(s.mem, s.pool, ptr);
    SpaceParts(cfg, b0, kpt, K);
    KernelStays(cfg, s0, s, kpt, K);
    KernelParts(cfg, s0.mem, kpt, K, 0);
    KernelParts(cfg, s.mem, kpt, K, 0);
    TreeOfIs(b0, L, E);
    TreeOfIs(b, L, E);
    OtherTree(s0, s, ptr, L, E);
    OtherSound(s0, s, ptr, L, E, K);
    SpaceFold(cfg, b, kpt, K);
    SpaceWalk(cfg, b0, s0.mem[kpt], r);
    SpaceWalk(cfg, b, s0.mem[kpt], r);
    PathHead(r, E);
    KernelParts(cfg, s0.mem, kpt, K, r[0]);
    TopEntryIs(cfg, s0.mem[kpt], r[0]);
    KernelWalk(s0.mem, s.mem, s0.mem[kpt][r[0]], r[1..], K);
    WalkZero(s0.mem, r[1..]);
    WalkZero(s.mem, r[1..]);
  }

  lemma OtherTree(s0: Snap, s: Snap, ptr: nat, L: nat, E: nat)
    requires Shape(s0.mem, E) && Shape(s.mem, E) && Kept(s0, s, L, E) && Separate(s0, ptr, L, E)
    ensures Abs(s.mem, ptr, L, E) == Abs(s0.mem, ptr, L, E) && Separate(s, ptr, L, E)
  {
    hide Abs, Stock, Pages;
    AbsFrame(s0.mem, s.mem, ptr, L, E);
    forall p | p in Pages(Abs(s.mem, ptr, L, E))
      ensures p !in Stock(s, L, E)
    {
      SameMembers(Stock(s, L, E), Stock(s0, L, E), p);
    }
  }

  lemma OtherSound(s0: Snap, s: Snap, ptr: nat, L: nat, E: nat, K: set<nat>)
    requires Shape(s0.mem, E) && Shape(s.mem, E) && Sound(s, L, E) && Apart(Stock(s, L, E), K)
    requires Abs(s.mem, ptr, L, E) == Abs(s0.mem, ptr, L, E) && Separate(s, ptr, L, E)
    requires Sound(Snap(s0.mem, s0.pool, ptr), L, E) && Apart(Stock(Snap(s0.mem, s0.pool, ptr), L, E), K)
    ensures Sound(Snap(s.mem, s.pool, ptr), L, E) && Apart(Stock(Snap(s.mem, s.pool, ptr), L, E), K)
  {
    hide Abs, Pages, Shape;
    var t: seq<nat> := Pages(Abs(s.mem, ptr, L, E));
    var own: seq<nat> := Pages(TreeOf(s, L, E));
    OnceParts(Stock(s, L, E), own, s.pool);
    OnceParts(Stock(Snap(s0.mem, s0.pool, ptr), L, E), t, s0.pool);
    forall p: nat
      ensures multiset(t + s.pool)[p] <= 1
      ensures p in t + s.pool ==> p !in K && p != 0
    {
      assert p in s.pool ==> p in Stock(s, L, E);
      assert p in t ==> p in Stock(Snap(s0.mem, s0.pool, ptr), L, E);
      assert multiset(t + s.pool)[p] == multiset(t)[p] + multiset(s.pool)[p];
    }
  }
}
