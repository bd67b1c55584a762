/** Whole runs of the virtual memory extension: any number of address spaces, made, mapped into and removed in any order. */
module VmeRuns {
  import opened Counting
  import opened PageTree
  import opened PageMemory
  import opened VmeConfig
  import opened VmeSteps
  import opened Vme

  /** The memory, the free pages and the root words of the live address spaces. */
  datatype Sys = Sys(mem: Memory, pool: seq<nat>, spaces: map<nat, nat>)

  datatype Call = Protect(a: nat) | Map(a: nat, va: nat, pa: nat, prot: nat) | Unprotect(a: nat)

  /** What a call on space `a` works on; a space that is not live has no tables. */
  function View(s: Sys, a: nat): Snap { Snap(s.mem, s.pool, if a in s.spaces then s.spaces[a] else 0) }

  /** The table pages of a space. */
  function Tables(cfg: Config, s: Sys, a: nat): seq<nat>
    requires |cfg.tables| > 1 && Shape(s.mem, Entries(cfg))
  {
    Pages(TreeOf(View(s, a), cfg.levels, Entries(cfg)))
  }

  ghost predicate Disjoint(a: seq<nat>, b: seq<nat>) { forall p :: p in a ==> p !in b }

  /** All live spaces are well-formed and no two share a table. */
  ghost predicate SysOk(cfg: Config, s: Sys, kpt: nat, K: set<nat>)
    requires Known(cfg)
  {
    Layout(cfg);
    && Shape(s.mem, Entries(cfg)) && FreeOk(s.mem, s.pool, K) && KernelOk(cfg, s.mem, kpt, K)
    && (forall a :: a in s.spaces ==> SpaceOk(cfg, View(s, a), kpt, K))
    && (forall a, b :: a in s.spaces && b in s.spaces && a != b ==> Disjoint(Tables(cfg, s, a), Tables(cfg, s, b)))
  }

  /** A call that does not panic, as `protect`, `map` and `unprotect` promise it. */
  ghost predicate Called(cfg: Config, s: Sys, s': Sys, c: Call, kpt: nat, K: set<nat>)
    requires Known(cfg) && |cfg.tables| == cfg.levels + 1 > 1 && 0 < |cfg.areas|
  {
    && Shape(s.mem, Entries(cfg)) && Shape(s'.mem, Entries(cfg))
    && match c
       case Protect(a) =>
         && a !in s.spaces && TopTableMade(cfg, View(s, a), View(s', a), kpt)
         && s'.spaces == s.spaces[a := RootWord(s.pool[0])]
       case Map(a, va, pa, prot) =>
         && a in s.spaces && s'.spaces == s.spaces && InUser(cfg, va) && va % PGSIZE == 0
         && SpaceOk(cfg, View(s', a), kpt, K) && Mapped(cfg, View(s, a), View(s', a), Path(cfg, va), Pte(pa, prot))
       case Unprotect(a) =>
         && a in s.spaces && s'.spaces == s.spaces - {a} && s'.mem == s.mem
         && s'.pool == s.pool + Tables(cfg, s, a)
  }

  // ---- one call ----

  /** What all calls have in common: they work within the stock of their own space. */
  ghost predicate Within(cfg: Config, s: Sys, s': Sys, a: nat)
    requires |cfg.tables| > 1
  {
    && Shape(s.mem, Entries(cfg)) && Shape(s'.mem, Entries(cfg))
    && Kept(View(s, a), View(s', a), cfg.levels, Entries(cfg)) && Sound(View(s', a), cfg.levels, Entries(cfg))
    && (forall b :: b != a ==> (b in s.spaces <==> b in s'.spaces))
    && (forall b :: b != a && b in s.spaces ==> s'.spaces[b] == s.spaces[b])
  }

  lemma NoTables(cfg: Config, s: Sys, a: nat)
    requires |cfg.tables| > 1 && Shape(s.mem, Entries(cfg)) && a !in s.spaces
    ensures Tables(cfg, s, a) == [] && Stock(View(s, a), cfg.levels, Entries(cfg)) == s.pool
  {
    hide Entries;
    ZeroNotOwned();
    AbsWord(s.mem, 0, cfg.levels, Entries(cfg));
    SolidNothing(Abs(s.mem, 0, cfg.levels, Entries(cfg)));
    assert [] + s.pool == s.pool;
  }

  lemma SolidNothing(t: Tree)
    ensures t.Word? ==> Pages(t) == []
  {
  }

  lemma OkParts(cfg: Config, s: Sys, kpt: nat, K: set<nat>)
    requires Known(cfg) && SysOk(cfg, s, kpt, K)
    ensures |cfg.tables| == cfg.levels + 1 > 1 && 0 < |cfg.areas| && Shape(s.mem, Entries(cfg))
    ensures FreeOk(s.mem, s.pool, K) && KernelOk(cfg, s.mem, kpt, K)
    ensures forall a :: a in s.spaces ==> SpaceOk(cfg, View(s, a), kpt, K)
    ensures forall a, b :: a in s.spaces && b in s.spaces && a != b ==> Disjoint(Tables(cfg, s, a), Tables(cfg, s, b))
  {
    Layout(cfg);
  }

  /** The stock of any space, live or not, is sound and not the kernel's. */
  lemma StockOk(cfg: Config, s: Sys, kpt: nat, K: set<nat>, a: nat)
    requires Known(cfg) && SysOk(cfg, s, kpt, K)
    ensures |cfg.tables| == cfg.levels + 1 > 1 && Shape(s.mem, Entries(cfg))
    ensures Sound(View(s, a), cfg.levels, Entries(cfg)) && Apart(Stock(View(s, a), cfg.levels, Entries(cfg)), K)
    ensures Stock(View(s, a), cfg.levels, Entries(cfg)) == Tables(cfg, s, a) + s.pool
    ensures Disjoint(Tables(cfg, s, a), s.pool)
  {
    hide *;
    OkParts(cfg, s, kpt, K);
    StockParts(cfg, s, a);
    if a in s.spaces {
      SpaceParts(cfg, View(s, a), kpt, K);
    } else {
      NoTables(cfg, s, a);
      FreeSound(cfg, s, K, a);
    }
    PartsApart(cfg, s, a);
  }

  lemma StockParts(cfg: Config, s: Sys, a: nat)
    requires |cfg.tables| > 1 && Shape(s.mem, Entries(cfg))
    ensures Stock(View(s, a), cfg.levels, Entries(cfg)) == Tables(cfg, s, a) + s.pool
  {
  }

  lemma FreeSound(cfg: Config, s: Sys, K: set<nat>, a: nat)
    requires |cfg.tables| > 1 && Shape(s.mem, Entries(cfg)) && FreeOk(s.mem, s.pool, K)
    requires Stock(View(s, a), cfg.levels, Entries(cfg)) == s.pool
    ensures Sound(View(s, a), cfg.levels, Entries(cfg)) && Apart(Stock(View(s, a), cfg.levels, Entries(cfg)), K)
  {
    hide Stock, Entries, Shape;
  }

  lemma PartsApart(cfg: Config, s: Sys, a: nat)
    requires |cfg.tables| > 1 && Shape(s.mem, Entries(cfg)) && Sound(View(s, a), cfg.levels, Entries(cfg))
    ensures Disjoint(Tables(cfg, s, a), s.pool)
  {
    hide Entries, Pages, Shape, TreeOf;
    OnceParts(Stock(View(s, a), cfg.levels, Entries(cfg)), Tables(cfg, s, a), s.pool);
  }

  lemma ProtectWithin(cfg: Config, s: Sys, s': Sys, a: nat, kpt: nat, K: set<nat>)
    requires Known(cfg) && SysOk(cfg, s, kpt, K) && |cfg.tables| == cfg.levels + 1 > 1 && 0 < |cfg.areas|
    requires Called(cfg, s, s', Protect(a), kpt, K)
    ensures Within(cfg, s, s', a) && a in s'.spaces && SpaceOk(cfg, View(s', a), kpt, K)
  {
    hide KernelOk, FreeOk, SpaceOk, Shape, Sound, Kept, Stock, Pages, TreeOf, Walk, Entries, Known, SysOk, TopTableMade, Tables,
         KernelIndex, RootWord;
    OkParts(cfg, s, kpt, K);
    var v, v', E, L := View(s, a), View(s', a), Entries(cfg), cfg.levels;
    var zeros := ZeroPath(cfg);
    NewSpace(cfg, v, v', kpt, K, zeros);
    SpaceParts(cfg, v', kpt, K);
    NoTables(cfg, s, a);
    StockIs(v', L, E);
    TopTableParts(cfg, v, v', kpt);
    assert s.pool == [s.pool[0]] + s'.pool;
    KeptFold(v, v', L, E);
  }

  lemma KeptFold(s0: Snap, s: Snap, L: nat, E: nat)
    requires Shape(s0.mem, E) && Shape(s.mem, E) && |s.mem| == |s0.mem|
    requires multiset(Stock(s, L, E)) == multiset(Stock(s0, L, E))
    requires forall i :: 0 <= i < |s0.mem| && i !in Stock(s0, L, E) ==> s.mem[i] == s0.mem[i]
    ensures Kept(s0, s, L, E)
  {
    hide Stock, Shape;
  }

  lemma MapWithin(cfg: Config, s: Sys, s': Sys, c: Call, kpt: nat, K: set<nat>)
    requires Known(cfg) && |cfg.tables| == cfg.levels + 1 > 1 && 0 < |cfg.areas|
    requires c.Map? && Called(cfg, s, s', c, kpt, K)
    ensures Within(cfg, s, s', c.a) && SpaceOk(cfg, View(s', c.a), kpt, K)
  {
    hide SpaceOk, Shape, Sound, Kept, Apply, Walk, Entries, Known, Path, Need, IsPath;
    SpaceParts(cfg, View(s', c.a), kpt, K);
  }

  lemma UnprotectWithin(cfg: Config, s: Sys, s': Sys, a: nat, kpt: nat, K: set<nat>)
    requires Known(cfg) && SysOk(cfg, s, kpt, K) && |cfg.tables| == cfg.levels + 1 > 1 && 0 < |cfg.areas|
    requires Called(cfg, s, s', Unprotect(a), kpt, K)
    ensures Within(cfg, s, s', a)
  {
    hide KernelOk, FreeOk, SpaceOk, Shape, Sound, Kept, Stock, Pages, TreeOf, Walk, Entries, Known, SysOk, Tables, Abs;
    var v, v', E, L := View(s, a), View(s', a), Entries(cfg), cfg.levels;
    OkParts(cfg, s, kpt, K);
    StockOk(cfg, s, kpt, K, a);
    NoTables(cfg, s', a);
    assert multiset(s'.pool) == multiset(Tables(cfg, s, a) + s.pool);
    KeptFold(v, v', L, E);
    Torn(cfg, v, kpt, K, s'.pool) by { assert Tables(cfg, s, a) == Pages(TreeOf(v, L, E)) by { TablesAre(cfg, s, a); } }
    FreeSound(cfg, s', K, a);
  }

  lemma TablesAre(cfg: Config, s: Sys, a: nat)
    requires |cfg.tables| > 1 && Shape(s.mem, Entries(cfg))
    ensures Tables(cfg, s, a) == Pages(TreeOf(View(s, a), cfg.levels, Entries(cfg)))
  {
  }

  /** Every call works within the stock of its own space and leaves that space well-formed, if it leaves it alive. */
  lemma CallWithin(cfg: Config, s: Sys, s': Sys, c: Call, kpt: nat, K: set<nat>)
    requires Known(cfg) && SysOk(cfg, s, kpt, K) && |cfg.tables| == cfg.levels + 1 > 1 && 0 < |cfg.areas|
    requires Called(cfg, s, s', c, kpt, K)
    ensures Within(cfg, s, s', c.a) && (c.a in s'.spaces ==> SpaceOk(cfg, View(s', c.a), kpt, K))
  {
    hide SysOk, Within, SpaceOk, Known, TopTableMade, Mapped, Tables, Entries, Shape, Path;
    match c
    case Protect(a) => ProtectWithin(cfg, s, s', a, kpt, K);
    case Map(_, _, _, _) => MapWithin(cfg, s, s', c, kpt, K);
    case Unprotect(a) => UnprotectWithin(cfg, s, s', a, kpt, K);
  }

  // ---- what every call keeps ----

  lemma Separated(cfg: Config, s: Sys, kpt: nat, K: set<nat>, a: nat, b: nat)
    requires Known(cfg) && SysOk(cfg, s, kpt, K) && b in s.spaces && a != b
    ensures |cfg.tables| == cfg.levels + 1 > 1 && Shape(s.mem, Entries(cfg))
    ensures Separate(View(s, a), s.spaces[b], cfg.levels, Entries(cfg))
  {
    hide SysOk, Known, Entries, Shape, FreeOk, KernelOk, SpaceOk, Sound, Stock, Abs, Pages, TreeOf, Tables;
    OkParts(cfg, s, kpt, K);
    StockOk(cfg, s, kpt, K, a);
    StockOk(cfg, s, kpt, K, b);
    TablesAre(cfg, s, b);
    TreeOfIs(View(s, b), cfg.levels, Entries(cfg));
    if a !in s.spaces {
      NoTables(cfg, s, a);
    }
  }

  /** The spaces that are not called keep their tables and translations. */
  lemma OthersKept(cfg: Config, s: Sys, s': Sys, kpt: nat, K: set<nat>, a: nat, b: nat, r: seq<nat>)
    requires Known(cfg) && SysOk(cfg, s, kpt, K) && |cfg.tables| == cfg.levels + 1 > 1 && 0 < |cfg.areas|
    requires Within(cfg, s, s', a) && b in s.spaces && b != a && |r| == cfg.levels && IsPath(r, Entries(cfg))
    ensures b in s'.spaces && s'.spaces[b] == s.spaces[b] && SpaceOk(cfg, View(s', b), kpt, K)
    ensures Tables(cfg, s', b) == Tables(cfg, s, b) && Disjoint(Tables(cfg, s', b), Stock(View(s', a), cfg.levels, Entries(cfg)))
    ensures Walk(s'.mem, s'.spaces[b], r) == Walk(s.mem, s.spaces[b], r)
  {
    hide SysOk, Known, Entries, Shape, FreeOk, KernelOk, SpaceOk, Sound, Stock, Abs, Pages, TreeOf, Tables, Kept, Walk, IsPath;
    OkParts(cfg, s, kpt, K);
    StockOk(cfg, s, kpt, K, a);
    Separated(cfg, s, kpt, K, a, b);
    OtherSpace(cfg, View(s, a), View(s', a), s.spaces[b], kpt, K, r);
    TablesAre(cfg, s, b);
    TablesAre(cfg, s', b);
    TreeOfIs(View(s', b), cfg.levels, Entries(cfg));
  }

  lemma KernelKept(cfg: Config, s: Sys, s': Sys, kpt: nat, K: set<nat>, a: nat)
    requires Known(cfg) && SysOk(cfg, s, kpt, K) && |cfg.tables| == cfg.levels + 1 > 1 && 0 < |cfg.areas|
    requires Within(cfg, s, s', a)
    ensures KernelOk(cfg, s'.mem, kpt, K) && FreeOk(s'.mem, s'.pool, K)
    ensures Agree(s.mem, s'.mem, K) && kpt < |s.mem| == |s'.mem| && s'.mem[kpt] == s.mem[kpt]
  {
    hide *;
    OkParts(cfg, s, kpt, K);
    StockOk(cfg, s, kpt, K, a);
    WithinParts(cfg, s, s', a);
    KernelStays(cfg, View(s, a), View(s', a), kpt, K);
    KernelParts(cfg, s.mem, kpt, K, 0);
    KernelParts(cfg, s'.mem, kpt, K, 0);
    AgreeSize(s.mem, s'.mem, K);
    StockParts(cfg, s', a);
    PoolOk(cfg, s', K, a);
  }

  lemma AgreeSize(mem: Memory, mem': Memory, K: set<nat>)
    requires Agree(mem, mem', K)
    ensures |mem| == |mem'|
  {
  }

  lemma WithinParts(cfg: Config, s: Sys, s': Sys, a: nat)
    requires |cfg.tables| > 1 && Within(cfg, s, s', a)
    ensures Shape(s.mem, Entries(cfg)) && Shape(s'.mem, Entries(cfg))
    ensures Kept(View(s, a), View(s', a), cfg.levels, Entries(cfg)) && Sound(View(s', a), cfg.levels, Entries(cfg))
    ensures forall b :: b != a ==> (b in s.spaces <==> b in s'.spaces)
    ensures View(s, a).mem == s.mem && View(s', a).mem == s'.mem
  {
  }

  lemma PoolOk(cfg: Config, s: Sys, K: set<nat>, a: nat)
    requires |cfg.tables| > 1 && Shape(s.mem, Entries(cfg)) && Sound(View(s, a), cfg.levels, Entries(cfg))
    requires Apart(Stock(View(s, a), cfg.levels, Entries(cfg)), K)
    ensures FreeOk(s.mem, s.pool, K)
  {
    hide Entries, Pages, Shape, TreeOf;
    OnceParts(Stock(View(s, a), cfg.levels, Entries(cfg)), Pages(TreeOf(View(s, a), cfg.levels, Entries(cfg))), s.pool);
    assert forall p :: p in s.pool ==> p in Stock(View(s, a), cfg.levels, Entries(cfg));
  }

  /** Every call leaves all live spaces well-formed, sharing no table. */
  lemma CallKeeps(cfg: Config, s: Sys, s': Sys, c: Call, kpt: nat, K: set<nat>)
    requires Known(cfg) && SysOk(cfg, s, kpt, K) && |cfg.tables| == cfg.levels + 1 > 1 && 0 < |cfg.areas|
    requires Called(cfg, s, s', c, kpt, K)
    ensures SysOk(cfg, s', kpt, K)
  {
    hide SysOk, Called, Within, Known, Entries, Shape, FreeOk, KernelOk, SpaceOk, Sound, Stock, Tables, Kept, Walk, IsPath;
    var a := c.a;
    OkParts(cfg, s, kpt, K);
    CallWithin(cfg, s, s', c, kpt, K);
    WithinParts(cfg, s, s', a);
    KernelKept(cfg, s, s', kpt, K, a);
    StockParts(cfg, s', a);
    var zeros := ZeroPath(cfg);
    forall b | b in s'.spaces && b != a
      ensures SpaceOk(cfg, View(s', b), kpt, K) && Tables(cfg, s', b) == Tables(cfg, s, b)
      ensures Disjoint(Tables(cfg, s', b), Tables(cfg, s', a))
    {
      OthersKept(cfg, s, s', kpt, K, a, b, zeros);
    }
    OkFold(cfg, s', kpt, K);
  }

  lemma OkFold(cfg: Config, s: Sys, kpt: nat, K: set<nat>)
    requires Known(cfg) && |cfg.tables| == cfg.levels + 1 > 1 && 0 < |cfg.areas|
    requires Shape(s.mem, Entries(cfg)) && FreeOk(s.mem, s.pool, K) && KernelOk(cfg, s.mem, kpt, K)
    requires forall a :: a in s.spaces ==> SpaceOk(cfg, View(s, a), kpt, K)
    requires forall a, b :: a in s.spaces && b in s.spaces && a != b ==> Disjoint(Tables(cfg, s, a), Tables(cfg, s, b))
    ensures SysOk(cfg, s, kpt, K)
  {
  }

  /** A page is free or holds a table of a live space. */
  ghost predicate InStock(cfg: Config, s: Sys, p: nat)
    requires |cfg.tables| > 1 && Shape(s.mem, Entries(cfg))
  {
    p in s.pool || exists a :: a in s.spaces && p in Tables(cfg, s, a)
  }

  /** No call gains or loses a page. */
  lemma StockKept(cfg: Config, s: Sys, s': Sys, c: Call, kpt: nat, K: set<nat>, p: nat)
    requires Known(cfg) && SysOk(cfg, s, kpt, K) && |cfg.tables| == cfg.levels + 1 > 1 && 0 < |cfg.areas|
    requires Called(cfg, s, s', c, kpt, K)
    ensures Shape(s.mem, Entries(cfg)) && Shape(s'.mem, Entries(cfg))
    ensures InStock(cfg, s', p) <==> InStock(cfg, s, p)
  {
    hide SysOk, Called, Within, Known, Entries, Shape, FreeOk, KernelOk, SpaceOk, Sound, Stock, Tables, Walk, IsPath;
    var a := c.a;
    OkParts(cfg, s, kpt, K);
    CallWithin(cfg, s, s', c, kpt, K);
    WithinParts(cfg, s, s', a);
    StockParts(cfg, s, a);
    StockParts(cfg, s', a);
    SameMembers(Stock(View(s', a), cfg.levels, Entries(cfg)), Stock(View(s, a), cfg.levels, Entries(cfg)), p);
    if a !in s.spaces {
      NoTables(cfg, s, a);
    }
    if a !in s'.spaces {
      NoTables(cfg, s', a);
    }
    var zeros := ZeroPath(cfg);
    forall b | b in s.spaces && b != a
      ensures b in s'.spaces && Tables(cfg, s', b) == Tables(cfg, s, b)
    {
      OthersKept(cfg, s, s', kpt, K, a, b, zeros);
    }
  }

  // ---- what a call does to translations ----

  lemma PathOfPage(cfg: Config, va: nat)
    requires Known(cfg) && |cfg.areas| > 0 && InUser(cfg, va)
    ensures |cfg.tables| == cfg.levels + 1 && InUser(cfg, va - va % PGSIZE) && Path(cfg, va - va % PGSIZE) == Path(cfg, va)
  {
    hide Path;
    PathIs(cfg, va);
    PathIs(cfg, va - va % PGSIZE);
    var base := va - va % PGSIZE;
    if cfg == I386 {
      Same386Page(va);
    } else {
      Same64Page(va);
    }
  }

  lemma Same386Page(a: nat)
    ensures PathOf386(a - a % 4096) == PathOf386(a)
  {
    var b := a - a % 4096;
    assert b / 0x1000 == a / 0x1000;
    assert b / 0x40_0000 == (b / 0x1000) / 0x400 && a / 0x40_0000 == (a / 0x1000) / 0x400;
  }

  lemma Same64Page(a: nat)
    ensures PathOf64(a - a % 4096) == PathOf64(a)
  {
    var b := a - a % 4096;
    assert b / 0x1000 == a / 0x1000;
    assert b / 0x20_0000 == (b / 0x1000) / 0x200 && a / 0x20_0000 == (a / 0x1000) / 0x200;
    assert b / 0x4000_0000 == (b / 0x20_0000) / 0x200 && a / 0x4000_0000 == (a / 0x20_0000) / 0x200;
    assert b / 0x80_0000_0000 == (b / 0x4000_0000) / 0x200 && a / 0x80_0000_0000 == (a / 0x4000_0000) / 0x200;
  }

  /** The mapping of user address `va` of space `a`: the word in its last table, 0 if there is none. */
  function Found(cfg: Config, s: Sys, a: nat, va: nat): nat
    requires |cfg.tables| == cfg.levels + 1 && a in s.spaces
  {
    Walk(s.mem, s.spaces[a], Path(cfg, va))
  }

  /** What call `c` makes of the mapping `e` of address `va` in space `a`. */
  function AfterCall(c: Call, a: nat, va: nat, e: nat): nat {
    match c
    case Protect(b) => if b == a then 0 else e
    case Map(b, base, pa, prot) => if b == a && base == va - va % PGSIZE then Pte(pa, prot) else e
    case Unprotect(b) => e
  }

  /** A call changes the mapping of an address only by making or removing it, or by making its space. */
  lemma CallFinds(cfg: Config, s: Sys, s': Sys, c: Call, kpt: nat, K: set<nat>, a: nat, va: nat)
    requires Known(cfg) && SysOk(cfg, s, kpt, K) && |cfg.tables| == cfg.levels + 1 > 1 && 0 < |cfg.areas|
    requires Called(cfg, s, s', c, kpt, K) && a in s'.spaces && InUser(cfg, va)
    requires a in s.spaces || c == Protect(a)
    ensures Found(cfg, s', a, va) == AfterCall(c, a, va, if a in s.spaces then Found(cfg, s, a, va) else 0)
  {
    hide SysOk, Within, Known, Entries, Shape, FreeOk, KernelOk, SpaceOk, Sound, Stock, Tables, Walk, IsPath, Path, InUser, Pte,
         TopTableMade, Apply, Kept, Need, UserIndex, KernelIndex;
    OkParts(cfg, s, kpt, K);
    PathOk(cfg, va);
    if c.a != a {
      CallWithin(cfg, s, s', c, kpt, K);
      OthersKept(cfg, s, s', kpt, K, c.a, a, Path(cfg, va));
    } else if c.Protect? {
      NewSpace(cfg, View(s, a), View(s', a), kpt, K, Path(cfg, va));
      UserPath(cfg, va);
      KernelParts(cfg, s.mem, kpt, K, 0);
      UserOrKernel(cfg, s.mem[kpt], Path(cfg, va)[0]);
    } else {
      PathOfPage(cfg, va);
      if Path(cfg, va) == Path(cfg, c.va) {
        SamePath(cfg, c.va, va - va % PGSIZE);
      }
    }
  }

  /** How the kernel's own table translates. */
  function KernelFound(cfg: Config, mem: Memory, kpt: nat, addr: nat): nat
    requires |cfg.tables| == cfg.levels + 1 && 0 < cfg.levels && kpt < |mem| && Path(cfg, addr)[0] < |mem[kpt]|
  {
    Walk(mem, mem[kpt][Path(cfg, addr)[0]], Path(cfg, addr)[1..])
  }

  predicate InKernel(cfg: Config, addr: nat) {
    exists i :: 0 <= i < |cfg.areas| && InArea(cfg, i, addr)
  }

  /** In kernel area `i`, whose end may have wrapped around. */
  predicate InArea(cfg: Config, i: nat, addr: nat)
    requires i < |cfg.areas|
  {
    WordPositive(cfg);
    var a, w := cfg.areas[i], WordSize(cfg);
    a.kernel && addr < w && Wrap(addr - a.start, w) < Wrap(a.end - a.start, w)
  }

  lemma KernelTop(cfg: Config, addr: nat)
    requires Known(cfg) && |cfg.tables| == cfg.levels + 1 > 1 && 0 < |cfg.areas| && InKernel(cfg, addr)
    ensures |Path(cfg, addr)| == cfg.levels > 0 && IsPath(Path(cfg, addr), Entries(cfg)) && Path(cfg, addr)[0] < Entries(cfg)
    ensures KernelIndex(cfg, |cfg.areas|, Path(cfg, addr)[0]) && !UserIndex(cfg, Path(cfg, addr)[0])
  {
    hide Path, KernelIndex, UserIndex, Entries, Wrap, WordSize, IndexOf;
    Layout(cfg);
    PathOk(cfg, addr);
    PathFacts(cfg, addr);
    var i :| 0 <= i < |cfg.areas| && InArea(cfg, i, addr);
    KernelAddress(cfg, i, addr);
    if UserIndex(cfg, Path(cfg, addr)[0]) {
      UserNotKernel(cfg, Path(cfg, addr)[0]);
    }
  }

  /** Every live space translates kernel addresses as the kernel's own table does. */
  lemma KernelShared(cfg: Config, s: Sys, kpt: nat, K: set<nat>, a: nat, addr: nat)
    requires Known(cfg) && SysOk(cfg, s, kpt, K) && |cfg.tables| == cfg.levels + 1 > 1 && 0 < |cfg.areas|
    requires a in s.spaces && InKernel(cfg, addr)
    ensures kpt < |s.mem| && |Path(cfg, addr)| > 0 && Path(cfg, addr)[0] < |s.mem[kpt]|
    ensures Found(cfg, s, a, addr) == KernelFound(cfg, s.mem, kpt, addr)
  {
    hide SysOk, Known, Entries, Shape, FreeOk, KernelOk, SpaceOk, Tables, Walk, IsPath, Path, UserIndex, KernelIndex, InKernel;
    OkParts(cfg, s, kpt, K);
    KernelTop(cfg, addr);
    SpaceParts(cfg, View(s, a), kpt, K);
    SpaceWalk(cfg, View(s, a), s.mem[kpt], Path(cfg, addr));
    UserOrKernel(cfg, s.mem[kpt], Path(cfg, addr)[0]);
  }

  /** And no call changes that. */
  lemma KernelCall(cfg: Config, s: Sys, s': Sys, c: Call, kpt: nat, K: set<nat>, addr: nat)
    requires Known(cfg) && SysOk(cfg, s, kpt, K) && |cfg.tables| == cfg.levels + 1 > 1 && 0 < |cfg.areas|
    requires Called(cfg, s, s', c, kpt, K) && InKernel(cfg, addr)
    ensures kpt < |s.mem| && kpt < |s'.mem| && s'.mem[kpt] == s.mem[kpt]
    ensures |Path(cfg, addr)| > 0 && Path(cfg, addr)[0] < |s.mem[kpt]|
    ensures KernelFound(cfg, s'.mem, kpt, addr) == KernelFound(cfg, s.mem, kpt, addr)
  {
    hide SysOk, Called, Within, Known, Entries, Shape, FreeOk, KernelOk, SpaceOk, Tables, Walk, IsPath, Path, UserIndex,
         KernelIndex, InKernel, Agree;
    var q := Path(cfg, addr);
    OkParts(cfg, s, kpt, K);
    KernelTop(cfg, addr);
    CallWithin(cfg, s, s', c, kpt, K);
    KernelKept(cfg, s, s', kpt, K, c.a);
    KernelParts(cfg, s.mem, kpt, K, q[0]);
    PathHead(q, Entries(cfg));
    KernelWalk(s.mem, s'.mem, s.mem[kpt][q[0]], q[1..], K);
  }

  // ---- runs ----

  /** The system before and after every call of a run. */
  ghost predicate Ran(cfg: Config, ss: seq<Sys>, cs: seq<Call>, kpt: nat, K: set<nat>)
    requires Known(cfg) && |cfg.tables| == cfg.levels + 1 > 1 && 0 < |cfg.areas|
  {
    |ss| == |cs| + 1 && forall i :: 0 <= i < |cs| ==> Called(cfg, ss[i], ss[i + 1], cs[i], kpt, K)
  }

  lemma RanPrefix(cfg: Config, ss: seq<Sys>, cs: seq<Call>, kpt: nat, K: set<nat>)
    requires Known(cfg) && |cfg.tables| == cfg.levels + 1 > 1 && 0 < |cfg.areas|
    requires Ran(cfg, ss, cs, kpt, K) && cs != []
    ensures Ran(cfg, ss[..|cs|], cs[..|cs| - 1], kpt, K) && ss[..|cs|][|cs| - 1] == ss[|cs| - 1]
    ensures Called(cfg, ss[|cs| - 1], ss[|cs|], cs[|cs| - 1], kpt, K)
  {
    hide Called;
  }

  lemma {:induction false} RunKeeps(cfg: Config, ss: seq<Sys>, cs: seq<Call>, kpt: nat, K: set<nat>)
    requires Known(cfg) && |cfg.tables| == cfg.levels + 1 > 1 && 0 < |cfg.areas|
    requires Ran(cfg, ss, cs, kpt, K) && SysOk(cfg, ss[0], kpt, K)
    ensures SysOk(cfg, ss[|cs|], kpt, K)
    decreases |cs|
  {
    hide SysOk, Called, Known;
    if cs != [] {
      RanPrefix(cfg, ss, cs, kpt, K);
      RunKeeps(cfg, ss[..|cs|], cs[..|cs| - 1], kpt, K);
      CallKeeps(cfg, ss[|cs| - 1], ss[|cs|], cs[|cs| - 1], kpt, K);
    }
  }

  /** What the last call that concerns it makes of the mapping of `va` in space `a`; `e` if there is none. */
  function LastMade(cs: seq<Call>, a: nat, va: nat, e: nat): nat {
    if cs == [] then e else AfterCall(cs[|cs| - 1], a, va, LastMade(cs[..|cs| - 1], a, va, e))
  }

  lemma Alive(cfg: Config, s: Sys, s': Sys, c: Call, kpt: nat, K: set<nat>, a: nat)
    requires Known(cfg) && |cfg.tables| == cfg.levels + 1 > 1 && 0 < |cfg.areas| && Called(cfg, s, s', c, kpt, K)
    ensures a in s'.spaces ==> a in s.spaces || c == Protect(a)
    ensures a != c.a ==> (a in s'.spaces <==> a in s.spaces)
  {
    hide Known, Entries, Shape, SpaceOk, Mapped, TopTableMade, Tables, Path;
  }

  /** Main result: after any run of calls, on any spaces, every user address of every live space has the last mapping made
      or removed for its page in that space, and none if there was none since the space was made. */
  lemma {:induction false} LastCallWins(cfg: Config, ss: seq<Sys>, cs: seq<Call>, kpt: nat, K: set<nat>, a: nat, va: nat)
    requires Known(cfg) && |cfg.tables| == cfg.levels + 1 > 1 && 0 < |cfg.areas|
    requires Ran(cfg, ss, cs, kpt, K) && SysOk(cfg, ss[0], kpt, K)
    requires a in ss[|cs|].spaces && InUser(cfg, va)
    ensures Found(cfg, ss[|cs|], a, va) == LastMade(cs, a, va, if a in ss[0].spaces then Found(cfg, ss[0], a, va) else 0)
    decreases |cs|
  {
    hide SysOk, Called, Known, Found, InUser;
    if cs != [] {
      var n := |cs| - 1;
      RanPrefix(cfg, ss, cs, kpt, K);
      RunKeeps(cfg, ss[..n + 1], cs[..n], kpt, K);
      Alive(cfg, ss[n], ss[n + 1], cs[n], kpt, K, a);
      CallFinds(cfg, ss[n], ss[n + 1], cs[n], kpt, K, a, va);
      if a in ss[n].spaces {
        LastCallWins(cfg, ss[..n + 1], cs[..n], kpt, K, a, va);
      }
    }
  }

  /** Main result: after any run, in every live space, the way to every mapped user address is open down to its last entry,
      so that what the last mapping of its page allows is what the user may do. */
  lemma RunsStayOpen(cfg: Config, ss: seq<Sys>, cs: seq<Call>, kpt: nat, K: set<nat>, a: nat, va: nat)
    requires Known(cfg) && |cfg.tables| == cfg.levels + 1 > 1 && 0 < |cfg.areas|
    requires Ran(cfg, ss, cs, kpt, K) && SysOk(cfg, ss[0], kpt, K)
    requires a in ss[|cs|].spaces && InUser(cfg, va) && Found(cfg, ss[|cs|], a, va) != 0
    ensures Opened(ss[|cs|].mem, ss[|cs|].spaces[a], Path(cfg, va))
  {
    hide SysOk, Called, Known, Found, InUser, Path, Opened, Walk, View;
    RunKeeps(cfg, ss, cs, kpt, K);
    OkParts(cfg, ss[|cs|], kpt, K);
    ViewIs(ss[|cs|], a);
    MapStarts(cfg, View(ss[|cs|], a), kpt, K, va);
    FoundIs(cfg, ss[|cs|], a, va);
    MappedOpen(cfg, View(ss[|cs|], a), kpt, K, Path(cfg, va));
  }

  lemma ViewIs(s: Sys, a: nat)
    requires a in s.spaces
    ensures View(s, a) == Snap(s.mem, s.pool, s.spaces[a])
  {
  }

  lemma FoundIs(cfg: Config, s: Sys, a: nat, va: nat)
    requires |cfg.tables| == cfg.levels + 1 && a in s.spaces
    ensures Found(cfg, s, a, va) == Walk(s.mem, s.spaces[a], Path(cfg, va))
  {
  }

  /** Main result: after any run every live space translates kernel addresses as the kernel's own table did at the start. */
  lemma KernelNeverChanges(cfg: Config, ss: seq<Sys>, cs: seq<Call>, kpt: nat, K: set<nat>, a: nat, addr: nat)
    requires Known(cfg) && |cfg.tables| == cfg.levels + 1 > 1 && 0 < |cfg.areas|
    requires Ran(cfg, ss, cs, kpt, K) && SysOk(cfg, ss[0], kpt, K)
    requires a in ss[|cs|].spaces && InKernel(cfg, addr)
    ensures kpt < |ss[0].mem| && |Path(cfg, addr)| > 0 && Path(cfg, addr)[0] < |ss[0].mem[kpt]|
    ensures Found(cfg, ss[|cs|], a, addr) == KernelFound(cfg, ss[0].mem, kpt, addr)
  {
    hide SysOk, Known, Found, KernelFound, InKernel, Path, Called;
    RunKeeps(cfg, ss, cs, kpt, K);
    KernelShared(cfg, ss[|cs|], kpt, K, a, addr);
    KernelRun(cfg, ss, cs, kpt, K, addr);
  }

  lemma {:induction false} KernelRun(cfg: Config, ss: seq<Sys>, cs: seq<Call>, kpt: nat, K: set<nat>, addr: nat)
    requires Known(cfg) && |cfg.tables| == cfg.levels + 1 > 1 && 0 < |cfg.areas|
    requires Ran(cfg, ss, cs, kpt, K) && SysOk(cfg, ss[0], kpt, K) && InKernel(cfg, addr)
    ensures kpt < |ss[0].mem| && kpt < |ss[|cs|].mem| && ss[|cs|].mem[kpt] == ss[0].mem[kpt]
    ensures |Path(cfg, addr)| > 0 && Path(cfg, addr)[0] < |ss[0].mem[kpt]|
    ensures KernelFound(cfg, ss[|cs|].mem, kpt, addr) == KernelFound(cfg, ss[0].mem, kpt, addr)
    decreases |cs|
  {
    hide SysOk, Called, Known, KernelFound, InKernel, Path, KernelOk, Entries;
    if cs == [] {
      OkParts(cfg, ss[0], kpt, K);
      KernelParts(cfg, ss[0].mem, kpt, K, 0);
      KernelTop(cfg, addr);
    } else {
      var n := |cs| - 1;
      RanPrefix(cfg, ss, cs, kpt, K);
      RunKeeps(cfg, ss[..n + 1], cs[..n], kpt, K);
      KernelRun(cfg, ss[..n + 1], cs[..n], kpt, K, addr);
      KernelCall(cfg, ss[n], ss[n + 1], cs[n], kpt, K, addr);
    }
  }

  /** Main result: over any run the free pages and the tables of the live spaces together stay the same pages. */
  lemma {:induction false} PagesStay(cfg: Config, ss: seq<Sys>, cs: seq<Call>, kpt: nat, K: set<nat>, p: nat)
    requires Known(cfg) && |cfg.tables| == cfg.levels + 1 > 1 && 0 < |cfg.areas|
    requires Ran(cfg, ss, cs, kpt, K) && SysOk(cfg, ss[0], kpt, K)
    ensures Shape(ss[0].mem, Entries(cfg)) && Shape(ss[|cs|].mem, Entries(cfg))
    ensures InStock(cfg, ss[|cs|], p) <==> InStock(cfg, ss[0], p)
    decreases |cs|
  {
    hide SysOk, Called, Known, InStock, Shape, Entries;
    OkParts(cfg, ss[0], kpt, K);
    if cs != [] {
      var n := |cs| - 1;
      RanPrefix(cfg, ss, cs, kpt, K);
      RunKeeps(cfg, ss[..n + 1], cs[..n], kpt, K);
      PagesStay(cfg, ss[..n + 1], cs[..n], kpt, K, p);
      StockKept(cfg, ss[n], ss[n + 1], cs[n], kpt, K, p);
    }
  }

  /** Spaces that no call of a run concerns keep their tables. */
  lemma {:induction false} UncalledKept(cfg: Config, ss: seq<Sys>, cs: seq<Call>, kpt: nat, K: set<nat>, b: nat)
    requires Known(cfg) && |cfg.tables| == cfg.levels + 1 > 1 && 0 < |cfg.areas|
    requires Ran(cfg, ss, cs, kpt, K) && SysOk(cfg, ss[0], kpt, K)
    requires b in ss[0].spaces && forall i :: 0 <= i < |cs| ==> cs[i].a != b
    ensures b in ss[|cs|].spaces && Shape(ss[0].mem, Entries(cfg)) && Shape(ss[|cs|].mem, Entries(cfg))
    ensures Tables(cfg, ss[|cs|], b) == Tables(cfg, ss[0], b)
    decreases |cs|
  {
    hide SysOk, Called, Known, Shape, Entries, Tables, Within, IsPath;
    OkParts(cfg, ss[0], kpt, K);
    if cs != [] {
      var n := |cs| - 1;
      RanPrefix(cfg, ss, cs, kpt, K);
      RunKeeps(cfg, ss[..n + 1], cs[..n], kpt, K);
      UncalledKept(cfg, ss[..n + 1], cs[..n], kpt, K, b);
      CallWithin(cfg, ss[n], ss[n + 1], cs[n], kpt, K);
      WithinParts(cfg, ss[n], ss[n + 1], cs[n].a);
      var zeros := ZeroPath(cfg);
      OthersKept(cfg, ss[n], ss[n + 1], kpt, K, cs[n].a, b, zeros);
    }
  }

  /** Main result: spaces that are made, mapped into and removed again, in any interleaving, give back exactly the pages they
      took, whatever other spaces there are. */
  lemma PagesComeBack(cfg: Config, ss: seq<Sys>, cs: seq<Call>, kpt: nat, K: set<nat>)
    requires Known(cfg) && |cfg.tables| == cfg.levels + 1 > 1 && 0 < |cfg.areas|
    requires Ran(cfg, ss, cs, kpt, K) && SysOk(cfg, ss[0], kpt, K)
    requires forall i :: 0 <= i < |cs| ==> cs[i].a !in ss[0].spaces
    requires forall b :: b in ss[|cs|].spaces ==> b in ss[0].spaces
    ensures multiset(ss[|cs|].pool) == multiset(ss[0].pool)
  {
    hide SysOk, Known, Shape, Entries, Tables, Called;
    var s, s' := ss[0], ss[|cs|];
    RunKeeps(cfg, ss, cs, kpt, K);
    OkParts(cfg, s, kpt, K);
    OkParts(cfg, s', kpt, K);
    forall b | b in s.spaces
      ensures b in s'.spaces && Tables(cfg, s', b) == Tables(cfg, s, b)
      ensures Disjoint(Tables(cfg, s, b), s.pool) && Disjoint(Tables(cfg, s, b), s'.pool)
    {
      UncalledKept(cfg, ss, cs, kpt, K, b);
      StockOk(cfg, s, kpt, K, b);
      StockOk(cfg, s', kpt, K, b);
    }
    forall p: nat
      ensures p in s'.pool <==> p in s.pool
    {
      PagesStay(cfg, ss, cs, kpt, K, p);
    }
    SamePool(s.pool, s'.pool);
  }

  lemma SamePool(a: seq<nat>, b: seq<nat>)
    requires Once(a) && Once(b) && forall p: nat :: p in a <==> p in b
    ensures multiset(a) == multiset(b)
  {
    forall p: nat
      ensures multiset(a)[p] == multiset(b)[p]
    {
      assert p in a <==> p in multiset(a);
      assert p in b <==> p in multiset(b);
    }
  }

  // ---- where a run may start ----

  /** A machine with an empty kernel table in page 1, `n` free pages after it and no address space. */
  function Fresh(cfg: Config, n: nat): Sys
    requires |cfg.tables| > 1
  {
    Sys(seq(n + 2, _ => ZeroPage(Entries(cfg))), seq(n, i requires 0 <= i < n => i + 2), map[])
  }

  /** Runs have somewhere to start, in both layouts and with any number of free pages. */
  lemma FreshOk(cfg: Config, n: nat)
    requires Known(cfg)
    ensures |cfg.tables| > 1 && SysOk(cfg, Fresh(cfg, n), 1, {1})
  {
    hide Entries;
    Layout(cfg);
    var s, E := Fresh(cfg, n), Entries(cfg);
    var pool: seq<nat> := s.pool;
    assert Distinct(pool);
    OnceIsDistinct(pool);
    ZeroNotOwned();
    forall j | 0 <= j < E
      ensures KernelTables(s.mem, s.mem[1][j], cfg.levels - 1, {1})
    {
      assert s.mem[1][j] == 0;
    }
  }

  // ---- calls on the machine ----

  ghost function SysOf(m: Machine, uvms: map<nat, AddrSpace>): Sys
    reads m`mem, m`pool, set a | a in uvms :: uvms[a]`ptr
  {
    Sys(m.mem, m.pool, map a | a in uvms :: uvms[a].ptr)
  }

  lemma RootNotRead(cfg: Config, s0: Snap, s0': Snap, s: Snap, kpt: nat)
    requires |cfg.tables| > 1 && s0'.mem == s0.mem && s0'.pool == s0.pool && TopTableMade(cfg, s0, s, kpt)
    ensures TopTableMade(cfg, s0', s, kpt) && s.ptr == RootWord(s0.pool[0])
  {
    hide Entries, RootWord;
  }

  /** The live spaces of a machine, each in an object of its own. */
  ghost predicate LiveOk(m: Machine, uvms: map<nat, AddrSpace>)
    reads m`mem, m`pool, set a | a in uvms :: uvms[a]`ptr
  {
    && Known(m.cfg) && |m.cfg.tables| == m.cfg.levels + 1 > 1 && 0 < |m.cfg.areas|
    && SysOk(m.cfg, SysOf(m, uvms), m.kpt, m.kernelPages)
    && forall a, b :: a in uvms && b in uvms && a != b ==> uvms[a] != uvms[b]
  }

  // Any one call of the three routines among any live spaces is such a step, and keeps them.

  method ProtectAmong(m: Machine, ghost uvms: map<nat, AddrSpace>, ghost a: nat, uvm: AddrSpace) returns (ok: bool)
    requires LiveOk(m, uvms) && a !in uvms && forall b :: b in uvms ==> uvms[b] != uvm
    modifies m`mem, m`pool, uvm
    ensures ok <==> old(m.pool) != []
    ensures ok ==> Called(m.cfg, old(SysOf(m, uvms)), SysOf(m, uvms[a := uvm]), Protect(a), m.kpt, m.kernelPages)
    ensures ok ==> LiveOk(m, uvms[a := uvm])
  {
    hide SysOk, Known, Shape, Entries, KernelOk, FreeOk, SpaceOk, TopTableMade, Pages, Walk, IsPath, KernelIndex, RootWord;
    ghost var s, before := SysOf(m, uvms), m.Now(uvm);
    OkParts(m.cfg, s, m.kpt, m.kernelPages);
    ok := m.Protect(uvm);
    if ok {
      RootNotRead(m.cfg, before, View(s, a), m.Now(uvm), m.kpt);
      ghost var s' := SysOf(m, uvms[a := uvm]);
      assert s'.spaces == s.spaces[a := RootWord(s.pool[0])];
      CallKeeps(m.cfg, s, s', Protect(a), m.kpt, m.kernelPages);
    }
  }

  method MapAmong(m: Machine, ghost uvms: map<nat, AddrSpace>, ghost a: nat, uvm: AddrSpace, va: nat, pa: nat, prot: nat)
    returns (ok: bool)
    requires LiveOk(m, uvms) && a in uvms && uvms[a] == uvm
    modifies m`mem, m`pool, uvm`ptr
    ensures Shape(old(m.mem), Entries(m.cfg))
    ensures ok <==> Mappable(m.cfg, old(TreeOf(m.Now(uvm), m.cfg.levels, Entries(m.cfg))), old(m.pool), va, pa, prot)
    ensures ok ==> Called(m.cfg, old(SysOf(m, uvms)), SysOf(m, uvms), Map(a, va, pa, prot), m.kpt, m.kernelPages)
    ensures ok ==> LiveOk(m, uvms)
  {
    hide SysOk, Known, Shape, Entries, KernelOk, FreeOk, SpaceOk, TreeOf, Mapped, Mappable, Path, Walk, IsPath, InUser;
    ghost var s := SysOf(m, uvms);
    OkParts(m.cfg, s, m.kpt, m.kernelPages);
    assert View(s, a) == m.Now(uvm);
    ok := m.Map(uvm, va, pa, prot);
    MappableIs(m.cfg, TreeOf(View(s, a), m.cfg.levels, Entries(m.cfg)), s.pool, va, pa, prot);
    if ok {
      ghost var s' := SysOf(m, uvms);
      assert s'.spaces == s.spaces;
      SpaceParts(m.cfg, View(s', a), m.kpt, m.kernelPages);
      CallKeeps(m.cfg, s, s', Map(a, va, pa, prot), m.kpt, m.kernelPages);
    }
  }

  method UnprotectAmong(m: Machine, ghost uvms: map<nat, AddrSpace>, ghost a: nat, uvm: AddrSpace)
    requires LiveOk(m, uvms) && a in uvms && uvms[a] == uvm
    modifies m`pool
    ensures Called(m.cfg, old(SysOf(m, uvms)), SysOf(m, uvms - {a}), Unprotect(a), m.kpt, m.kernelPages)
    ensures LiveOk(m, uvms - {a})
  {
    hide SysOk, Known, Shape, Entries, KernelOk, FreeOk, SpaceOk, TreeOf, Abs, Pages;
    ghost var s := SysOf(m, uvms);
    OkParts(m.cfg, s, m.kpt, m.kernelPages);
    assert View(s, a) == m.Now(uvm);
    m.Unprotect(uvm);
    ghost var s' := SysOf(m, uvms - {a});
    assert s'.spaces == s.spaces - {a};
    TablesAre(m.cfg, s, a);
    TreeOfIs(View(s, a), m.cfg.levels, Entries(m.cfg));
    TreeOfIs(m.Now(uvm), m.cfg.levels, Entries(m.cfg));
    CallKeeps(m.cfg, s, s', Unprotect(a), m.kpt, m.kernelPages);
  }
}
