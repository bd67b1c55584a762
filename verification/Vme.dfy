/** `protect`, `map` and `unprotect` on page-granular memory. */
module Vme {
  import opened Counting
  import opened Powers
  import opened PageTree
  import opened PageMemory
  import opened VmeConfig
  import opened VmeSteps

  class AddrSpace {
    var pgsize: nat
    var area: VmArea
    var ptr: nat

    constructor ()
    {
      pgsize, area, ptr := 0, VmArea(0, 0, false), 0;
    }
  }

  class Machine {
    const cfg: Config
    const kpt: nat
    ghost const kernelPages: set<nat>
    var mem: Memory
    var pool: seq<nat>

    constructor (cfg: Config, kpt: nat, ghost kernelPages: set<nat>, mem: Memory, pool: seq<nat>)
      ensures this.cfg == cfg && this.kpt == kpt && this.kernelPages == kernelPages && this.mem == mem && this.pool == pool
    {
      this.cfg, this.kpt, this.kernelPages, this.mem, this.pool := cfg, kpt, kernelPages, mem, pool;
    }

    ghost function Now(uvm: AddrSpace): Snap
      reads this`mem, this`pool, uvm`ptr
    {
      Snap(mem, pool, uvm.ptr)
    }

    /** `pgalloc`: the next free page, or 0. */
    method Pgalloc() returns (base: nat)
      modifies this`pool
      ensures old(pool) == [] ==> base == 0 && pool == []
      ensures old(pool) != [] ==> base == old(pool)[0] && pool == old(pool)[1..]
    {
      if pool == [] {
        base := 0;
      } else {
        base, pool := pool[0], pool[1..];
      }
    }

    method Pgfree(page: nat)
      modifies this`pool
      ensures pool == old(pool) + [page]
    {
      pool := pool + [page];
    }

    /** `pgallocz`: a cleared page; `ok` is false where it panics. */
    method Pgallocz() returns (ok: bool, base: nat)
      requires Known(cfg) && |cfg.tables| > 1 && Shape(mem, Entries(cfg))
      requires 0 !in pool && forall p :: p in pool ==> p < |mem|
      modifies this`mem, this`pool
      ensures ok <==> old(pool) != []
      ensures !ok ==> mem == old(mem) && pool == []
      ensures ok ==> base == old(pool)[0] && pool == old(pool)[1..] && base < |old(mem)|
      ensures ok ==> mem == old(mem)[base := ZeroPage(Entries(cfg))]
    {
      hide Entries;
      assert pool != [] ==> pool[0] in pool;
      base := Pgalloc();
      if base == 0 {
        return false, 0;
      }
      var n := Entries(cfg);
      var i := 0;
      while i < n
        invariant 0 <= i <= n && |mem| == |old(mem)| && |mem[base]| == n
        invariant pool == old(pool)[1..] && forall p :: 0 <= p < |mem| && p != base ==> mem[p] == old(mem)[p]
        invariant forall j :: 0 <= j < i ==> mem[base][j] == 0
      {
        mem := Write(mem, base, i, 0);
        i := i + 1;
      }
      assert mem[base] == ZeroPage(n);
      assert mem == old(mem)[base := ZeroPage(n)];
      ok := true;
    }

    /** `ptwalk`: fills in the missing tables on the way to `addr` and returns where its last entry is.
        It panics exactly when there are fewer free pages than missing tables. */
    method Ptwalk(uvm: AddrSpace, addr: nat) returns (ok: bool, page: nat, index: nat)
      requires Known(cfg) && |cfg.tables| == cfg.levels + 1 && Sound(Now(uvm), cfg.levels, Entries(cfg))
      requires 0 !in pool
      requires OwnPath(TreeOf(Now(uvm), cfg.levels, Entries(cfg)), Path(cfg, addr))
      modifies this`mem, this`pool, uvm`ptr
      ensures ok <==> Need(old(TreeOf(Now(uvm), cfg.levels, Entries(cfg))), Path(cfg, addr)) <= |old(pool)|
      ensures ok ==> Walked(old(Now(uvm)), Now(uvm), Path(cfg, addr), Entries(cfg), page, index)
      ensures ok && old(TablesOpen(TreeOf(Now(uvm), cfg.levels, Entries(cfg)), Path(cfg, addr))) ==>
                Opened(mem, uvm.ptr, Path(cfg, addr))
    {
      hide Abs, TreeOf, Grow, Need, Reaches, OwnPath, Holder, Sub, Walking, Walked, Sound, Kept, Read, Readable, Filled,
           Cleared, IndexOf, Path, IndexAt, Entries, Present, TableWord, ZeroPage, Known, Shape, TablesOpen, Opened;
      PathOk(cfg, addr);
      ghost var s0, q, E := Now(uvm), Path(cfg, addr), Entries(cfg);
      assert 0 !in s0.pool;
      var cur: TablePtr := Cell;
      WalkStarts(s0, q, E);
      var i := 0;
      while true
        invariant 0 <= i <= cfg.levels && Walking(s0, Now(uvm), q, i, cur, E)
        invariant 0 !in pool
        decreases cfg.levels - i
      {
        var info := cfg.tables[i];
        index := IndexOf(addr, info);
        WalkDown(s0, Now(uvm), q, i, cur, E);
        WalkingParts(s0, Now(uvm), q, i, cur, E);
        SoundParts(Now(uvm), cfg.levels, E);
        IndexAtIs(q, i);
        ReadableParts(Now(uvm), cur, index);
        if i == cfg.levels {
          WalkReturns(s0, Now(uvm), q, cur, E);
          page := cur.page;
          WalkOpens(s0, Now(uvm), q, E, page, index);
          return true, page, index;
        }
        var word := if cur.Cell? then uvm.ptr else mem[cur.page][index];
        var next: nat;
        if !Present(word) {
          ghost var s := Now(uvm);
          var got, base := Pgallocz();
          if !got {
            WalkStuck(s0, s, q, i, cur, E);
            return false, 0, 0;
          }
          WalkFill(s0, s, q, i, cur, E);
          FilledIs(s, cur, index, E);
          if cur.Cell? {
            uvm.ptr := TableWord(base);
          } else {
            mem := Write(mem, cur.page, index, TableWord(base));
          }
          next := base;
        } else {
          next := Page(word);
        }
        cur := Frame(next);
        i := i + 1;
      }
    }

    /** The kernel areas' entries of the top-level table, one area. */
    method CopyArea(upt: nat, i: nat)
      requires Known(cfg) && |cfg.tables| > 1 && i < |cfg.areas| && cfg.areas[i].kernel
      requires kpt < |mem| && upt < |mem| && kpt != upt && Copied(cfg, mem[kpt], i, 0, mem[upt])
      modifies this`mem
      ensures |mem| == |old(mem)| && Copied(cfg, mem[kpt], i, Span(cfg, cfg.areas[i]), mem[upt])
      ensures forall p :: 0 <= p < |mem| && p != upt ==> mem[p] == old(mem)[p]
    {
      hide Copied, CopiedEntry, Span, Cursor, Visited, IndexOf, Unit, Wrap, Pow2, KernelIndex, KernelAreaOf, WordSize,
           Entries, Known;
      var info := cfg.tables[1];
      var vma := cfg.areas[i];
      WordPositive(cfg);
      KernelAreas(cfg, i);
      CopyEnds(cfg, vma);
      var cur := vma.start;
      ghost var n := 0;
      while cur != vma.end
        invariant n <= Span(cfg, vma) && cur == Cursor(cfg, vma, n) && |mem| == |old(mem)|
        invariant Copied(cfg, mem[kpt], i, n, mem[upt]) && mem[kpt] == old(mem[kpt])
        invariant forall p :: 0 <= p < |mem| && p != upt ==> mem[p] == old(mem)[p]
        decreases Span(cfg, vma) - n
      {
        CopyRound(cfg, mem[kpt], i, n, mem[upt]);
        CopiedLengths(cfg, mem[kpt], i, n, mem[upt]);
        var index := IndexOf(cur, info);
        mem := Write(mem, upt, index, mem[kpt][index]);
        cur := Wrap(cur + Pow2(info.shift), Pow2(cfg.wordBits));
        UnitIs(cfg);
        n := n + 1;
      }
      if n < Span(cfg, vma) {
        CopyRound(cfg, mem[kpt], i, n, mem[upt]);
      }
    }

    /** `protect`: a new address space, with the kernel's top-level entries and nothing else. */
    method Protect(uvm: AddrSpace) returns (ok: bool)
      requires Known(cfg) && |cfg.tables| == cfg.levels + 1 > 1 && 0 < |cfg.areas| && Shape(mem, Entries(cfg))
      requires KernelOk(cfg, mem, kpt, kernelPages) && FreeOk(mem, pool, kernelPages)
      modifies this`mem, this`pool, uvm
      ensures ok <==> old(pool) != []
      ensures ok ==> TopTableMade(cfg, old(Now(uvm)), Now(uvm), kpt) && Shape(mem, Entries(cfg))
      ensures ok ==> SpaceOk(cfg, Now(uvm), kpt, kernelPages) && uvm.pgsize == PGSIZE && uvm.area == cfg.areas[0]
      ensures ok ==> Pages(TreeOf(Now(uvm), cfg.levels, Entries(cfg))) == [old(pool)[0]]
      ensures ok ==> forall r: seq<nat> :: |r| == cfg.levels && IsPath(r, Entries(cfg)) ==>
                       && r[0] < |old(mem)[kpt]|
                       && Walk(mem, uvm.ptr, r) == if KernelIndex(cfg, |cfg.areas|, r[0])
                                                   then Walk(old(mem), old(mem)[kpt][r[0]], r[1..]) else 0
    {
      hide Copied, CopiedEntry, Visited, Pow2, Known, Entries, KernelOk, FreeOk, Shape, SpaceOk, TreeOf, Pages, Walk,
           KernelIndex, RootWord, TopTableMade, IsPath;
      ghost var s0 := Now(uvm);
      FreeParts(mem, pool, kernelPages);
      KernelParts(cfg, mem, kpt, kernelPages, 0);
      var got, upt := Pgallocz();
      if !got {
        return false;
      }
      FreshParts(s0.pool, kernelPages);
      ClearedParts(s0.mem, upt, Entries(cfg), kpt);
      CopyStarts(cfg, mem[kpt]);
      var i := 0;
      while i < |cfg.areas|
        invariant 0 <= i <= |cfg.areas| && |mem| == |s0.mem| && pool == s0.pool[1..] && mem[kpt] == s0.mem[kpt]
        invariant Copied(cfg, mem[kpt], i, 0, mem[upt])
        invariant forall p :: 0 <= p < |mem| && p != upt ==> mem[p] == s0.mem[p]
      {
        if cfg.areas[i].kernel {
          CopyArea(upt, i);
        }
        AreaCopied(cfg, mem[kpt], i, mem[upt]);
        i := i + 1;
      }
      uvm.pgsize := PGSIZE;
      uvm.area := cfg.areas[0];
      uvm.ptr := upt * 4096 + 1 + 4;
      RootWordIs(upt);
      CopyDone(cfg, s0, Now(uvm), kpt);
      CopiedLengths(cfg, mem[kpt], i, 0, mem[upt]);
      ShapeKept(s0.mem, mem, upt, Entries(cfg));
      forall r: seq<nat> | |r| == cfg.levels && IsPath(r, Entries(cfg))
        ensures r[0] < |s0.mem[kpt]| && Walk(mem, uvm.ptr, r) ==
                if KernelIndex(cfg, |cfg.areas|, r[0]) then Walk(s0.mem, s0.mem[kpt][r[0]], r[1..]) else 0
      {
        NewSpace(cfg, s0, Now(uvm), kpt, kernelPages, r);
      }
      ghost var zeros := ZeroPath(cfg);
      NewSpace(cfg, s0, Now(uvm), kpt, kernelPages, zeros);
      ok := true;
    }

    /** `map`: panics exactly unless the request is acceptable; otherwise the walk of `va` finds the new entry
        and every other walk, in user or kernel space, what it found before. */
    method Map(uvm: AddrSpace, va: nat, pa: nat, prot: nat) returns (ok: bool)
      requires Known(cfg) && |cfg.tables| == cfg.levels + 1 && 0 < |cfg.areas| && Shape(mem, Entries(cfg))
      requires SpaceOk(cfg, Now(uvm), kpt, kernelPages)
      modifies this`mem, this`pool, uvm`ptr
      ensures ok <==> Mappable(cfg, old(TreeOf(Now(uvm), cfg.levels, Entries(cfg))), old(pool), va, pa, prot)
      ensures ok ==> SpaceOk(cfg, Now(uvm), kpt, kernelPages) && uvm.ptr == old(uvm.ptr)
      ensures ok ==> Mapped(cfg, old(Now(uvm)), Now(uvm), Path(cfg, va), Pte(pa, prot))
      ensures ok ==> (prot == 0 <==> old(Walk(mem, uvm.ptr, Path(cfg, va))) % 2 == 1)
      ensures ok ==> Opened(mem, uvm.ptr, Path(cfg, va))
      ensures ok && prot == 0 ==> Walk(mem, uvm.ptr, Path(cfg, va)) == 0
      ensures ok && prot != 0 ==>
                var e := Walk(mem, uvm.ptr, Path(cfg, va));
                e / 4096 == pa / 4096 && e % 2 == 1 && e / 4 % 2 == 1 && (e / 2 % 2 == 1 <==> prot / 2 % 2 == 1)
    {
      hide Abs, TreeOf, Grow, Need, Reaches, OwnPath, Holder, Sub, Put, Get, Walk, Walked, Mapped, Sound, Kept, Stock,
           SpaceOk, SpaceTree, UserTablePath, UserIndex, InUser, Path, Entries, Present, Shape, Mappable, Pte,
           Opened, TablesOpen;
      Layout(cfg);
      ghost var s0, q, E, L := Now(uvm), Path(cfg, va), Entries(cfg), cfg.levels;
      if !InUser(cfg, va) || va % PGSIZE != 0 || pa % PGSIZE != 0 {
        MappableIs(cfg, TreeOf(s0, L, E), pool, va, pa, prot);
        return false;
      }
      PathOk(cfg, va);
      MapStarts(cfg, s0, kpt, kernelPages, va);
      WalkFinds(cfg, s0, kpt, kernelPages, q);
      PresentIs(Walk(mem, uvm.ptr, q));
      PteBits(pa, prot);
      var found, page, index := Ptwalk(uvm, va);
      if !found {
        MappableIs(cfg, TreeOf(s0, L, E), s0.pool, va, pa, prot);
        return false;
      }
      ghost var s1 := Now(uvm);
      MapWalked(cfg, s0, s1, kpt, kernelPages, q, page, index);
      MappableIs(cfg, TreeOf(s0, L, E), s0.pool, va, pa, prot);
      if prot == 0 {
        if !Present(mem[page][index]) {
          return false;
        }
        mem := Write(mem, page, index, 0);
      } else {
        if Present(mem[page][index]) {
          return false;
        }
        var writable := if prot / 2 % 2 == 1 then 2 else 0;
        mem := Write(mem, page, index, pa + 1 + 4 + writable);
      }
      PteIs(pa, prot);
      ghost var s2 := Now(uvm);
      MapWritten(cfg, s0, s1, s2, kpt, kernelPages, q, Pte(pa, prot), page, index);
      NeedIsZero(TreeOf(s2, L, E), q);
      var again, page', index' := Ptwalk(uvm, va);
      MapEnds(cfg, s0, s1, s2, Now(uvm), kpt, kernelPages, q, Pte(pa, prot), page, index, page', index');
      MapOpens(cfg, s2, Now(uvm), kpt, kernelPages, q, page', index');
      MappedHere(cfg, s0, Now(uvm), q, Pte(pa, prot));
      ok := true;
    }

    /** The pages that `teardown` frees below the entry `w` of level `level - 1`, in order. */
    ghost function Below(level: nat, w: nat): seq<nat>
      requires 0 < level <= cfg.levels + 1 && |cfg.tables| > 1 && Shape(mem, Entries(cfg))
      reads this`mem
    {
      Pages(Abs(mem, w, cfg.levels + 1 - level, Entries(cfg)))
    }

    /** `teardown`: frees every table under an entry after the tables below it, and no page the last
        level maps. */
    method Teardown(uvm: AddrSpace, level: nat, pt: TablePtr, ghost w: nat)
      requires Known(cfg) && |cfg.tables| == cfg.levels + 1 > 1 && Shape(mem, Entries(cfg)) && level <= cfg.levels + 1
      requires level == 0 ==> pt == Cell && w == uvm.ptr && Solid(Abs(mem, w, cfg.levels, Entries(cfg)), cfg.levels)
      requires 0 < level <= cfg.levels ==> pt == Frame(Page(w)) && Page(w) < |mem| && Owned(w)
      requires 0 < level ==> Solid(Abs(mem, w, cfg.levels + 1 - level, Entries(cfg)), cfg.levels + 1 - level)
      modifies this`pool
      ensures pool == old(pool) + Below(if level == 0 then 1 else level, w)
      decreases cfg.levels + 1 - level
    {
      hide Entries, Pages, PagesUpTo, Abs, Solid, Shape, Known, Present, User, Page;
      Layout(cfg);
      ghost var E, k := Entries(cfg), cfg.levels + 1 - level;
      if level > cfg.levels {
        NothingBelow(mem, w, E);
        assert pool + [] == pool;
        return;
      }
      TableSize(cfg, level);
      TornTable(mem, w, if level == 0 then cfg.levels else k, E);
      ghost var t := Abs(mem, w, k, E);
      var index := 0;
      while index < Pow2(cfg.tables[level].bits)
        invariant 0 <= index <= Pow2(cfg.tables[level].bits)
        invariant level == 0 ==> pool == if index == 0 then old(pool) else old(pool) + Below(1, w)
        invariant level > 0 ==> pool == old(pool) + PagesUpTo(t, index)
      {
        var e := if pt.Cell? then uvm.ptr else mem[pt.page][index];
        ghost var before := pool;
        if level > 0 {
          TornKid(mem, w, k, E, index);
        }
        if Present(e) && User(e) {
          Teardown(uvm, level + 1, Frame(Page(e)), e);
        }
        index := index + 1;
      }
      if level >= 1 {
        TablePages(t);
        Pgfree(pt.page);
      }
    }

    /** `unprotect`: frees exactly the tables of the address space, each once. */
    method Unprotect(uvm: AddrSpace)
      requires Known(cfg) && |cfg.tables| == cfg.levels + 1 > 1 && 0 < |cfg.areas| && Shape(mem, Entries(cfg))
      requires SpaceOk(cfg, Now(uvm), kpt, kernelPages)
      modifies this`pool
      ensures pool == old(pool) + Pages(TreeOf(Now(uvm), cfg.levels, Entries(cfg)))
      ensures multiset(pool) == multiset(old(Stock(Now(uvm), cfg.levels, Entries(cfg))))
      ensures FreeOk(mem, pool, kernelPages) && KernelOk(cfg, mem, kpt, kernelPages)
    {
      hide Entries, Pages, Abs, Solid, SpaceOk, KernelOk, FreeOk;
      Torn(cfg, Now(uvm), kpt, kernelPages, pool + Below(1, uvm.ptr));
      Teardown(uvm, 0, Cell, uvm.ptr);
    }
  }

  lemma PresentIs(e: nat)
    ensures Present(e) <==> e % 2 == 1
  {
  }

  lemma MappedHere(cfg: Config, s0: Snap, s: Snap, q: seq<nat>, x: nat)
    requires |cfg.tables| > 1 && Shape(s0.mem, Entries(cfg)) && Shape(s.mem, Entries(cfg)) && Mapped(cfg, s0, s, q, x)
    requires |q| == cfg.levels
    ensures Walk(s.mem, s.ptr, q) == x
  {
  }

  lemma SoundParts(s: Snap, L: nat, E: nat)
    requires Sound(s, L, E)
    ensures Shape(s.mem, E) && forall p :: p in s.pool ==> p < |s.mem|
  {
  }

  lemma IndexAtIs(q: seq<nat>, i: nat)
    requires i <= |q|
    ensures IndexAt(q, i) == if i == 0 then 0 else q[i - 1]
  {
  }

  lemma ReadableParts(s: Snap, cur: TablePtr, index: nat)
    requires Readable(s, cur, index)
    ensures cur.Cell? ==> Read(s, cur, index) == s.ptr
    ensures cur.Frame? ==> cur.page < |s.mem| && index < |s.mem[cur.page]| && Read(s, cur, index) == s.mem[cur.page][index]
  {
  }

  lemma FilledIs(s: Snap, cur: TablePtr, index: nat, E: nat)
    requires s.pool != [] && s.pool[0] < |s.mem| && Readable(Cleared(s, E), cur, index)
    ensures var mem, w := s.mem[s.pool[0] := ZeroPage(E)], TableWord(s.pool[0]);
            && Cleared(s, E) == Snap(mem, s.pool[1..], s.ptr)
            && (cur.Cell? ==> Filled(s, cur, index, E) == Snap(mem, s.pool[1..], w))
            && (cur.Frame? ==> cur.page < |mem| && index < |mem[cur.page]|
                               && Filled(s, cur, index, E) == Snap(Write(mem, cur.page, index, w), s.pool[1..], s.ptr))
  {

  }

  lemma WordPositive(cfg: Config)
    ensures WordSize(cfg) > 0
  {
  }

  lemma UnitIs(cfg: Config)
    requires |cfg.tables| > 1
    ensures Unit(cfg) == Pow2(cfg.tables[1].shift) && WordSize(cfg) == Pow2(cfg.wordBits)
  {
  }

  lemma CopiedLengths(cfg: Config, kernel: seq<nat>, i: nat, n: nat, upt: seq<nat>)
    requires |cfg.tables| > 1 && i <= |cfg.areas| && (n > 0 ==> i < |cfg.areas|) && Copied(cfg, kernel, i, n, upt)
    ensures |upt| == |kernel| == Entries(cfg)
  {
  }

  lemma FreeParts(mem: Memory, pool: seq<nat>, K: set<nat>)
    requires FreeOk(mem, pool, K)
    ensures 0 !in pool && forall p :: p in pool ==> p < |mem|
    ensures pool != [] ==> pool[0] !in K && pool[0] < |mem|
  {
    assert pool != [] ==> pool[0] in pool;
  }

  lemma FreshParts(pool: seq<nat>, K: set<nat>)
    requires pool != []
    ensures pool[0] in pool
  {
  }

  lemma ClearedParts(mem: Memory, upt: nat, E: nat, kpt: nat)
    requires upt < |mem| && kpt < |mem| && kpt != upt
    ensures var mem' := mem[upt := ZeroPage(E)];
            mem'[upt] == ZeroPage(E) && mem'[kpt] == mem[kpt]
  {
  }

  lemma RootWordIs(page: nat)
    ensures RootWord(page) == page * 4096 + 1 + 4
  {
  }

  lemma ShapeKept(mem: Memory, mem': Memory, upt: nat, E: nat)
    requires Shape(mem, E) && |mem'| == |mem| && upt < |mem| && |mem'[upt]| == E
    requires forall p :: 0 <= p < |mem| && p != upt ==> mem'[p] == mem[p]
    ensures Shape(mem', E)
  {
  }

  function ZeroPath(cfg: Config): (q: seq<nat>)
    requires Known(cfg) && |cfg.tables| > 1
    ensures |q| == cfg.levels && IsPath(q, Entries(cfg))
  {
    seq(cfg.levels, _ => 0)
  }

  lemma NothingBelow(mem: Memory, w: nat, E: nat)
    requires Shape(mem, E)
    ensures Pages(Abs(mem, w, 0, E)) == []
  {
  }

  lemma TableSize(cfg: Config, level: nat)
    requires Known(cfg) && level < |cfg.tables|
    ensures |cfg.tables| > 1 && Pow2(cfg.tables[level].bits) == if level == 0 then 1 else Entries(cfg)
  {
    Layout(cfg);
    Pow2Values();
  }

  /** An owned entry of a solid tree is a table in memory. */
  lemma TornTable(mem: Memory, w: nat, k: nat, E: nat)
    requires Shape(mem, E) && k > 0 && Solid(Abs(mem, w, k, E), k)
    ensures Owned(w) ==> Page(w) < |mem| && Abs(mem, w, k, E).Table? && Abs(mem, w, k, E).e == w && |Abs(mem, w, k, E).kids| == E
    ensures !Owned(w) ==> Pages(Abs(mem, w, k, E)) == []
    ensures Owned(w) && Page(w) < |mem| ==> |mem[Page(w)]| == E
    ensures Owned(w) ==> PagesUpTo(Abs(mem, w, k, E), 0) == []
  {
    AbsWord(mem, w, k, E);
  }

  lemma TornKid(mem: Memory, w: nat, k: nat, E: nat, j: nat)
    requires Shape(mem, E) && k > 0 && Abs(mem, w, k, E).Table? && Solid(Abs(mem, w, k, E), k) && j < E
    ensures Page(w) < |mem| && |mem[Page(w)]| == E && |Abs(mem, w, k, E).kids| == E
    ensures var e := mem[Page(w)][j];
            && Abs(mem, w, k, E).kids[j] == Abs(mem, e, k - 1, E) && Solid(Abs(mem, e, k - 1, E), k - 1)
            && (Owned(e) && k > 1 ==> Page(e) < |mem|)
            && (!Owned(e) ==> Pages(Abs(mem, e, k - 1, E)) == [])
            && PagesUpTo(Abs(mem, w, k, E), j + 1) == PagesUpTo(Abs(mem, w, k, E), j) + Pages(Abs(mem, e, k - 1, E))
  {
    AbsTable(mem, w, k, E, j);
    AbsWord(mem, mem[Page(w)][j], k - 1, E);
    NextPages(Abs(mem, w, k, E), j + 1);
    SolidKid(Abs(mem, w, k, E), k, j);
    SolidWord(Abs(mem, mem[Page(w)][j], k - 1, E), k - 1);
    hide Solid, Owned, Page, PagesUpTo;
  }

  lemma SolidKid(t: Tree, k: nat, j: nat)
    requires t.Table? && Solid(t, k) && j < |t.kids|
    ensures k > 0 && Solid(t.kids[j], k - 1)
  {
  }

  lemma SolidWord(t: Tree, k: nat)
    requires Solid(t, k)
    ensures t.Word? ==> (k > 0 ==> !Owned(t.e)) && Pages(t) == []
  {
  }

  /** The tables of an address space joined to the free pages. */
  lemma Torn(cfg: Config, s: Snap, kpt: nat, K: set<nat>, free: seq<nat>)
    requires Known(cfg) && |cfg.tables| == cfg.levels + 1 > 1 && 0 < |cfg.areas| && Shape(s.mem, Entries(cfg))
    requires SpaceOk(cfg, s, kpt, K) && free == s.pool + Pages(TreeOf(s, cfg.levels, Entries(cfg)))
    ensures Solid(TreeOf(s, cfg.levels, Entries(cfg)), cfg.levels)
    ensures multiset(free) == multiset(Stock(s, cfg.levels, Entries(cfg)))
    ensures FreeOk(s.mem, free, K) && KernelOk(cfg, s.mem, kpt, K)
  {
    hide *;
    var t, E := TreeOf(s, cfg.levels, Entries(cfg)), Entries(cfg);
    SpaceParts(cfg, s, kpt, K);
    SpaceFacts(cfg, t, s.mem[kpt]);
    StockIs(s, cfg.levels, E);
    assert multiset(free) == multiset(Pages(t) + s.pool);
    FreeFromStock(s, cfg.levels, E, K, free);
  }

  lemma FreeFromStock(s: Snap, L: nat, E: nat, K: set<nat>, free: seq<nat>)
    requires Shape(s.mem, E) && Sound(s, L, E) && Apart(Stock(s, L, E), K) && free == s.pool + Pages(TreeOf(s, L, E))
    requires multiset(free) == multiset(Stock(s, L, E))
    ensures FreeOk(s.mem, free, K)
  {
    hide Stock, Abs, Pages, Shape;
    forall p | p in free
      ensures p !in K && p != 0 && p < |s.mem|
    {
      SameMembers(free, Stock(s, L, E), p);
      if p in Pages(TreeOf(s, L, E)) {
        PagesInMemory(s.mem, s.ptr, L, E, p);
      }
    }
    assert forall p: nat :: multiset(free)[p] == multiset(Stock(s, L, E))[p];
  }
}
