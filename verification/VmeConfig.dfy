/** The two memory layouts of the x86 virtual memory extension, and how addresses become paths. */
module VmeConfig {
  import opened Powers

  datatype PtInfo = PtInfo(mask: nat, shift: nat, bits: nat)

  datatype VmArea = VmArea(start: nat, end: nat, kernel: bool)

  datatype Config = Config(levels: nat, wordBits: nat, tables: seq<PtInfo>, areas: seq<VmArea>)

  const PGSIZE: nat := 4096

  const I386: Config := Config(2, 32,
    [PtInfo(0, 0, 0), PtInfo(0xffc0_0000, 22, 10), PtInfo(0x003f_f000, 12, 10)],
    [VmArea(0x4000_0000, 0x8000_0000, false), VmArea(0, 0x4000_0000, true), VmArea(0xfd00_0000, 0, true)])

  const X86_64: Config := Config(4, 64,
    [PtInfo(0, 0, 0), PtInfo(0xff80_0000_0000, 39, 9), PtInfo(0x007f_c000_0000, 30, 9),
     PtInfo(0x3fe0_0000, 21, 9), PtInfo(0x001f_f000, 12, 9)],
    [VmArea(0x1000_0000_0000, 0x1080_0000_0000, false), VmArea(0, 0x80_0000_0000, true)])

  predicate Known(cfg: Config) { cfg == I386 || cfg == X86_64 }

  lemma BothKnown()
    ensures Known(I386) && Known(X86_64) && I386 != X86_64
  {
  }

  /** `(addr & mask) >> shift`, for masks that cover `bits` bits from bit `shift` on. */
  function IndexOf(addr: nat, info: PtInfo): nat { addr / Pow2(info.shift) % Pow2(info.bits) }

  /** The masks of both layouts are such masks, and together with the page offset they tile the address. */
  lemma MasksAreFields(cfg: Config, i: nat)
    requires Known(cfg) && i < |cfg.tables|
    ensures var t := cfg.tables[i];
            && t.mask == (Pow2(t.bits) - 1) * Pow2(t.shift)
            && (i == cfg.levels ==> Pow2(t.shift) == PGSIZE)
            && (0 < i < cfg.levels ==> t.shift == cfg.tables[i + 1].shift + cfg.tables[i + 1].bits)
  {
    Pow2Values();
  }

  function Entries(cfg: Config): (E: nat)
    requires |cfg.tables| > 1
  {
    Pow2(cfg.tables[1].bits)
  }

  /** What one entry of the top-level table covers. */
  function Unit(cfg: Config): nat
    requires |cfg.tables| > 1
  {
    Pow2(cfg.tables[1].shift)
  }

  /** The indices of an address, top level first. */
  function Path(cfg: Config, addr: nat): seq<nat>
    requires |cfg.tables| == cfg.levels + 1
  {
    seq(cfg.levels, i requires 0 <= i < cfg.levels => IndexOf(addr, cfg.tables[i + 1]))
  }

  lemma Layout(cfg: Config)
    requires Known(cfg)
    ensures |cfg.tables| == cfg.levels + 1 && 2 <= cfg.levels && |cfg.areas| >= 2 && cfg.tables[0] == PtInfo(0, 0, 0)
    ensures forall i :: 1 <= i <= cfg.levels ==> cfg.tables[i].bits == cfg.tables[1].bits
    ensures Entries(cfg) == (if cfg == I386 then 0x400 else 0x200)
    ensures Unit(cfg) == (if cfg == I386 then 0x40_0000 else 0x80_0000_0000)
    ensures Pow2(cfg.wordBits) == (if cfg == I386 then 0x1_0000_0000 else 0x1_0000_0000_0000_0000)
  {
    Pow2Values();
  }

  lemma IndexBelow(addr: nat, info: PtInfo)
    ensures IndexOf(addr, info) < Pow2(info.bits)
  {
  }

  lemma PathFacts(cfg: Config, addr: nat)
    requires Known(cfg)
    ensures |cfg.tables| == cfg.levels + 1 && |Path(cfg, addr)| == cfg.levels
    ensures forall i :: 0 <= i < cfg.levels ==> Path(cfg, addr)[i] < Entries(cfg)
    ensures IndexOf(addr, cfg.tables[0]) == 0
    ensures forall i :: 0 < i <= cfg.levels ==> IndexOf(addr, cfg.tables[i]) == Path(cfg, addr)[i - 1]
  {
    hide Known, IndexOf, Pow2;
    Layout(cfg);
    NoIndex(addr);
    forall i | 0 <= i < cfg.levels
      ensures Path(cfg, addr)[i] < Entries(cfg)
    {
      var info := cfg.tables[i + 1];
      assert info.bits == cfg.tables[1].bits;
      IndexBelow(addr, info);
    }
  }

  lemma NoIndex(addr: nat)
    ensures IndexOf(addr, PtInfo(0, 0, 0)) == 0
  {
  }

  predicate InUser(cfg: Config, addr: nat)
    requires |cfg.areas| > 0
  {
    cfg.areas[0].start <= addr < cfg.areas[0].end
  }

  /** User space in numbers: 1 GiB in one layout, 512 GiB in the other. */
  lemma UserRange(cfg: Config, addr: nat)
    requires Known(cfg)
    ensures |cfg.areas| > 0
    ensures InUser(cfg, addr) <==> if cfg == I386 then 0x4000_0000 <= addr < 0x8000_0000
                                   else 0x1000_0000_0000 <= addr < 0x1080_0000_0000
  {
  }

  /** Entries of the top-level table that cover user space. */
  predicate UserIndex(cfg: Config, j: nat)
    requires |cfg.areas| > 0 && |cfg.tables| > 1
  {
    cfg.areas[0].start <= j * Unit(cfg) < cfg.areas[0].end
  }

  function PathOf386(a: nat): seq<nat> { [a / 0x40_0000 % 0x400, a / 0x1000 % 0x400] }

  function PathOf64(a: nat): seq<nat> {
    [a / 0x80_0000_0000 % 0x200, a / 0x4000_0000 % 0x200, a / 0x20_0000 % 0x200, a / 0x1000 % 0x200]
  }

  lemma PathIs(cfg: Config, a: nat)
    requires Known(cfg)
    ensures |cfg.tables| == cfg.levels + 1
    ensures Path(cfg, a) == if cfg == I386 then PathOf386(a) else PathOf64(a)
  {
    hide Pow2, IndexOf, PathOf386, PathOf64;
    PathFacts(cfg, a);
    if cfg == I386 {
      PathIs386(a);
    } else {
      PathIs64(a);
    }
  }

  lemma PathIs386(a: nat)
    ensures Path(I386, a) == PathOf386(a)
  {
    hide Pow2;
    Pow2Values();
    assert Path(I386, a) == [IndexOf(a, I386.tables[1]), IndexOf(a, I386.tables[2])];
  }

  lemma PathIs64(a: nat)
    ensures Path(X86_64, a) == PathOf64(a)
  {
    hide Pow2;
    Pow2Values();
    assert Path(X86_64, a) == [IndexOf(a, X86_64.tables[1]), IndexOf(a, X86_64.tables[2]), IndexOf(a, X86_64.tables[3]),
                               IndexOf(a, X86_64.tables[4])];
  }

  lemma UserPath(cfg: Config, a: nat)
    requires Known(cfg) && InUser(cfg, a)
    ensures |cfg.tables| == cfg.levels + 1 && 0 < cfg.levels && UserIndex(cfg, Path(cfg, a)[0])
  {
    hide Pow2, Unit, Path, PathOf386, PathOf64;
    Layout(cfg);
    PathIs(cfg, a);
    if cfg == I386 {
      UserTop386(a);
    } else {
      UserTop64(a);
    }
  }

  lemma UserTop386(a: nat)
    requires 0x4000_0000 <= a < 0x8000_0000
    ensures |PathOf386(a)| == 2 && 0x4000_0000 <= PathOf386(a)[0] * 0x40_0000 < 0x8000_0000
  {
    assert 0x100 <= a / 0x40_0000 < 0x200;
  }

  lemma UserTop64(a: nat)
    requires 0x1000_0000_0000 <= a < 0x1080_0000_0000
    ensures |PathOf64(a)| == 4 && 0x1000_0000_0000 <= PathOf64(a)[0] * 0x80_0000_0000 < 0x1080_0000_0000
  {
    assert a / 0x80_0000_0000 == 0x20;
  }

  /** Different user pages have different paths. */
  lemma SamePath(cfg: Config, a: nat, b: nat)
    requires Known(cfg) && InUser(cfg, a) && InUser(cfg, b) && a % PGSIZE == 0 && b % PGSIZE == 0
    requires |cfg.tables| == cfg.levels + 1 && Path(cfg, a) == Path(cfg, b)
    ensures a == b
  {
    PathIs(cfg, a);
    PathIs(cfg, b);
    if cfg == I386 {
      Same386(a / 0x1000, b / 0x1000);
    } else {
      Same64(a / 0x1000, b / 0x1000);
    }
  }

  lemma Same386(m: nat, n: nat)
    requires 0x4_0000 <= m < 0x8_0000 && 0x4_0000 <= n < 0x8_0000
    requires PathOf386(m * 0x1000) == PathOf386(n * 0x1000)
    ensures m == n
  {
    assert m * 0x1000 / 0x40_0000 == m / 0x400 && n * 0x1000 / 0x40_0000 == n / 0x400;
    assert PathOf386(m * 0x1000)[0] == PathOf386(n * 0x1000)[0];
    assert PathOf386(m * 0x1000)[1] == PathOf386(n * 0x1000)[1];
  }

  lemma Same64(m: nat, n: nat)
    requires 0x1_0000_0000 <= m < 0x1_0800_0000 && 0x1_0000_0000 <= n < 0x1_0800_0000
    requires PathOf64(m * 0x1000) == PathOf64(n * 0x1000)
    ensures m == n
  {
    assert PathOf64(m * 0x1000)[1] == PathOf64(n * 0x1000)[1];
    assert PathOf64(m * 0x1000)[2] == PathOf64(n * 0x1000)[2];
    assert PathOf64(m * 0x1000)[3] == PathOf64(n * 0x1000)[3];
    assert m * 0x1000 / 0x4000_0000 == m / 0x4_0000 && n * 0x1000 / 0x4000_0000 == n / 0x4_0000;
    assert m * 0x1000 / 0x20_0000 == m / 0x200 && n * 0x1000 / 0x20_0000 == n / 0x200;
    Digits(m);
    Digits(n);
  }

  lemma Digits(m: nat)
    requires 0x1_0000_0000 <= m < 0x1_0800_0000
    ensures m == 0x1_0000_0000 + m / 0x4_0000 % 0x200 * 0x4_0000 + m / 0x200 % 0x200 * 0x200 + m % 0x200
  {
    var a, b := m / 0x200, m / 0x4_0000;
    assert b == a / 0x200;
    assert m == a * 0x200 + m % 0x200 && a == b * 0x200 + a % 0x200;
    TopDigit(b);
  }

  lemma TopDigit(b: nat)
    ensures 0x4000 <= b < 0x4020 ==> b == 0x4000 + b % 0x200
  {
  }

  // ---- the loop that copies kernel entries ----

  function WordSize(cfg: Config): nat { Pow2(cfg.wordBits) }

  function Times(a: nat, b: nat): nat { a * b }

  /** Address arithmetic wraps around at the word size. */
  function Wrap(a: int, w: nat): nat
    requires w > 0
  {
    a % w
  }

  function Divide(a: nat, b: nat): nat
    requires b > 0
  {
    DivNatural(a, b);
    a / b
  }

  /** How many top-level entries an area spans. */
  function Span(cfg: Config, a: VmArea): nat
    requires |cfg.tables| > 1
  {
    Divide(Wrap(a.end - a.start, WordSize(cfg)), Unit(cfg))
  }

  /** Entry `j` is one of the first `n` that the loop over `a` visits. */
  predicate Visited(cfg: Config, a: VmArea, n: nat, j: nat)
    requires |cfg.tables| > 1
  {
    Wrap(Times(j, Unit(cfg)) - a.start, WordSize(cfg)) < Times(n, Unit(cfg))
  }

  /** Entry `j` belongs to a kernel area among the first `m` areas. */
  predicate KernelIndex(cfg: Config, m: nat, j: nat)
    requires |cfg.tables| > 1 && m <= |cfg.areas|
  {
    exists i :: 0 <= i < m && cfg.areas[i].kernel && Visited(cfg, cfg.areas[i], Span(cfg, cfg.areas[i]), j)
  }

  /** The address after `n` rounds. */
  function Cursor(cfg: Config, a: VmArea, n: nat): nat
    requires |cfg.tables| > 1
  {
    Wrap(a.start + Times(n, Unit(cfg)), WordSize(cfg))
  }

  predicate KernelAreaOf(cfg: Config, a: VmArea) {
    if cfg == I386 then a == VmArea(0, 0x4000_0000, true) || a == VmArea(0xfd00_0000, 0, true)
    else a == VmArea(0, 0x80_0000_0000, true)
  }

  lemma KernelAreas(cfg: Config, i: nat)
    requires Known(cfg) && i < |cfg.areas|
    ensures cfg.areas[i].kernel ==> KernelAreaOf(cfg, cfg.areas[i])
  {
  }

  lemma TopIndex(cfg: Config, addr: nat)
    requires Known(cfg)
    ensures |cfg.tables| > 1
    ensures IndexOf(addr, cfg.tables[1]) == if cfg == I386 then addr / 0x40_0000 % 0x400 else addr / 0x80_0000_0000 % 0x200
  {
    PathFacts(cfg, addr);
    PathIs(cfg, addr);
    hide IndexOf, Path, Pow2, Entries;
    assert IndexOf(addr, cfg.tables[1]) == Path(cfg, addr)[0];
  }

  lemma SpanIs(cfg: Config, a: VmArea)
    requires Known(cfg) && KernelAreaOf(cfg, a)
    ensures |cfg.tables| > 1
    ensures Span(cfg, a) == if cfg == I386 then (if a.start == 0 then 0x100 else 12) else 1
  {
    hide Pow2, Unit;
    Layout(cfg);
    if cfg == I386 {
      assert Unit(cfg) == 0x40_0000 && WordSize(cfg) == 0x1_0000_0000;
      assert a.start == 0 ==> Wrap(a.end - a.start, 0x1_0000_0000) / 0x40_0000 == 0x100;
      assert a.start == 0xfd00_0000 ==> Wrap(a.end - a.start, 0x1_0000_0000) / 0x40_0000 == 12;
    } else {
      assert Wrap(a.end - a.start, 0x1_0000_0000_0000_0000) / 0x80_0000_0000 == 1;
    }
  }

  lemma CopyEnds(cfg: Config, a: VmArea)
    requires Known(cfg) && KernelAreaOf(cfg, a)
    ensures |cfg.tables| > 1
    ensures Cursor(cfg, a, 0) == a.start && Cursor(cfg, a, Span(cfg, a)) == a.end
  {
    hide Pow2, Unit, Span;
    Layout(cfg);
    SpanIs(cfg, a);
    Products(cfg);
  }

  lemma Products(cfg: Config)
    requires Known(cfg)
    ensures |cfg.tables| > 1 && Times(0, Unit(cfg)) == 0 && Times(1, Unit(cfg)) == Unit(cfg)
    ensures cfg == I386 ==> Times(0x100, Unit(cfg)) == 0x4000_0000 && Times(12, Unit(cfg)) == 0x300_0000
  {
    Layout(cfg);
  }

  /** Each round visits one more entry, and no round but the last ends the loop. */
  lemma CopyStep(cfg: Config, a: VmArea, n: nat, j: nat)
    requires Known(cfg) && KernelAreaOf(cfg, a) && |cfg.tables| > 1 && n < Span(cfg, a) && j < Entries(cfg)
    ensures var cur := Cursor(cfg, a, n);
            && cur != a.end && Wrap(cur + Unit(cfg), WordSize(cfg)) == Cursor(cfg, a, n + 1)
            && (Visited(cfg, a, n + 1, j) <==> Visited(cfg, a, n, j) || j == IndexOf(cur, cfg.tables[1]))
  {
    hide Pow2, Unit, Span, Times, Wrap, IndexOf, Entries;
    Layout(cfg);
    SpanIs(cfg, a);
    TopIndex(cfg, Cursor(cfg, a, n));
    if cfg == I386 {
      Step386(a.start, n, j);
    } else {
      Step64(j);
    }
  }

  lemma Step386(start: nat, n: nat, j: nat)
    requires if start == 0 then n < 0x100 else start == 0xfd00_0000 && n < 12
    requires j < 0x400
    ensures var u, w := 0x40_0000, 0x1_0000_0000;
            var cur := Wrap(start + Times(n, u), w);
            && cur == start + n * 0x40_0000 && Wrap(cur + u, w) == Wrap(start + Times(n + 1, u), w)
            && cur != (if start == 0 then 0x4000_0000 else 0)
            && (Wrap(Times(j, u) - start, w) < Times(n + 1, u) <==>
                Wrap(Times(j, u) - start, w) < Times(n, u) || j == cur / 0x40_0000 % 0x400)
  {
    var first := start / 0x40_0000;
    assert j * 0x40_0000 - start == (j - first) * 0x40_0000;
    if j >= first {
      assert (j * 0x40_0000 - start) % 0x1_0000_0000 == (j - first) * 0x40_0000;
    } else {
      assert (j * 0x40_0000 - start) % 0x1_0000_0000 == (j - first + 0x400) * 0x40_0000;
    }
  }

  lemma Step64(j: nat)
    requires j < 0x200
    ensures var u, w := 0x80_0000_0000, 0x1_0000_0000_0000_0000;
            var cur := Wrap(0 + Times(0, u), w);
            && cur == 0 && Wrap(cur + u, w) == Wrap(0 + Times(1, u), w) && cur / 0x80_0000_0000 % 0x200 == 0
            && !(Wrap(Times(j, u) - 0, w) < Times(0, u))
            && (Wrap(Times(j, u) - 0, w) < Times(1, u) <==> j == 0)
  {
  }

  lemma UserNotKernel(cfg: Config, j: nat)
    requires Known(cfg) && |cfg.tables| > 1 && j < Entries(cfg) && UserIndex(cfg, j)
    ensures !KernelIndex(cfg, |cfg.areas|, j)
  {
    Layout(cfg);
    forall i | 0 <= i < |cfg.areas| && cfg.areas[i].kernel
      ensures !Visited(cfg, cfg.areas[i], Span(cfg, cfg.areas[i]), j)
    {
      KernelAreas(cfg, i);
      UserNotVisited(cfg, cfg.areas[i], j);
    }
  }

  lemma UserNotVisited(cfg: Config, a: VmArea, j: nat)
    requires Known(cfg) && KernelAreaOf(cfg, a) && |cfg.tables| > 1 && j < Entries(cfg) && UserIndex(cfg, j)
    ensures !Visited(cfg, a, Span(cfg, a), j)
  {
    hide Pow2, Unit, Span, Wrap, Times, Entries;
    Layout(cfg);
    SpanIs(cfg, a);
    if cfg == I386 {
      Far386(a.start, j);
    } else {
      Step64(j);
    }
  }

  lemma Far386(start: nat, j: nat)
    requires (start == 0 || start == 0xfd00_0000) && 0x4000_0000 <= j * 0x40_0000 < 0x8000_0000
    ensures !(Wrap(Times(j, 0x40_0000) - start, 0x1_0000_0000) < Times(if start == 0 then 0x100 else 12, 0x40_0000))
  {
  }

  /** Every kernel address is looked up through one of the copied entries. */
  lemma KernelAddress(cfg: Config, i: nat, addr: nat)
    requires Known(cfg) && |cfg.tables| > 1 && i < |cfg.areas| && cfg.areas[i].kernel && addr < WordSize(cfg)
    requires Wrap(addr - cfg.areas[i].start, WordSize(cfg)) < Wrap(cfg.areas[i].end - cfg.areas[i].start, WordSize(cfg))
    ensures KernelIndex(cfg, |cfg.areas|, IndexOf(addr, cfg.tables[1]))
  {
    hide Visited, Span, IndexOf, Wrap, WordSize;
    KernelAreas(cfg, i);
    KernelVisited(cfg, cfg.areas[i], addr);
  }

  lemma KernelVisited(cfg: Config, a: VmArea, addr: nat)
    requires Known(cfg) && KernelAreaOf(cfg, a) && |cfg.tables| > 1 && addr < WordSize(cfg)
    requires Wrap(addr - a.start, WordSize(cfg)) < Wrap(a.end - a.start, WordSize(cfg))
    ensures Visited(cfg, a, Span(cfg, a), IndexOf(addr, cfg.tables[1]))
  {
    hide Pow2, Unit, Span, Wrap, Times, IndexOf;
    Layout(cfg);
    SpanIs(cfg, a);
    TopIndex(cfg, addr);
    if cfg == I386 {
      Near386(a.start, addr);
    } else {
      Near64(addr);
    }
  }

  lemma Near386(start: nat, addr: nat)
    requires (start == 0 || start == 0xfd00_0000) && addr < 0x1_0000_0000
    requires Wrap(addr - start, 0x1_0000_0000) < Wrap((if start == 0 then 0x4000_0000 else 0) - start, 0x1_0000_0000)
    ensures Wrap(Times(addr / 0x40_0000 % 0x400, 0x40_0000) - start, 0x1_0000_0000) < Times(if start == 0 then 0x100 else 12, 0x40_0000)
  {
  }

  lemma Near64(addr: nat)
    requires addr < 0x1_0000_0000_0000_0000
    requires Wrap(addr - 0, 0x1_0000_0000_0000_0000) < Wrap(0x80_0000_0000 - 0, 0x1_0000_0000_0000_0000)
    ensures Wrap(Times(addr / 0x80_0000_0000 % 0x200, 0x80_0000_0000) - 0, 0x1_0000_0000_0000_0000) < Times(1, 0x80_0000_0000)
  {
    assert addr < 0x80_0000_0000;
  }
}
