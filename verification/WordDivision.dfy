/** Unsigned 64-bit division on 32-bit words: the counting of zero bits and `__udivmoddi4`. */
module WordDivision {
  import opened Powers

  const DWORD: nat := 0x1_0000_0000_0000_0000
  const TOP: nat := 0x8000_0000_0000_0000

  // Shifts of 32-bit words, for shift counts below 32.
  function Shl(x: nat, k: nat): nat { x * Pow2(k) % WORD }

  function Shr(x: nat, k: nat): nat {
    DivNatural(x, Pow2(k));
    x / Pow2(k)
  }

  function Join(h: nat, l: nat): nat { h * WORD + l }

  function High(x: nat): nat { x / WORD }

  function Low(x: nat): nat { x % WORD }

  /** Double words wrap around. */
  function Wrap(x: int): nat { x % DWORD }

  /** The operators of the C language on unsigned words. */
  function Quot(a: nat, b: nat): nat
    requires b > 0
  {
    DivNatural(a, b);
    a / b
  }

  function Rem(a: nat, b: nat): nat
    requires b > 0
  {
    a % b
  }

  function Wrap32(x: int): nat { x % WORD }

  lemma WordIs()
    ensures WORD == 0x1_0000_0000
  {
  }

  lemma Wrap32Is(x: int)
    requires 0 < x + WORD && x < WORD
    ensures Wrap32(x) == if x >= 0 then x else x + WORD
  {
  }

  function TopBitOf(x: nat): nat { x / TOP }

  // ---- counting zeros ----

  /** `x` has `c` leading zeros as a 32-bit word. */
  predicate Leading(x: nat, c: nat) { c < 32 && Pow2(31 - c) <= x < Pow2(32 - c) }

  /** `x` has `c` trailing zeros. */
  predicate Trailing(x: nat, c: nat) { c < 32 && x % Pow2(c) == 0 && x / Pow2(c) % 2 == 1 }

  lemma SmallPowers()
    ensures Pow2(0) == 1 && Pow2(1) == 2 && Pow2(2) == 4 && Pow2(3) == 8 && Pow2(4) == 16 && Pow2(8) == 256
    ensures Pow2(16) == 0x1_0000 && Pow2(31) == 0x8000_0000 && Pow2(32) == WORD && Pow2(63) == TOP && Pow2(64) == DWORD
  {
    Pow2Values();
    assert Pow2(1) == 2 && Pow2(2) == 4 && Pow2(3) == 8;
    Pow2Add(2, 2);
    Pow2Add(4, 4);
    Pow2Add(8, 8);
    assert Pow2(32) == 2 * Pow2(31) && Pow2(64) == 2 * Pow2(63);
  }

  /** Comparing the upper part of `x` with a power is comparing `x` with a larger power. */
  lemma Scaled(x: nat, e: nat, t: nat)
    ensures x / Pow2(t) >= Pow2(e) <==> x >= Pow2(e + t)
  {
    Pow2Add(e, t);
    DivAtLeast(x, Pow2(t), Pow2(e));
  }

  /** `x` has `c` leading zeros among its low `w` bits, and nothing above. */
  predicate Top(x: nat, w: nat, c: nat) { c < w && Pow2(w - 1 - c) <= x < Pow2(w - c) }

  /** Looking only at the half of the bits that matters. */
  lemma ClzDown(x: nat, w: nat)
    requires 0 < x < Pow2(2 * w)
    ensures 0 < Shr(x, if Shr(x, w) == 0 then 0 else w) < Pow2(w)
  {
    hide Pow2;
    Pow2Add(w, w);
    DivAtLeast(x, Pow2(w), Pow2(w));
    ShrZero(x);
    DivMod(x, Pow2(w));
  }

  lemma ShrZero(x: nat)
    ensures Shr(x, 0) == x
  {
    assert Pow2(0) == 1;
  }

  lemma ClzUp(x: nat, w: nat, c: nat)
    requires Top(Shr(x, if Shr(x, w) == 0 then 0 else w), w, c)
    ensures Top(x, 2 * w, c + if Shr(x, w) == 0 then w else 0)
  {
    hide Pow2;
    ShrZero(x);
    Scaled(x, w - 1 - c, w);
    Scaled(x, w - c, w);
  }

  lemma ClzLast(x: nat)
    requires 0 < x < Pow2(2)
    ensures x < 4 && Top(x, 2, if x / 2 == 0 then 2 - x else 0)
  {
    SmallPowers();
  }

  lemma TopIsLeading(x: nat, c: nat)
    ensures x < WORD <==> x < Pow2(32)
    ensures Top(x, 32, c) <==> Leading(x, c)
  {
    SmallPowers();
  }

  /** `__clzsi2`. */
  method Clzsi2(a: nat) returns (r: nat)
    requires 0 < a < WORD
    ensures Leading(a, r)
  {
    hide *;
    TopIsLeading(a, 0);
    var x := a;
    var t := if Shr(x, 16) == 0 then 16 else 0;
    ClzDown(x, 16);
    x := Shr(x, 16 - t);
    r := t;
    ghost var x1 := x;
    t := if Shr(x, 8) == 0 then 8 else 0;
    ClzDown(x, 8);
    x := Shr(x, 8 - t);
    r := r + t;
    ghost var x2 := x;
    t := if Shr(x, 4) == 0 then 4 else 0;
    ClzDown(x, 4);
    x := Shr(x, 4 - t);
    r := r + t;
    ghost var x3 := x;
    t := if Shr(x, 2) == 0 then 2 else 0;
    ClzDown(x, 2);
    x := Shr(x, 2 - t);
    r := r + t;
    ClzLast(x);
    var last := if x / 2 == 0 then 2 - x else 0;
    ClzUp(x3, 2, last);
    ClzUp(x2, 4, last + t);
    ClzUp(x1, 8, last + t + if Shr(x2, 4) == 0 then 4 else 0);
    ClzUp(a, 16, last + t + (if Shr(x2, 4) == 0 then 4 else 0) + if Shr(x1, 8) == 0 then 8 else 0);
    r := r + last;
    TopIsLeading(a, r);
  }

  lemma TrailingShift(x: nat, t: nat, c: nat)
    requires t + c < 32 && x % Pow2(t) == 0 && Trailing(x / Pow2(t), c)
    ensures Trailing(x, t + c)
  {
    hide Pow2;
    var p, q := Pow2(t), Pow2(c);
    var y := x / p;
    var z := y / q;
    Pow2Add(t, c);
    DivMod(x, p);
    DivMod(y, q);
    MulAssoc(z, q, p);
    RemainderIs(x, p * q, z, 0);
  }

  lemma MulAssoc(a: nat, b: nat, c: nat)
    ensures a * b * c == a * (c * b)
  {
  }

  /** `__ctzsi2`. */
  method Ctzsi2(a: nat) returns (r: nat)
    requires 0 < a < WORD
    ensures Trailing(a, r)
  {
    hide Pow2, Trailing;
    SmallPowers();
    var x := a;
    var t := if x % 0x1_0000 == 0 then 16 else 0;
    x := Shr(x, t);
    r := t;
    ghost var x1 := x;
    t := if x % 0x100 == 0 then 8 else 0;
    x := Shr(x, t);
    r := r + t;
    ghost var x2 := x;
    t := if x % 0x10 == 0 then 4 else 0;
    x := Shr(x, t);
    r := r + t;
    ghost var x3 := x;
    t := if x % 4 == 0 then 2 else 0;
    x := Shr(x, t);
    ghost var x4 := x;
    x := x % 4;
    r := r + t;
    CtzSteps(a, x1, x2, x3, x4);
    r := r + if x % 2 == 0 then 2 - x / 2 else 0;
  }

  lemma CtzSteps(a: nat, x1: nat, x2: nat, x3: nat, x4: nat)
    requires 0 < a < WORD
    requires x1 == if a % 0x1_0000 == 0 then a / 0x1_0000 else a
    requires x2 == if x1 % 0x100 == 0 then x1 / 0x100 else x1
    requires x3 == if x2 % 0x10 == 0 then x2 / 0x10 else x2
    requires x4 == if x3 % 4 == 0 then x3 / 4 else x3
    ensures 0 < x4 % 4
    ensures var t1, t2, t3 := if a % 0x1_0000 == 0 then 16 else 0, if x1 % 0x100 == 0 then 8 else 0, if x2 % 0x10 == 0 then 4 else 0;
            var t4 := if x3 % 4 == 0 then 2 else 0;
            Trailing(a, t1 + t2 + t3 + t4 + if x4 % 4 % 2 == 0 then 2 - x4 % 4 / 2 else 0)
  {
    hide Pow2, Trailing;
    SmallPowers();
    CtzNonzero(a, x1, x2, x3, x4);
    LastBits(x4);
    var c4 := CtzChain(x3, x4, 2, if x4 % 4 % 2 == 0 then 2 - x4 % 4 / 2 else 0);
    var c3 := CtzChain(x2, x3, 4, c4);
    var c2 := CtzChain(x1, x2, 8, c3);
    var c1 := CtzChain(a, x1, 16, c2);
  }

  lemma CtzNonzero(a: nat, x1: nat, x2: nat, x3: nat, x4: nat)
    requires 0 < a < WORD
    requires x1 == if a % 0x1_0000 == 0 then a / 0x1_0000 else a
    requires x2 == if x1 % 0x100 == 0 then x1 / 0x100 else x1
    requires x3 == if x2 % 0x10 == 0 then x2 / 0x10 else x2
    requires x4 == if x3 % 4 == 0 then x3 / 4 else x3
    ensures 0 < x4 % 4
  {
    Halves(x1, x2, 0x100);
    Halves(x2, x3, 0x10);
    Halves(x3, x4, 4);
  }

  lemma CtzChain(x: nat, y: nat, t: nat, c: nat) returns (r: nat)
    requires y == (if x % Pow2(t) == 0 then x / Pow2(t) else x) && Trailing(y, c) && t + c < 32
    ensures r == (if x % Pow2(t) == 0 then t else 0) + c && Trailing(x, r)
  {
    hide Pow2, Trailing;
    r := (if x % Pow2(t) == 0 then t else 0) + c;
    if x % Pow2(t) == 0 {
      TrailingShift(x, t, c);
    }
  }

  /** If the lower half of the bits considered is empty, the upper half is not. */
  lemma Halves(x: nat, y: nat, p: nat)
    requires p == 0x100 || p == 0x10 || p == 4
    requires x % (p * p) != 0 && y == if x % p == 0 then x / p else x
    ensures y % p != 0
  {
    if x % p == 0 && y % p == 0 {
      DivMod(x, p);
      DivMod(y, p);
      TwiceMultiple(x, y, y / p, p);
    }
  }

  lemma TwiceMultiple(x: nat, y: nat, z: nat, p: nat)
    requires p > 0 && x == y * p && y == z * p
    ensures p * p > 0 && x % (p * p) == 0
  {
    MulAssoc(z, p, p);
    RemainderIs(x, p * p, z, 0);
  }

  lemma LastBits(x: nat)
    requires x % 4 != 0
    ensures Trailing(x, if x % 4 % 2 == 0 then 2 - x % 4 / 2 else 0)
  {
    hide Pow2;
    SmallPowers();
    LastTwo(x);
    assert x % 4 % 2 == 0 <==> x % 4 == 2;
  }

  lemma LastTwo(x: nat)
    ensures x % 4 == 2 ==> x % 2 == 0 && x / 2 % 2 == 1
    ensures x % 4 == 1 || x % 4 == 3 ==> x % 2 == 1
    ensures x % 1 == 0 && x / 1 == x
  {
    var y := x / 4;
    assert x == 4 * y + x % 4;
    if x % 4 == 2 {
      assert x == 2 * (2 * y + 1);
    } else if x % 4 == 1 {
      assert x == 2 * (2 * y) + 1;
    } else if x % 4 == 3 {
      assert x == 2 * (2 * y + 1) + 1;
    }
  }

  // ---- shifting double words ----

  /** A word cut at bit `k`. */
  lemma Cut(x: nat, k: nat)
    requires x < WORD && 0 < k < 32
    ensures Pow2(k) * Pow2(32 - k) == WORD
    ensures x == Shr(x, k) * Pow2(k) + x % Pow2(k) && x % Pow2(k) < Pow2(k) && Shr(x, k) < Pow2(32 - k)
    ensures Shl(x, 32 - k) == x % Pow2(k) * Pow2(32 - k)
  {
    hide Pow2;
    SmallPowers();
    Pow2Add(k, 32 - k);
    var p, p' := Pow2(k), Pow2(32 - k);
    DivMod(x, p);
    DivAtLeast(x, p, p');
    Commute(p, p');
    var h, l := Shr(x, k), x % p;
    Product(h, p, l, p');
    Below(l, p, p');
    RemainderIs(x * p', WORD, h, l * p');
  }

  lemma Commute(a: nat, b: nat)
    ensures a * b == b * a
  {
  }

  lemma Product(h: nat, p: nat, l: nat, p': nat)
    ensures (h * p + l) * p' == h * (p * p') + l * p'
  {
    assert (h * p + l) * p' == h * p * p' + l * p';
    assert h * p * p' == h * (p * p');
  }

  /** Shifting a double word right within its words. */
  lemma ShiftRight(h: nat, l: nat, k: nat)
    requires h < WORD && l < WORD && 0 < k < 32
    ensures Join(Shr(h, k), Or(Shl(h, 32 - k), Shr(l, k))) == Shr(Join(h, l), k)
    ensures Join(h, l) % Pow2(k) == l % Pow2(k)
  {
    hide Pow2, Shl, Shr, Or;
    Cut(h, k);
    Cut(l, k);
    var p, p' := Pow2(k), Pow2(32 - k);
    var h1, h0, l1, l0 := Shr(h, k), h % p, Shr(l, k), l % p;
    OrDisjoint(h0, l1, 32 - k);
    JoinCut(h1, h0, l1, l0, p, p');
    ShrIs(Join(h, l), k);
    RemainderIs(Join(h, l), p, h1 * WORD + (h0 * p' + l1), l0);
  }

  lemma ShrIs(x: nat, k: nat)
    ensures Shr(x, k) == x / Pow2(k)
  {
  }

  lemma JoinCut(h1: nat, h0: nat, l1: nat, l0: nat, p: nat, p': nat)
    requires p * p' == WORD
    ensures (h1 * p + h0) * WORD + (l1 * p + l0) == (h1 * WORD + (h0 * p' + l1)) * p + l0
  {
    assert (h1 * p + h0) * WORD == h1 * p * WORD + h0 * (p * p');
    assert (h1 * WORD + (h0 * p' + l1)) * p == h1 * WORD * p + (h0 * p') * p + l1 * p;
    assert (h0 * p') * p == h0 * (p * p');
  }

  // ---- the shift-subtract loop ----

  /** `q` and `r` are quotient and remainder, in double words. */
  predicate IsDivision(n: nat, d: nat, q: nat, r: nat) { n == q * d + r && r < d && q < DWORD }

  /** With `k` bits of the numerator still to be brought down: `r` is what is left of the part above them, `quot`
      the quotient so far, and `q` holds the `k` bits on top and all of `quot` but its last bit, `carry`. */
  ghost predicate Dividing(n: nat, d: nat, k: nat, q: nat, r: nat, carry: nat, quot: nat) {
    && k < 64 && carry == quot % 2 && quot / 2 < Pow2(64 - k)
    && n / Pow2(k) == quot * d + r && r < d
    && q == n % Pow2(k) * Pow2(64 - k) + quot / 2
  }

  /** The bit that the shift moves from `q` into `r`, and what is left in `q`. */
  lemma TopBit(n: nat, d: nat, k: nat, q: nat, r: nat, carry: nat, quot: nat) returns (b: nat)
    requires Dividing(n, d, k, q, r, carry, quot) && 0 < k && n < DWORD
    ensures b < 2 && q < DWORD && b == TopBitOf(q)
    ensures Wrap(2 * q + carry) == n % Pow2(k - 1) * Pow2(64 - (k - 1)) + quot
    ensures n / Pow2(k - 1) == 2 * quot * d + (2 * r + b) && 2 * r + b < 2 * d && quot < Pow2(64 - (k - 1))
  {
    hide *;
    DividingIs(n, d, k, q, r, carry, quot);
    b := NextBit(n, k);
    var p, p', low := Pow2(k - 1), Pow2(64 - k), n % Pow2(k - 1);
    PowerFacts(k);
    Regroup(b, p, low, p');
    DivMod(n, p);
    Below(low, p, p');
    QueueSplit(q, b, low * p', quot / 2, carry, p', quot);
    Doubling(low, p');
    Doubling(d, quot);
  }

  lemma DividingIs(n: nat, d: nat, k: nat, q: nat, r: nat, carry: nat, quot: nat)
    ensures Dividing(n, d, k, q, r, carry, quot) <==>
            && k < 64 && carry == quot % 2 && quot / 2 < Pow2(64 - k)
            && n / Pow2(k) == quot * d + r && r < d
            && q == n % Pow2(k) * Pow2(64 - k) + quot / 2
  {
  }

  lemma QueueSplit(q: nat, b: nat, bits: nat, half: nat, carry: nat, room: nat, quot: nat)
    requires q == b * TOP + bits + half && bits + room <= TOP && half < room && b < 2 && half == quot / 2 && carry == quot % 2
    ensures q < DWORD && TopBitOf(q) == b && Wrap(2 * q + carry) == 2 * bits + quot && quot < 2 * room
  {
    assert 2 * q + carry == b * DWORD + (2 * bits + quot);
  }

  lemma Doubling(a: nat, b: nat)
    ensures a * (2 * b) == 2 * (a * b) && 2 * b * a == 2 * (b * a)
  {
  }

  lemma Regroup(b: nat, p: nat, low: nat, p': nat)
    requires p * p' == TOP
    ensures (b * p + low) * p' == b * TOP + low * p'
  {
    Product(b, p, low, p');
  }

  lemma PowerFacts(k: nat)
    requires 0 < k < 64
    ensures Pow2(k - 1) * Pow2(64 - k) == TOP && Pow2(64 - (k - 1)) == 2 * Pow2(64 - k) && Pow2(64) == DWORD
    ensures Pow2(k) == 2 * Pow2(k - 1)
  {
    Pow2Add(k - 1, 64 - k);
    SmallPowers();
  }

  /** The sign of `d - r - 1` as a signed double word says whether `r` reaches `d`; the difference does not overflow,
      not even for a divisor with the top bit set. */
  lemma SignMask(d: nat, r: nat)
    requires 0 < d < DWORD && r < 2 * d && r < DWORD && (d > TOP ==> r >= TOP)
    ensures Wrap(d - r - 1) >= TOP <==> r >= d
  {
    if r >= d {
      assert Wrap(d - r - 1) == d - r - 1 + DWORD;
    } else {
      assert Wrap(d - r - 1) == d - r - 1;
    }
  }

  /** A divisor with the top bit set needs one round only, on a numerator with the top bit set. */
  predicate TopCase(n: nat, d: nat, k: nat, quot: nat) { d > TOP && k > 0 ==> k == 1 && quot == 0 && n >= TOP }

  lemma RoundFits(n: nat, d: nat, k: nat, quot: nat, r2: nat)
    requires 0 < k && n < DWORD && n / Pow2(k - 1) == 2 * quot * d + r2 && TopCase(n, d, k, quot)
    ensures r2 < DWORD
    ensures d > TOP ==> r2 >= TOP
  {
    hide Pow2;
    SmallPowers();
    QuotientSmall(n, Pow2(k - 1));
    assert 2 * quot * d >= 0;
    if d > TOP {
      assert n / Pow2(k - 1) == n;
      assert quot == 0;
    }
  }

  lemma QuotientSmall(n: nat, p: nat)
    requires p > 0
    ensures n / p <= n
  {
    DivNatural(n, p);
    DivMod(n, p);
    AtLeastSelf(n / p, p);
  }

  lemma AtLeastSelf(a: nat, p: nat)
    requires p > 0
    ensures a * p >= a
  {
    Grows(1, p, a);
    Commute(a, p);
  }

  /** One round of the loop on the double words. */
  lemma Round(n: nat, d: nat, k: nat, q: nat, r: nat, carry: nat, quot: nat)
    requires Dividing(n, d, k, q, r, carry, quot) && 0 < k && n < DWORD && 0 < d < DWORD && TopCase(n, d, k, quot)
    ensures q < DWORD
    ensures var q2, r2 := Wrap(2 * q + carry), 2 * r + TopBitOf(q);
            var c := if Wrap(d - r2 - 1) >= TOP then 1 else 0;
            && r2 < DWORD && (c == 1 ==> r2 >= d)
            && Dividing(n, d, k - 1, q2, if c == 1 then r2 - d else r2, c, 2 * quot + c) && TopCase(n, d, k - 1, 2 * quot + c)
  {
    hide Pow2;
    var b := TopBit(n, d, k, q, r, carry, quot);
    var q2, r2 := Wrap(2 * q + carry), 2 * r + b;
    RoundFits(n, d, k, quot, r2);
    SignMask(d, r2);
    var c := if r2 >= d then 1 else 0;
    assert (2 * quot + c) / 2 == quot && (2 * quot + c) % 2 == c;
    assert (2 * quot + c) * d == 2 * quot * d + c * d;
  }

  lemma ShiftWord(h: nat, b: nat)
    requires h < WORD && b < 2
    ensures Or(Shl(h, 1), b) == 2 * (h % 0x8000_0000) + b && Shr(h, 31) == h / 0x8000_0000
  {
    hide Pow2, Or;
    SmallPowers();
    OrDisjoint(h % 0x8000_0000, b, 1);
    assert h * 2 % WORD == h % 0x8000_0000 * 2;
  }

  /** Shifting a double word left by one, a bit coming in. */
  lemma ShiftLeftOne(h: nat, l: nat, c: nat)
    requires h < WORD && l < WORD && c < 2
    ensures var h', l' := Or(Shl(h, 1), Shr(l, 31)), Or(Shl(l, 1), c);
            && h' < WORD && l' < WORD && Join(h', l') == Wrap(2 * Join(h, l) + c)
    ensures Shr(h, 31) == TopBitOf(Join(h, l)) && Shr(h, 31) < 2
  {
    hide Pow2, Or, Shl, Shr;
    ShiftWord(l, c);
    ShiftWord(h, Shr(l, 31));
    var ht, lt, hb, lb := h / 0x8000_0000, l / 0x8000_0000, h % 0x8000_0000, l % 0x8000_0000;
    assert 2 * Join(h, l) + c == ht * DWORD + Join(hb * 2 + lt, lb * 2 + c);
  }

  /** The body of the loop at the end of `__udivmoddi4`. */
  method DivideRound(qh: nat, ql: nat, rh: nat, rl: nat, carry: nat, d: nat, ghost n: nat, ghost k: nat, ghost quot: nat)
    returns (qh': nat, ql': nat, rh': nat, rl': nat, carry': nat)
    requires qh < WORD && ql < WORD && rh < WORD && rl < WORD && 0 < d < DWORD && n < DWORD && 0 < k && carry < 2
    requires Dividing(n, d, k, Join(qh, ql), Join(rh, rl), carry, quot) && TopCase(n, d, k, quot)
    ensures qh' < WORD && ql' < WORD && rh' < WORD && rl' < WORD && carry' < 2
    ensures Dividing(n, d, k - 1, Join(qh', ql'), Join(rh', rl'), carry', 2 * quot + carry')
    ensures TopCase(n, d, k - 1, 2 * quot + carry')
  {
    hide *;
    Round(n, d, k, Join(qh, ql), Join(rh, rl), carry, quot);
    ShiftLeftOne(qh, ql, carry);
    ShiftLeftOne(rh, rl, Shr(qh, 31));
    rh', rl' := Or(Shl(rh, 1), Shr(rl, 31)), Or(Shl(rl, 1), Shr(qh, 31));
    qh', ql' := Or(Shl(qh, 1), Shr(ql, 31)), Or(Shl(ql, 1), carry);
    var rest: nat := Join(rh', rl');
    Small(2 * Join(rh, rl) + TopBitOf(Join(qh, ql)));
    var s := if Wrap(d - rest - 1) >= TOP then -1 else 0;
    carry' := if s == -1 then 1 else 0;
    rest := rest - if s == -1 then d else 0;
    rh', rl' := High(rest), Low(rest);
    Rejoin(rest);
  }

  lemma Small(x: nat)
    ensures x < DWORD ==> Wrap(x) == x
  {
  }

  lemma Rejoin(x: nat)
    requires x < DWORD
    ensures High(x) < WORD && Low(x) < WORD && Join(High(x), Low(x)) == x
  {
  }

  /** The loop at the end of `__udivmoddi4`. */
  method ShiftSubtract(qh0: nat, ql0: nat, rh0: nat, rl0: nat, d: nat, sr0: nat, ghost n: nat)
    returns (q: nat, r: nat)
    requires qh0 < WORD && ql0 < WORD && rh0 < WORD && rl0 < WORD && 0 < d < DWORD && n < DWORD
    requires Dividing(n, d, sr0, Join(qh0, ql0), Join(rh0, rl0), 0, 0) && TopCase(n, d, sr0, 0)
    ensures IsDivision(n, d, q, r)
  {
    hide *;
    var qh: nat, ql: nat, rh: nat, rl: nat := qh0, ql0, rh0, rl0;
    var sr: nat, carry: nat := sr0, 0;
    ghost var quot: nat := 0;
    while sr > 0
      invariant qh < WORD && ql < WORD && rh < WORD && rl < WORD && carry < 2
      invariant Dividing(n, d, sr, Join(qh, ql), Join(rh, rl), carry, quot) && TopCase(n, d, sr, quot)
      decreases sr
    {
      qh, ql, rh, rl, carry := DivideRound(qh, ql, rh, rl, carry, d, n, sr, quot);
      quot := 2 * quot + carry;
      sr := sr - 1;
    }
    Finished(n, d, Join(qh, ql), Join(rh, rl), carry, quot);
    q := Wrap(2 * Join(qh, ql) + carry);
    r := Join(rh, rl);
  }

  lemma Finished(n: nat, d: nat, q: nat, r: nat, carry: nat, quot: nat)
    requires Dividing(n, d, 0, q, r, carry, quot) && n < DWORD && d > 0
    ensures Wrap(2 * q + carry) == quot && IsDivision(n, d, quot, r)
  {
    hide Pow2;
    SmallPowers();
    assert n / 1 == n && n % 1 == 0;
    AtLeastSelf(quot, d);
    assert 0 * DWORD == 0;
  }

  // ---- the branches of `__udivmoddi4` ----

  lemma WordByWord(n: nat, d: nat)
    requires n < WORD && 0 < d
    ensures IsDivision(n, d, Quot(n, d), Rem(n, d))
  {
    DivMod(n, d);
    DivNatural(n, d);
    QuotientSmall(n, d);
  }

  lemma Smaller(n: nat, d: nat)
    requires n < d
    ensures IsDivision(n, d, 0, n)
  {
  }

  /** Both low words are zero. */
  lemma BothShifted(nh: nat, dh: nat)
    requires nh < WORD && 0 < dh
    ensures IsDivision(Join(nh, 0), Join(dh, 0), Quot(nh, dh), Join(Rem(nh, dh), 0))
  {
    DivMod(nh, dh);
    DivNatural(nh, dh);
    QuotientSmall(nh, dh);
    assert nh / dh * dh * WORD == nh / dh * (dh * WORD);
  }

  /** A power of two in the high word. */
  lemma PowerHigh(nh: nat, nl: nat, c: nat)
    requires nh < WORD && nl < WORD
    ensures IsDivision(Join(nh, nl), Join(Pow2(c), 0), Shr(nh, c), Join(And(nh, Pow2(c) - 1), nl))
  {
    hide And, Pow2;
    var p := Pow2(c);
    AndLow(nh, c);
    DivMod(nh, p);
    QuotientSmall(nh, p);
    assert Shr(nh, c) * p * WORD == Shr(nh, c) * (p * WORD);
  }

  lemma ShrDivides(n: nat, c: nat)
    requires n < DWORD
    ensures IsDivision(n, Pow2(c), Shr(n, c), n % Pow2(c))
  {
    hide Pow2;
    DivMod(n, Pow2(c));
    QuotientSmall(n, Pow2(c));
  }

  /** A power of two in the low word. */
  lemma PowerLow(nh: nat, nl: nat, c: nat)
    requires nh < WORD && nl < WORD && c < 32
    ensures c == 0 ==> IsDivision(Join(nh, nl), Pow2(c), Join(nh, nl), And(nl, Pow2(c) - 1))
    ensures c > 0 ==> IsDivision(Join(nh, nl), Pow2(c), Join(Shr(nh, c), Or(Shl(nh, 32 - c), Shr(nl, c))), And(nl, Pow2(c) - 1))
  {
    hide *;
    JoinFacts(nh, nl);
    AndLow(nl, c);
    ShrDivides(Join(nh, nl), c);
    if c == 0 {
      SmallPowers();
      ShrIs(Join(nh, nl), 0);
    } else {
      ShiftRight(nh, nl, c);
    }
  }

  /** The loop's registers hold `n` cut at bit `sr`. */
  predicate Loaded(n: nat, sr: nat, q: nat, r: nat) {
    0 < sr < 64 && q == n % Pow2(sr) * Pow2(64 - sr) && r == Shr(n, sr)
  }

  lemma LoadLow(nh: nat, nl: nat, sr: nat)
    requires nh < WORD && nl < WORD && 0 < sr < 32
    ensures Loaded(Join(nh, nl), sr, Join(Shl(nl, 32 - sr), 0), Join(Shr(nh, sr), Or(Shl(nh, 32 - sr), Shr(nl, sr))))
    ensures Shl(nl, 32 - sr) < WORD && Shr(nh, sr) < WORD && Or(Shl(nh, 32 - sr), Shr(nl, sr)) < WORD
  {
    hide Pow2, Or, Shl, Shr;
    ShiftRight(nh, nl, sr);
    Cut(nl, sr);
    WordShifts(nh, nl, sr);
    MovedUp(Shl(nl, 32 - sr), nl % Pow2(sr), sr);
    hide Join;
  }

  lemma MovedUp(x: nat, low: nat, sr: nat)
    requires 0 < sr < 32 && x == low * Pow2(32 - sr)
    ensures Join(x, 0) == low * Pow2(64 - sr)
  {
    hide Pow2;
    SmallPowers();
    Pow2Add(32, 32 - sr);
    MulAssoc(low, Pow2(32 - sr), WORD);
  }

  /** Shifted words are words. */
  lemma WordShifts(h: nat, l: nat, k: nat)
    requires h < WORD && l < WORD && 0 < k < 32
    ensures Shl(l, 32 - k) < WORD && Shr(h, k) < WORD && Or(Shl(h, 32 - k), Shr(l, k)) < WORD
  {
    Cut(h, k);
    Cut(l, k);
    hide Pow2, Or;
    var p, p' := Pow2(k), Pow2(32 - k);
    QuotientSmall(h, p);
    OrDisjoint(h % p, Shr(l, k), 32 - k);
    Below(h % p, p, p');
  }

  lemma LoadMid(nh: nat, nl: nat)
    requires nh < WORD && nl < WORD
    ensures Loaded(Join(nh, nl), 32, Join(nl, 0), Join(0, nh))
  {
    SmallPowers();
    hide Pow2;
    ShrIs(Join(nh, nl), 32);
    RemainderIs(Join(nh, nl), WORD, nh, nl);
  }

  lemma LoadHigh(nh: nat, nl: nat, sr: nat)
    requires nh < WORD && nl < WORD && 32 < sr < 64
    ensures var k := sr - 32;
            && Loaded(Join(nh, nl), sr, Join(Or(Shl(nh, 32 - k), Shr(nl, k)), Shl(nl, 32 - k)), Join(0, Shr(nh, k)))
            && Shl(nl, 32 - k) < WORD && Shr(nh, k) < WORD && Or(Shl(nh, 32 - k), Shr(nl, k)) < WORD
  {
    hide Pow2, Or, Shl, Shr;
    var k := sr - 32;
    var p, p' := Pow2(k), Pow2(32 - k);
    Cut(nl, k);
    Cut(nh, k);
    WordShifts(nh, nl, k);
    OrDisjoint(nh % p, Shr(nl, k), 32 - k);
    SmallPowers();
    Pow2Add(k, 32);
    ShrIs(Join(nh, nl), sr);
    HighParts(nh, nl, Shr(nh, k), nh % p, Shr(nl, k), nl % p, p, p');
  }

  lemma HighParts(nh: nat, nl: nat, h1: nat, h0: nat, l1: nat, l0: nat, p: nat, p': nat)
    requires p > 0 && p * p' == WORD && nh == h1 * p + h0 && nl == l1 * p + l0 && h0 < p && l0 < p && nl < WORD
    ensures Join(nh, nl) / (p * WORD) == h1
    ensures Join(nh, nl) % (p * WORD) * p' == Join(h0 * p' + l1, l0 * p')
  {
    HighCut(nh, nl, h1, h0, p);
    Product(l1, p, l0, p');
    Times(h0, nl, p');
  }

  lemma HighCut(nh: nat, nl: nat, h1: nat, h0: nat, p: nat)
    requires p > 0 && nh == h1 * p + h0 && h0 < p && nl < WORD
    ensures Join(nh, nl) / (p * WORD) == h1 && Join(nh, nl) % (p * WORD) == Join(h0, nl)
  {
    assert h1 * p * WORD == h1 * (p * WORD);
    Below(h0, p, WORD);
    RemainderIs(Join(nh, nl), p * WORD, h1, Join(h0, nl));
  }

  lemma Times(h: nat, l: nat, p: nat)
    ensures Join(h, l) * p == h * p * WORD + l * p
  {
    assert (h * WORD + l) * p == h * WORD * p + l * p;
  }

  lemma Starts(n: nat, d: nat, sr: nat, q: nat, r: nat)
    requires Loaded(n, sr, q, r) && r < d
    ensures Dividing(n, d, sr, q, r, 0, 0)
  {
    hide Pow2;
    assert 0 * d == 0;
  }

  /** The shift count leaves less than the divisor. */
  lemma CountHigh(nh: nat, nl: nat, d: nat, dh: nat, cn: nat, cd: nat)
    requires Leading(nh, cn) && Leading(dh, cd) && nl < WORD && dh * WORD <= d
    ensures cd < cn ==> Join(nh, nl) < d
    ensures cd >= cn ==> Shr(Join(nh, nl), cd - cn + 1) < d && (TOP < d ==> cd == 0 ==> Join(nh, nl) >= TOP)
  {
    hide Pow2;
    SmallPowers();
    if cd < cn {
      if cn - cd > 1 { Pow2Increases(32 - cn, 31 - cd); }
      assert nh < Pow2(31 - cd) <= dh;
    } else {
      var k := cd - cn + 1;
      Pow2Add(31 - cd, k);
      assert 32 - cn == 31 - cd + k;
      Grows(nh + 1, Pow2(32 - cn), WORD);
      var e := Pow2(31 - cd) * WORD;
      assert Pow2(31 - cd) * Pow2(k) * WORD == e * Pow2(k);
      DivAtLeast(Join(nh, nl), Pow2(k), e);
      Grows(Pow2(31 - cd), dh, WORD);
    }
  }

  lemma CountLow(nh: nat, nl: nat, dl: nat, cn: nat, cd: nat)
    requires Leading(nh, cn) && Leading(dl, cd) && nl < WORD && 1 < dl
    ensures 2 <= 33 + cd - cn < 64 && Shr(Join(nh, nl), 33 + cd - cn) < dl
  {
    hide Pow2;
    SmallPowers();
    assert cd < 31;
    var k := 33 + cd - cn;
    Pow2Add(31 - cd, k);
    Pow2Add(32 - cn, 32);
    assert 31 - cd + k == 32 - cn + 32;
    Grows(nh + 1, Pow2(32 - cn), WORD);
    DivAtLeast(Join(nh, nl), Pow2(k), Pow2(31 - cd));
  }

  /** `__udivmoddi4`: for every divisor but zero. */
  method Udivmoddi4(a: nat, b: nat) returns (quot: nat, rem: nat)
    requires a < DWORD && 0 < b < DWORD
    ensures a == quot * b + rem && rem < b && quot < DWORD
  {
    hide *;
    Rejoin(a);
    Rejoin(b);
    JoinFacts(High(b), Low(b));
    quot, rem := DivideWords(High(a), Low(a), High(b), Low(b));
    DivisionIs(a, b, quot, rem);
  }

  lemma DivisionIs(n: nat, d: nat, q: nat, r: nat)
    ensures IsDivision(n, d, q, r) <==> n == q * d + r && r < d && q < DWORD
  {
  }

  method DivideWords(nh: nat, nl: nat, dh: nat, dl: nat) returns (quot: nat, rem: nat)
    requires nh < WORD && nl < WORD && dh < WORD && dl < WORD && (dh > 0 || dl > 0)
    ensures IsDivision(Join(nh, nl), Join(dh, dl), quot, rem)
  {
    hide *;
    JoinFacts(nh, nl);
    JoinFacts(dh, dl);
    if nh == 0 {
      if dh == 0 {
        WordByWord(nl, dl);
        return Quot(nl, dl), Rem(nl, dl);
      }
      Smaller(nl, Join(dh, dl));
      return 0, nl;
    }
    if dl == 0 {
      quot, rem := DivideByHigh(nh, nl, dh);
    } else if dh == 0 {
      quot, rem := DivideByLow(nh, nl, dl);
    } else {
      quot, rem := DivideByBoth(nh, nl, dh, dl);
    }
  }

  lemma JoinFacts(h: nat, l: nat)
    requires h < WORD && l < WORD
    ensures Join(h, l) < DWORD && (h == 0 ==> Join(h, l) == l) && (h > 0 ==> Join(h, l) >= WORD) && h * WORD <= Join(h, l)
    ensures Join(h, l) >= TOP <==> h >= 0x8000_0000
    ensures Join(h, l) == 0 <==> h == 0 && l == 0
  {
  }

  /** The branch for a divisor with an empty low word. */
  method DivideByHigh(nh: nat, nl: nat, dh: nat) returns (quot: nat, rem: nat)
    requires 0 < nh < WORD && nl < WORD && 0 < dh < WORD
    ensures IsDivision(Join(nh, nl), Join(dh, 0), quot, rem)
  {
    hide *;
    var n, d := Join(nh, nl), Join(dh, 0);
    JoinFacts(nh, nl);
    JoinFacts(dh, 0);
    if nl == 0 {
      BothShifted(nh, dh);
      return Quot(nh, dh), Join(Rem(nh, dh), 0);
    }
    if And(dh, dh - 1) == 0 {
      var c := Ctzsi2(dh);
      TestPower(dh, c);
      PowerHigh(nh, nl, c);
      return Shr(nh, c), Join(And(nh, dh - 1), nl);
    }
    var cd := Clzsi2(dh);
    var cn := Clzsi2(nh);
    CountHigh(nh, nl, d, dh, cn, cd);
    ClzRange(dh, cd);
    ClzRange(nh, cn);
    WordIs();
    var diff := (cd as int) - (cn as int);
    Wrap32Is(diff);
    var sr := Wrap32(diff);
    if sr > 30 {
      OneIsPower();
      Smaller(n, d);
      return 0, n;
    }
    sr := sr + 1;
    LoadLow(nh, nl, sr);
    var ql, qh := 0, Shl(nl, 32 - sr);
    var rh, rl := Shr(nh, sr), Or(Shl(nh, 32 - sr), Shr(nl, sr));
    LoadedIs(n, sr, Join(qh, ql), Join(rh, rl));
    Starts(n, d, sr, Join(qh, ql), Join(rh, rl));
    TopCaseIs(n, d, sr);
    quot, rem := ShiftSubtract(qh, ql, rh, rl, d, sr, n);
  }

  lemma LoadedIs(n: nat, sr: nat, q: nat, r: nat)
    requires Loaded(n, sr, q, r)
    ensures 0 < sr < 64 && r == Shr(n, sr)
  {
  }

  lemma TopCaseIs(n: nat, d: nat, k: nat)
    ensures TopCase(n, d, k, 0) <==> (d > TOP && k > 0 ==> k == 1 && n >= TOP)
  {
  }

  lemma TestPower(x: nat, c: nat)
    requires x > 0 && Trailing(x, c)
    ensures c < 32 && (And(x, x - 1) == 0 <==> x == Pow2(c))
  {
    hide And, Pow2;
    PowerTest(x, c);
  }

  lemma OneIsPower()
    ensures And(1, 0) == 0
  {
  }

  /** Counts are below 32, 31 only for the number one, 0 only with the top bit set. */
  lemma ClzRange(x: nat, c: nat)
    requires Leading(x, c)
    ensures c < 32 && (c == 31 ==> x == 1) && (c == 0 <==> x >= 0x8000_0000)
  {
    hide Pow2;
    SmallPowers();
    if 0 < c && c < 31 {
      if c > 1 { Pow2Increases(32 - c, 31); }
    }
  }

  /** The branch for a divisor that fits the low word. */
  method DivideByLow(nh: nat, nl: nat, dl: nat) returns (quot: nat, rem: nat)
    requires 0 < nh < WORD && nl < WORD && 0 < dl < WORD
    ensures IsDivision(Join(nh, nl), Join(0, dl), quot, rem)
  {
    hide *;
    var n, d := Join(nh, nl), Join(0, dl);
    JoinFacts(nh, nl);
    JoinFacts(0, dl);
    if And(dl, dl - 1) == 0 {
      rem := And(nl, dl - 1);
      ghost var e := Exponent(dl);
      PowerLow(nh, nl, e);
      if dl == 1 {
        PowerIsOne(e);
        return Join(nh, nl), rem;
      }
      var c := Ctzsi2(dl);
      TestPower(dl, c);
      PowerLow(nh, nl, c);
      PowerIsOne(c);
      quot := Join(Shr(nh, c), Or(Shl(nh, 32 - c), Shr(nl, c)));
      return;
    }
    var cd := Clzsi2(dl);
    var cn := Clzsi2(nh);
    if dl == 1 { OneIsPower(); }
    CountLow(nh, nl, dl, cn, cd);
    var sr := 1 + 32 + cd - cn;
    var qh: nat, ql: nat, rh: nat, rl: nat;
    if sr == 32 {
      LoadMid(nh, nl);
      qh, ql, rh, rl := nl, 0, 0, nh;
    } else if sr < 32 {
      LoadLow(nh, nl, sr);
      qh, ql := Shl(nl, 32 - sr), 0;
      rh, rl := Shr(nh, sr), Or(Shl(nh, 32 - sr), Shr(nl, sr));
    } else {
      LoadHigh(nh, nl, sr);
      ql := Shl(nl, 64 - sr);
      qh := Or(Shl(nh, 64 - sr), Shr(nl, sr - 32));
      rh, rl := 0, Shr(nh, sr - 32);
    }
    LoadedIs(n, sr, Join(qh, ql), Join(rh, rl));
    Starts(n, d, sr, Join(qh, ql), Join(rh, rl));
    TopCaseIs(n, d, sr);
    quot, rem := ShiftSubtract(qh, ql, rh, rl, d, sr, n);
  }

  lemma PowerIsOne(c: nat)
    ensures Pow2(c) == 1 <==> c == 0
  {
  }

  /** Every word has a lowest set bit. */
  lemma Exponent(x: nat) returns (c: nat)
    requires 0 < x < WORD && And(x, x - 1) == 0
    ensures c < 32 && x == Pow2(c)
  {
    c := LowestBit(x, 32) by { SmallPowers(); }
    TestPower(x, c);
  }

  lemma {:induction false} LowestBit(x: nat, m: nat) returns (c: nat)
    requires 0 < x < Pow2(m) && m <= 32
    ensures c < m && Trailing(x, c)
    decreases m
  {
    if x % 2 == 1 {
      c := 0;
      assert x / 1 == x;
    } else {
      c := LowestBit(x / 2, m - 1);
      TrailingShift(x, 1, c);
      c := c + 1;
    }
  }

  /** The branch for a divisor with both words in use. */
  method DivideByBoth(nh: nat, nl: nat, dh: nat, dl: nat) returns (quot: nat, rem: nat)
    requires 0 < nh < WORD && nl < WORD && 0 < dh < WORD && 0 < dl < WORD
    ensures IsDivision(Join(nh, nl), Join(dh, dl), quot, rem)
  {
    hide *;
    var n, d := Join(nh, nl), Join(dh, dl);
    JoinFacts(nh, nl);
    JoinFacts(dh, dl);
    var cd := Clzsi2(dh);
    var cn := Clzsi2(nh);
    CountHigh(nh, nl, d, dh, cn, cd);
    ClzRange(dh, cd);
    ClzRange(nh, cn);
    WordIs();
    var diff := (cd as int) - (cn as int);
    Wrap32Is(diff);
    var sr := Wrap32(diff);
    if sr > 31 {
      Smaller(n, d);
      return 0, n;
    }
    sr := sr + 1;
    var qh: nat, ql: nat, rh: nat, rl: nat;
    ql := 0;
    if sr == 32 {
      LoadMid(nh, nl);
      qh, rh, rl := nl, 0, nh;
    } else {
      LoadLow(nh, nl, sr);
      qh := Shl(nl, 32 - sr);
      rh, rl := Shr(nh, sr), Or(Shl(nh, 32 - sr), Shr(nl, sr));
    }
    LoadedIs(n, sr, Join(qh, ql), Join(rh, rl));
    Starts(n, d, sr, Join(qh, ql), Join(rh, rl));
    TopCaseIs(n, d, sr);
    quot, rem := ShiftSubtract(qh, ql, rh, rl, d, sr, n);
  }
}
