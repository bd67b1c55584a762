/** The word-by-word steps of multiword arithmetic: dividing two words by one, multiplying two words into two,
    and multiplying double words by shifting and adding. */
module LongLong {
  import opened Powers
  import opened WordDivision

  // ---- halves of a word ----

  // A word has two half words; `H` is the base of a half word, 2^16 or 2^32.

  function Word(H: nat): nat { H * H }

  function UpperHalf(x: nat, H: nat): nat
    requires H > 0
  {
    Quot(x, H)
  }

  function LowerHalf(x: nat, H: nat): nat
    requires H > 0
  {
    Rem(x, H)
  }

  /** Two halves side by side; the lower one fills the zeros that the shift leaves. */
  function Joined(h: nat, l: nat, H: nat): nat { h * H + l }

  function Mul(a: nat, b: nat): nat { a * b }

  /** Words wrap around. */
  function Cut(x: int, W: nat): nat
    requires W > 0
  {
    x % W
  }

  lemma CutIs(x: int, W: nat)
    requires W > 0
    ensures 0 <= x < W ==> Cut(x, W) == x
    ensures W <= x < 2 * W ==> Cut(x, W) == x - W
    ensures 0 - W <= x < 0 ==> Cut(x, W) == x + W
  {
    if 0 <= x < W {
      RemainderIs(x, W, 0, x);
    } else if W <= x < 2 * W {
      RemainderIs(x, W, 1, x - W);
    } else if 0 - W <= x < 0 {
      RemainderIs(x, W, -1, x + W);
    }
  }

  lemma HalvesOf(x: nat, H: nat)
    requires H > 0
    ensures x == UpperHalf(x, H) * H + LowerHalf(x, H) && LowerHalf(x, H) < H
    ensures Joined(UpperHalf(x, H), LowerHalf(x, H), H) == x
    ensures x < Word(H) ==> UpperHalf(x, H) < H
  {
    DivMod(x, H);
    if x < Word(H) && UpperHalf(x, H) >= H {
      Grows(H, UpperHalf(x, H), H);
    }
  }

  // ---- __udiv_qrnnd_c ----

  /** Quotient and remainder. */
  predicate Divided(N: int, d: nat, q: int, r: int) { N == q * d + r && 0 <= r < d }

  /** The estimate from the upper half of the divisor: what it leaves, and how far off it can be. */
  lemma Estimate(n1: nat, nh: nat, d: nat, H: nat, d1: nat, d0: nat, q1: nat, r1: nat)
    requires H >= 2 && d == d1 * H + d0 && d0 < H && Word(H) <= 2 * d && d < Word(H) && n1 < d && nh < H
    requires d1 > 0 && n1 == q1 * d1 + r1 && r1 < d1
    ensures Mul(q1, d0) < Word(H)
    ensures Joined(r1, nh, H) < d && Joined(r1, nh, H) < Word(H)
    ensures Joined(n1, nh, H) == Mul(q1, d) + Joined(r1, nh, H) - Mul(q1, d0)
  {
    HalfLarge(d, H, d1, d0);
    EstimateBound(n1, d, H, d1, d0, q1, r1);
    ProductBound(q1, d0, H);
    Grows(r1 + 1, d1, H);
    Succ(r1, H);
    Expand(q1, d1, r1, H, d0);
  }

  lemma ProductBound(q1: nat, d0: nat, H: nat)
    requires q1 <= H + 1 && d0 < H
    ensures q1 * d0 < Word(H)
  {
    Grows(q1, H + 1, d0);
    Grows(d0, H - 1, H + 1);
    assert (H - 1) * (H + 1) == Word(H) - 1;
    Commute(H + 1, d0);
  }

  lemma HalfLarge(d: nat, H: nat, d1: nat, d0: nat)
    requires H >= 2 && d == d1 * H + d0 && d0 < H && Word(H) <= 2 * d
    ensures 2 * d1 >= H - 1
  {
    assert (H - 2) * H == Word(H) - 2 * H;
    assert 2 * d1 * H == 2 * (d1 * H);
    if 2 * d1 <= H - 2 {
      Grows(2 * d1, H - 2, H);
    }
  }

  lemma EstimateBound(n1: nat, d: nat, H: nat, d1: nat, d0: nat, q1: nat, r1: nat)
    requires H >= 2 && d == d1 * H + d0 && d0 < H && 2 * d1 >= H - 1 && n1 < d && n1 == q1 * d1 + r1
    ensures q1 <= H + 1
  {
    assert (H + 2) * d1 == d1 * H + 2 * d1;
    if q1 >= H + 2 {
      Grows(H + 2, q1, d1);
    }
  }

  lemma Expand(q1: nat, d1: nat, r1: nat, H: nat, d0: nat)
    ensures (q1 * d1 + r1) * H == q1 * (d1 * H + d0) + r1 * H - q1 * d0
  {
    assert (q1 * d1 + r1) * H == q1 * d1 * H + r1 * H;
    assert q1 * (d1 * H + d0) == q1 * (d1 * H) + q1 * d0;
    assert q1 * d1 * H == q1 * (d1 * H);
  }

  /** At most two corrections turn the estimate into the digit. */
  lemma Corrections(N: nat, d: nat, W: nat, q1: nat, r1: nat, m: nat)
    requires 0 < d < W && W <= 2 * d && N == Mul(q1, d) + r1 - m && r1 < d && m < W
    ensures r1 >= m ==> Divided(N, d, q1, Cut(r1 - m, W))
    ensures var v := Cut(r1 + d, W);
            r1 < m ==> if v >= d && v < m then Divided(N, d, q1 - 2, Cut(Cut(v + d, W) - m, W))
                       else Divided(N, d, q1 - 1, Cut(v - m, W))
  {
    hide Cut;
    CutIs(r1 - m, W);
    CutIs(r1 + d, W);
    var v := Cut(r1 + d, W);
    Spread(q1, 1, d);
    Spread(q1, 2, d);
    if r1 < m {
      if v >= d && v < m {
        CutIs(v + d, W);
        CutIs(Cut(v + d, W) - m, W);
      } else {
        CutIs(v - m, W);
      }
    }
  }

  lemma DigitSmall(d: nat, H: nat, n1: nat, nh: nat, q: int, r: int)
    requires Divided(Joined(n1, nh, H), d, q, r) && n1 < d && nh < H
    ensures 0 <= q < H && 0 <= r < d
  {
    if q < 0 {
      AtLeast(-q, d);
      Spread(0, q, d);
    }
    if q >= H {
      Spread(q, H, d);
      if q > H { AtLeast(q - H, d); }
      Grows(n1 + 1, d, H);
      Succ(n1, H);
      Commute(d, H);
    }
  }

  lemma QuotRem(n: nat, d: nat)
    requires d > 0
    ensures n == Quot(n, d) * d + Rem(n, d) && Rem(n, d) < d
  {
    DivMod(n, d);
  }

  lemma UpperPositive(d: nat, H: nat)
    requires H >= 2 && Word(H) <= 2 * d
    ensures UpperHalf(d, H) > 0
  {
    HalvesOf(d, H);
    HalfLarge(d, H, UpperHalf(d, H), LowerHalf(d, H));
  }

  /** One half-word digit of the quotient. */
  method HalfDigit(n1: nat, nh: nat, d: nat, H: nat) returns (q: nat, r: nat, ghost corrections: nat)
    requires H >= 2 && 0 < d < Word(H) && Word(H) <= 2 * d && n1 < d && nh < H
    ensures Divided(Joined(n1, nh, H), d, q, r) && r < d && q < H
    ensures corrections <= 2 && UpperHalf(d, H) > 0 && q == Quot(n1, UpperHalf(d, H)) - corrections
  {
    hide *;
    HalvesOf(d, H);
    UpperPositive(d, H);
    var d1, d0 := UpperHalf(d, H), LowerHalf(d, H);
    var W := Word(H);
    QuotRem(n1, d1);
    var q1: int, r1: int := Quot(n1, d1), Rem(n1, d1);
    Estimate(n1, nh, d, H, d1, d0, q1, r1);
    CutIs(Mul(q1, d0), W);
    var m := Cut(Mul(q1, d0), W);
    r1 := Joined(r1, nh, H);
    Corrections(Joined(n1, nh, H), d, W, q1, r1, m);
    corrections := 0;
    if r1 < m {
      q1, r1 := q1 - 1, Cut(r1 + d, W);
      corrections := 1;
      if r1 >= d {
        if r1 < m {
          q1, r1 := q1 - 1, Cut(r1 + d, W);
          corrections := 2;
        }
      }
    }
    r1 := Cut(r1 - m, W);
    DigitSmall(d, H, n1, nh, q1, r1);
    q, r := q1, r1;
  }

  /** `__udiv_qrnnd_c`: for a divisor with the top bit set and a high word below it, the exact quotient and
      remainder of the two-word numerator. */
  method UdivQrnndC(n1: nat, n0: nat, d: nat, H: nat) returns (q: nat, r: nat)
    requires H >= 2 && n1 < d < Word(H) && n0 < Word(H) && Word(H) <= 2 * d
    ensures Divided(Joined(n1, n0, Word(H)), d, q, r) && q < Word(H)
    ensures n1 * (H * H) + n0 == q * d + r && r < d && q < H * H
  {
    hide *;
    HalvesOf(n0, H);
    var q1, r1, c1 := HalfDigit(n1, UpperHalf(n0, H), d, H);
    var q0, r0, c0 := HalfDigit(r1, LowerHalf(n0, H), d, H);
    TwoDigits(n1, n0, d, H, q1, r1, q0, r0);
    q, r := Joined(q1, q0, H), r0;
    DividedMeans(n1, n0, d, H, q, r);
  }

  lemma DividedMeans(n1: nat, n0: nat, d: nat, H: nat, q: nat, r: nat)
    ensures Divided(Joined(n1, n0, Word(H)), d, q, r) <==> n1 * (H * H) + n0 == q * d + r && 0 <= r < d
    ensures Word(H) == H * H
  {
  }

  lemma Distribute(a: nat, b: nat, p: nat)
    ensures (a + b) * p == a * p + b * p
  {
  }

  lemma Reassociate(a: nat, b: nat, c: nat)
    ensures a * b * c == a * c * b && a * b * c == a * (b * c)
  {
  }

  /** Long division by digits. */
  lemma LongDivision(n1: nat, h: nat, l: nat, d: nat, H: nat, q1: nat, r1: nat, q0: nat, r0: nat)
    requires n1 * H + h == q1 * d + r1 && r1 * H + l == q0 * d + r0
    ensures n1 * (H * H) + (h * H + l) == (q1 * H + q0) * d + r0
  {
    Distribute(n1 * H, h, H);
    Reassociate(n1, H, H);
    Distribute(q1 * d, r1, H);
    Reassociate(q1, d, H);
    Distribute(q1 * H, q0, d);
  }

  lemma TwoDigits(n1: nat, n0: nat, d: nat, H: nat, q1: nat, r1: nat, q0: nat, r0: nat)
    requires H >= 2 && n0 < Word(H) && q1 < H && q0 < H
    requires Divided(Joined(n1, UpperHalf(n0, H), H), d, q1, r1) && Divided(Joined(r1, LowerHalf(n0, H), H), d, q0, r0)
    ensures Divided(Joined(n1, n0, Word(H)), d, Joined(q1, q0, H), r0) && Joined(q1, q0, H) < Word(H)
  {
    hide UpperHalf, LowerHalf;
    HalvesOf(n0, H);
    LongDivision(n1, UpperHalf(n0, H), LowerHalf(n0, H), d, H, q1, r1, q0, r0);
    HalfPair(q1, q0, H);
  }

  lemma HalfPair(h: nat, l: nat, H: nat)
    requires H >= 2 && h < H && l < H
    ensures Joined(h, l, H) < Word(H)
  {
    Grows(h, H - 1, H);
    assert (H - 1) * H == H * H - H;
  }

  // ---- umul_ppmm ----

  lemma HalfProduct(a: nat, b: nat, H: nat)
    requires H >= 2 && a < H && b < H
    ensures Mul(a, b) + 2 * H <= Word(H) + 1
  {
    Grows(a, H - 1, b);
    Grows(b, H - 1, H - 1);
    Commute(H - 1, b);
    assert (H - 1) * (H - 1) == H * H - 2 * H + 1;
  }

  lemma WordAtLeast(H: nat)
    requires H >= 2
    ensures 2 * H <= Word(H)
  {
    Grows(2, H, H);
  }

  lemma Spread4(uh: nat, ul: nat, vh: nat, vl: nat, H: nat)
    ensures Mul(Joined(uh, ul, H), Joined(vh, vl, H)) ==
            Mul(uh, vh) * Word(H) + (Mul(uh, vl) + Mul(ul, vh)) * H + Mul(ul, vl)
  {
    var U, V := uh * H, vh * H;
    assert (U + ul) * (V + vl) == U * V + U * vl + ul * V + ul * vl;
    assert U * V == uh * vh * (H * H);
    assert U * vl == uh * vl * H && ul * V == ul * vh * H;
  }

  lemma SumsUp(x3: nat, carry: nat, hm: nat, lm: nat, lo: nat, H: nat)
    ensures Joined(x3 + carry * H + hm, Joined(lm, lo, H), Word(H)) ==
            x3 * Word(H) + (Joined(hm, lm, H) + carry * Word(H)) * H + lo
  {
    var W := H * H;
    assert (x3 + carry * H + hm) * W == x3 * W + carry * H * W + hm * W;
    assert carry * W * H == carry * H * W && hm * H * H == hm * W;
    assert (hm * H + lm + carry * W) * H == hm * H * H + lm * H + carry * W * H;
  }

  lemma WordsFit(w1: nat, w0: nat, u: nat, v: nat, W: nat)
    requires u < W && v < W && Joined(w1, w0, W) == Mul(u, v)
    ensures w1 < W
  {
    Grows(u, W - 1, v);
    Grows(v, W - 1, W - 1);
    Commute(W - 1, v);
    assert (W - 1) * (W - 1) == W * W - 2 * W + 1;
    if w1 >= W {
      Grows(W, w1, W);
    }
  }

  lemma FourProducts(u: nat, v: nat, H: nat, ul: nat, uh: nat, vl: nat, vh: nat, hi: nat, lo: nat, middle: nat,
                     over: bool, hm: nat, lm: nat)
    requires H >= 2 && u < Word(H) && v < Word(H) && u == Joined(uh, ul, H) && v == Joined(vh, vl, H)
    requires Mul(ul, vl) == Joined(hi, lo, H) && lo < H && lm < H
    requires middle == Mul(ul, vh) + hi + Mul(uh, vl) && middle == Joined(hm, lm, H) + if over then Word(H) else 0
    ensures var w1, w0 := Mul(uh, vh) + (if over then H else 0) + hm, Joined(lm, lo, H);
            Joined(w1, w0, Word(H)) == Mul(u, v) && w1 < Word(H) && w0 < Word(H)
  {
    Spread4(uh, ul, vh, vl, H);
    SumsUp(Mul(uh, vh), if over then 1 else 0, hm, lm, lo, H);
    hide Mul, Word;
    Distribute(Mul(uh, vl) + Mul(ul, vh), hi, H);
    WordsFit(Mul(uh, vh) + (if over then H else 0) + hm, Joined(lm, lo, H), u, v, Word(H));
    HalfPair(lm, lo, H);
  }

  /** `umul_ppmm`: four half products, the middle ones carrying into the high word. */
  method UmulPpmm(u: nat, v: nat, H: nat) returns (w1: nat, w0: nat)
    requires H >= 2 && u < Word(H) && v < Word(H)
    ensures Joined(w1, w0, Word(H)) == Mul(u, v) && w1 < Word(H) && w0 < Word(H)
    ensures w1 * (H * H) + w0 == u * v && w1 < H * H && w0 < H * H
  {
    hide *;
    HalvesOf(u, H);
    HalvesOf(v, H);
    WordAtLeast(H);
    var W := Word(H);
    var ul, uh, vl, vh := LowerHalf(u, H), UpperHalf(u, H), LowerHalf(v, H), UpperHalf(v, H);
    HalfProduct(ul, vl, H);
    HalfProduct(ul, vh, H);
    HalfProduct(uh, vl, H);
    HalfProduct(uh, vh, H);
    var x0, x1, x2, x3 := Mul(ul, vl), Mul(ul, vh), Mul(uh, vl), Mul(uh, vh);
    HalvesOf(x0, H);
    CutIs(x1 + UpperHalf(x0, H), W);
    x1 := Cut(x1 + UpperHalf(x0, H), W);
    CutIs(x1 + x2, W);
    ghost var middle := x1 + x2;
    x1 := Cut(x1 + x2, W);
    HalvesOf(x1, H);
    FourProducts(u, v, H, ul, uh, vl, vh, UpperHalf(x0, H), LowerHalf(x0, H), middle,
                 x1 < x2, UpperHalf(x1, H), LowerHalf(x1, H));
    CutIs(x3 + H, W);
    if x1 < x2 {
      x3 := Cut(x3 + H, W);
    }
    CutIs(x3 + UpperHalf(x1, H), W);
    w1 := Cut(x3 + UpperHalf(x1, H), W);
    w0 := Joined(LowerHalf(x1, H), LowerHalf(x0, H), H);
    ProductMeans(u, v, w1, w0, H);
  }

  lemma ProductMeans(u: nat, v: nat, w1: nat, w0: nat, H: nat)
    ensures Joined(w1, w0, Word(H)) == Mul(u, v) <==> w1 * (H * H) + w0 == u * v
    ensures Word(H) == H * H
  {
  }

  // ---- __multi3 on 32-bit words ----

  /** After `i` bits of `v`: the shifted multiplicand is exact in two words, and so is the product so far. */
  ghost predicate Multiplying(u: nat, v: nat, i: nat, uLow: nat, vLow: nat, tmp: nat, wLow: nat, wHigh: nat) {
    && i <= 32 && uLow < WORD && tmp < WORD && wLow < WORD && wHigh < WORD
    && vLow == Shr(v, i) && Join(tmp, uLow) == Mul(u, Pow2(i)) && Join(wHigh, wLow) == Mul(u, v % Pow2(i))
  }

  lemma ProductFits(u: nat, x: nat)
    requires u < WORD && x <= WORD
    ensures Mul(u, x) < DWORD
  {
    Grows(u, WORD - 1, x);
  }

  /** The next bit of the multiplier. */
  lemma NextProduct(u: nat, v: nat, i: nat, vLow: nat)
    requires u < WORD && v < WORD && i < 32 && vLow == Shr(v, i)
    ensures Mul(u, Pow2(i + 1)) == 2 * Mul(u, Pow2(i)) < DWORD
    ensures Mul(u, v % Pow2(i + 1)) == Mul(u, v % Pow2(i)) + (if vLow % 2 == 1 then Mul(u, Pow2(i)) else 0) < DWORD
    ensures vLow / 2 == Shr(v, i + 1)
  {
    hide Pow2, Shr;
    ShrIs(v, i);
    ShrIs(v, i + 1);
    SmallPowers();
    if i + 1 < 32 { Pow2Increases(i + 1, 32); }
    Pow2Step(i + 1);
    var p := Pow2(i);
    var b := NextBit(v, i + 1);
    assert vLow % 2 == b && vLow / 2 == v / Pow2(i + 1);
    assert u * (2 * p) == 2 * (u * p);
    Distribute(b * p, v % p, u);
    Commute(u, b * p + v % p);
    Commute(u, p);
    Commute(u, v % p);
    ProductFits(u, Pow2(i + 1));
    DivMod(v, Pow2(i + 1));
    ProductFits(u, v % Pow2(i + 1));
  }

  /** One round on words: the sum of the two double words, the carry found by comparing, and the shift. */
  lemma AddWords(tmp: nat, uLow: nat, wHigh: nat, wLow: nat)
    requires tmp < WORD && uLow < WORD && wHigh < WORD && wLow < WORD && Join(tmp, uLow) + Join(wHigh, wLow) < DWORD
    ensures var low := Wrap32(wLow + uLow);
            var high := Wrap32((if low < wLow then 1 else 0) + Wrap32(tmp + wHigh));
            low < WORD && high < WORD && Join(high, low) == Join(tmp, uLow) + Join(wHigh, wLow)
  {
    hide Wrap32;
    Wrap32Sum(wLow + uLow);
    Wrap32Sum(tmp + wHigh);
    var carry := if wLow + uLow < WORD then 0 else 1;
    assert carry == if Wrap32(wLow + uLow) < wLow then 1 else 0;
    assert tmp + wHigh + carry < WORD;
    Wrap32Sum(carry + (tmp + wHigh));
  }

  /** A sum of two words wraps around at most once. */
  lemma Wrap32Sum(x: nat)
    requires x < 2 * WORD
    ensures Wrap32(x) == if x < WORD then x else x - WORD
  {
    CutIs(x, WORD);
  }

  lemma OrLowBit(x: nat, b: nat)
    requires b < 2
    ensures Or(2 * x, b) == 2 * x + b
  {
    SmallPowers();
    OrDisjoint(x, b, 1);
  }

  lemma DoubleWords(tmp: nat, uLow: nat)
    requires tmp < WORD && uLow < WORD && 2 * Join(tmp, uLow) < DWORD
    ensures var low, high := Wrap32(2 * uLow), Or(Wrap32(2 * tmp), uLow / 0x8000_0000);
            low < WORD && high < WORD && Join(high, low) == 2 * Join(tmp, uLow)
  {
    hide Or;
    var b := uLow / 0x8000_0000;
    assert Wrap32(2 * tmp) == 2 * tmp;
    OrLowBit(tmp, b);
  }

  lemma MultiplyingIs(u: nat, v: nat, i: nat, uLow: nat, vLow: nat, tmp: nat, wLow: nat, wHigh: nat)
    ensures Multiplying(u, v, i, uLow, vLow, tmp, wLow, wHigh) <==>
            && i <= 32 && uLow < WORD && tmp < WORD && wLow < WORD && wHigh < WORD
            && vLow == Shr(v, i) && Join(tmp, uLow) == Mul(u, Pow2(i)) && Join(wHigh, wLow) == Mul(u, v % Pow2(i))
  {
  }

  lemma MultiplyStarts(u: nat, v: nat)
    requires u < WORD && v < WORD
    ensures Multiplying(u, v, 0, u, v, 0, 0, 0)
  {
    ShrZero(v);
    assert v % 1 == 0;
  }

  /** A multiplier bit is left only before bit 32. */
  lemma BitsLeft(v: nat, i: nat)
    requires v < WORD && i <= 32
    ensures Shr(v, i) > 0 ==> i < 32
    ensures Shr(v, i) == 0 ==> v % Pow2(i) == v
  {
    hide Pow2;
    SmallPowers();
    ShrIs(v, i);
    if i == 32 {
      RemainderIs(v, WORD, 0, v);
    }
    DivMod(v, Pow2(i));
  }

  /** The shift-add loop: the exact product of the low words. */
  method MultiplyLow(u: nat, v: nat) returns (wHigh: nat, wLow: nat)
    requires u < WORD && v < WORD
    ensures wHigh < WORD && wLow < WORD && Join(wHigh, wLow) == Mul(u, v)
  {
    hide *;
    var uLow: nat, vLow: nat, tmp: nat := u, v, 0;
    wLow, wHigh := 0, 0;
    ghost var i: nat := 0;
    MultiplyStarts(u, v);
    var first := true;
    while first || vLow != 0
      invariant Multiplying(u, v, i, uLow, vLow, tmp, wLow, wHigh) && (first ==> i == 0)
      decreases if first then 1 else 0, vLow
    {
      MultiplyingIs(u, v, i, uLow, vLow, tmp, wLow, wHigh);
      BitsLeft(v, i);
      NextProduct(u, v, i, vLow);
      DoubleWords(tmp, uLow);
      var newLow := Wrap32(wLow + uLow);
      var tmp2x := Wrap32(2 * tmp);
      if vLow % 2 == 1 {
        AddWords(tmp, uLow, wHigh, wLow);
        var carry := if newLow < wLow then 1 else 0;
        wLow := newLow;
        wHigh := Wrap32(carry + Wrap32(tmp + wHigh));
      }
      var msb := uLow / 0x8000_0000;
      vLow := vLow / 2;
      uLow := Wrap32(2 * uLow);
      tmp := Or(tmp2x, msb);
      i := i + 1;
      first := false;
      MultiplyingIs(u, v, i, uLow, vLow, tmp, wLow, wHigh);
    }
    MultiplyingIs(u, v, i, uLow, vLow, tmp, wLow, wHigh);
    BitsLeft(v, i);
  }

  /** `__muluw3`: a product of words, cut to a word. */
  function Muluw3(a: nat, b: nat): nat { Wrap32(Mul(a, b)) }

  /** `__multi3`: the product modulo 2^64, for all operands. */
  method Multi3(u: nat, v: nat) returns (w: nat)
    requires u < DWORD && v < DWORD
    ensures w == Wrap(Mul(u, v)) && w == u * v % 0x1_0000_0000_0000_0000
  {
    hide *;
    WrapMeans(u, v);
    Rejoin(u);
    Rejoin(v);
    var high, low := MultiplyLow(Low(u), Low(v));
    ghost var high0 := high;
    if High(u) != 0 {
      high := Wrap32(high + Muluw3(Low(v), High(u)));
    }
    if High(v) != 0 {
      high := Wrap32(high + Muluw3(Low(u), High(v)));
    }
    CrossProducts(High(u), Low(u), High(v), Low(v), high0, low);
    w := Join(high, low);
  }

  lemma WrapMeans(u: nat, v: nat)
    ensures Wrap(Mul(u, v)) == u * v % 0x1_0000_0000_0000_0000
  {
  }

  lemma CrossProducts(uh: nat, ul: nat, vh: nat, vl: nat, high: nat, low: nat)
    requires Join(high, low) == Mul(ul, vl) && high < WORD && low < WORD
    ensures var h1 := if uh != 0 then Wrap32(high + Muluw3(vl, uh)) else high;
            var h2 := if vh != 0 then Wrap32(h1 + Muluw3(ul, vh)) else h1;
            Join(h2, low) == Wrap(Mul(Join(uh, ul), Join(vh, vl)))
  {
    FourTerms(uh, ul, vh, vl);
    Commute(vl, uh);
    var a, b, c := uh * vl, ul * vh, uh * vh;
    assert Mul(vl, uh) == a && Mul(ul, vh) == b;
    if uh == 0 { assert a == 0; }
    if vh == 0 { assert b == 0; }
    hide Mul;
    WrapSum(high, a);
    var h1 := if uh != 0 then Wrap32(high + Wrap32(a)) else high;
    assert h1 == Wrap32(high + a);
    WrapSum(h1, b);
    WrapSum2(high, a, b);
    WrapHigh(high + a + b, low, c);
  }

  lemma FourTerms(uh: nat, ul: nat, vh: nat, vl: nat)
    ensures Mul(Join(uh, ul), Join(vh, vl)) == Mul(ul, vl) + (uh * vl + ul * vh) * WORD + uh * vh * DWORD
  {
    var U, V := uh * WORD, vh * WORD;
    assert (U + ul) * (V + vl) == U * V + U * vl + ul * V + ul * vl;
  }

  lemma WrapSum(x: nat, a: nat)
    ensures Wrap32(x + Wrap32(a)) == Wrap32(x + a)
  {
  }

  lemma WrapSum2(x: nat, a: nat, b: nat)
    ensures Wrap32(Wrap32(x + a) + b) == Wrap32(x + a + b)
  {
  }

  lemma WrapHigh(h: nat, low: nat, c: nat)
    requires low < WORD
    ensures Join(Wrap32(h), low) == Wrap(h * WORD + low + c * DWORD)
  {
  }
}
