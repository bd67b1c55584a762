/** The signed 64-bit routines on top of `__udivmoddi4`, and zero counts of double words. */
module SignedDivision {
  import opened Powers
  import opened WordDivision

  const MIN: int := -0x8000_0000_0000_0000

  predicate Signed(x: int) { MIN <= x < 0x8000_0000_0000_0000 }

  function Abs(x: int): nat { if x < 0 then -x else x }

  /** `x >> 63` of a signed double word. */
  function SignOf(x: int): int { if x < 0 then -1 else 0 }

  /** `x ^ s` for `s` all zeros or all ones. */
  function XorSign(x: int, s: int): int { if s == -1 then -1 - x else x }

  /** The bits of a double word read as a signed number. */
  function ToSigned(x: int): (y: int)
    ensures Signed(y) && Wrap(y) == Wrap(x)
  {
    var u := Wrap(x);
    if u >= 0x8000_0000_0000_0000 then u - 0x1_0000_0000_0000_0000 else u
  }

  /** The quotient rounded towards zero. */
  function Trunc(a: int, b: int): int
    requires b != 0
  {
    if (a < 0) == (b < 0) then Quot(Abs(a), Abs(b)) else -(Quot(Abs(a), Abs(b)) as int)
  }

  /** What rounding towards zero means: the remainder is smaller than the divisor and has the sign of the dividend. */
  lemma TruncIsTowardsZero(a: int, b: int)
    requires b != 0
    ensures var r := a - Trunc(a, b) * b;
            Abs(r) < Abs(b) && (a >= 0 ==> r >= 0) && (a <= 0 ==> r <= 0) && Abs(r) == Rem(Abs(a), Abs(b))
    ensures var r := a - Trunc(a, b) * b; -b < r < b || b < r < -b
  {
    var x, y := Abs(a), Abs(b);
    DivMod(x, y);
    var q := Quot(x, y);
    assert -q * b == -(q * b) && q * -b == -(q * b);
    assert Trunc(a, b) * b == if a < 0 then -(q * y) else q * y;
  }

  lemma SmallSigned(x: int)
    requires Signed(x)
    ensures ToSigned(x) == x && ToSigned(Wrap(x)) == x
  {
  }

  lemma AbsFits(x: int)
    requires Signed(x)
    ensures Wrap(XorSign(x, SignOf(x)) - SignOf(x)) == Abs(x) <= 0x8000_0000_0000_0000 < DWORD
  {
  }

  lemma SizeOfQuotient(a: int, b: int, q: nat, r: nat)
    requires b != 0 && Signed(a) && IsDivision(Abs(a), Abs(b), q, r)
    ensures q == Quot(Abs(a), Abs(b)) && r == Rem(Abs(a), Abs(b)) && q <= Abs(a)
    ensures q == 0x8000_0000_0000_0000 <==> a == MIN && Abs(b) == 1
  {
    RemainderIs(Abs(a), Abs(b), q, r);
    QuotientSmall(Abs(a), Abs(b));
    if Abs(b) > 1 {
      Grows(2, Abs(b), q);
      Commute(Abs(b), q);
    }
  }

  /** `__divdi3` rounds towards zero, with the one overflow of two's complement. */
  method Divdi3(a: int, b: int) returns (d: int)
    requires Signed(a) && Signed(b) && b != 0
    ensures d == Trunc(a, b) <==> !(a == MIN && b == -1)
    ensures a == MIN && b == -1 ==> d == MIN
  {
    var sa, sb := SignOf(a), SignOf(b);
    AbsFits(a);
    AbsFits(b);
    var q, r := Udivmoddi4(Wrap(XorSign(a, sa) - sa), Wrap(XorSign(b, sb) - sb));
    SizeOfQuotient(a, b, q, r);
    hide Quot, Rem, Wrap;
    sa := XorSign(sa, sb);
    d := ToSigned(XorSign(q, sa) - sa);
    Signs(a, b, q, sa);
  }

  lemma Signs(a: int, b: int, q: nat, s: int)
    requires b != 0 && q == Quot(Abs(a), Abs(b)) && q <= 0x8000_0000_0000_0000
    requires s == XorSign(SignOf(a), SignOf(b)) && (q == 0x8000_0000_0000_0000 <==> a == MIN && Abs(b) == 1)
    ensures var d := ToSigned(XorSign(q, s) - s);
            (d == Trunc(a, b) <==> !(a == MIN && b == -1)) && (a == MIN && b == -1 ==> d == MIN)
  {
    hide Quot;
    assert s == if (a < 0) == (b < 0) then 0 else -1;
    if q < 0x8000_0000_0000_0000 {
      SmallSigned(XorSign(q, s) - s);
    }
  }

  /** The one quotient that no signed double word can hold. */
  lemma OnlyOverflow(a: int, b: int)
    requires Signed(a) && Signed(b) && b != 0
    ensures Signed(Trunc(a, b)) <==> !(a == MIN && b == -1)
  {
    var x, y := Abs(a), Abs(b);
    DivMod(x, y);
    SizeOfQuotient(a, b, Quot(x, y), Rem(x, y)) by { QuotientSmall(x, y); }
    hide Quot, Rem;
  }

  /** `__moddi3`: the remainder of that division, always. */
  method Moddi3(a: int, b: int) returns (m: int)
    requires Signed(a) && Signed(b) && b != 0
    ensures m == a - Trunc(a, b) * b
  {
    var s := SignOf(b);
    AbsFits(b);
    var y := Wrap(XorSign(b, s) - s);
    s := SignOf(a);
    AbsFits(a);
    var x := Wrap(XorSign(a, s) - s);
    var q, r := Udivmoddi4(x, y);
    SizeOfQuotient(a, b, q, r);
    hide Quot, Rem, Wrap, Trunc;
    TruncIsTowardsZero(a, b);
    SmallSigned(XorSign(r, s) - s);
    m := XorSign(ToSigned(r), s) - s;
    SmallSigned(r);
  }

  /** `__divmoddi4`. */
  method Divmoddi4(a: int, b: int) returns (d: int, rem: int)
    requires Signed(a) && Signed(b) && b != 0
    ensures !(a == MIN && b == -1) ==> d == Trunc(a, b) && rem == a - Trunc(a, b) * b
  {
    hide Trunc;
    d := Divdi3(a, b);
    rem := ToSigned(a - d * b);
    TruncIsTowardsZero(a, b);
    if d == Trunc(a, b) {
      SmallSigned(a - d * b);
    }
  }

  // ---- zero counts of double words ----

  /** `p` divides `x`, and what is left is odd. */
  predicate LowestBitIs(x: nat, p: nat)
    requires p > 0
  {
    x % p == 0 && x / p % 2 == 1
  }

  /** `__ctzdi2`. */
  method Ctzdi2(a: nat) returns (r: nat)
    requires 0 < a < DWORD
    ensures r < 64 && LowestBitIs(a, Pow2(r))
  {
    hide *;
    Rejoin(a);
    JoinFacts(High(a), Low(a));
    var c := Ctzsi2(if Low(a) == 0 then High(a) else Low(a));
    LowestOfPair(High(a), Low(a), c);
    r := c + if Low(a) == 0 then 32 else 0;
  }

  lemma LowestOfPair(h: nat, l: nat, c: nat)
    requires h < WORD && l < WORD && Trailing(if l == 0 then h else l, c)
    ensures var r := c + if l == 0 then 32 else 0;
            r < 64 && LowestBitIs(Join(h, l), Pow2(r))
  {
    hide *;
    SmallPowers();
    TrailingBit(if l == 0 then h else l, c);
    if l == 0 {
      Pow2Add(c, 32);
      LowestHigh(h, Pow2(c));
    } else {
      Pow2Add(c, 32 - c);
      Pow2Step(32 - c);
      LowestLow(h, l, Pow2(c), Pow2(32 - c), Pow2(32 - c - 1));
    }
  }

  lemma TrailingBit(x: nat, c: nat)
    requires Trailing(x, c)
    ensures c < 32 && LowestBitIs(x, Pow2(c))
  {
    hide Pow2;
  }

  lemma LowestHigh(h: nat, p: nat)
    requires p > 0 && LowestBitIs(h, p)
    ensures p * WORD > 0 && LowestBitIs(Join(h, 0), p * WORD)
  {
    DivMod(h, p);
    DivNatural(h, p);
    Regrouped(h / p, p);
    RemainderIs(Join(h, 0), p * WORD, h / p, 0);
  }

  lemma Regrouped(q: nat, p: nat)
    ensures q * p * WORD == q * (p * WORD)
  {
  }

  lemma LowestLow(h: nat, l: nat, p: nat, p': nat, half: nat)
    requires p > 0 && p * p' == WORD && p' == 2 * half && LowestBitIs(l, p)
    ensures LowestBitIs(Join(h, l), p)
  {
    hide Join;
    DivMod(l, p);
    DivNatural(l, p);
    EvenTimes(h, p');
    JoinMultiple(h, l, p, p', l / p);
    RemainderIs(Join(h, l), p, h * p' + l / p, 0);
  }

  lemma JoinMultiple(h: nat, l: nat, p: nat, p': nat, z: nat)
    requires p * p' == WORD && l == z * p
    ensures Join(h, l) == (h * p' + z) * p
  {
    MulAssoc(h, p', p);
    Distribute(h * p', z, p);
  }

  lemma Distribute(a: nat, b: nat, p: nat)
    ensures (a + b) * p == a * p + b * p
  {
  }

  lemma EvenTimes(h: nat, p: nat)
    requires p % 2 == 0
    ensures h * p % 2 == 0
  {
    var k := p / 2;
    assert h * p == 2 * (h * k);
  }

  /** `__clzdi2`. */
  method Clzdi2(a: nat) returns (r: nat)
    requires 0 < a < DWORD
    ensures r < 64 && Pow2(63 - r) <= a < Pow2(64 - r)
  {
    hide *;
    Rejoin(a);
    JoinFacts(High(a), Low(a));
    var c := Clzsi2(if High(a) == 0 then Low(a) else High(a));
    LeadingOfPair(High(a), Low(a), c);
    r := c + if High(a) == 0 then 32 else 0;
  }

  lemma LeadingOfPair(h: nat, l: nat, c: nat)
    requires h < WORD && l < WORD && Leading(if h == 0 then l else h, c)
    ensures var r := c + if h == 0 then 32 else 0;
            r < 64 && Pow2(63 - r) <= Join(h, l) < Pow2(64 - r)
  {
    hide Pow2;
    SmallPowers();
    if h > 0 {
      Pow2Add(31 - c, 32);
      Pow2Add(32 - c, 32);
      Grows(Pow2(31 - c), h, WORD);
      Grows(h + 1, Pow2(32 - c), WORD);
    }
  }
}
