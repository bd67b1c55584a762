/** Powers of two, and the bits of natural numbers. */
module Powers {
  /** The base of 32-bit words. */
  const WORD: nat := 0x1_0000_0000

  function Pow2(n: nat): (p: nat)
    ensures p > 0
  {
    if n == 0 then 1 else 2 * Pow2(n - 1)
  }

  lemma {:induction false} Pow2Add(a: nat, b: nat)
    ensures Pow2(a + b) == Pow2(a) * Pow2(b)
  {
    if b > 0 {
      Pow2Add(a, b - 1);
      assert Pow2(a) * (2 * Pow2(b - 1)) == 2 * (Pow2(a) * Pow2(b - 1));
    }
  }

  lemma Pow2Values()
    ensures Pow2(0) == 1 && Pow2(9) == 0x200 && Pow2(10) == 0x400 && Pow2(12) == 0x1000
    ensures Pow2(21) == 0x20_0000 && Pow2(22) == 0x40_0000 && Pow2(30) == 0x4000_0000
    ensures Pow2(32) == 0x1_0000_0000 && Pow2(39) == 0x80_0000_0000 && Pow2(64) == 0x1_0000_0000_0000_0000
  {
    assert Pow2(3) == 8;
    Pow2Add(3, 3);
    Pow2Add(6, 3);
    Pow2Add(9, 1);
    Pow2Add(9, 3);
    Pow2Add(12, 9);
    Pow2Add(21, 1);
    Pow2Add(21, 9);
    Pow2Add(30, 2);
    assert Pow2(1) == 2 && Pow2(2) == 4;
    Pow2Add(30, 9);
    Pow2Add(32, 32);
  }

  lemma {:induction false} Pow2Increases(a: nat, b: nat)
    requires a < b
    ensures 2 * Pow2(a) <= Pow2(b)
  {
    if a + 1 < b {
      Pow2Increases(a, b - 1);
    }
  }

  /** Bitwise and. */
  function And(a: nat, b: nat): nat
    decreases a
  {
    if a == 0 then 0 else 2 * And(a / 2, b / 2) + if a % 2 == 1 && b % 2 == 1 then 1 else 0
  }

  /** Bitwise or. */
  function Or(a: nat, b: nat): nat
    decreases a
  {
    if a == 0 then b else 2 * Or(a / 2, b / 2) + if a % 2 == 1 || b % 2 == 1 then 1 else 0
  }

  lemma AndStep(a: nat, b: nat)
    ensures And(a, b) == 2 * And(a / 2, b / 2) + if a % 2 == 1 && b % 2 == 1 then 1 else 0
  {
  }

  /** A mask of low ones keeps the remainder. */
  lemma {:induction false} AndLow(a: nat, k: nat)
    ensures And(a, Pow2(k) - 1) == a % Pow2(k)
    decreases k
  {
    if k == 0 {
      AndZero(a);
    } else {
      AndLow(a / 2, k - 1);
      var p := Pow2(k - 1);
      assert Pow2(k) == 2 * p;
      assert (Pow2(k) - 1) / 2 == p - 1 && (Pow2(k) - 1) % 2 == 1;
      AndStep(a, Pow2(k) - 1);
      HalfMod(a, p);
    }
  }

  lemma {:induction false} AndZero(a: nat)
    ensures And(a, 0) == 0
  {
    if a > 0 {
      AndZero(a / 2);
    }
  }

  lemma HalfMod(a: nat, p: nat)
    requires p > 0
    ensures a % (2 * p) == 2 * (a / 2 % p) + a % 2
  {
    var h := a / 2;
    var q := h / p;
    assert h == q * p + h % p;
    assert a == 2 * h + a % 2;
    assert a == q * (2 * p) + (2 * (h % p) + a % 2) by {
      assert q * (2 * p) == 2 * (q * p);
    }
    RemainderIs(a, 2 * p, q, 2 * (h % p) + a % 2);
  }

  lemma Spread(a: int, b: int, d: int)
    ensures (a - b) * d == a * d - b * d
  {
  }

  lemma AtLeast(a: int, d: int)
    requires a >= 1 && d > 0
    ensures a * d >= d
  {
  }

  lemma OneQuotient(d: int, q: int, r: int, q': int, r': int)
    requires q * d + r == q' * d + r' && 0 <= r < d && 0 <= r' < d
    ensures q == q' && r == r'
  {
    if q > q' {
      Spread(q, q', d);
      AtLeast(q - q', d);
    } else if q < q' {
      Spread(q', q, d);
      AtLeast(q' - q, d);
    }
  }

  lemma DivMod(n: int, d: int)
    requires d > 0
    ensures n == (n / d) * d + n % d && 0 <= n % d < d
  {
  }

  /** A quotient and a remainder below the divisor are the quotient and the remainder. */
  lemma RemainderIs(n: int, d: int, q: int, r: int)
    requires d > 0 && n == q * d + r && 0 <= r < d
    ensures n / d == q && n % d == r
  {
    DivMod(n, d);
    OneQuotient(d, q, r, n / d, n % d);
  }

  /** Bits that do not overlap add up. */
  lemma {:induction false} OrDisjoint(a: nat, b: nat, k: nat)
    requires b < Pow2(k)
    ensures Or(a * Pow2(k), b) == a * Pow2(k) + b
    decreases k
  {
    if a == 0 {
      assert a * Pow2(k) == 0;
    } else if k == 0 {
      OrZero(a);
    } else {
      var p := Pow2(k - 1);
      var x := a * Pow2(k);
      assert x == 2 * (a * p) by {
        assert Pow2(k) == 2 * p;
      }
      OrDisjoint(a, b / 2, k - 1);
      assert x > 0 by {
        assert a * p > 0;
      }
      assert x / 2 == a * p && x % 2 == 0;
      assert Or(x, b) == 2 * Or(x / 2, b / 2) + b % 2;
    }
  }

  lemma {:induction false} OrZero(a: nat)
    ensures Or(a, 0) == a
  {
    if a > 0 {
      OrZero(a / 2);
    }
  }

  lemma Pow2Step(c: nat)
    requires c > 0
    ensures Pow2(c) == 2 * Pow2(c - 1)
  {
  }

  lemma OddAnd(x: nat)
    requires x % 2 == 1
    ensures And(x, x - 1) == x - 1
  {
    AndStep(x, x - 1);
    AndSelf(x / 2);
    assert (x - 1) / 2 == x / 2 && (x - 1) % 2 == 0;
  }

  lemma EvenAnd(x: nat)
    requires x % 2 == 0 && x > 0
    ensures And(x, x - 1) == 2 * And(x / 2, x / 2 - 1)
  {
    AndStep(x, x - 1);
    assert (x - 1) / 2 == x / 2 - 1;
  }

  lemma Halved(x: nat, p: nat)
    requires p > 0 && x > 0 && x % (2 * p) == 0
    ensures x % 2 == 0 && x / 2 > 0 && x / 2 % p == 0 && x / 2 / p == x / (2 * p)
    ensures x == 2 * p <==> x / 2 == p
  {
    HalfMod(x, p);
    HalfDiv(x, p);
  }

  /** `x & (x - 1)` is zero exactly for powers of two. */
  lemma {:induction false} PowerTest(x: nat, c: nat)
    requires x > 0 && x % Pow2(c) == 0 && x / Pow2(c) % 2 == 1
    ensures And(x, x - 1) == 0 <==> x == Pow2(c)
    decreases c
  {
    hide And, Pow2;
    if c == 0 {
      assert Pow2(0) == 1 by { Pow2Values(); }
      assert x / 1 == x;
      OddAnd(x);
    } else {
      Pow2Step(c);
      Halved(x, Pow2(c - 1));
      EvenAnd(x);
      PowerTest(x / 2, c - 1);
    }
  }

  lemma {:induction false} AndSelf(x: nat)
    ensures And(x, x) == x
  {
    if x > 0 {
      AndSelf(x / 2);
    }
  }

  lemma HalfDiv(a: nat, p: nat)
    requires p > 0
    ensures a / (2 * p) == a / 2 / p
  {
    var h := a / 2;
    var q := h / p;
    assert h == q * p + h % p;
    assert a == q * (2 * p) + (2 * (h % p) + a % 2) by {
      assert q * (2 * p) == 2 * (q * p);
    }
    RemainderIs(a, 2 * p, q, 2 * (h % p) + a % 2);
  }

  lemma DivNatural(n: nat, d: nat)
    requires d > 0
    ensures n / d >= 0
  {
    DivMod(n, d);
    if n / d <= -1 {
      AtLeast(-(n / d), d);
      Spread(0, n / d, d);
    }
  }

  lemma Grows(a: nat, b: nat, p: nat)
    requires a <= b
    ensures a * p <= b * p
  {
  }

  lemma Succ(a: nat, p: nat)
    ensures (a + 1) * p == a * p + p
  {
  }

  /** A quotient reaches `e` when the number reaches `e` times the divisor. */
  lemma DivAtLeast(x: nat, p: nat, e: nat)
    requires p > 0
    ensures x / p >= e <==> x >= e * p
  {
    DivNatural(x, p);
    var y: nat := x / p;
    DivMod(x, p);
    if y >= e {
      Grows(e, y, p);
    } else {
      Grows(y + 1, e, p);
      Succ(y, p);
    }
  }

  lemma Below(l: nat, p: nat, p': nat)
    requires l < p && p' > 0
    ensures l * p' < p * p' && l * p' + p' <= p * p'
  {
    Grows(l + 1, p, p');
    Succ(l, p');
  }

  /** A number cut one bit lower. */
  lemma NextBit(n: nat, k: nat) returns (b: nat)
    requires k > 0
    ensures b < 2 && n / Pow2(k - 1) == 2 * (n / Pow2(k)) + b && n % Pow2(k) == b * Pow2(k - 1) + n % Pow2(k - 1)
  {
    var p := Pow2(k - 1);
    assert Pow2(k) == 2 * p;
    hide Pow2;
    var x := n / p;
    DivNatural(n, p);
    DivMod(n, p);
    b := x % 2;
    Twice(x / 2, b, p);
    Below(b, 2, p);
    RemainderIs(n, 2 * p, x / 2, b * p + n % p);
  }

  lemma Twice(h: nat, b: nat, p: nat)
    ensures (2 * h + b) * p == h * (2 * p) + b * p
  {
    assert (2 * h + b) * p == 2 * h * p + b * p;
    assert 2 * h * p == h * (2 * p);
  }
}
