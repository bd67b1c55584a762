/** Single bits of natural numbers under the operators of machine words. */
module BitMasks {
  import opened Powers

  predicate Bit(x: nat, c: nat)
    decreases c
  {
    if c == 0 then x % 2 == 1 else Bit(x / 2, c - 1)
  }

  /** The complement within `w` bits. */
  function Not(x: nat, w: nat): nat
    requires x < Pow2(w)
  {
    Pow2(w) - 1 - x
  }

  lemma {:induction false} BitOfZero(c: nat)
    ensures !Bit(0, c)
    decreases c
  {
    if c > 0 {
      BitOfZero(c - 1);
    }
  }

  lemma {:induction false} BitAnd(x: nat, y: nat, c: nat)
    ensures Bit(And(x, y), c) <==> Bit(x, c) && Bit(y, c)
    decreases c
  {
    hide And;
    AndStep(x, y);
    if c > 0 {
      BitAnd(x / 2, y / 2, c - 1);
    }
  }

  lemma {:induction false} BitOr(x: nat, y: nat, c: nat)
    ensures Bit(Or(x, y), c) <==> Bit(x, c) || Bit(y, c)
    decreases c
  {
    hide Or;
    OrStep(x, y);
    if c > 0 {
      BitOr(x / 2, y / 2, c - 1);
    }
  }

  lemma OrStep(x: nat, y: nat)
    ensures Or(x, y) == 2 * Or(x / 2, y / 2) + if x % 2 == 1 || y % 2 == 1 then 1 else 0
  {
    if x == 0 {
      assert Or(0, y / 2) == y / 2;
    }
  }

  lemma {:induction false} BitNot(x: nat, w: nat, c: nat)
    requires x < Pow2(w) && c < w
    ensures Bit(Not(x, w), c) <==> !Bit(x, c)
    decreases c
  {
    NotStep(x, w);
    if c > 0 {
      BitNot(x / 2, w - 1, c - 1);
    }
  }

  lemma NotStep(x: nat, w: nat)
    requires x < Pow2(w) && w > 0
    ensures x / 2 < Pow2(w - 1) && Not(x, w) / 2 == Not(x / 2, w - 1) && Not(x, w) % 2 == 1 - x % 2
  {
    Pow2Step(w);
  }

  lemma {:induction false} BitOfPow2(e: nat, c: nat)
    ensures Bit(Pow2(e), c) <==> c == e
    decreases c
  {
    if e > 0 {
      Pow2Step(e);
      if c > 0 {
        BitOfPow2(e - 1, c - 1);
      }
    } else {
      assert Pow2(0) == 1;
      if c > 0 {
        BitOfZero(c - 1);
      }
    }
  }

  /** `1 << w` less one has just the lower bits. */
  lemma {:induction false} BitOfFull(w: nat, c: nat)
    ensures Bit(Pow2(w) - 1, c) <==> c < w
    decreases c
  {
    if w == 0 {
      assert Pow2(0) == 1;
      BitOfZero(c);
    } else {
      Pow2Step(w);
      var p := Pow2(w - 1);
      assert (2 * p - 1) % 2 == 1 && (2 * p - 1) / 2 == p - 1;
      if c > 0 {
        BitOfFull(w - 1, c - 1);
      }
    }
  }

  /** Numbers with the same bits are equal. */
  lemma {:induction false} SameBits(x: nat, y: nat, w: nat)
    requires x < Pow2(w) && y < Pow2(w) && forall c :: 0 <= c < w ==> (Bit(x, c) <==> Bit(y, c))
    ensures x == y
    decreases w
  {
    if w > 0 {
      Pow2Step(w);
      forall c | 0 <= c < w - 1
        ensures Bit(x / 2, c) <==> Bit(y / 2, c)
      {
        var d := c + 1;
        assert Bit(x, d) <==> Bit(y, d);
      }
      SameBits(x / 2, y / 2, w - 1);
      assert Bit(x, 0) <==> Bit(y, 0);
    }
  }

  lemma {:induction false} OrBelow(x: nat, y: nat, w: nat)
    requires x < Pow2(w) && y < Pow2(w)
    ensures Or(x, y) < Pow2(w)
    decreases w
  {
    hide Or;
    if w > 0 {
      Pow2Step(w);
      OrStep(x, y);
      OrBelow(x / 2, y / 2, w - 1);
    } else {
      assert Or(0, 0) == 0 by { OrZero(0); }
    }
  }

  lemma {:induction false} AndBelow(x: nat, y: nat)
    ensures And(x, y) <= x
    decreases x
  {
    if x > 0 {
      AndBelow(x / 2, y / 2);
    }
  }

  // ---- the lowest set bit ----

  lemma {:induction false} AndNot(x: nat, w: nat)
    requires x < Pow2(w)
    ensures And(x, Not(x, w)) == 0
    decreases w
  {
    if w > 0 && x > 0 {
      NotStep(x, w);
      AndNot(x / 2, w - 1);
      AndStep(x, Not(x, w));
    }
  }

  /** `x & -x` in `w` bits: the power of the lowest set bit; taking it away clears that bit only. */
  lemma {:induction false} LowestBit(x: nat, w: nat) returns (c: nat)
    requires 0 < x < Pow2(w)
    ensures c < w && And(x, Pow2(w) - x) == Pow2(c) <= x && Bit(x, c)
    ensures forall d :: 0 <= d < c ==> !Bit(x, d)
    ensures forall d: nat :: Bit(x - Pow2(c), d) <==> Bit(x, d) && d != c
    decreases w
  {
    hide And, Pow2;
    Pow2Values();
    Pow2Step(w);
    var p := Pow2(w - 1);
    AndStep(x, Pow2(w) - x);
    if x % 2 == 1 {
      c := 0;
      assert (2 * p - x) / 2 == p - 1 - x / 2 && (2 * p - x) % 2 == 1;
      AndNot(x / 2, w - 1);
      assert (x - 1) / 2 == x / 2 && (x - 1) % 2 == 0;
      forall d: nat
        ensures Bit(x - 1, d) <==> Bit(x, d) && d != 0
      {
      }
    } else {
      var e := LowestBit(x / 2, w - 1);
      assert (2 * p - x) / 2 == p - x / 2 && (2 * p - x) % 2 == 0;
      c := e + 1;
      Pow2Step(c);
      var y := x / 2 - Pow2(e);
      assert x - Pow2(c) == 2 * y;
      forall d: nat
        ensures Bit(x - Pow2(c), d) <==> Bit(x, d) && d != c
        ensures d < c ==> !Bit(x, d)
      {
        if d > 0 {
          assert Bit(2 * y, d) == Bit(y, d - 1);
        }
      }
    }
  }
}
