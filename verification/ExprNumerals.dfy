/** What the numerals and register names of the debugger's expressions stand for. */
module ExprNumerals {
  import opened ExprSyntax
  import opened ExprEval
  import opened Powers

  const LOWER: string := "0123456789abcdef"
  const UPPER: string := "0123456789ABCDEF"

  /** How a number is written down in base 10 or 16. */
  function Print(n: nat, base: nat, digits: string): (s: string)
    requires (base == 10 || base == 16) && (digits == LOWER || digits == UPPER)
    ensures s != ""
  {
    if n < base then [digits[n]] else Print(n / base, base, digits) + [digits[n % base]]
  }

  lemma DigitIs(d: nat, digits: string)
    requires d < 16 && (digits == LOWER || digits == UPPER)
    ensures CharValue(digits[d]) == d && digits[d] != 'U'
  {
  }

  lemma LastDigit(front: string, c: char, base: nat)
    ensures Numeral(front + [c], base) == if c == 'U' then Numeral(front, base) else Numeral(front, base) * base + CharValue(c)
  {
    assert (front + [c])[..|front|] == front;
  }

  lemma NoDigits(base: nat)
    ensures Numeral("", base) == 0
  {
  }

  /** Reading gives back the number that was written. */
  lemma {:induction false} ReadPrinted(n: nat, base: nat, digits: string)
    requires (base == 10 || base == 16) && (digits == LOWER || digits == UPPER)
    ensures Numeral(Print(n, base, digits), base) == n
  {
    hide CharValue, Numeral;
    if n < base {
      DigitIs(n, digits);
      LastDigit("", digits[n], base);
      NoDigits(base);
      assert "" + [digits[n]] == [digits[n]];
    } else {
      ReadPrinted(n / base, base, digits);
      DigitIs(n % base, digits);
      LastDigit(Print(n / base, base, digits), digits[n % base], base);
      DivMod(n, base);
    }
  }

  /** A numeral of any size stands for its number modulo 2^32, in decimal, or in hexadecimal after `0x` with small or
      capital letters, with or without a `U` behind it. */
  lemma NumeralValue(n: nat, digits: string, u: string, regs: map<string, nat>)
    requires (digits == LOWER || digits == UPPER) && (u == "" || u == "U")
    ensures LeafValue(Dec(Print(n, 10, digits) + u), regs) == n % 0x1_0000_0000
    ensures LeafValue(Hex("0x" + Print(n, 16, digits) + u), regs) == n % 0x1_0000_0000
  {
    hide *;
    ReadPrinted(n, 10, digits);
    ReadPrinted(n, 16, digits);
    IgnoredU(Print(n, 10, digits), u, 10);
    IgnoredU(Print(n, 16, digits), u, 16);
    DecValue(Print(n, 10, digits) + u, regs);
    HexValue(Print(n, 16, digits) + u, regs);
    assert "0x" + Print(n, 16, digits) + u == "0x" + (Print(n, 16, digits) + u);
  }

  lemma IgnoredU(s: string, u: string, base: nat)
    requires u == "" || u == "U"
    ensures Numeral(s + u, base) == Numeral(s, base)
  {
    hide CharValue, Numeral;
    if u == "U" {
      LastDigit(s, 'U', base);
    } else {
      assert s + u == s;
    }
  }

  lemma DecValue(s: string, regs: map<string, nat>)
    ensures LeafValue(Dec(s), regs) == Numeral(s, 10) % 0x1_0000_0000
  {
  }

  lemma HexValue(s: string, regs: map<string, nat>)
    ensures LeafValue(Hex("0x" + s), regs) == Numeral(s, 16) % 0x1_0000_0000
  {
    hide CharValue, Numeral;
    assert ("0x" + s)[2..] == s;
  }

  /** A register is looked up by its name without the dollar sign. */
  lemma RegisterValue(name: string, regs: map<string, nat>)
    ensures Known(Reg("$" + name), regs) <==> name in regs
    ensures name in regs ==> LeafValue(Reg("$" + name), regs) == regs[name]
  {
    assert ("$" + name)[1..] == name;
  }
}
