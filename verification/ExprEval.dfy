/** `check_parentheses`, `getPosition`, `eval` and `expr2val` on the tokens of an expression. */
module ExprEval {
  import opened ExprSyntax
  import opened Powers
  import opened WordDivision

  const MAX_PARENS: nat := 320

  // ---- numbers ----

  function CharValue(c: char): int {
    match c
    case 'a' => 10 case 'A' => 10 case 'b' => 11 case 'B' => 11 case 'c' => 12 case 'C' => 12
    case 'd' => 13 case 'D' => 13 case 'e' => 14 case 'E' => 14 case 'f' => 15 case 'F' => 15
    case _ => c as int - '0' as int
  }

  /** The value of a numeral, whatever its size; a `U` does not count. */
  function Numeral(str: string, base: int): int {
    if str == "" then 0
    else
      var front, c := str[..|str| - 1], str[|str| - 1];
      if c == 'U' then Numeral(front, base) else Numeral(front, base) * base + CharValue(c)
  }

  function RegisterName(str: string): string { if str == "" then "" else str[1..] }

  /** What a leaf stands for; registers have the values `regs` gives them, others zero. */
  function LeafValue(t: Token, regs: map<string, nat>): int {
    match t
    case Dec(str) => Numeral(str, 10) % WORD
    case Hex(str) => Numeral(if |str| < 2 then "" else str[2..], 16) % WORD
    case Reg(str) => if RegisterName(str) in regs then regs[RegisterName(str)] else 0
    case _ => 0
  }

  /** Only an unknown register is no value. */
  predicate Known(t: Token, regs: map<string, nat>) { t.Reg? ==> RegisterName(t.str) in regs }

  predicate Words(regs: map<string, nat>) { forall x :: x in regs ==> regs[x] < WORD }

  /** `expr2val`. Every step wraps around, and so does the result. A register settles whether this succeeds, a numeral
      leaves that as it was. */
  method Expr2Val(t: Token, regs: map<string, nat>, success0: bool) returns (value: nat, success: bool)
    requires IsLeaf(t) && Words(regs)
    ensures value < WORD && value == LeafValue(t, regs)
    ensures success == if t.Reg? then Known(t, regs) else success0
  {
    hide CharValue;
    if t.Reg? {
      if RegisterName(t.str) in regs {
        return regs[RegisterName(t.str)], true;
      }
      return 0, false;
    }
    success := success0;
    var dig, i := if t.Dec? then 10 else 16, if t.Dec? then 0 else 2;
    value := 0;
    if i > |t.str| {
      return;
    }
    ghost var start := i;
    assert t.str[start..start] == "";
    while i < |t.str|
      invariant start <= i <= |t.str| && value == Numeral(t.str[start..i], dig) % WORD
    {
      NumeralNext(t.str, start, i, dig);
      if t.str[i] != 'U' {
        WrapStep(Numeral(t.str[start..i], dig), dig, CharValue(t.str[i]));
        value := (value * dig + CharValue(t.str[i])) % WORD;
      }
      i := i + 1;
    }
    assert t.str[start..|t.str|] == t.str[start..];
    assert t.str[0..] == t.str;
  }

  lemma NumeralNext(str: string, start: nat, i: nat, base: int)
    requires start <= i < |str|
    ensures Numeral(str[start..i + 1], base) ==
            if str[i] == 'U' then Numeral(str[start..i], base) else Numeral(str[start..i], base) * base + CharValue(str[i])
  {
    hide CharValue;
    var s := str[start..i + 1];
    assert s != "" && s[|s| - 1] == str[i];
    assert s[..|s| - 1] == str[start..i];
  }

  lemma WrapStep(x: int, d: int, c: int)
    requires d == 10 || d == 16
    ensures (x % WORD * d + c) % WORD == (x * d + c) % WORD
  {
    var q := x / WORD;
    assert x == q * WORD + x % WORD;
    assert x * d + c == (q * d) * WORD + (x % WORD * d + c);
  }

  // ---- values ----

  /** Operators on 32-bit unsigned words. */
  function Compute(op: Op, a: nat, b: nat): (v: nat)
    requires a < WORD && b < WORD && (op == Div ==> b != 0)
    ensures v < WORD
  {
    match op
    case And => if a != 0 && b != 0 then 1 else 0
    case Neq => if a == b then 0 else 1
    case Eq => if a == b then 1 else 0
    case Plus => (a + b) % WORD
    case Sub => (a - b) % WORD
    case Mul => (a * b) % WORD
    case Div => Quotient(a, b)
  }

  function Quotient(a: nat, b: nat): (q: nat)
    requires 0 < b
    ensures q <= a
  {
    DivNatural(a, b);
    QuotientSmall(a, b);
    a / b
  }

  /** An expression has a value when its registers are known and no divisor is zero. */
  function Value(e: Expr, regs: map<string, nat>): (v: int)
    requires Words(regs)
    ensures -1 <= v < WORD
  {
    match e
    case Leaf(t) => if Known(t, regs) then LeafValue(t, regs) else -1
    case Bin(op, l, r) =>
      var a, b := Value(l, regs), Value(r, regs);
      if a < 0 || b < 0 || (op == Div && b == 0) then -1 else Compute(op, a, b)
  }

  // ---- what the operators compute, as relations between numbers ----

  /** `v` is the word that the operator makes of `a` and `b`: sums, differences and products wrap around, a quotient
      is rounded down, and the other operators answer 1 or 0. */
  predicate IsResult(op: Op, a: nat, b: nat, v: nat) {
    && v < 0x1_0000_0000
    && match op
       case Plus => (v - b) % 0x1_0000_0000 == a
       case Sub => (v + b) % 0x1_0000_0000 == a
       case Mul => (v - a * b) % 0x1_0000_0000 == 0
       case Div => v * b <= a < v * b + b
       case Eq => v <= 1 && (v == 1 <==> a == b)
       case Neq => v <= 1 && (v == 0 <==> a == b)
       case And => v <= 1 && (v == 0 <==> a == 0 || b == 0)
  }

  lemma DivIs(a: nat, b: nat)
    requires a < WORD && 0 < b
    ensures IsResult(Div, a, b, Quotient(a, b))
  {
    DivMod(a, b);
  }

  lemma MulIs(a: nat, b: nat)
    ensures IsResult(Mul, a, b, a * b % WORD)
  {
    WrapBack(a * b, a * b);
  }

  lemma PlusIs(a: nat, b: nat)
    requires a < WORD
    ensures IsResult(Plus, a, b, (a + b) % WORD)
  {
    WrapBack(a + b, b);
  }

  lemma SubIs(a: nat, b: nat)
    requires a < WORD
    ensures IsResult(Sub, a, b, (a - b) % WORD)
  {
    WrapBack(a - b, -(b as int));
  }

  lemma WrapBack(x: int, b: int)
    ensures (x % WORD - b) % WORD == (x - b) % WORD
  {
    assert x == x / WORD * WORD + x % WORD;
    assert x - b == x / WORD * WORD + (x % WORD - b);
  }

  lemma TestIs(op: Op, a: nat, b: nat, yes: bool)
    requires op == Eq || op == Neq || op == And
    requires yes <==> match op case Eq => a == b case Neq => a != b case _ => a != 0 && b != 0
    ensures IsResult(op, a, b, if yes then 1 else 0)
  {
  }

  /** The results are those words. */
  lemma ComputeIs(op: Op, a: nat, b: nat)
    requires a < WORD && b < WORD && (op == Div ==> b != 0)
    ensures IsResult(op, a, b, Compute(op, a, b))
  {
    hide Quotient, IsResult;
    match op
    case Div => DivIs(a, b);
    case Mul => MulIs(a, b);
    case Plus => PlusIs(a, b);
    case Sub => SubIs(a, b);
    case Eq => TestIs(op, a, b, a == b);
    case Neq => TestIs(op, a, b, a != b);
    case And => TestIs(op, a, b, a != 0 && b != 0);
  }

  lemma OneWord(v: nat, w: nat, c: int)
    requires v < WORD && w < WORD && (v + c) % WORD == (w + c) % WORD
    ensures v == w
  {
    var m, n := (v + c) / WORD, (w + c) / WORD;
    assert v - w == (m - n) * WORD;
  }

  /** The result is determined by that. */
  lemma OneResult(op: Op, a: nat, b: nat, v: nat, w: nat)
    requires IsResult(op, a, b, v) && IsResult(op, a, b, w)
    ensures v == w
  {
    match op
    case Div => OneQuotient(b, v, a - v * b, w, a - w * b);
    case Mul => OneWord(v, w, 0 - a * b);
    case Plus => OneWord(v, w, 0 - b);
    case Sub => OneWord(v, w, b);
    case _ =>
  }

  /** The expression has the value `v`. */
  ghost predicate HasValue(e: Expr, regs: map<string, nat>, v: nat) {
    match e
    case Leaf(t) => Known(t, regs) && v == LeafValue(t, regs)
    case Bin(op, l, r) =>
      exists a: nat, b: nat :: HasValue(l, regs, a) && HasValue(r, regs, b) && IsResult(op, a, b, v)
  }

  lemma ResultOfBin(op: Op, l: Expr, r: Expr, regs: map<string, nat>)
    requires Words(regs)
    ensures var a, b, v := Value(l, regs), Value(r, regs), Value(Bin(op, l, r), regs);
            v >= 0 <==> a >= 0 && b >= 0 && (op == Div ==> b > 0)
    ensures var a, b, v := Value(l, regs), Value(r, regs), Value(Bin(op, l, r), regs);
            v >= 0 ==> IsResult(op, a, b, v)
    ensures var a, b := Value(l, regs), Value(r, regs);
            a >= 0 && b == 0 && op == Div ==> forall v :: !IsResult(op, a, b, v)
  {
    hide IsResult;
    var a, b := Value(l, regs), Value(r, regs);
    if a >= 0 && b >= 0 {
      if op == Div && b == 0 {
        NoQuotient(a);
      } else {
        ComputeIs(op, a, b);
      }
    }
  }

  lemma NoQuotient(a: nat)
    ensures forall v :: !IsResult(Div, a, 0, v)
  {
  }

  /** At most one value, and it is the one computed. */
  lemma {:induction false} HasValueIs(e: Expr, regs: map<string, nat>, v: nat)
    requires Words(regs)
    ensures HasValue(e, regs, v) <==> Value(e, regs) == v
  {
    hide Compute, LeafValue, IsResult;
    match e
    case Leaf(t) => LeafMeans(t, regs);
    case Bin(op, l, r) =>
      ResultOfBin(op, l, r, regs);
      if HasValue(e, regs, v) {
        var a: nat, b: nat :| HasValue(l, regs, a) && HasValue(r, regs, b) && IsResult(op, a, b, v);
        HasValueIs(l, regs, a);
        HasValueIs(r, regs, b);
        OneResult(op, a, b, v, Value(e, regs));
      }
      if Value(e, regs) == v {
        HasValueIs(l, regs, Value(l, regs));
        HasValueIs(r, regs, Value(r, regs));
      }
  }

  /** The result of `eval`: a word, and whether the expression was good; or the program stops, at a failed assertion,
      a division by zero or a write behind the stack. */
  datatype Outcome = Stopped | Evaluated(value: nat, success: bool)

  /** What becomes of any expression: after an unknown register nothing is evaluated any more, the rest counting as
      zero, even as a divisor. */
  function Meaning(e: Expr, regs: map<string, nat>): (r: Outcome)
    requires Words(regs)
    ensures r.Evaluated? ==> r.value < WORD
  {
    match e
    case Leaf(t) => Evaluated(LeafValue(t, regs), Known(t, regs))
    case Bin(op, l, r) =>
      var a := Meaning(l, regs);
      if a.Stopped? then Stopped
      else
        var b := if a.success then Meaning(r, regs) else Evaluated(0, false);
        if b.Stopped? || (op == Div && b.value == 0) then Stopped
        else Evaluated(Compute(op, a.value, b.value), b.success)
  }

  /** It is evaluated with success exactly when it has a value, and then to that value. */
  lemma {:induction false} MeaningIsValue(e: Expr, regs: map<string, nat>)
    requires Words(regs)
    ensures Value(e, regs) >= 0 <==> Meaning(e, regs).Evaluated? && Meaning(e, regs).success
    ensures Value(e, regs) >= 0 ==> Meaning(e, regs) == Evaluated(Value(e, regs), true)
  {
    hide Compute;
    if e.Bin? {
      MeaningIsValue(e.l, regs);
      MeaningIsValue(e.r, regs);
    }
  }

  lemma HasMeaning(e: Expr, regs: map<string, nat>)
    requires Words(regs)
    ensures forall v: nat :: HasValue(e, regs, v) <==> Meaning(e, regs) == Evaluated(v, true)
  {
    hide Meaning, Value, HasValue;
    MeaningIsValue(e, regs);
    forall v: nat ensures HasValue(e, regs, v) <==> Meaning(e, regs) == Evaluated(v, true) {
      HasValueIs(e, regs, v);
    }
  }

  // ---- unknown registers ----

  predicate AllKnown(e: Expr, regs: map<string, nat>) {
    match e
    case Leaf(t) => Known(t, regs)
    case Bin(_, l, r) => AllKnown(l, regs) && AllKnown(r, regs)
  }

  const Zero: Expr := Leaf(Dec("0"))

  /** The expression with 0 for the first unknown register and for every operand after it. */
  function Zeroed(e: Expr, regs: map<string, nat>): Expr {
    match e
    case Leaf(t) => if Known(t, regs) then e else Zero
    case Bin(op, l, r) => if AllKnown(l, regs) then Bin(op, l, Zeroed(r, regs)) else Bin(op, Zeroed(l, regs), Zero)
  }

  lemma ZeroIs(regs: map<string, nat>)
    requires Words(regs)
    ensures Value(Zero, regs) == 0
  {
    assert "0"[..0] == "";
    assert Numeral("", 10) == 0 && Numeral("0", 10) == 0;
  }

  lemma {:induction false} KnownIsItself(e: Expr, regs: map<string, nat>)
    requires AllKnown(e, regs)
    ensures Zeroed(e, regs) == e
  {
    if e.Bin? {
      KnownIsItself(e.r, regs);
    }
  }

  /** For every expression: it is evaluated as its zeroed form, the program stops exactly when that has no value (a divisor
      is zero), and otherwise an unknown register is reported. */
  lemma {:induction false} MeaningIsZeroed(e: Expr, regs: map<string, nat>)
    requires Words(regs)
    ensures Meaning(e, regs) ==
            if Value(Zeroed(e, regs), regs) < 0 then Stopped else Evaluated(Value(Zeroed(e, regs), regs), AllKnown(e, regs))
  {
    hide Compute, LeafValue, Known;
    ZeroIs(regs);
    match e
    case Leaf(t) => LeafMeans(t, regs);
    case Bin(op, l, r) =>
      MeaningIsZeroed(l, regs);
      MeaningIsZeroed(r, regs);
      if AllKnown(l, regs) {
        KnownIsItself(l, regs);
      }
  }

  lemma LeafMeans(t: Token, regs: map<string, nat>)
    requires Words(regs)
    ensures !Known(t, regs) ==> LeafValue(t, regs) == 0
    ensures 0 <= LeafValue(t, regs) < WORD
  {
  }

  /** No divisor is zero or depends on an unknown register. */
  predicate GoodDivisors(e: Expr, regs: map<string, nat>)
    requires Words(regs)
  {
    e.Bin? ==> GoodDivisors(e.l, regs) && GoodDivisors(e.r, regs) && (e.op == Div ==> Value(e.r, regs) > 0)
  }

  /** The first unknown register stands in the dividend of some division. */
  predicate CutShort(e: Expr, regs: map<string, nat>) {
    e.Bin? && if AllKnown(e.l, regs) then CutShort(e.r, regs) else e.op == Div || CutShort(e.l, regs)
  }

  lemma {:induction false} GoodHaveValues(e: Expr, regs: map<string, nat>)
    requires Words(regs) && GoodDivisors(e, regs) && AllKnown(e, regs)
    ensures Value(e, regs) >= 0
  {
    hide Compute, LeafValue;
    match e
    case Leaf(t) => LeafMeans(t, regs);
    case Bin(_, l, r) =>
      GoodHaveValues(l, regs);
      GoodHaveValues(r, regs);
  }

  /** Where all divisors are good, an unknown register is reported, except that the program stops when the first one
      stands in a dividend. */
  lemma {:induction false} UnknownReported(e: Expr, regs: map<string, nat>)
    requires Words(regs) && GoodDivisors(e, regs)
    ensures Meaning(e, regs).Stopped? <==> CutShort(e, regs)
    ensures Meaning(e, regs).Evaluated? ==> Meaning(e, regs).success == AllKnown(e, regs)
  {
    hide Compute, LeafValue;
    if e.Bin? {
      UnknownReported(e.l, regs);
      UnknownReported(e.r, regs);
      MeaningIsZeroed(e.l, regs);
      MeaningIsZeroed(e.r, regs);
      if AllKnown(e.l, regs) {
        GoodHaveValues(e.l, regs);
        MeaningIsValue(e.l, regs);
      }
      MeaningIsValue(e.r, regs);
      NotCut(e.l, regs);
    }
  }

  lemma {:induction false} NotCut(e: Expr, regs: map<string, nat>)
    ensures AllKnown(e, regs) ==> !CutShort(e, regs)
  {
    if e.Bin? {
      NotCut(e.r, regs);
    }
  }

  /** `$zz / 2` and `2 / $zz` stop the program, while `$zz + 2` is reported as a failure. */
  lemma UnknownDividend()
    ensures var unknown, two := Leaf(Reg("$zz")), Leaf(Dec("2"));
            && Meaning(Bin(Div, unknown, two), map[]) == Stopped
            && Meaning(Bin(Div, two, unknown), map[]) == Stopped
            && Meaning(Bin(Plus, unknown, two), map[]) == Evaluated(0, false)
  {
    var unknown, two := Leaf(Reg("$zz")), Leaf(Dec("2"));
    assert Meaning(unknown, map[]) == Evaluated(0, false);
    assert Compute(Plus, 0, 0) == 0;
  }

  // ---- the scans ----

  /** Scanning a stretch of the token array. */
  function ParensTo(tokens: seq<Token>, p: nat, n: nat): Par
    requires p <= n <= |tokens|
  {
    Parens(tokens[p..n], p, Open([], 0))
  }

  lemma ParensNext(tokens: seq<Token>, p: nat, n: nat)
    requires p <= n < |tokens|
    ensures ParensTo(tokens, p, n + 1) == ParStep(ParensTo(tokens, p, n), tokens[n], n)
  {
    assert tokens[p..n + 1][..n - p] == tokens[p..n];
  }

  /** The peak only grows. */
  lemma {:induction false} PeakGrows(tokens: seq<Token>, p: nat, n: nat, m: nat)
    requires p <= n <= m <= |tokens| && ParensTo(tokens, p, m).Open?
    ensures ParensTo(tokens, p, n).Open? && ParensTo(tokens, p, n).peak <= ParensTo(tokens, p, m).peak
    ensures |ParensTo(tokens, p, n).stack| <= ParensTo(tokens, p, n).peak
    decreases m
  {
    hide ParensTo;
    StackBelowPeak(tokens, p, n);
    if n < m {
      ParensNext(tokens, p, m - 1);
      PeakGrows(tokens, p, n, m - 1);
    }
  }

  lemma {:induction false} StackBelowPeak(tokens: seq<Token>, p: nat, n: nat)
    requires p <= n <= |tokens|
    ensures ParensTo(tokens, p, n).Open? ==> |ParensTo(tokens, p, n).stack| <= ParensTo(tokens, p, n).peak
    decreases n
  {
    if p < n {
      StackBelowPeak(tokens, p, n - 1);
      ParensNext(tokens, p, n - 1);
    } else {
      assert tokens[p..n] == [];
    }
  }

  /** What `check_parentheses` decides about the tokens from `i` to `j`: 3 when the first and the last are a pair,
      2 when they are a closing and an opening one of different pairs, 1 when not both are parentheses, 4 when the
      parentheses do not match. */
  ghost function Verdict(tokens: seq<Token>, i: nat, j: nat): nat
    requires i < j < |tokens|
  {
    var all := ParensTo(tokens, i, j + 1);
    if all.Unbalanced? || all.stack != [] then 4
    else if !(tokens[i] == Left && tokens[j] == Right) then 1
    else if var before := ParensTo(tokens, i, j); before.Open? && before.stack != [] && before.stack[|before.stack| - 1] == i then 3
    else 2
  }

  /** More parentheses are open somewhere than the stack has entries. */
  ghost predicate TooDeep(tokens: seq<Token>, i: nat, j: nat)
    requires i <= j < |tokens|
  {
    exists n :: i <= n <= j + 1 && Deep(tokens, i, n)
  }

  predicate Deep(tokens: seq<Token>, i: nat, n: nat)
    requires i <= n <= |tokens|
  {
    var open := ParensTo(tokens, i, n);
    open.Open? && |open.stack| > MAX_PARENS
  }

  /** `check_parentheses`; `overflow` is set where a place is written behind the stack of open parentheses. */
  method CheckParentheses(tokens: seq<Token>, i0: nat, j: nat) returns (enclosed: bool, process: nat, overflow: bool)
    requires i0 < j < |tokens|
    ensures !overflow ==> process == Verdict(tokens, i0, j) && (enclosed <==> process == 3)
    ensures overflow <==> TooDeep(tokens, i0, j)
    ensures var all := ParensTo(tokens, i0, j + 1); all.Open? ==> (overflow <==> all.peak > MAX_PARENS)
  {
    hide ParensTo;
    var both := tokens[i0] == Left && tokens[j] == Right;
    var arr := new nat[MAX_PARENS];
    var leftCount, mostLeft, i := 0, i0, i0;
    Nothing(tokens, i0);
    while i <= j
      invariant i0 <= i <= j + 1 && leftCount <= MAX_PARENS
      invariant ParensTo(tokens, i0, i).Open? && ParensTo(tokens, i0, i).stack == arr[..leftCount]
      invariant forall n :: i0 <= n <= i ==> !Deep(tokens, i0, n)
      invariant ParensTo(tokens, i0, i).peak <= MAX_PARENS
      invariant i <= j ==> mostLeft == i0
      invariant i == j + 1 && tokens[j] == Right ==>
                  var before := ParensTo(tokens, i0, j);
                  before.Open? && before.stack != [] && before.stack[|before.stack| - 1] == mostLeft
    {
      ParensNext(tokens, i0, i);
      ghost var open := ParensTo(tokens, i0, i);
      if tokens[i] == Left {
        if leftCount == MAX_PARENS {
          PeakTooHigh(tokens, i0, i + 1, j + 1);
          assert Deep(tokens, i0, i + 1);
          return false, 0, true;
        }
        arr[leftCount] := i;
        leftCount := leftCount + 1;
      } else if tokens[i] == Right {
        if leftCount > 0 {
          leftCount := leftCount - 1;
          if i == j {
            mostLeft := arr[leftCount];
          }
        } else {
          forall n | i < n <= j + 1
            ensures ParensTo(tokens, i0, n).Unbalanced?
          {
            StaysUnbalanced(tokens, i0, i + 1, n);
          }
          return false, 4, false;
        }
      }
      i := i + 1;
    }
    overflow := false;
    if leftCount == 0 {
      if !both {
        enclosed, process := false, 1;
      } else if mostLeft == i0 {
        enclosed, process := true, 3;
      } else {
        enclosed, process := false, 2;
      }
    } else {
      enclosed, process := false, 4;
    }
  }

  lemma PeakTooHigh(tokens: seq<Token>, p: nat, n: nat, m: nat)
    requires p <= n <= m <= |tokens| && ParensTo(tokens, p, n).Open? && |ParensTo(tokens, p, n).stack| > MAX_PARENS
    ensures ParensTo(tokens, p, m).Open? ==> ParensTo(tokens, p, m).peak > MAX_PARENS
  {
    hide ParensTo;
    if ParensTo(tokens, p, m).Open? {
      PeakGrows(tokens, p, n, m);
    }
  }

  lemma {:induction false} StaysUnbalanced(tokens: seq<Token>, p: nat, n: nat, m: nat)
    requires p <= n <= m <= |tokens| && ParensTo(tokens, p, n).Unbalanced?
    ensures ParensTo(tokens, p, m).Unbalanced?
    decreases m
  {
    hide ParensTo;
    if n < m {
      StaysUnbalanced(tokens, p, n, m - 1);
      ParensNext(tokens, p, m - 1);
    }
  }

  lemma Nothing(tokens: seq<Token>, p: nat)
    requires p <= |tokens|
    ensures ParensTo(tokens, p, p) == Open([], 0)
  {
    assert tokens[p..p] == [];
  }

  function ScanTo(tokens: seq<Token>, p: nat, n: nat): Scan
    requires p <= n <= |tokens|
  {
    Scanned(tokens[p..n], p, Scan(NoOp, 0))
  }

  lemma ScanNext(tokens: seq<Token>, p: nat, n: nat)
    requires p <= n < |tokens|
    ensures ScanTo(tokens, p, n + 1) == ScanStep(ScanTo(tokens, p, n), tokens[n], n)
  {
    assert tokens[p..n + 1][..n - p] == tokens[p..n];
  }

  lemma ScanNothing(tokens: seq<Token>, p: nat)
    requires p <= |tokens|
    ensures ScanTo(tokens, p, p) == Scan(NoOp, 0)
  {
    assert tokens[p..p] == [];
  }

  /** `getPosition`; -1 where it aborts because there is no operator to split at. */
  method GetPosition(tokens: seq<Token>, p0: nat, q: nat) returns (idx: int)
    requires p0 <= q < |tokens|
    ensures var b := ScanTo(tokens, p0, q + 1).best;
            if b.NoOp? then idx == -1 else idx == b.pos && p0 <= idx <= q && tokens[idx] == Operator(b.op)
  {
    hide ScanTo, Takes;
    idx := -1;
    var leftCount, p := 0, p0;
    ScanNothing(tokens, p0);
    while p <= q
      invariant p0 <= p <= q + 1 && ScanTo(tokens, p0, p).depth == leftCount
      invariant var b := ScanTo(tokens, p0, p).best;
                if b.NoOp? then idx == -1 else idx == b.pos && p0 <= idx < p && tokens[idx] == Operator(b.op)
    {
      ScanNext(tokens, p0, p);
      if tokens[p] == Left {
        leftCount := leftCount + 1;
      } else if tokens[p] == Right {
        leftCount := leftCount - 1;
      } else if leftCount == 0 && tokens[p].Operator? {
        if idx == -1 || Takes(tokens[idx].op, tokens[p].op) {
          idx := p;
        }
      }
      p := p + 1;
    }
  }

  // ---- the evaluator ----

  /** The tokens from `p` to `q` are those of `e`. */
  ghost predicate Shows(tokens: seq<Token>, p: int, q: int, e: Expr, level: nat) {
    0 <= p <= q < |tokens| && WellFormed(e) && tokens[p..q + 1] == Show(e, level)
  }

  /** The scan over them closes all parentheses and meets as many open ones as the expression nests. */
  lemma ShowsPeak(tokens: seq<Token>, p: int, q: int, e: Expr, level: nat)
    requires Shows(tokens, p, q, e, level)
    ensures ParensTo(tokens, p, q + 1) == Open([], Nesting(e, level))
  {
    hide Parens, Show, Nesting;
    ParensOfShow(e, level, p, [], 0);
  }

  /** Parenthesised: the outer pair is found, and the expression inside is the same one. */
  lemma ShowsParens(tokens: seq<Token>, p: int, q: int, e: Expr, level: nat)
    requires Shows(tokens, p, q, e, level) && Level(e) < level
    ensures p < q && Verdict(tokens, p, q) == 3 && Shows(tokens, p + 1, q - 1, e, 0)
  {
    hide Parens;
    var raw := Raw(e);
    assert Show(e, level) == [Left] + raw + [Right];
    assert Show(e, 0) == raw;
    Slices(tokens, p, q, raw);
    assert tokens[p + 1..q] == Show(e, 0);
    ParensOfShow(e, level, p, [], 0);
    ParensOne(Left, p, Open([], 0));
    assert [] + [p] == [p];
    ParensOfRaw(e, p + 1, [p], 1);
    ParensCat([Left], raw, p, Open([], 0));
  }

  lemma Slices(tokens: seq<Token>, p: int, q: int, raw: seq<Token>)
    requires 0 <= p <= q < |tokens| && raw != [] && tokens[p..q + 1] == [Left] + raw + [Right]
    ensures p + 1 <= q - 1 && tokens[p..q] == [Left] + raw && tokens[p + 1..q] == raw
    ensures tokens[p] == Left && tokens[q] == Right
  {
    var ts := tokens[p..q + 1];
    assert |ts| == |raw| + 2 == q + 1 - p;
    assert tokens[p] == ts[0] && tokens[q] == ts[q - p];
    forall k | 0 <= k < |raw|
      ensures tokens[p + 1 + k] == raw[k]
    {
      assert tokens[p + 1 + k] == ts[1 + k];
    }
  }

  /** An operator at the top: no outer pair, and the split is at the operator. */
  lemma ShowsBin(tokens: seq<Token>, p: int, q: int, e: Expr, level: nat)
    requires Shows(tokens, p, q, e, level) && Level(e) >= level && e.Bin?
    ensures p < q && (Verdict(tokens, p, q) == 1 || Verdict(tokens, p, q) == 2)
    ensures var at := p + |Show(e.l, LeftLevel(e.op))|;
            && ScanTo(tokens, p, q + 1).best == At(at, e.op) && p < at < q
            && Shows(tokens, p, at - 1, e.l, LeftLevel(e.op))
            && Shows(tokens, at + 1, q, e.r, RightLevel(e.op))
  {
    hide Parens, Scanned;
    var a, b := Show(e.l, LeftLevel(e.op)), Show(e.r, RightLevel(e.op));
    var at := p + |a|;
    var ts := tokens[p..q + 1];
    assert Show(e, level) == Raw(e);
    assert Raw(e) == a + [Operator(e.op)] + b;
    assert tokens[p..at] == a && tokens[at + 1..q + 1] == b by {
      assert ts[..|a|] == a && ts[|a| + 1..] == b;
      assert tokens[p..q + 1][..|a|] == tokens[p..at];
      assert tokens[p..q + 1][|a| + 1..] == tokens[at + 1..q + 1];
    }
    ScanOfShow(e, level, p, NoOp);
    ParensOfShow(e, level, p, [], 0);
    NotEnclosed(tokens, p, q, e);
  }

  /** The pair of a closing parenthesis at the end is in the right operand. */
  lemma NotEnclosed(tokens: seq<Token>, p: nat, q: nat, e: Expr)
    requires p < q < |tokens| && WellFormed(e) && e.Bin? && tokens[p..q + 1] == Raw(e)
    ensures Verdict(tokens, p, q) != 3
  {
    hide Parens, Show, Raw, Nesting;
    if tokens[q] == Right {
      assert tokens[p..q + 1][q - p] == Right;
      var at := LastPairRight(e, p, [], 0);
      assert tokens[p..q + 1][..q - p] == tokens[p..q];
    }
  }

  /** `eval`, on any tokens without dereferences. On the tokens of an expression that nests too deep the program stops;
      on those of any other expression it gives what the expression means. */
  method Eval(tokens: seq<Token>, p: int, q: int, regs: map<string, nat>, success: bool,
              ghost e: Expr, ghost level: nat, ghost shown: bool)
    returns (r: Outcome)
    requires p <= q ==> 0 <= p && q < |tokens|
    requires Words(regs)
    requires shown ==> Shows(tokens, p, q, e, level)
    ensures !success ==> r == Evaluated(0, false)
    ensures shown && success ==> r == if Nesting(e, level) > MAX_PARENS then Stopped else Meaning(e, regs)
    ensures shown && success && Value(e, regs) >= 0 ==>
              (Nesting(e, level) <= MAX_PARENS <==> r == Evaluated(Value(e, regs), true))
    ensures shown && success && Nesting(e, level) <= MAX_PARENS ==>
              forall v: nat :: HasValue(e, regs, v) <==> r == Evaluated(v, true)
    ensures shown && success && Nesting(e, level) <= MAX_PARENS ==>
              r == if Value(Zeroed(e, regs), regs) < 0 then Stopped
                   else Evaluated(Value(Zeroed(e, regs), regs), AllKnown(e, regs))
    ensures shown && success && Nesting(e, level) <= MAX_PARENS && GoodDivisors(e, regs) ==>
              (r.Stopped? <==> CutShort(e, regs)) && (r.Evaluated? ==> r.success == AllKnown(e, regs))
    ensures r.Evaluated? ==> r.value < WORD
    ensures r.Evaluated? && r.success ==> success && p <= q
    decreases q - p
  {
    hide Shows, Value, Meaning, Verdict, ParensTo, ScanTo, Show, Raw, Compute, Nesting, TooDeep, Zeroed, AllKnown, GoodDivisors,
         CutShort, HasValue;
    if !success {
      return Evaluated(0, false);
    }
    MeaningIsValue(e, regs);
    MeaningIsZeroed(e, regs);
    HasMeaning(e, regs);
    if GoodDivisors(e, regs) {
      UnknownReported(e, regs);
    }
    if shown {
      ShowsIs(tokens, p, q, e, level);
    }
    if p > q {
      return Evaluated(0, false);
    }
    if p == q {
      r := EvalLeaf(tokens, p, regs);
      return;
    }
    if shown {
      ShowsPeak(tokens, p, q, e, level);
      if Level(e) < level {
        ShowsParens(tokens, p, q, e, level);
      } else {
        ShowsBin(tokens, p, q, e, level);
        MeaningOfBin(e, regs);
      }
      NestingIs(e, level);
    }
    var enclosed, process, overflow := CheckParentheses(tokens, p, q);
    if overflow {
      return Stopped;
    }
    if enclosed {
      r := Eval(tokens, p + 1, q - 1, regs, success, e, 0, shown);
      return;
    }
    if process == 4 {
      return Evaluated(0, false);
    }
    var op := GetPosition(tokens, p, q);
    if op < 0 {
      return Stopped;
    }
    var left := Eval(tokens, p, op - 1, regs, true, if shown then e.l else e, if shown then LeftLevel(e.op) else 0, shown);
    if left.Stopped? {
      return Stopped;
    }
    var right := Eval(tokens, op + 1, q, regs, left.success,
                      if shown then e.r else e, if shown then RightLevel(e.op) else 0, shown);
    if right.Stopped? {
      return Stopped;
    }
    var o := tokens[op].op;
    if o == Div && right.value == 0 {
      return Stopped;
    }
    r := Evaluated(Compute(o, left.value, right.value), right.success);
  }

  lemma ShowsIs(tokens: seq<Token>, p: int, q: int, e: Expr, level: nat)
    requires Shows(tokens, p, q, e, level)
    ensures 0 <= p <= q < |tokens| && WellFormed(e)
    ensures e.Leaf? ==> Level(e) >= level ==> p == q && tokens[p] == e.tok
    ensures p == q ==> e.Leaf? && Nesting(e, level) == 0 && IsLeaf(tokens[p]) && tokens[p] == e.tok
  {
    var ts := tokens[p..q + 1];
    assert |ts| == q + 1 - p;
    assert ts[0] == tokens[p];
    var raw := Raw(e);
    assert Show(e, level) == if Level(e) < level then [Left] + raw + [Right] else raw;
    if e.Bin? {
      assert raw == Show(e.l, LeftLevel(e.op)) + [Operator(e.op)] + Show(e.r, RightLevel(e.op));
    } else {
      assert raw == [e.tok];
    }
  }

  /** Parentheses around an expression nest one deeper, operators as deep as their operands. */
  lemma NestingIs(e: Expr, level: nat)
    ensures Level(e) < level ==> Nesting(e, level) == 1 + Nesting(e, 0)
    ensures Level(e) >= level && e.Bin? ==>
              Nesting(e, level) == Max(Nesting(e.l, LeftLevel(e.op)), Nesting(e.r, RightLevel(e.op)))
  {
  }

  lemma MeaningOfBin(e: Expr, regs: map<string, nat>)
    requires e.Bin? && Words(regs)
    ensures Meaning(e, regs) ==
            var a := Meaning(e.l, regs);
            if a.Stopped? then Stopped
            else
              var b := if a.success then Meaning(e.r, regs) else Evaluated(0, false);
              if b.Stopped? || (e.op == Div && b.value == 0) then Stopped
              else Evaluated(Compute(e.op, a.value, b.value), b.success)
  {
    hide Compute;
  }

  /** A single token; one that is neither a number nor a register counts as zero. */
  method EvalLeaf(tokens: seq<Token>, p: nat, regs: map<string, nat>) returns (r: Outcome)
    requires p < |tokens| && Words(regs)
    ensures r == if IsLeaf(tokens[p]) then Meaning(Leaf(tokens[p]), regs) else Evaluated(0, true)
  {
    if !IsLeaf(tokens[p]) {
      return Evaluated(0, true);
    }
    var v, success := Expr2Val(tokens[p], regs, true);
    r := if success then Evaluated(v, true) else Evaluated(0, false);
  }

  // ---- where 320 entries are too few ----

  /** `n` pairs of parentheses around a number. */
  function Nested(n: nat): (ts: seq<Token>)
    ensures |ts| == 2 * n + 1
  {
    if n == 0 then [Dec("1")] else [Left] + Nested(n - 1) + [Right]
  }

  lemma {:induction false} ParensOfNested(n: nat, base: nat, stack: seq<nat>, peak: nat)
    requires |stack| <= peak
    ensures Parens(Nested(n), base, Open(stack, peak)) == Open(stack, Max(peak, |stack| + n))
  {
    hide Parens;
    if n == 0 {
      ParensOne(Dec("1"), base, Open(stack, peak));
    } else {
      var inner := Nested(n - 1);
      ParensOne(Left, base, Open(stack, peak));
      ParensOfNested(n - 1, base + 1, stack + [base], Max(peak, |stack| + 1));
      ParensCat([Left], inner, base, Open(stack, peak));
      ParensCat([Left] + inner, [Right], base, Open(stack, peak));
      ParensOne(Right, base + 1 + |inner|, Open(stack + [base], Max(Max(peak, |stack| + 1), |stack| + n)));
      assert (stack + [base])[..|stack|] == stack;
    }
  }

  /** 320 pairs are the most that `check_parentheses` can take. */
  lemma NestedOverflows(n: nat)
    requires n > 0
    ensures var all := ParensTo(Nested(n), 0, |Nested(n)|); all.Open? && (all.peak > MAX_PARENS <==> n > 320)
  {
    hide Parens, Nested;
    ParensOfNested(n, 0, [], 0);
    assert Nested(n)[0..|Nested(n)|] == Nested(n);
  }

  /** 1 - (1 - (1 - ...)) with `n` minus signs, which needs its parentheses. */
  function Minuses(n: nat): Expr {
    if n == 0 then Leaf(Dec("1")) else Bin(Sub, Leaf(Dec("1")), Minuses(n - 1))
  }

  /** It has a value at any depth, but `eval` finds it only up to 321 signs. */
  lemma {:induction false} MinusesNest(n: nat, regs: map<string, nat>)
    requires Words(regs)
    ensures WellFormed(Minuses(n)) && Value(Minuses(n), regs) >= 0
    ensures Nesting(Minuses(n), 0) == if n == 0 then 0 else n - 1
    ensures Nesting(Minuses(n), 0) <= MAX_PARENS <==> n <= 321
  {
    hide Compute;
    if n > 0 {
      MinusesNest(n - 1, regs);
      NestingIs(Minuses(n), 0);
      NestingIs(Minuses(n - 1), 4);
      NestingIs(Leaf(Dec("1")), 3);
    }
  }
}
