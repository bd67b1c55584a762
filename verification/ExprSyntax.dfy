/** Expressions of the debugger, their minimally parenthesised tokens, and the two scans over tokens. */
module ExprSyntax {
  datatype Op = And | Eq | Neq | Plus | Sub | Mul | Div

  datatype Token = Dec(str: string) | Hex(str: string) | Reg(str: string) | Left | Right | Operator(op: Op)

  datatype Expr = Leaf(tok: Token) | Bin(op: Op, l: Expr, r: Expr)

  predicate IsLeaf(t: Token) { t.Dec? || t.Hex? || t.Reg? }

  predicate WellFormed(e: Expr) {
    match e
    case Leaf(t) => IsLeaf(t)
    case Bin(_, l, r) => WellFormed(l) && WellFormed(r)
  }

  // ---- the grammar ----

  // Operators bind in the order of their token types; && is lowest.
  function Prec(op: Op): nat {
    match op
    case And => 1
    case Eq => 2 case Neq => 2
    case Plus => 3 case Sub => 3
    case Mul => 4 case Div => 4
  }

  function Level(e: Expr): nat { if e.Leaf? then 5 else Prec(e.op) }

  // Equality groups to the right, everything else to the left.
  function LeftLevel(op: Op): nat { if op == Eq || op == Neq then 3 else Prec(op) }

  function RightLevel(op: Op): nat { if op == Eq || op == Neq then 2 else Prec(op) + 1 }

  /** The tokens of an expression where something of at least `level` is expected. */
  function Show(e: Expr, level: nat): (ts: seq<Token>)
    ensures ts != []
    decreases e, 1
  {
    if Level(e) < level then [Left] + Raw(e) + [Right] else Raw(e)
  }

  function Raw(e: Expr): (ts: seq<Token>)
    ensures ts != []
    decreases e, 0
  {
    match e
    case Leaf(t) => [t]
    case Bin(op, l, r) => Show(l, LeftLevel(op)) + [Operator(op)] + Show(r, RightLevel(op))
  }

  // ---- matching parentheses ----

  /** The places of the open parentheses, and the most that were ever open; or a closing one too many. */
  datatype Par = Unbalanced | Open(stack: seq<nat>, peak: nat)

  function ParStep(p: Par, t: Token, at: nat): Par {
    match p
    case Unbalanced => Unbalanced
    case Open(stack, peak) =>
      if t == Left then Open(stack + [at], if peak < |stack| + 1 then |stack| + 1 else peak)
      else if t != Right then p
      else if stack == [] then Unbalanced
      else Open(stack[..|stack| - 1], peak)
  }

  /** Scanning tokens that stand at `base` and after. */
  function Parens(ts: seq<Token>, base: nat, p: Par): Par {
    if ts == [] then p else ParStep(Parens(ts[..|ts| - 1], base, p), ts[|ts| - 1], base + |ts| - 1)
  }

  lemma {:induction false} ParensCat(a: seq<Token>, b: seq<Token>, base: nat, p: Par)
    ensures Parens(a + b, base, p) == Parens(b, base + |a|, Parens(a, base, p))
    decreases |b|
  {
    if b == [] {
      assert a + b == a;
    } else {
      assert (a + b)[..|a + b| - 1] == a + b[..|b| - 1];
      ParensCat(a, b[..|b| - 1], base, p);
    }
  }

  function Max(a: nat, b: nat): nat { if a < b then b else a }

  /** How deep the parentheses of an expression nest. */
  function Nesting(e: Expr, level: nat): nat
    decreases e, 1
  {
    if Level(e) < level then 1 + NestingRaw(e) else NestingRaw(e)
  }

  function NestingRaw(e: Expr): nat
    decreases e, 0
  {
    match e
    case Leaf(_) => 0
    case Bin(op, l, r) => Max(Nesting(l, LeftLevel(op)), Nesting(r, RightLevel(op)))
  }

  lemma ParensOne(t: Token, base: nat, p: Par)
    ensures Parens([t], base, p) == ParStep(p, t, base)
  {
    assert [t][..0] == [];
  }

  /** An expression closes what it opens. */
  lemma {:induction false} ParensOfShow(e: Expr, level: nat, base: nat, stack: seq<nat>, peak: nat)
    requires WellFormed(e) && |stack| <= peak
    ensures Parens(Show(e, level), base, Open(stack, peak)) == Open(stack, Max(peak, |stack| + Nesting(e, level)))
    decreases e, 1
  {
    hide Parens;
    if Level(e) < level {
      var raw := Raw(e);
      ParensOne(Left, base, Open(stack, peak));
      ParensOfRaw(e, base + 1, stack + [base], Max(peak, |stack| + 1));
      ParensCat([Left], raw, base, Open(stack, peak));
      ParensCat([Left] + raw, [Right], base, Open(stack, peak));
      var inner := Open(stack + [base], Max(Max(peak, |stack| + 1), |stack| + 1 + NestingRaw(e)));
      ParensOne(Right, base + 1 + |raw|, inner);
      assert (stack + [base])[..|stack|] == stack;
    } else {
      ParensOfRaw(e, base, stack, peak);
    }
  }

  lemma {:induction false} ParensOfRaw(e: Expr, base: nat, stack: seq<nat>, peak: nat)
    requires WellFormed(e) && |stack| <= peak
    ensures Parens(Raw(e), base, Open(stack, peak)) == Open(stack, Max(peak, |stack| + NestingRaw(e)))
    decreases e, 0
  {
    hide Parens;
    match e
    case Leaf(t) => ParensOne(t, base, Open(stack, peak));
    case Bin(op, l, r) =>
      var a, b := Show(l, LeftLevel(op)), Show(r, RightLevel(op));
      var peak1 := Max(peak, |stack| + Nesting(l, LeftLevel(op)));
      ParensOfShow(l, LeftLevel(op), base, stack, peak);
      ParensOne(Operator(op), base + |a|, Open(stack, peak1));
      ParensOfShow(r, RightLevel(op), base + |a| + 1, stack, peak1);
      ParensCat(a, [Operator(op)], base, Open(stack, peak));
      ParensCat(a + [Operator(op)], b, base, Open(stack, peak));
  }

  /** A closing parenthesis at the end has its partner inside the expression. */
  lemma {:induction false} LastPair(e: Expr, level: nat, base: nat, stack: seq<nat>, peak: nat) returns (at: nat)
    requires WellFormed(e) && |stack| <= peak && Show(e, level)[|Show(e, level)| - 1] == Right
    ensures var ts := Show(e, level);
            var before := Parens(ts[..|ts| - 1], base, Open(stack, peak));
            at >= base && before.Open? && before.stack == stack + [at]
    decreases e
  {
    hide Parens;
    var ts := Show(e, level);
    if Level(e) < level {
      at := base;
      assert ts[..|ts| - 1] == [Left] + Raw(e);
      ParensOne(Left, base, Open(stack, peak));
      ParensOfRaw(e, base + 1, stack + [base], Max(peak, |stack| + 1));
      ParensCat([Left], Raw(e), base, Open(stack, peak));
    } else {
      at := LastPairRight(e, base, stack, peak);
    }
  }

  lemma LastPairRight(e: Expr, base: nat, stack: seq<nat>, peak: nat) returns (at: nat)
    requires WellFormed(e) && |stack| <= peak && Raw(e)[|Raw(e)| - 1] == Right
    ensures e.Bin? && at > base + |Show(e.l, LeftLevel(e.op))|
    ensures var ts := Raw(e);
            var before := Parens(ts[..|ts| - 1], base, Open(stack, peak));
            before.Open? && before.stack == stack + [at]
    decreases e, 0
  {
    hide *;
    RawEnds(e);
    var a, b := Show(e.l, LeftLevel(e.op)), Show(e.r, RightLevel(e.op));
    var peak1 := Max(peak, |stack| + Nesting(e.l, LeftLevel(e.op)));
    MaxIs(peak, |stack| + Nesting(e.l, LeftLevel(e.op)));
    ParensOfShow(e.l, LeftLevel(e.op), base, stack, peak);
    OperatorStep(stack, peak1, e.op, base + |a|);
    at := LastPair(e.r, RightLevel(e.op), base + |a| + 1, stack, peak1);
    ParensCat(a, [Operator(e.op)], base, Open(stack, peak));
    ParensCat(a + [Operator(e.op)], b[..|b| - 1], base, Open(stack, peak));
  }

  lemma MaxIs(a: nat, b: nat)
    ensures Max(a, b) >= a && Max(a, b) >= b
  {
  }

  lemma OperatorStep(stack: seq<nat>, peak: nat, op: Op, at: nat)
    ensures Parens([Operator(op)], at, Open(stack, peak)) == Open(stack, peak)
  {
    ParensOne(Operator(op), at, Open(stack, peak));
  }

  lemma RawEnds(e: Expr)
    requires WellFormed(e) && Raw(e)[|Raw(e)| - 1] == Right
    ensures e.Bin? && WellFormed(e.l) && WellFormed(e.r)
    ensures var a, b := Show(e.l, LeftLevel(e.op)), Show(e.r, RightLevel(e.op));
            && b[|b| - 1] == Right && Raw(e) == a + [Operator(e.op)] + b
            && Raw(e)[..|Raw(e)| - 1] == a + [Operator(e.op)] + b[..|b| - 1]
  {
    if e.Bin? {
      var a, b := Show(e.l, LeftLevel(e.op)), Show(e.r, RightLevel(e.op));
      assert Raw(e) == a + [Operator(e.op)] + b;
    }
  }

  // ---- the main operator ----

  datatype Best = NoOp | At(pos: nat, op: Op)

  // The order of the token types.
  function Rank(op: Op): nat {
    match op case And => 0 case Eq => 1 case Neq => 2 case Plus => 3 case Sub => 4 case Mul => 5 case Div => 6
  }

  /** A later operator takes over. */
  predicate Takes(old': Op, new': Op) {
    match new'
    case And => true
    case Eq => Rank(old') >= 3 case Neq => Rank(old') >= 3
    case Plus => Rank(old') >= 3 case Sub => Rank(old') >= 3
    case Mul => Rank(old') >= 5 case Div => Rank(old') >= 5
  }

  function Pick(b: Best, m: Best): Best {
    if m.NoOp? then b else if b.NoOp? || Takes(b.op, m.op) then m else b
  }

  datatype Scan = Scan(best: Best, depth: int)

  function ScanStep(s: Scan, t: Token, at: nat): Scan {
    if t == Left then s.(depth := s.depth + 1)
    else if t == Right then s.(depth := s.depth - 1)
    else if s.depth == 0 && t.Operator? then s.(best := Pick(s.best, At(at, t.op)))
    else s
  }

  function Scanned(ts: seq<Token>, base: nat, s: Scan): Scan {
    if ts == [] then s else ScanStep(Scanned(ts[..|ts| - 1], base, s), ts[|ts| - 1], base + |ts| - 1)
  }

  lemma {:induction false} ScannedCat(a: seq<Token>, b: seq<Token>, base: nat, s: Scan)
    ensures Scanned(a + b, base, s) == Scanned(b, base + |a|, Scanned(a, base, s))
    decreases |b|
  {
    if b == [] {
      assert a + b == a;
    } else {
      assert (a + b)[..|a + b| - 1] == a + b[..|b| - 1];
      ScannedCat(a, b[..|b| - 1], base, s);
    }
  }

  lemma ScannedOne(t: Token, base: nat, s: Scan)
    ensures Scanned([t], base, s) == ScanStep(s, t, base)
  {
    assert [t][..0] == [];
  }

  /** Nothing inside parentheses counts. */
  lemma {:induction false} ScanInside(e: Expr, level: nat, base: nat, s: Scan)
    requires WellFormed(e) && s.depth > 0
    ensures Scanned(Show(e, level), base, s) == s
    decreases e, 2
  {
    hide Scanned;
    if Level(e) < level {
      ScanParens(e, base, s);
    } else {
      ScanRawInside(e, base, s);
    }
  }

  lemma {:induction false} ScanRawInside(e: Expr, base: nat, s: Scan)
    requires WellFormed(e) && s.depth > 0
    ensures Scanned(Raw(e), base, s) == s
    decreases e, 0
  {
    hide Scanned;
    match e
    case Leaf(t) => ScannedOne(t, base, s);
    case Bin(op, l, r) =>
      var a, b := Show(l, LeftLevel(op)), Show(r, RightLevel(op));
      ScanInside(l, LeftLevel(op), base, s);
      ScannedOne(Operator(op), base + |a|, s);
      ScanInside(r, RightLevel(op), base + |a| + 1, s);
      ScannedCat(a, [Operator(op)], base, s);
      ScannedCat(a + [Operator(op)], b, base, s);
  }

  lemma {:induction false} ScanParens(e: Expr, base: nat, s: Scan)
    requires WellFormed(e) && s.depth >= 0
    ensures Scanned([Left] + Raw(e) + [Right], base, s) == s
    decreases e, 1
  {
    hide Scanned;
    var inner := s.(depth := s.depth + 1);
    ScannedOne(Left, base, s);
    ScanRawInside(e, base + 1, inner);
    ScannedOne(Right, base + 1 + |Raw(e)|, inner);
    ScannedCat([Left], Raw(e), base, s);
    ScannedCat([Left] + Raw(e), [Right], base, s);
  }

  /** Where the main operator of an expression stands among its tokens. */
  function Main(e: Expr, level: nat, base: nat): Best {
    if Level(e) < level || e.Leaf? then NoOp else At(base + |Show(e.l, LeftLevel(e.op))|, e.op)
  }

  /** Scanning an expression is meeting its main operator: nothing else in it can win against that. */
  lemma {:induction false} ScanOfShow(e: Expr, level: nat, base: nat, b: Best)
    requires WellFormed(e)
    ensures Scanned(Show(e, level), base, Scan(b, 0)) == Scan(Pick(b, Main(e, level, base)), 0)
    decreases e
  {
    hide Scanned, Takes;
    if Level(e) < level {
      ScanParens(e, base, Scan(b, 0));
    } else {
      match e
      case Leaf(t) => ScannedOne(t, base, Scan(b, 0));
      case Bin(op, l, r) =>
        var x, y := Show(l, LeftLevel(op)), Show(r, RightLevel(op));
        var mid := base + |x|;
        var b1 := Pick(b, Main(l, LeftLevel(op), base));
        ScanOfShow(l, LeftLevel(op), base, b);
        ScannedOne(Operator(op), mid, Scan(b1, 0));
        ScanOfShow(r, RightLevel(op), mid + 1, Pick(b1, At(mid, op)));
        ScannedCat(x, [Operator(op)], base, Scan(b, 0));
        ScannedCat(x + [Operator(op)], y, base, Scan(b, 0));
        MainWins(b, Main(l, LeftLevel(op), base), op, mid, Main(r, RightLevel(op), mid + 1));
    }
  }

  /** Operands bind more tightly than their operator, or as tightly on the side it groups to. */
  lemma MainWins(b: Best, m1: Best, op: Op, at: nat, m2: Best)
    requires m1.At? ==> Prec(m1.op) >= LeftLevel(op)
    requires m2.At? ==> Prec(m2.op) >= RightLevel(op)
    ensures Pick(Pick(Pick(b, m1), At(at, op)), m2) == Pick(b, At(at, op))
  {
  }

  /** No parentheses are printed that are not needed: an operand without them is read as such exactly when it binds as
      tightly as its side demands. */
  lemma LevelsExact(op: Op, m: Op)
    ensures Takes(m, op) <==> Prec(m) >= LeftLevel(op)
    ensures !Takes(op, m) <==> Prec(m) >= RightLevel(op)
  {
  }
}
