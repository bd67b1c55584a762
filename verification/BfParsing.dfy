/** Which token lists are programs: bracket depth, unique parses, and parses still in progress. */
module BfParsing {
  import opened BfLanguage
  import opened BfMachine

  /** Opening brackets minus closing brackets. */
  function Depth(ts: seq<Op>): int {
    if ts == [] then 0
    else
      var last := ts[|ts| - 1];
      Depth(ts[..|ts| - 1]) + if last == JmpFwd then 1 else if last == JmpBck then -1 else 0
  }

  /** Brackets never close too early and never nest deeper than the compiler's stack. */
  predicate InBounds(ts: seq<Op>) {
    forall k :: 0 <= k <= |ts| ==> 0 <= Depth(ts[..k]) <= STACK_SIZE
  }

  /** What the compiler accepts: balanced, not nested too deeply, and short enough. */
  predicate Accepts(ts: seq<Op>) { |ts| < PROGRAM_SIZE && InBounds(ts) && Depth(ts) == 0 }

  lemma DepthNext(ts: seq<Op>, op: Op)
    ensures Depth(ts + [op]) == Depth(ts) + if op == JmpFwd then 1 else if op == JmpBck then -1 else 0
    ensures InBounds(ts + [op]) <==> InBounds(ts) && 0 <= Depth(ts + [op]) <= STACK_SIZE
  {
    var more := ts + [op];
    assert more[..|ts|] == ts && more[..|more|] == more;
    hide Depth;
    if InBounds(ts) && 0 <= Depth(more) <= STACK_SIZE {
      forall k | 0 <= k <= |more| ensures 0 <= Depth(more[..k]) <= STACK_SIZE {
        if k <= |ts| {
          assert more[..k] == ts[..k];
        }
      }
    }
    if InBounds(more) {
      assert 0 <= Depth(more[..|more|]) <= STACK_SIZE;
      forall k | 0 <= k <= |ts| ensures 0 <= Depth(ts[..k]) <= STACK_SIZE {
        assert more[..k] == ts[..k];
      }
    }
  }

  lemma InBoundsPrefix(ts: seq<Op>, more: seq<Op>)
    requires InBounds(ts + more)
    ensures InBounds(ts)
  {
    hide Depth;
    forall k | 0 <= k <= |ts| ensures 0 <= Depth(ts[..k]) <= STACK_SIZE {
      assert (ts + more)[..k] == ts[..k];
    }
  }

  lemma TokensNext(code: string, i: nat)
    requires i < |code|
    ensures Tokens(code[..i + 1]) == Tokens(code[..i]) + if OpOf(code[i]) == End then [] else [OpOf(code[i])]
  {
    assert code[..i + 1][..i] == code[..i];
  }

  lemma {:induction false} TokensPrefix(code: string, i: nat) returns (more: seq<Op>)
    requires i <= |code|
    ensures Tokens(code) == Tokens(code[..i]) + more
    decreases |code| - i
  {
    if i == |code| {
      assert code[..i] == code;
      more := [];
    } else {
      TokensNext(code, i);
      var rest := TokensPrefix(code, i + 1);
      more := (if OpOf(code[i]) == End then [] else [OpOf(code[i])]) + rest;
    }
  }

  // ---- programs are exactly the balanced token lists ----

  function Nesting(b: Prog): nat {
    match b
    case Nil => 0
    case Prim(_, rest) => Nesting(rest)
    case Loop(body, rest) => if Nesting(body) + 1 > Nesting(rest) then Nesting(body) + 1 else Nesting(rest)
  }

  lemma {:induction false} DepthJoin(a: seq<Op>, b: seq<Op>)
    ensures Depth(a + b) == Depth(a) + Depth(b)
  {
    if b == [] {
      assert a + b == a;
    } else {
      DepthJoin(a, b[..|b| - 1]);
      assert (a + b)[..|a + b| - 1] == a + b[..|b| - 1];
    }
  }

  lemma {:induction false} FlattenBalanced(b: Prog)
    requires Proper(b)
    ensures Depth(Flatten(b)) == 0
  {
    match b
    case Nil =>
    case Prim(op, rest) =>
      FlattenBalanced(rest);
      DepthJoin([op], Flatten(rest));
    case Loop(body, rest) =>
      FlattenBalanced(body);
      FlattenBalanced(rest);
      DepthJoin([JmpFwd], Flatten(body));
      DepthJoin([JmpFwd] + Flatten(body), [JmpBck]);
      DepthJoin([JmpFwd] + Flatten(body) + [JmpBck], Flatten(rest));
  }

  lemma DepthAfterPrim(op: Op, rest: Prog, k: nat)
    requires IsPrim(op) && k <= Size(rest)
    ensures |Flatten(rest)| == Size(rest) && |Flatten(Prim(op, rest))| == Size(rest) + 1
    ensures Depth(Flatten(Prim(op, rest))[..k + 1]) == Depth(Flatten(rest)[..k])
  {
    FlattenSize(rest);
    assert Flatten(Prim(op, rest))[..k + 1] == [op] + Flatten(rest)[..k];
    DepthJoin([op], Flatten(rest)[..k]);
  }

  lemma DepthInLoop(body: Prog, rest: Prog, k: nat)
    requires k <= Size(body)
    ensures |Flatten(body)| == Size(body) && |Flatten(Loop(body, rest))| == Size(body) + Size(rest) + 2
    ensures Depth(Flatten(Loop(body, rest))[..k + 1]) == 1 + Depth(Flatten(body)[..k])
  {
    FlattenSize(body);
    FlattenSize(rest);
    assert Flatten(Loop(body, rest))[..k + 1] == [JmpFwd] + Flatten(body)[..k];
    DepthJoin([JmpFwd], Flatten(body)[..k]);
  }

  lemma DepthAfterLoop(body: Prog, rest: Prog, k: nat)
    requires Proper(body) && k <= Size(rest)
    ensures |Flatten(rest)| == Size(rest) && |Flatten(Loop(body, rest))| == Size(body) + Size(rest) + 2
    ensures Depth(Flatten(Loop(body, rest))[..Size(body) + 2 + k]) == Depth(Flatten(rest)[..k])
  {
    hide Depth;
    FlattenSize(body);
    FlattenSize(rest);
    FlattenBalanced(Loop(body, Nil));
    var front := Flatten(Loop(body, Nil));
    assert front == [JmpFwd] + Flatten(body) + [JmpBck];
    assert Flatten(Loop(body, rest))[..Size(body) + 2 + k] == front + Flatten(rest)[..k];
    DepthJoin(front, Flatten(rest)[..k]);
  }

  lemma DepthAtStart(ts: seq<Op>)
    ensures Depth(ts[..0]) == 0
  {
  }

  lemma Parts(b: Prog)
    ensures b.Nil? ==> Size(b) == 0 && Nesting(b) == 0
    ensures b.Prim? ==> Size(b) == 1 + Size(b.rest) && Nesting(b) == Nesting(b.rest) && (Proper(b) ==> IsPrim(b.op) && Proper(b.rest))
    ensures b.Loop? ==> Size(b) == Size(b.body) + Size(b.rest) + 2 && (Proper(b) ==> Proper(b.body) && Proper(b.rest))
    ensures b.Loop? ==> Nesting(b.body) + 1 <= Nesting(b) && Nesting(b.rest) <= Nesting(b)
  {
  }

  /** The depth inside a program, seen from outside: between 0 and its nesting. */
  lemma {:induction false} DepthInside(b: Prog, k: nat)
    requires Proper(b) && k <= Size(b)
    ensures k <= |Flatten(b)| && 0 <= Depth(Flatten(b)[..k]) <= Nesting(b)
    decreases b
  {
    hide *;
    FlattenSize(b);
    DepthAtStart(Flatten(b));
    Parts(b);
    match b
    case Nil =>
    case Prim(op, rest) =>
      if k > 0 {
        DepthInside(rest, k - 1);
        DepthAfterPrim(op, rest, k - 1);
      }
    case Loop(body, rest) =>
      if 0 < k <= 1 + Size(body) {
        DepthInside(body, k - 1);
        DepthInLoop(body, rest, k - 1);
      } else if 0 < k {
        DepthInside(rest, k - 2 - Size(body));
        DepthAfterLoop(body, rest, k - 2 - Size(body));
      }
  }

  /** And the nesting is reached. */
  lemma {:induction false} NestingReached(b: Prog) returns (k: nat)
    requires Proper(b)
    ensures k <= |Flatten(b)| && k <= Size(b) && Depth(Flatten(b)[..k]) == Nesting(b)
    decreases b
  {
    hide Depth, Flatten;
    FlattenSize(b);
    DepthAtStart(Flatten(b));
    match b
    case Nil => k := 0;
    case Prim(op, rest) =>
      k := NestingReached(rest);
      DepthAfterPrim(op, rest, k);
      k := k + 1;
    case Loop(body, rest) =>
      if Nesting(body) + 1 > Nesting(rest) {
        k := NestingReached(body);
        DepthInLoop(body, rest, k);
        k := k + 1;
      } else {
        k := NestingReached(rest);
        DepthAfterLoop(body, rest, k);
        k := Size(body) + 2 + k;
      }
  }

  /** A structured program compiles if and only if it fits the program memory and the stack. */
  lemma ProgramsAccepted(b: Prog)
    requires Proper(b)
    ensures Accepts(Flatten(b)) <==> Size(b) < PROGRAM_SIZE && Nesting(b) <= STACK_SIZE
  {
    FlattenSize(b);
    FlattenBalanced(b);
    var k := NestingReached(b);
    if Nesting(b) <= STACK_SIZE {
      forall i | 0 <= i <= |Flatten(b)| ensures 0 <= Depth(Flatten(b)[..i]) <= STACK_SIZE {
        DepthInside(b, i);
      }
    }
  }

  /** What can follow a complete program: nothing, or a closing bracket. */
  predicate Closes(x: seq<Op>) { x == [] || x[0] == JmpBck }

  function Head(b: Prog, y: seq<Op>): seq<Op> {
    match b case Nil => y case Prim(op, _) => [op] case Loop(_, _) => [JmpFwd]
  }

  function Tail(b: Prog, y: seq<Op>): seq<Op>
    requires b != Nil
  {
    match b
    case Prim(_, rest) => Flatten(rest) + y
    case Loop(body, rest) => Flatten(body) + ([JmpBck] + (Flatten(rest) + y))
  }

  lemma HeadAndTail(b: Prog, y: seq<Op>)
    ensures b == Nil ==> Flatten(b) + y == y
    ensures b != Nil ==> Flatten(b) + y == Head(b, y) + Tail(b, y)
  {
    match b
    case Nil => assert Flatten(b) + y == y;
    case Prim(op, rest) => assert Flatten(b) + y == [op] + (Flatten(rest) + y);
    case Loop(body, rest) => Regroup([JmpFwd], Flatten(body), [JmpBck], Flatten(rest), y);
  }

  lemma Regroup(a: seq<Op>, b: seq<Op>, c: seq<Op>, d: seq<Op>, e: seq<Op>)
    ensures a + b + c + d + e == a + (b + (c + (d + e)))
  {
  }

  lemma DropFirst(x: Op, a: seq<Op>, y: Op, b: seq<Op>)
    requires [x] + a == [y] + b
    ensures x == y && a == b
  {
    assert ([x] + a)[0] == x && ([y] + b)[0] == y;
    assert a == ([x] + a)[1..] && b == ([y] + b)[1..];
  }

  /** A token list has at most one parse. */
  lemma {:induction false} UniqueParse(a: Prog, x: seq<Op>, b: Prog, y: seq<Op>)
    requires Proper(a) && Proper(b) && Closes(x) && Closes(y)
    requires Flatten(a) + x == Flatten(b) + y
    ensures a == b && x == y
    decreases a
  {
    hide Flatten;
    HeadAndTail(a, x);
    HeadAndTail(b, y);
    if a != Nil && b != Nil {
      DropFirst(Head(a, x)[0], Tail(a, x), Head(b, y)[0], Tail(b, y));
      if a.Prim? {
        UniqueParse(a.rest, x, b.rest, y);
      } else {
        var x1, y1 := Flatten(a.rest) + x, Flatten(b.rest) + y;
        UniqueParse(a.body, [JmpBck] + x1, b.body, [JmpBck] + y1);
        DropFirst(JmpBck, x1, JmpBck, y1);
        UniqueParse(a.rest, x, b.rest, y);
      }
    }
  }
}
