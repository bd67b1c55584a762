/** The virtual machine of `execute_bf`, and why compiled programs mean what their source means. */
module BfMachine {
  import opened BfLanguage

  datatype Instr = Instr(op: Op, operand: nat)

  datatype State = State(pc: nat, m: Mem)

  /** The loop stops at an END instruction or when the data pointer has left the data. */
  predicate Halted(prog: seq<Instr>, s: State) {
    s.pc >= |prog| || prog[s.pc].op == End || !GoodMem(s.m)
  }

  function Step(prog: seq<Instr>, s: State, input: nat -> nat): State
    requires !Halted(prog, s)
  {
    var i := prog[s.pc];
    var zero := s.m.data[s.m.ptr] == 0;
    if i.op == JmpFwd then s.(pc := (if zero then i.operand else s.pc) + 1)
    else if i.op == JmpBck then s.(pc := (if zero then s.pc else i.operand) + 1)
    else State(s.pc + 1, Apply(i.op, s.m, input))
  }

  /** `n` steps lead from `s` to `s'`, none of them from a halted state. */
  ghost predicate Steps(prog: seq<Instr>, s: State, input: nat -> nat, n: nat, s': State)
    decreases n
  {
    if n == 0 then s == s' else !Halted(prog, s) && Steps(prog, Step(prog, s, input), input, n - 1, s')
  }

  lemma {:induction false} StepsJoin(prog: seq<Instr>, s: State, s1: State, s2: State, input: nat -> nat, n: nat, k: nat)
    requires Steps(prog, s, input, n, s1) && Steps(prog, s1, input, k, s2)
    ensures Steps(prog, s, input, n + k, s2)
    decreases n
  {
    if n > 0 {
      StepsJoin(prog, Step(prog, s, input), s1, s2, input, n - 1, k);
    }
  }

  /** `prog` holds `b` from `lo` on, with every jump operand at the matching bracket. */
  predicate Encodes(prog: seq<Instr>, lo: nat, b: Prog)
    decreases b
  {
    && lo + Size(b) <= |prog|
    && match b
       case Nil => true
       case Prim(op, rest) => prog[lo].op == op && Encodes(prog, lo + 1, rest)
       case Loop(body, rest) =>
         var hi := lo + 1 + Size(body);
         && prog[lo] == Instr(JmpFwd, hi) && prog[hi] == Instr(JmpBck, lo)
         && Encodes(prog, lo + 1, body) && Encodes(prog, hi + 1, rest)
  }

  /** Outcome `r` of the structured program is what `n` steps of the machine give. */
  predicate Simulates(r: Outcome, fuel: nat, end: nat, n: nat, s': State) {
    match r
    case Done(m) => s' == State(end, m)
    case OffData(m) => s'.m == m && m.ptr >= DATA_SIZE
    case OutOfFuel => fuel <= n
  }

  lemma OneStep(prog: seq<Instr>, s: State, input: nat -> nat, n: nat, s': State)
    requires !Halted(prog, s) && Steps(prog, Step(prog, s, input), input, n, s')
    ensures Steps(prog, s, input, n + 1, s')
  {
  }

  lemma LastStep(prog: seq<Instr>, s: State, input: nat -> nat)
    requires !Halted(prog, s)
    ensures Steps(prog, s, input, 1, Step(prog, s, input))
  {
  }

  lemma PrimStep(prog: seq<Instr>, lo: nat, b: Prog, m: Mem, input: nat -> nat)
    requires b.Prim? && Proper(b) && Encodes(prog, lo, b) && GoodMem(m)
    ensures !Halted(prog, State(lo, m)) && Step(prog, State(lo, m), input) == State(lo + 1, Apply(b.op, m, input))
    ensures Encodes(prog, lo + 1, b.rest) && Proper(b.rest)
  {
  }

  lemma LoopShape(prog: seq<Instr>, lo: nat, b: Prog)
    requires b.Loop? && Proper(b) && Encodes(prog, lo, b)
    ensures var hi := lo + 1 + Size(b.body);
            && hi < |prog| && prog[lo] == Instr(JmpFwd, hi) && prog[hi] == Instr(JmpBck, lo)
            && Encodes(prog, lo + 1, b.body) && Encodes(prog, hi + 1, b.rest) && Proper(b.body) && Proper(b.rest)
            && lo + Size(b) == hi + 1 + Size(b.rest)
  {
  }

  /** At either bracket of a loop the machine goes into the body or past the loop, by the current cell. */
  lemma BracketStep(prog: seq<Instr>, lo: nat, b: Prog, m: Mem, input: nat -> nat)
    requires b.Loop? && Proper(b) && Encodes(prog, lo, b) && GoodMem(m)
    ensures var hi := lo + 1 + Size(b.body);
            var next := State(if m.data[m.ptr] == 0 then hi + 1 else lo + 1, m);
            && !Halted(prog, State(lo, m)) && Step(prog, State(lo, m), input) == next
            && !Halted(prog, State(hi, m)) && Step(prog, State(hi, m), input) == next
            && Encodes(prog, lo + 1, b.body) && Encodes(prog, hi + 1, b.rest) && Proper(b.body) && Proper(b.rest)
            && lo + Size(b) == hi + 1 + Size(b.rest)
  {
    hide Encodes, Apply, Size;
    LoopShape(prog, lo, b);
  }

  /** So both brackets lead on in the same way. */
  lemma BracketsAgree(prog: seq<Instr>, lo: nat, b: Prog, m: Mem, input: nat -> nat, n: nat, s': State)
    requires b.Loop? && Proper(b) && Encodes(prog, lo, b) && GoodMem(m) && 0 < n
    ensures Steps(prog, State(lo, m), input, n, s') <==> Steps(prog, State(lo + 1 + Size(b.body), m), input, n, s')
  {
    hide Step, Halted, Encodes;
    BracketStep(prog, lo, b, m, input);
  }

  lemma MeaningOfPrim(b: Prog, m: Mem, input: nat -> nat, fuel: nat)
    requires b.Prim? && GoodMem(m)
    ensures var m' := Apply(b.op, m, input);
            && (m'.ptr < DATA_SIZE <==> GoodMem(m'))
            && Meaning(b, m, input, fuel) == if GoodMem(m') then Meaning(b.rest, m', input, fuel) else OffData(m')
  {
  }

  lemma MeaningOfLoop(b: Prog, m: Mem, input: nat -> nat, fuel: nat)
    requires b.Loop? && GoodMem(m)
    ensures Meaning(b, m, input, fuel) ==
            if m.data[m.ptr] == 0 then Meaning(b.rest, m, input, fuel)
            else if fuel == 0 then OutOfFuel
            else var r := Meaning(b.body, m, input, fuel - 1);
                 if r.Done? then Meaning(b, r.m, input, fuel - 1) else r
  {
  }

  /** Running the compiled code simulates the structured program, whatever its outcome. */
  lemma {:induction false} Simulation(prog: seq<Instr>, lo: nat, b: Prog, m: Mem, input: nat -> nat, fuel: nat)
    returns (n: nat, s': State)
    requires Proper(b) && Encodes(prog, lo, b) && GoodMem(m)
    ensures Steps(prog, State(lo, m), input, n, s')
    ensures Simulates(Meaning(b, m, input, fuel), fuel, lo + Size(b), n, s')
    ensures b.Loop? ==> 0 < n
    decreases fuel, b
  {
    match b
    case Nil =>
      n, s' := 0, State(lo, m);
    case Prim(op, rest) =>
      n, s' := SimulatePrim(prog, lo, b, m, input, fuel);
    case Loop(body, rest) =>
      n, s' := SimulateLoop(prog, lo, b, m, input, fuel);
  }

  lemma SimulatePrim(prog: seq<Instr>, lo: nat, b: Prog, m: Mem, input: nat -> nat, fuel: nat)
    returns (n: nat, s': State)
    requires b.Prim? && Proper(b) && Encodes(prog, lo, b) && GoodMem(m)
    ensures Steps(prog, State(lo, m), input, n, s')
    ensures Simulates(Meaning(b, m, input, fuel), fuel, lo + Size(b), n, s')
    decreases fuel, b, 0
  {
    hide Step, Halted, Encodes, Meaning, Steps, Apply;
    var m' := Apply(b.op, m, input);
    PrimStep(prog, lo, b, m, input);
    MeaningOfPrim(b, m, input, fuel);
    if GoodMem(m') {
      n, s' := Simulation(prog, lo + 1, b.rest, m', input, fuel);
      OneStep(prog, State(lo, m), input, n, s');
      n := n + 1;
    } else {
      LastStep(prog, State(lo, m), input);
      n, s' := 1, State(lo + 1, m');
    }
  }

  lemma SimulateLoop(prog: seq<Instr>, lo: nat, b: Prog, m: Mem, input: nat -> nat, fuel: nat)
    returns (n: nat, s': State)
    requires b.Loop? && Proper(b) && Encodes(prog, lo, b) && GoodMem(m)
    ensures Steps(prog, State(lo, m), input, n, s') && 0 < n
    ensures Simulates(Meaning(b, m, input, fuel), fuel, lo + Size(b), n, s')
    decreases fuel, b, 0
  {
    hide Step, Halted, Encodes, Meaning, Steps, Size;
    var hi := lo + 1 + Size(b.body);
    BracketStep(prog, lo, b, m, input);
    MeaningOfLoop(b, m, input, fuel);
    if m.data[m.ptr] == 0 {
      n, s' := Simulation(prog, hi + 1, b.rest, m, input, fuel);
      OneStep(prog, State(lo, m), input, n, s');
      n := n + 1;
    } else if fuel == 0 {
      LastStep(prog, State(lo, m), input);
      n, s' := 1, State(lo + 1, m);
    } else {
      n, s' := Simulation(prog, lo + 1, b.body, m, input, fuel - 1);
      OneStep(prog, State(lo, m), input, n, s');
      n := n + 1;
      var r := Meaning(b.body, m, input, fuel - 1);
      if r.Done? {
        var k, s2 := Simulation(prog, lo, b, r.m, input, fuel - 1);
        BracketsAgree(prog, lo, b, r.m, input, k, s2);
        StepsJoin(prog, State(lo, m), s', s2, input, n, k);
        n, s' := n + k, s2;
      }
    }
  }

  // ---- halting ----

  lemma {:induction false} HaltedIsLast(prog: seq<Instr>, s: State, input: nat -> nat, n: nat, s1: State, k: nat, s2: State)
    requires Steps(prog, s, input, n, s1) && Halted(prog, s1) && Steps(prog, s, input, k, s2)
    ensures k <= n && (Halted(prog, s2) ==> k == n && s1 == s2)
    decreases n
  {
    hide Step, Halted;
    if n > 0 && k > 0 {
      HaltedIsLast(prog, Step(prog, s, input), input, n - 1, s1, k - 1, s2);
    }
  }

  /** The machine halts in a state with memory `m`. */
  ghost predicate HaltsWith(prog: seq<Instr>, m0: Mem, input: nat -> nat, m: Mem) {
    exists n: nat, pc: nat :: Steps(prog, State(0, m0), input, n, State(pc, m)) && Halted(prog, State(pc, m))
  }

  /** The structured program ends with memory `m`. */
  ghost predicate EndsWith(b: Prog, m0: Mem, input: nat -> nat, m: Mem)
    requires GoodMem(m0)
  {
    exists fuel: nat :: Meaning(b, m0, input, fuel) == Done(m) || Meaning(b, m0, input, fuel) == OffData(m)
  }

  /** `prog` is the compiled form of `b`. */
  predicate Compiled(prog: seq<Instr>, b: Prog) {
    Proper(b) && Encodes(prog, 0, b) && Size(b) < |prog| && prog[Size(b)].op == End
  }

  lemma EndingHalts(prog: seq<Instr>, b: Prog, m0: Mem, input: nat -> nat, fuel: nat) returns (n: nat, s': State)
    requires Compiled(prog, b) && GoodMem(m0)
    ensures Steps(prog, State(0, m0), input, n, s')
    ensures match Meaning(b, m0, input, fuel)
            case OutOfFuel => fuel <= n
            case Done(m) => s'.m == m && Halted(prog, s')
            case OffData(m) => s'.m == m && Halted(prog, s')
  {
    hide Step, Steps, Meaning, Encodes;
    n, s' := Simulation(prog, 0, b, m0, input, fuel);
  }

  /** Main result: compiled code halts exactly when the structured program ends, with the same data,
      data pointer, consumed input and output. */
  lemma CompiledMeansSource(prog: seq<Instr>, b: Prog, m0: Mem, input: nat -> nat, m: Mem)
    requires Compiled(prog, b) && GoodMem(m0)
    ensures HaltsWith(prog, m0, input, m) <==> EndsWith(b, m0, input, m)
  {
    hide Step, Steps, Meaning, Compiled, Halted;
    if EndsWith(b, m0, input, m) {
      var fuel: nat :| Meaning(b, m0, input, fuel) == Done(m) || Meaning(b, m0, input, fuel) == OffData(m);
      var n, s' := EndingHalts(prog, b, m0, input, fuel);
      assert State(s'.pc, m) == s';
    }
    if HaltsWith(prog, m0, input, m) {
      var n: nat, pc: nat :| Steps(prog, State(0, m0), input, n, State(pc, m)) && Halted(prog, State(pc, m));
      var k, s' := EndingHalts(prog, b, m0, input, n + 1);
      HaltedIsLast(prog, State(0, m0), input, n, State(pc, m), k, s');
      assert Meaning(b, m0, input, n + 1) == Done(m) || Meaning(b, m0, input, n + 1) == OffData(m);
    }
  }

  // ---- the output buffer ----

  lemma StepWrites(prog: seq<Instr>, s: State, input: nat -> nat)
    requires !Halted(prog, s)
    ensures |Step(prog, s, input).m.out| == |s.m.out| + if prog[s.pc].op == Out then 1 else 0
  {
  }

  lemma {:induction false} OutputGrows(prog: seq<Instr>, s: State, input: nat -> nat, n: nat, s': State)
    requires Steps(prog, s, input, n, s')
    ensures |s.m.out| <= |s'.m.out|
    decreases n
  {
    hide Step, Halted;
    if n > 0 {
      StepWrites(prog, s, input);
      OutputGrows(prog, Step(prog, s, input), input, n - 1, s');
    }
  }

  /** The machine is about to write behind a buffer for `cap` outputs. */
  predicate Overflowing(prog: seq<Instr>, s: State, cap: nat) {
    !Halted(prog, s) && prog[s.pc].op == Out && |s.m.out| == cap
  }

  lemma {:induction false} OverflowAhead(prog: seq<Instr>, s: State, input: nat -> nat, n: nat, s': State, cap: nat)
    returns (k: nat, t: State)
    requires Steps(prog, s, input, n, s') && |s.m.out| <= cap < |s'.m.out|
    ensures Steps(prog, s, input, k, t) && Overflowing(prog, t, cap)
    decreases n
  {
    hide Step, Halted;
    StepWrites(prog, s, input);
    if |Step(prog, s, input).m.out| > cap {
      k, t := 0, s;
    } else {
      k, t := OverflowAhead(prog, Step(prog, s, input), input, n - 1, s', cap);
      k := k + 1;
    }
  }

  lemma {:induction false} OverflowCounts(prog: seq<Instr>, s: State, input: nat -> nat, n: nat, s': State, k: nat, t: State,
                                          cap: nat)
    requires Steps(prog, s, input, n, s') && Halted(prog, s') && Steps(prog, s, input, k, t) && Overflowing(prog, t, cap)
    ensures |s'.m.out| > cap
    decreases k
  {
    hide Step, Halted;
    if k == 0 {
      StepWrites(prog, s, input);
      OutputGrows(prog, Step(prog, s, input), input, n - 1, s');
    } else {
      OverflowCounts(prog, Step(prog, s, input), input, n - 1, s', k - 1, t, cap);
    }
  }

  /** A compiled program that ends writes behind the buffer exactly when its source writes more than the buffer holds. */
  lemma BufferSuffices(prog: seq<Instr>, b: Prog, m0: Mem, input: nat -> nat, m: Mem, cap: nat)
    requires Compiled(prog, b) && GoodMem(m0) && EndsWith(b, m0, input, m) && |m0.out| <= cap
    ensures |m.out| > cap <==> exists k, t :: Steps(prog, State(0, m0), input, k, t) && Overflowing(prog, t, cap)
  {
    hide Steps, Step, Halted, Compiled, EndsWith;
    CompiledMeansSource(prog, b, m0, input, m);
    var n: nat, pc: nat :| Steps(prog, State(0, m0), input, n, State(pc, m)) && Halted(prog, State(pc, m));
    if |m.out| > cap {
      var k, t := OverflowAhead(prog, State(0, m0), input, n, State(pc, m), cap);
    }
    forall k, t | Steps(prog, State(0, m0), input, k, t) && Overflowing(prog, t, cap)
      ensures |m.out| > cap
    {
      OverflowCounts(prog, State(0, m0), input, n, State(pc, m), k, t, cap);
    }
  }

  // ---- jump operands ----

  predicate IsJump(op: Op) { op == JmpFwd || op == JmpBck }

  /** Within [lo, hi), jump operands pair each opening bracket with a closing one further right. */
  predicate JumpAt(prog: seq<Instr>, lo: nat, hi: nat, i: nat)
    requires i < |prog|
  {
    var j := prog[i].operand;
    IsJump(prog[i].op) ==>
      && lo <= j < hi && j < |prog| && prog[j].operand == i
      && if prog[i].op == JmpFwd then i < j && prog[j].op == JmpBck else j < i && prog[j].op == JmpFwd
  }

  lemma PrimShape(prog: seq<Instr>, lo: nat, b: Prog)
    requires b.Prim? && Proper(b) && Encodes(prog, lo, b)
    ensures lo < |prog| && prog[lo].op == b.op && IsPrim(b.op) && Encodes(prog, lo + 1, b.rest) && Proper(b.rest)
    ensures lo + Size(b) == lo + 1 + Size(b.rest) <= |prog|
  {
  }

  lemma {:induction false} JumpsPair(prog: seq<Instr>, lo: nat, b: Prog, i: nat)
    requires Proper(b) && Encodes(prog, lo, b) && lo <= i < lo + Size(b) <= |prog|
    ensures JumpAt(prog, lo, lo + Size(b), i)
    decreases b
  {
    hide Encodes, Size, Proper;
    match b
    case Nil => NilSize();
    case Prim(op, rest) =>
      PrimShape(prog, lo, b);
      if i > lo {
        JumpsPair(prog, lo + 1, rest, i);
      }
    case Loop(body, rest) =>
      LoopShape(prog, lo, b);
      EncodedFits(prog, lo, b);
      var hi := lo + 1 + Size(body);
      if lo < i < hi {
        JumpsPair(prog, lo + 1, body, i);
      } else if hi < i {
        JumpsPair(prog, hi + 1, rest, i);
      }
  }

  lemma NilSize()
    ensures Size(Nil) == 0
  {
  }

  lemma EncodedFits(prog: seq<Instr>, lo: nat, b: Prog)
    requires Encodes(prog, lo, b)
    ensures lo + Size(b) <= |prog|
  {
  }

  /** Two loops are disjoint or one contains the other. */
  lemma {:induction false} JumpsNest(prog: seq<Instr>, lo: nat, b: Prog, i: nat, j: nat)
    requires Proper(b) && Encodes(prog, lo, b) && lo <= i < j < lo + Size(b) <= |prog|
    requires prog[i].op == JmpFwd && prog[j].op == JmpFwd
    ensures prog[i].operand < j || prog[j].operand < prog[i].operand
    decreases b
  {
    hide Encodes, Size, Proper;
    EncodedFits(prog, lo, b);
    match b
    case Nil => NilSize();
    case Prim(op, rest) =>
      PrimShape(prog, lo, b);
      JumpsNest(prog, lo + 1, rest, i, j);
    case Loop(body, rest) =>
      LoopShape(prog, lo, b);
      var hi := lo + 1 + Size(body);
      if lo < i && j < hi {
        JumpsNest(prog, lo + 1, body, i, j);
      } else if hi < i {
        JumpsNest(prog, hi + 1, rest, i, j);
      } else if i == lo && j < hi {
        JumpsPair(prog, lo + 1, body, j);
      } else if lo < i < hi && hi < j {
        JumpsPair(prog, lo + 1, body, i);
      }
  }

  /** The machine never leaves the program. */
  lemma {:induction false} StaysInside(prog: seq<Instr>, b: Prog, s: State, input: nat -> nat, n: nat, s': State)
    requires Compiled(prog, b) && s.pc <= Size(b) && Steps(prog, s, input, n, s')
    ensures s'.pc <= Size(b)
    decreases n
  {
    hide Encodes, Apply;
    if n > 0 {
      EncodedFits(prog, 0, b);
      if s.pc < Size(b) {
        JumpsPair(prog, 0, b, s.pc);
      }
      StaysInside(prog, b, Step(prog, s, input), input, n - 1, s');
    }
  }
}
