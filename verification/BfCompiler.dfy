/** `compile_bf` and `execute_bf` on their arrays. */
module BfCompiler {
  import opened BfLanguage
  import opened BfMachine
  import opened BfParsing
  import opened BfText

  // ---- a parse in progress ----

  /** The text so far: a program, or an open bracket inside an outer text and a program after it. */
  datatype Context = Top(b: Prog) | Inside(outer: Context, b: Prog)

  function ContextSize(c: Context): nat {
    match c
    case Top(b) => Size(b)
    case Inside(outer, b) => ContextSize(outer) + 1 + Size(b)
  }

  function Pending(c: Context): seq<Op> {
    match c
    case Top(b) => Flatten(b)
    case Inside(outer, b) => Pending(outer) + [JmpFwd] + Flatten(b)
  }

  /** The positions of the open brackets: the compiler's stack. */
  function Opens(c: Context): seq<nat> {
    match c
    case Top(_) => []
    case Inside(outer, _) => Opens(outer) + [ContextSize(outer)]
  }

  /** `prog` holds the compiled text so far; operands of open brackets are still missing. */
  predicate Holds(prog: seq<Instr>, c: Context) {
    match c
    case Top(b) => Proper(b) && Encodes(prog, 0, b)
    case Inside(outer, b) =>
      var j := ContextSize(outer);
      Holds(prog, outer) && j < |prog| && prog[j].op == JmpFwd && Proper(b) && Encodes(prog, j + 1, b)
  }

  function Add(c: Context, p: Prog): Context {
    match c
    case Top(b) => Top(Append(b, p))
    case Inside(outer, b) => Inside(outer, Append(b, p))
  }

  lemma AddFacts(c: Context, p: Prog)
    ensures ContextSize(Add(c, p)) == ContextSize(c) + Size(p)
    ensures Pending(Add(c, p)) == Pending(c) + Flatten(p)
    ensures Opens(Add(c, p)) == Opens(c)
  {
    AppendFacts(c.b, p);
  }

  // Folding and unfolding one constructor
  lemma LoopFold(prog: seq<Instr>, lo: nat, body: Prog, rest: Prog)
    requires var hi := lo + 1 + Size(body);
             && hi < |prog| && prog[lo] == Instr(JmpFwd, hi) && prog[hi] == Instr(JmpBck, lo)
             && Encodes(prog, lo + 1, body) && Encodes(prog, hi + 1, rest)
    ensures Encodes(prog, lo, Loop(body, rest))
  {
    hide Size;
    SizeOf(End, body, rest);
    EncodedFits(prog, lo + 1 + Size(body) + 1, rest);
  }

  lemma PrimFold(prog: seq<Instr>, lo: nat, op: Op, rest: Prog)
    ensures Encodes(prog, lo, Prim(op, rest)) <==> lo < |prog| && prog[lo].op == op && Encodes(prog, lo + 1, rest)
  {
    hide Size;
    SizeOf(op, Nil, rest);
    if Encodes(prog, lo + 1, rest) {
      EncodedFits(prog, lo + 1, rest);
    }
  }

  lemma LoopUnfold(prog: seq<Instr>, lo: nat, body: Prog, rest: Prog)
    requires Encodes(prog, lo, Loop(body, rest))
    ensures var hi := lo + 1 + Size(body);
            && hi < |prog| && prog[lo] == Instr(JmpFwd, hi) && prog[hi] == Instr(JmpBck, lo)
            && Encodes(prog, lo + 1, body) && Encodes(prog, hi + 1, rest)
  {
    hide Size;
    SizeOf(End, body, rest);
  }

  lemma SizeOf(op: Op, body: Prog, rest: Prog)
    ensures Size(Nil) == 0 && Size(Prim(op, rest)) == 1 + Size(rest)
    ensures Size(Loop(body, rest)) == Size(body) + Size(rest) + 2
  {
  }

  lemma {:induction false} EncodesSame(prog: seq<Instr>, prog': seq<Instr>, lo: nat, b: Prog)
    requires Encodes(prog, lo, b) && |prog'| == |prog|
    requires forall i :: lo <= i < lo + Size(b) ==> prog'[i] == prog[i]
    ensures Encodes(prog', lo, b)
    decreases b
  {
    match b
    case Nil =>
    case Prim(op, rest) => EncodesSame(prog, prog', lo + 1, rest);
    case Loop(body, rest) => LoopSame(prog, prog', lo, body, rest);
  }

  lemma LoopSame(prog: seq<Instr>, prog': seq<Instr>, lo: nat, body: Prog, rest: Prog)
    requires Encodes(prog, lo, Loop(body, rest)) && |prog'| == |prog|
    requires forall i :: lo <= i < lo + Size(Loop(body, rest)) ==> prog'[i] == prog[i]
    ensures Encodes(prog', lo, Loop(body, rest))
    decreases Loop(body, rest), 0
  {
    hide Encodes, Size;
    SizeOf(End, body, rest);
    LoopUnfold(prog, lo, body, rest);
    EncodesSame(prog, prog', lo + 1, body);
    EncodesSame(prog, prog', lo + 1 + Size(body) + 1, rest);
    LoopFold(prog', lo, body, rest);
  }

  lemma {:induction false} EncodesAppend(prog: seq<Instr>, lo: nat, a: Prog, b: Prog)
    requires Encodes(prog, lo, a) && Encodes(prog, lo + Size(a), b)
    ensures Encodes(prog, lo, Append(a, b))
    decreases a
  {
    hide Encodes;
    match a
    case Nil =>
    case Prim(op, rest) => PrimAppend(prog, lo, op, rest, b);
    case Loop(body, rest) => LoopAppend(prog, lo, body, rest, b);
  }

  lemma PrimAppend(prog: seq<Instr>, lo: nat, op: Op, rest: Prog, b: Prog)
    requires Encodes(prog, lo, Prim(op, rest)) && Encodes(prog, lo + Size(Prim(op, rest)), b)
    ensures Encodes(prog, lo, Prim(op, Append(rest, b)))
    decreases Prim(op, rest), 0
  {
    hide *;
    SizeOf(op, Nil, rest);
    PrimFold(prog, lo, op, rest);
    EncodesAppend(prog, lo + 1, rest, b);
    PrimFold(prog, lo, op, Append(rest, b));
  }

  lemma LoopAppend(prog: seq<Instr>, lo: nat, body: Prog, rest: Prog, b: Prog)
    requires Encodes(prog, lo, Loop(body, rest)) && Encodes(prog, lo + Size(Loop(body, rest)), b)
    ensures Encodes(prog, lo, Loop(body, Append(rest, b)))
    decreases Loop(body, rest), 0
  {
    hide Encodes, Size, Append;
    SizeOf(End, body, rest);
    LoopUnfold(prog, lo, body, rest);
    EncodesAppend(prog, lo + 1 + Size(body) + 1, rest, b);
    LoopFold(prog, lo, body, Append(rest, b));
  }

  lemma {:induction false} HoldsSame(prog: seq<Instr>, prog': seq<Instr>, c: Context)
    requires Holds(prog, c) && |prog'| == |prog|
    requires forall i :: 0 <= i < ContextSize(c) ==> prog'[i] == prog[i]
    ensures Holds(prog', c)
  {
    hide Encodes, Size;
    match c
    case Top(b) => EncodesSame(prog, prog', 0, b);
    case Inside(outer, b) =>
      HoldsSame(prog, prog', outer);
      EncodesSame(prog, prog', ContextSize(outer) + 1, b);
  }

  lemma HoldsAdd(prog: seq<Instr>, c: Context, p: Prog)
    requires Holds(prog, c) && Proper(p) && Encodes(prog, ContextSize(c), p)
    ensures Holds(prog, Add(c, p))
  {
    hide Encodes;
    AppendFacts(c.b, p);
    EncodesAppend(prog, if c.Top? then 0 else ContextSize(c.outer) + 1, c.b, p);
    hide Append;
  }

  /** A plain operation. */
  lemma PrimParsed(prog: seq<Instr>, prog': seq<Instr>, c: Context, op: Op)
    requires Holds(prog, c) && ContextSize(c) < |prog| == |prog'| && IsPrim(op)
    requires prog'[ContextSize(c)].op == op && forall i :: 0 <= i < ContextSize(c) ==> prog'[i] == prog[i]
    ensures var c' := Add(c, Prim(op, Nil));
            && Holds(prog', c') && ContextSize(c') == ContextSize(c) + 1
            && Pending(c') == Pending(c) + [op] && Opens(c') == Opens(c)
  {
    hide Holds, ContextSize;
    var p := Prim(op, Nil);
    HoldsSame(prog, prog', c);
    assert Encodes(prog', ContextSize(c), p) by { assert Encodes(prog', ContextSize(c) + 1, Nil); }
    HoldsAdd(prog', c, p);
    AddFacts(c, p);
    assert Flatten(p) == [op];
  }

  /** An opening bracket. */
  lemma OpenParsed(prog: seq<Instr>, prog': seq<Instr>, c: Context)
    requires Holds(prog, c) && ContextSize(c) < |prog| == |prog'|
    requires prog'[ContextSize(c)].op == JmpFwd && forall i :: 0 <= i < ContextSize(c) ==> prog'[i] == prog[i]
    ensures var c' := Inside(c, Nil);
            && Holds(prog', c') && ContextSize(c') == ContextSize(c) + 1
            && Pending(c') == Pending(c) + [JmpFwd] && Opens(c') == Opens(c) + [ContextSize(c)]
  {
    HoldsSame(prog, prog', c);
  }

  /** A closing bracket, which also completes the operand of its opening bracket. */
  lemma CloseParsed(prog: seq<Instr>, prog': seq<Instr>, c: Context)
    requires Holds(prog, c) && c.Inside? && ContextSize(c) < |prog| == |prog'|
    requires var j, pc := ContextSize(c.outer), ContextSize(c);
             && prog'[pc] == Instr(JmpBck, j) && prog'[j] == Instr(JmpFwd, pc)
             && forall i :: 0 <= i < pc && i != j ==> prog'[i] == prog[i]
    ensures var c' := Add(c.outer, Loop(c.b, Nil));
            && Holds(prog', c') && ContextSize(c') == ContextSize(c) + 1
            && Pending(c') == Pending(c) + [JmpBck] && Opens(c') + [ContextSize(c.outer)] == Opens(c)
  {
    var j, pc, loop := ContextSize(c.outer), ContextSize(c), Loop(c.b, Nil);
    HoldsSame(prog, prog', c.outer);
    EncodesSame(prog, prog', j + 1, c.b);
    NilEncoded(prog', pc + 1);
    LoopFold(prog', j, c.b, Nil);
    HoldsAdd(prog', c.outer, loop);
    AddFacts(c.outer, loop);
    LoopTokens(Pending(c.outer), c.b);
    hide Encodes, Flatten, Append;
  }

  lemma NilEncoded(prog: seq<Instr>, lo: nat)
    requires lo <= |prog|
    ensures Encodes(prog, lo, Nil)
  {
  }

  lemma LoopTokens(ts: seq<Op>, body: Prog)
    ensures ts + Flatten(Loop(body, Nil)) == ts + [JmpFwd] + Flatten(body) + [JmpBck]
  {
    assert Flatten(Loop(body, Nil)) == [JmpFwd] + Flatten(body) + [JmpBck];
  }

  // ---- acceptance, one character at a time ----

  lemma NothingRead()
    ensures Tokens("") == [] && InBounds([]) && Depth([]) == 0
    ensures Pending(Top(Nil)) == [] && ContextSize(Top(Nil)) == 0 && Opens(Top(Nil)) == []
  {
  }

  lemma NothingHeld(prog: seq<Instr>)
    ensures Holds(prog, Top(Nil))
  {
  }

  /** A bad bracket, or too much text, dooms the whole source. */
  lemma Doomed(code: string, i: nat)
    requires i <= |code|
    requires |Tokens(code[..i])| >= PROGRAM_SIZE || !InBounds(Tokens(code[..i]))
    ensures !Accepts(Tokens(code))
  {
    hide Tokens, InBounds;
    var more := TokensPrefix(code, i);
    if InBounds(Tokens(code)) {
      InBoundsPrefix(Tokens(code[..i]), more);
    }
  }

  lemma StackTop(c: Context)
    ensures c.Inside? <==> |Opens(c)| > 0
    ensures c.Inside? ==> Opens(c)[|Opens(c)| - 1] == ContextSize(c.outer) < ContextSize(c)
    ensures c.Inside? ==> Opens(c)[..|Opens(c)| - 1] == Opens(c.outer)
  {
  }

  lemma OpenBracketHeld(prog: seq<Instr>, c: Context)
    requires Holds(prog, c) && c.Inside?
    ensures ContextSize(c.outer) < |prog| && prog[ContextSize(c.outer)].op == JmpFwd
  {
  }

  /** How far the compiler is after reading `code[..i]`. */
  ghost predicate Reading(prog: seq<Instr>, c: Context, ts: seq<Op>, pc: nat, stack: seq<nat>) {
    && Holds(prog, c) && Pending(c) == ts && ContextSize(c) == pc == |ts| && Opens(c) == stack
    && InBounds(ts) && Depth(ts) == |stack|
  }

  lemma ReadPrim(prog: seq<Instr>, c: Context, ts: seq<Op>, pc: nat, stack: seq<nat>, op: Op) returns (c': Context)
    requires Reading(prog, c, ts, pc, stack) && pc < |prog| && IsPrim(op) && |stack| <= STACK_SIZE
    ensures Reading(prog[pc := prog[pc].(op := op)], c', ts + [op], pc + 1, stack)
  {
    hide Holds, Encodes;
    PrimParsed(prog, prog[pc := prog[pc].(op := op)], c, op);
    DepthNext(ts, op);
    c' := Add(c, Prim(op, Nil));
    hide Depth;
  }

  lemma ReadOpen(prog: seq<Instr>, c: Context, ts: seq<Op>, pc: nat, stack: seq<nat>) returns (c': Context)
    requires Reading(prog, c, ts, pc, stack) && pc < |prog|
    ensures |stack| < STACK_SIZE ==> Reading(prog[pc := prog[pc].(op := JmpFwd)], c', ts + [JmpFwd], pc + 1, stack + [pc])
    ensures |stack| >= STACK_SIZE ==> !InBounds(ts + [JmpFwd])
  {
    hide Holds, Encodes;
    OpenParsed(prog, prog[pc := prog[pc].(op := JmpFwd)], c);
    DepthNext(ts, JmpFwd);
    c' := Inside(c, Nil);
    hide Depth;
  }

  lemma ReadClose(prog: seq<Instr>, c: Context, ts: seq<Op>, pc: nat, stack: seq<nat>) returns (c': Context)
    requires Reading(prog, c, ts, pc, stack) && pc < |prog| && |stack| <= STACK_SIZE
    ensures |stack| == 0 ==> !InBounds(ts + [JmpBck])
    ensures |stack| > 0 ==>
              var j := stack[|stack| - 1];
              && j < pc
              && Reading(prog[pc := Instr(JmpBck, j)][j := prog[j].(operand := pc)], c', ts + [JmpBck], pc + 1, stack[..|stack| - 1])
  {
    hide *;
    ReadingParts(prog, c, ts, pc, stack);
    DepthNext(ts, JmpBck);
    StackTop(c);
    if c.Inside? {
      OpenBracketHeld(prog, c);
      var j := stack[|stack| - 1];
      var prog' := prog[pc := Instr(JmpBck, j)][j := prog[j].(operand := pc)];
      CloseParsed(prog, prog', c);
      c' := Add(c.outer, Loop(c.b, Nil));
      ReadingFold(prog', c', ts + [JmpBck], pc + 1, stack[..|stack| - 1]);
    } else {
      c' := c;
    }
  }

  lemma ReadingParts(prog: seq<Instr>, c: Context, ts: seq<Op>, pc: nat, stack: seq<nat>)
    requires Reading(prog, c, ts, pc, stack)
    ensures Holds(prog, c) && Pending(c) == ts && ContextSize(c) == pc == |ts| && Opens(c) == stack
    ensures InBounds(ts) && Depth(ts) == |stack|
  {
  }

  lemma ReadingFold(prog: seq<Instr>, c: Context, ts: seq<Op>, pc: nat, stack: seq<nat>)
    requires Holds(prog, c) && Pending(c) == ts && ContextSize(c) == pc == |ts| && Opens(c) == stack
    requires InBounds(ts) && Depth(ts) == |stack|
    ensures Reading(prog, c, ts, pc, stack)
  {
  }

  lemma ReadAll(prog: seq<Instr>, c: Context, ts: seq<Op>, pc: nat) returns (b: Prog)
    requires Reading(prog, c, ts, pc, []) && pc < |prog|
    ensures Compiled(prog[pc := prog[pc].(op := End)], b) && Flatten(b) == ts && Size(b) == pc
  {
    StackTop(c);
    b := c.b;
    EncodesSame(prog, prog[pc := prog[pc].(op := End)], 0, b);
  }

  // ---- the two routines ----

  class Machine {
    const PROGRAM: array<Instr>
    const STACK: array<nat>
    const data: array<nat>
    var SP: nat
    var inp: nat
    const output: array<nat>
    var noutput: nat

    constructor ()
      ensures SP == 0 && PROGRAM.Length == 4096 && STACK.Length == 512 && data.Length == output.Length == 4096
      ensures forall i :: 0 <= i < data.Length ==> data[i] == 0
      ensures STACK != data && STACK != output && data != output && inp == 0 && noutput == 0
      ensures fresh(PROGRAM) && fresh(STACK) && fresh(data) && fresh(output)
    {
      output := new nat[DATA_SIZE];
      PROGRAM := new Instr[PROGRAM_SIZE](_ => Instr(End, 0));
      STACK := new nat[STACK_SIZE];
      data := new nat[DATA_SIZE](_ => 0);
      SP, inp, noutput := 0, 0, 0;
    }

    /** `compile_bf`: succeeds exactly on compilable texts, and then leaves a program that does what the text does. */
    method Compile(code: string) returns (ok: bool, ghost b: Prog)
      requires SP == 0 && PROGRAM.Length == PROGRAM_SIZE && STACK.Length == STACK_SIZE
      modifies this`SP, PROGRAM, STACK
      ensures ok <==> Compilable(code)
      ensures ok ==> Compiled(PROGRAM[..], b) && Flatten(b) == Tokens(code) && DoesWhat(PROGRAM[..], code)
    {
      hide *;
      AcceptsText(code);
      b := Nil;
      var pc, i := 0, 0;
      ghost var c := Top(Nil);
      NothingRead();
      NothingHeld(PROGRAM[..]);
      assert code[..0] == "" && STACK[..0] == [];
      ReadingStart(PROGRAM[..]);
      while i < |code|
        invariant 0 <= i <= |code| && SP <= STACK_SIZE && pc <= PROGRAM_SIZE
        invariant Reading(PROGRAM[..], c, Tokens(code[..i]), pc, STACK[..SP])
        decreases |code| - i
      {
        if pc >= PROGRAM_SIZE {
          break;
        }
        var op := OpOf(code[i]);
        TokensNext(code, i);
        OpKinds(code[i]);
        ghost var prog, ts, stack := PROGRAM[..], Tokens(code[..i]), STACK[..SP];
        assert ts + [] == ts;
        if op == JmpFwd {
          PROGRAM[pc] := PROGRAM[pc].(op := JmpFwd);
          c := ReadOpen(prog, c, ts, pc, stack);
          if SP == STACK_SIZE {
            Doomed(code, i + 1);
            return false, b;
          }
          assert PROGRAM[..] == prog[pc := prog[pc].(op := JmpFwd)];
          STACK[SP] := pc;
          SP := SP + 1;
          assert STACK[..SP] == stack + [pc];
        } else if op == JmpBck {
          c := ReadClose(prog, c, ts, pc, stack);
          if SP == 0 {
            Doomed(code, i + 1);
            return false, b;
          }
          SP := SP - 1;
          var jmp := STACK[SP];
          assert jmp == stack[|stack| - 1] && STACK[..SP] == stack[..|stack| - 1] && jmp < pc;
          PROGRAM[pc] := Instr(JmpBck, jmp);
          PROGRAM[jmp] := PROGRAM[jmp].(operand := pc);
          assert PROGRAM[..] == prog[pc := Instr(JmpBck, jmp)][jmp := prog[jmp].(operand := pc)];
        } else if op != End {
          c := ReadPrim(prog, c, ts, pc, stack, op);
          PROGRAM[pc] := PROGRAM[pc].(op := op);
          assert PROGRAM[..] == prog[pc := prog[pc].(op := op)];
        }
        if op != End {
          pc := pc + 1;
        }
        i := i + 1;
      }
      ReadingFacts(PROGRAM[..], c, Tokens(code[..i]), pc, STACK[..SP]);
      assert i == |code| ==> code[..i] == code;
      if SP != 0 || pc == PROGRAM_SIZE {
        if pc == PROGRAM_SIZE {
          Doomed(code, i);
        } else {
          NotBalanced(Tokens(code));
        }
        return false, b;
      }
      assert STACK[..SP] == [];
      b := ReadAll(PROGRAM[..], c, Tokens(code), pc);
      BalancedAccepted(Tokens(code));
      ghost var prog := PROGRAM[..];
      PROGRAM[pc] := PROGRAM[pc].(op := End);
      assert PROGRAM[..] == prog[pc := prog[pc].(op := End)];
      CompiledDoes(PROGRAM[..], code, b);
      ok := true;
    }

    /** `execute_bf`, for at most `limit` instructions; `overflow` is set where it writes behind the output buffer. */
    method Execute(limit: nat, input: nat -> nat, ghost b: Prog) returns (pc: nat, ptr: nat, steps: nat, overflow: bool)
      requires PROGRAM.Length == PROGRAM_SIZE && data.Length == DATA_SIZE && noutput <= output.Length && data != output
      requires Compiled(PROGRAM[..], b)
      modifies this`inp, this`noutput, data, output
      ensures steps <= limit && noutput <= output.Length
      ensures Steps(PROGRAM[..], State(0, old(Mem(0, data[..], inp, output[..noutput]))), input, steps,
                    State(pc, Mem(ptr, data[..], inp, output[..noutput])))
      ensures overflow <==> steps < limit &&
                            Overflowing(PROGRAM[..], State(pc, Mem(ptr, data[..], inp, output[..noutput])), output.Length)
      ensures steps == limit || overflow || Halted(PROGRAM[..], State(pc, Mem(ptr, data[..], inp, output[..noutput])))
    {
      hide *;
      ghost var prog, start := PROGRAM[..], State(0, Mem(0, data[..], inp, output[..noutput]));
      overflow := false;
      pc, ptr, steps := 0, 0, 0;
      NoSteps(prog, start, input);
      assert pc <= Size(b) < |prog| by { CompiledSize(prog, b); }
      while steps < limit && PROGRAM[pc].op != End && ptr < DATA_SIZE
        invariant steps <= limit && pc <= Size(b) < |prog| == PROGRAM_SIZE && |data[..]| == DATA_SIZE
        invariant noutput <= output.Length && !overflow
        invariant Steps(prog, start, input, steps, State(pc, Mem(ptr, data[..], inp, output[..noutput])))
        decreases limit - steps
      {
        ghost var now := State(pc, Mem(ptr, data[..], inp, output[..noutput]));
        MachineStep(prog, now, input);
        OverflowingIs(prog, now, output.Length);
        if PROGRAM[pc].op == Out && noutput == output.Length {
          overflow := true;
          return;
        }
        LastStep(prog, now, input);
        StepsJoin(prog, start, now, Step(prog, now, input), input, steps, 1);
        StaysInside(prog, b, now, input, 1, Step(prog, now, input));
        match PROGRAM[pc].op {
          case IncDp => ptr := (ptr + 1) % 0x1_0000_0000;
          case DecDp => ptr := (ptr + 0xffff_ffff) % 0x1_0000_0000;
          case IncVal => data[ptr] := (data[ptr] + 1) % 0x1_0000;
          case DecVal => data[ptr] := (data[ptr] + 0xffff) % 0x1_0000;
          case Out => output[noutput] := data[ptr] % 0x100; noutput := noutput + 1;
          case In => data[ptr] := input(inp); inp := inp + 1;
          case JmpFwd => if data[ptr] == 0 { pc := PROGRAM[pc].operand; }
          case JmpBck => if data[ptr] != 0 { pc := PROGRAM[pc].operand; }
          case End =>
        }
        pc := pc + 1;
        steps := steps + 1;
        assert output[..noutput] == now.m.out || output[..noutput] == now.m.out + [output[noutput - 1]];
        assert State(pc, Mem(ptr, data[..], inp, output[..noutput])) == Step(prog, now, input);
      }
      WhenHalted(prog, State(pc, Mem(ptr, data[..], inp, output[..noutput])));
      OverflowingIs(prog, State(pc, Mem(ptr, data[..], inp, output[..noutput])), output.Length);
    }
  }

  lemma OverflowingIs(prog: seq<Instr>, s: State, cap: nat)
    ensures Overflowing(prog, s, cap) <==> !Halted(prog, s) && prog[s.pc].op == Out && |s.m.out| == cap
  {
  }

  lemma NoSteps(prog: seq<Instr>, s: State, input: nat -> nat)
    ensures Steps(prog, s, input, 0, s)
  {
  }

  lemma CompiledSize(prog: seq<Instr>, b: Prog)
    requires Compiled(prog, b)
    ensures Size(b) < |prog|
  {
  }

  lemma WhenHalted(prog: seq<Instr>, s: State)
    ensures Halted(prog, s) <==> s.pc >= |prog| || prog[s.pc].op == End || |s.m.data| != DATA_SIZE || s.m.ptr >= DATA_SIZE
  {
  }

  /** One instruction, case by case. */
  lemma MachineStep(prog: seq<Instr>, s: State, input: nat -> nat)
    requires s.pc < |prog| && prog[s.pc].op != End && |s.m.data| == DATA_SIZE && s.m.ptr < DATA_SIZE
    ensures !Halted(prog, s)
    ensures Step(prog, s, input) ==
            var m, i := s.m, prog[s.pc];
            match i.op
            case IncDp => State(s.pc + 1, m.(ptr := (m.ptr + 1) % 0x1_0000_0000))
            case DecDp => State(s.pc + 1, m.(ptr := (m.ptr + 0xffff_ffff) % 0x1_0000_0000))
            case IncVal => State(s.pc + 1, m.(data := m.data[m.ptr := (m.data[m.ptr] + 1) % 0x1_0000]))
            case DecVal => State(s.pc + 1, m.(data := m.data[m.ptr := (m.data[m.ptr] + 0xffff) % 0x1_0000]))
            case Out => State(s.pc + 1, m.(out := m.out + [m.data[m.ptr] % 0x100]))
            case In => State(s.pc + 1, m.(data := m.data[m.ptr := input(m.inp)], inp := m.inp + 1))
            case JmpFwd => State((if m.data[m.ptr] == 0 then i.operand else s.pc) + 1, m)
            case JmpBck => State((if m.data[m.ptr] == 0 then s.pc else i.operand) + 1, m)
            case End => s
  {
  }

  /** The compiled program is the program the text was written from. */
  lemma CompiledIsSource(code: string, b: Prog, b': Prog)
    requires Proper(b) && Proper(b') && Flatten(b) == Tokens(code) && Flatten(b') == Tokens(code)
    ensures b == b'
  {
    assert Flatten(b) + [] == Flatten(b') + [];
    UniqueParse(b, [], b', []);
  }

  lemma ReadingStart(prog: seq<Instr>)
    ensures Reading(prog, Top(Nil), Tokens(""), 0, [])
  {
    NothingRead();
    NothingHeld(prog);
    hide Holds, InBounds, Depth;
  }

  lemma OpKinds(ch: char)
    ensures OpOf(ch) == End || OpOf(ch) == JmpFwd || OpOf(ch) == JmpBck || IsPrim(OpOf(ch))
  {
  }

  lemma ReadingFacts(prog: seq<Instr>, c: Context, ts: seq<Op>, pc: nat, stack: seq<nat>)
    requires Reading(prog, c, ts, pc, stack)
    ensures |ts| == pc && InBounds(ts) && Depth(ts) == |stack|
  {
  }

  lemma NotBalanced(ts: seq<Op>)
    requires Depth(ts) != 0
    ensures !Accepts(ts)
  {
  }

  lemma BalancedAccepted(ts: seq<Op>)
    requires Depth(ts) == 0 && InBounds(ts) && |ts| < PROGRAM_SIZE
    ensures Accepts(ts)
  {
  }
}
