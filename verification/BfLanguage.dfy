/** Brainf**k: source text, structured programs, and what a structured program means. */
module BfLanguage {
  const PROGRAM_SIZE: nat := 4096
  const STACK_SIZE: nat := 512
  const DATA_SIZE: nat := 4096

  datatype Op = End | IncDp | DecDp | IncVal | DecVal | Out | In | JmpFwd | JmpBck

  /** The opcode of a source character; other characters are comments. */
  function OpOf(c: char): Op {
    match c
    case '>' => IncDp case '<' => DecDp case '+' => IncVal case '-' => DecVal
    case '.' => Out case ',' => In case '[' => JmpFwd case ']' => JmpBck
    case _ => End
  }

  function Tokens(code: string): seq<Op> {
    if code == "" then []
    else
      var op := OpOf(code[|code| - 1]);
      Tokens(code[..|code| - 1]) + if op == End then [] else [op]
  }

  /** A structured program: a list of plain operations and loops. */
  datatype Prog = Nil | Prim(op: Op, rest: Prog) | Loop(body: Prog, rest: Prog)

  predicate IsPrim(op: Op) { op in {IncDp, DecDp, IncVal, DecVal, Out, In} }

  predicate Proper(b: Prog) {
    match b
    case Nil => true
    case Prim(op, rest) => IsPrim(op) && Proper(rest)
    case Loop(body, rest) => Proper(body) && Proper(rest)
  }

  function Flatten(b: Prog): seq<Op> {
    match b
    case Nil => []
    case Prim(op, rest) => [op] + Flatten(rest)
    case Loop(body, rest) => [JmpFwd] + Flatten(body) + [JmpBck] + Flatten(rest)
  }

  function Size(b: Prog): nat {
    match b
    case Nil => 0
    case Prim(_, rest) => 1 + Size(rest)
    case Loop(body, rest) => Size(body) + Size(rest) + 2
  }

  function Append(a: Prog, b: Prog): Prog {
    match a
    case Nil => b
    case Prim(op, rest) => Prim(op, Append(rest, b))
    case Loop(body, rest) => Loop(body, Append(rest, b))
  }

  lemma FlattenSize(b: Prog)
    ensures |Flatten(b)| == Size(b)
  {
  }

  lemma {:induction false} AppendFacts(a: Prog, b: Prog)
    ensures Size(Append(a, b)) == Size(a) + Size(b)
    ensures Flatten(Append(a, b)) == Flatten(a) + Flatten(b)
    ensures Proper(a) && Proper(b) ==> Proper(Append(a, b))
  {
    match a
    case Nil =>
    case Prim(op, rest) =>
      AppendFacts(rest, b);
      assert [op] + Flatten(rest) + Flatten(b) == [op] + (Flatten(rest) + Flatten(b));
    case Loop(body, rest) =>
      AppendFacts(rest, b);
      var front := [JmpFwd] + Flatten(body) + [JmpBck];
      assert front + Flatten(rest) + Flatten(b) == front + (Flatten(rest) + Flatten(b));
  }

  // ---- meaning ----

  /** Cells hold 16 bits, the data pointer 32 bits; output is cut to 8 bits. */
  datatype Mem = Mem(ptr: nat, data: seq<nat>, inp: nat, out: seq<nat>)

  predicate GoodMem(m: Mem) { |m.data| == DATA_SIZE && m.ptr < DATA_SIZE }

  function Apply(op: Op, m: Mem, input: nat -> nat): Mem
    requires GoodMem(m)
  {
    match op
    case IncDp => m.(ptr := (m.ptr + 1) % 0x1_0000_0000)
    case DecDp => m.(ptr := (m.ptr + 0xffff_ffff) % 0x1_0000_0000)
    case IncVal => m.(data := m.data[m.ptr := (m.data[m.ptr] + 1) % 0x1_0000])
    case DecVal => m.(data := m.data[m.ptr := (m.data[m.ptr] + 0xffff) % 0x1_0000])
    case Out => m.(out := m.out + [m.data[m.ptr] % 0x100])
    case In => m.(data := m.data[m.ptr := input(m.inp)], inp := m.inp + 1)
    case _ => m
  }

  /** How a run ends: at the end of the program, with the data pointer outside the data, or not within
      the given number of loop rounds. */
  datatype Outcome = Done(m: Mem) | OffData(m: Mem) | OutOfFuel

  /** The structured meaning: operations in turn, a loop for as long as the current cell is not zero. */
  function Meaning(b: Prog, m: Mem, input: nat -> nat, fuel: nat): Outcome
    requires GoodMem(m)
    ensures Meaning(b, m, input, fuel).Done? ==> GoodMem(Meaning(b, m, input, fuel).m)
    decreases fuel, b
  {
    match b
    case Nil => Done(m)
    case Prim(op, rest) =>
      var m' := Apply(op, m, input);
      if m'.ptr < DATA_SIZE then Meaning(rest, m', input, fuel) else OffData(m')
    case Loop(body, rest) =>
      if m.data[m.ptr] == 0 then Meaning(rest, m, input, fuel)
      else if fuel == 0 then OutOfFuel
      else
        var r := Meaning(body, m, input, fuel - 1);
        if r.Done? then Meaning(b, r.m, input, fuel - 1) else r
  }
}
