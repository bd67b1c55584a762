/** What a source text does, character by character, without opcodes, tokens or structured programs. */
module BfText {
  import opened BfLanguage
  import opened BfMachine
  import opened BfParsing

  predicate IsCode(c: char) { c in "><+-.,[]" }

  /** How many characters of the text are code. */
  function CodeLength(code: string): nat {
    if code == "" then 0 else CodeLength(code[..|code| - 1]) + if IsCode(code[|code| - 1]) then 1 else 0
  }

  /** Opening minus closing brackets. */
  function TextDepth(code: string): int {
    if code == "" then 0
    else
      var c := code[|code| - 1];
      TextDepth(code[..|code| - 1]) + if c == '[' then 1 else if c == ']' then -1 else 0
  }

  /** Brackets never close too early and never nest more than 512 deep. */
  predicate TextInBounds(code: string) {
    forall k :: 0 <= k <= |code| ==> 0 <= TextDepth(code[..k]) <= 512
  }

  /** The texts that compile: fewer than 4096 instructions, and brackets that balance. */
  predicate Compilable(code: string) { CodeLength(code) < 4096 && TextInBounds(code) && TextDepth(code) == 0 }

  /** The position of the bracket that closes the one just before `code[i..]`, `open` more being open
      inside it; the length of the text if there is none. */
  function Closing(code: string, i: nat, open: nat): (j: nat)
    requires i <= |code|
    ensures i <= j <= |code| && (j < |code| ==> code[j] == ']')
    decreases |code| - i
  {
    if i == |code| then i
    else if code[i] == '[' then Closing(code, i + 1, open + 1)
    else if code[i] == ']' then if open == 0 then i else Closing(code, i + 1, open - 1)
    else Closing(code, i + 1, open)
  }

  /** The run of a text: each character does its own thing, a loop goes on while the current cell is
      not zero, every other character is a comment. `fuel` bounds the rounds of loops. */
  function RunText(code: string, m: Mem, input: nat -> nat, fuel: nat): (r: Outcome)
    requires |m.data| == 4096 && m.ptr < 4096
    ensures r.Done? ==> |r.m.data| == 4096 && r.m.ptr < 4096
    decreases fuel, |code|
  {
    if code == "" then Done(m)
    else
      var rest, cell := code[1..], m.data[m.ptr];
      match code[0]
      case '>' =>
        if m.ptr == 4095 then OffData(m.(ptr := 4096)) else RunText(rest, m.(ptr := m.ptr + 1), input, fuel)
      case '<' =>
        if m.ptr == 0 then OffData(m.(ptr := 0xffff_ffff)) else RunText(rest, m.(ptr := m.ptr - 1), input, fuel)
      case '+' => RunText(rest, m.(data := m.data[m.ptr := (cell + 1) % 0x1_0000]), input, fuel)
      case '-' => RunText(rest, m.(data := m.data[m.ptr := (cell - 1) % 0x1_0000]), input, fuel)
      case '.' => RunText(rest, m.(out := m.out + [cell % 0x100]), input, fuel)
      case ',' => RunText(rest, m.(data := m.data[m.ptr := input(m.inp)], inp := m.inp + 1), input, fuel)
      case '[' =>
        var k := Closing(rest, 0, 0);
        if k == |rest| then Done(m)  // nothing closes the loop; such a text does not compile
        else if cell == 0 then RunText(rest[k + 1..], m, input, fuel)
        else if fuel == 0 then OutOfFuel
        else
          var r := RunText(rest[..k], m, input, fuel - 1);
          if r.Done? then RunText(code, r.m, input, fuel - 1) else r
      case _ => RunText(rest, m, input, fuel)
  }

  // ---- acceptance ----

  /** What the last character adds. */
  lemma LastCharacter(code: string)
    requires code != ""
    ensures var init, c, op := code[..|code| - 1], code[|code| - 1], OpOf(code[|code| - 1]);
            && Tokens(code) == Tokens(init) + (if op == End then [] else [op])
            && CodeLength(code) == CodeLength(init) + (if op == End then 0 else 1)
            && TextDepth(code) == TextDepth(init) + (if op == JmpFwd then 1 else if op == JmpBck then -1 else 0)
  {
  }

  lemma {:induction false} TokensCount(code: string)
    ensures |Tokens(code)| == CodeLength(code) && Depth(Tokens(code)) == TextDepth(code)
  {
    hide *;
    if code == "" {
      NoTokens();
    } else {
      LastCharacter(code);
      TokensCount(code[..|code| - 1]);
      DepthNext(Tokens(code[..|code| - 1]), OpOf(code[|code| - 1]));
      assert Tokens(code[..|code| - 1]) + [] == Tokens(code[..|code| - 1]);
    }
  }

  lemma TextInBoundsNext(code: string)
    requires code != ""
    ensures TextInBounds(code) <==> TextInBounds(code[..|code| - 1]) && 0 <= TextDepth(code) <= 512
  {
    hide TextDepth;
    var init := code[..|code| - 1];
    assert code[..|code|] == code;
    if TextInBounds(init) && 0 <= TextDepth(code) <= 512 {
      forall k | 0 <= k <= |code| ensures 0 <= TextDepth(code[..k]) <= 512 {
        if k < |code| {
          assert code[..k] == init[..k];
        }
      }
    }
    if TextInBounds(code) {
      forall k | 0 <= k <= |init| ensures 0 <= TextDepth(init[..k]) <= 512 {
        assert code[..k] == init[..k];
      }
    }
  }

  /** The depth after any number of tokens is the depth after some number of characters, and the other way round. */
  lemma {:induction false} TokensInBounds(code: string)
    ensures InBounds(Tokens(code)) <==> TextInBounds(code)
  {
    hide *;
    TokensCount(code);
    if code == "" {
      NoTokens();
    } else {
      var init, op := code[..|code| - 1], OpOf(code[|code| - 1]);
      LastCharacter(code);
      TokensInBounds(init);
      TextInBoundsNext(code);
      DepthNext(Tokens(init), op);
      StackIs();
      if op == End {
        assert Tokens(code) == Tokens(init);
        if InBounds(Tokens(init)) {
          InBoundsAll(Tokens(init));
        }
      }
    }
  }

  lemma StackIs()
    ensures STACK_SIZE == 512 && PROGRAM_SIZE == 4096 && DATA_SIZE == 4096
  {
  }

  lemma InBoundsAll(ts: seq<Op>)
    requires InBounds(ts)
    ensures 0 <= Depth(ts) <= STACK_SIZE
  {
    assert ts[..|ts|] == ts;
  }

  lemma NoTokens()
    ensures Tokens("") == [] && Depth([]) == 0 && CodeLength("") == 0 && TextDepth("") == 0
    ensures InBounds([]) && TextInBounds("")
  {
  }

  /** The tokens of a text are acceptable exactly when the text is. */
  lemma AcceptsText(code: string)
    ensures Accepts(Tokens(code)) <==> Compilable(code)
  {
    hide Depth, InBounds, TextInBounds, TextDepth;
    TokensCount(code);
    TokensInBounds(code);
  }

  // ---- meaning ----

  lemma {:induction false} TokensJoin(a: string, b: string)
    ensures Tokens(a + b) == Tokens(a) + Tokens(b)
  {
    if b == "" {
      assert a + b == a;
    } else {
      assert (a + b)[..|a + b| - 1] == a + b[..|b| - 1];
      TokensJoin(a, b[..|b| - 1]);
    }
  }

  /** The tokens from position `i` on. */
  lemma FirstCharacter(code: string, i: nat, j: nat)
    requires i < j <= |code|
    ensures var op := OpOf(code[i]); Tokens(code[i..j]) == (if op == End then [] else [op]) + Tokens(code[i + 1..j])
  {
    assert code[i..j] == [code[i]] + code[i + 1..j];
    TokensJoin([code[i]], code[i + 1..j]);
    var one := [code[i]];
    assert one[..0] == "";
  }

  lemma ClosingNext(code: string, i: nat, open: nat)
    requires i < |code|
    ensures code[i] == '[' ==> Closing(code, i, open) == Closing(code, i + 1, open + 1)
    ensures code[i] == ']' ==> Closing(code, i, open) == if open == 0 then i else Closing(code, i + 1, open - 1)
    ensures code[i] != '[' && code[i] != ']' ==> Closing(code, i, open) == Closing(code, i + 1, open)
  {
  }

  lemma Brackets(c: char)
    ensures OpOf(c) == JmpFwd <==> c == '['
    ensures OpOf(c) == JmpBck <==> c == ']'
  {
  }

  lemma NoText(code: string, i: nat)
    requires i <= |code|
    ensures Tokens(code[i..i]) == []
  {
  }

  /** A text that starts with token `op` starts with comments and a character for `op`. */
  lemma {:induction false} NextCode(code: string, i: nat, op: Op, z: seq<Op>, open: nat) returns (j: nat)
    requires i <= |code| && Tokens(code[i..]) == [op] + z
    ensures i <= j < |code| && OpOf(code[j]) == op && op != End && Tokens(code[i..j]) == [] && Tokens(code[j + 1..]) == z
    ensures Closing(code, i, open) == Closing(code, j, open)
    decreases |code| - i
  {
    hide *;
    assert code[i..] == code[i..|code|];
    NoText(code, i);
    if i < |code| {
      FirstCharacter(code, i, |code|);
      assert code[i + 1..] == code[i + 1..|code|];
      if OpOf(code[i]) == End {
        assert [] + Tokens(code[i + 1..]) == Tokens(code[i + 1..]);
        j := NextCode(code, i + 1, op, z, open);
        Brackets(code[i]);
        ClosingNext(code, i, open);
        FirstCharacter(code, i, j);
      } else {
        DropFirst(OpOf(code[i]), Tokens(code[i + 1..]), op, z);
        j := i;
      }
    }
  }

  lemma TokensBetween(code: string, i: nat, k: nat, j: nat)
    requires i <= k <= j <= |code|
    ensures Tokens(code[i..j]) == Tokens(code[i..k]) + Tokens(code[k..j])
  {
    assert code[i..j] == code[i..k] + code[k..j];
    TokensJoin(code[i..k], code[k..j]);
  }

  lemma ProgParts(p: Prog, z: seq<Op>)
    requires Proper(p)
    ensures p.Nil? ==> Flatten(p) == [] && Flatten(p) + z == z
    ensures p.Prim? ==> IsPrim(p.op) && p.op != JmpFwd && p.op != JmpBck && p.op != End && Proper(p.rest)
    ensures p.Prim? ==> Flatten(p) == [p.op] + Flatten(p.rest) && Flatten(p) + z == [p.op] + (Flatten(p.rest) + z)
    ensures p.Loop? ==> Proper(p.body) && Proper(p.rest)
    ensures p.Loop? ==> Flatten(p) == [JmpFwd] + (Flatten(p.body) + ([JmpBck] + Flatten(p.rest)))
    ensures p.Loop? ==> Flatten(p) + z == [JmpFwd] + (Flatten(p.body) + ([JmpBck] + (Flatten(p.rest) + z)))
  {
    HeadAndTail(p, z);
    HeadAndTail(p, []);
    assert Flatten(p) + [] == Flatten(p);
    if p != Nil {
      assert Flatten(p.rest) + [] == Flatten(p.rest);
    }
  }

  /** Reading past the text of a program: where it ends, and that its brackets close one another. */
  lemma {:induction false} ReadPast(code: string, i: nat, p: Prog, z: seq<Op>, open: nat) returns (j: nat)
    requires i <= |code| && Proper(p) && Tokens(code[i..]) == Flatten(p) + z
    ensures i <= j <= |code| && Tokens(code[i..j]) == Flatten(p) && Tokens(code[j..]) == z
    ensures Closing(code, i, open) == Closing(code, j, open)
    decreases p
  {
    hide *;
    ProgParts(p, z);
    match p
    case Nil =>
      j := i;
      NoText(code, i);
    case Prim(op, rest) =>
      var k := NextCode(code, i, op, Flatten(rest) + z, open);
      Brackets(code[k]);
      ClosingNext(code, k, open);
      j := ReadPast(code, k + 1, rest, z, open);
      TokensBetween(code, i, k, j);
      FirstCharacter(code, k, j);
    case Loop(body, rest) =>
      var after := Flatten(rest) + z;
      var k := NextCode(code, i, JmpFwd, Flatten(body) + ([JmpBck] + after), open);
      var l := ReadPast(code, k + 1, body, [JmpBck] + after, open + 1);
      var n := NextCode(code, l, JmpBck, after, open + 1);
      j := ReadPast(code, n + 1, rest, z, open);
      LoopRead(code, i, k, l, n, j, open);
  }

  lemma LoopRead(code: string, i: nat, k: nat, l: nat, n: nat, j: nat, open: nat)
    requires i <= k < l <= n < j <= |code| && OpOf(code[k]) == JmpFwd && OpOf(code[n]) == JmpBck
    requires Tokens(code[i..k]) == [] && Tokens(code[l..n]) == [] && Closing(code, i, open) == Closing(code, k, open)
    requires Closing(code, k + 1, open + 1) == Closing(code, l, open + 1) == Closing(code, n, open + 1)
    ensures Tokens(code[i..j]) == [JmpFwd] + (Tokens(code[k + 1..l]) + ([JmpBck] + Tokens(code[n + 1..j])))
    ensures Closing(code, i, open) == Closing(code, n + 1, open)
  {
    hide *;
    Brackets(code[k]);
    Brackets(code[n]);
    ClosingNext(code, k, open);
    ClosingNext(code, n, open + 1);
    TokensBetween(code, i, k, j);
    FirstCharacter(code, k, j);
    TokensBetween(code, k + 1, l, j);
    TokensBetween(code, l, n, j);
    FirstCharacter(code, n, j);
  }

  lemma RunNothing(m: Mem, input: nat -> nat, fuel: nat)
    requires GoodMem(m)
    ensures RunText("", m, input, fuel) == Done(m) && Meaning(Nil, m, input, fuel) == Done(m)
  {
  }

  lemma RunComment(code: string, m: Mem, input: nat -> nat, fuel: nat)
    requires GoodMem(m) && code != "" && OpOf(code[0]) == End
    ensures RunText(code, m, input, fuel) == RunText(code[1..], m, input, fuel)
  {
  }

  lemma RunCharacter(code: string, m: Mem, input: nat -> nat, fuel: nat)
    requires GoodMem(m) && code != "" && IsPrim(OpOf(code[0]))
    ensures var m' := Apply(OpOf(code[0]), m, input);
            && (m'.ptr < DATA_SIZE <==> GoodMem(m'))
            && RunText(code, m, input, fuel) ==
               if GoodMem(m') then RunText(code[1..], m', input, fuel) else OffData(m')
  {
  }

  lemma RunLoop(code: string, m: Mem, input: nat -> nat, fuel: nat, k: nat)
    requires GoodMem(m) && code != "" && code[0] == '[' && k < |code[1..]| && k == Closing(code[1..], 0, 0)
    ensures RunText(code, m, input, fuel) ==
            if m.data[m.ptr] == 0 then RunText(code[1..][k + 1..], m, input, fuel)
            else if fuel == 0 then OutOfFuel
            else var r := RunText(code[1..][..k], m, input, fuel - 1);
                 if r.Done? then RunText(code, r.m, input, fuel - 1) else r
  {
  }

  /** The loop that a text starts with: its body and what follows it, as texts. */
  lemma LoopText(code: string, b: Prog) returns (k: nat)
    requires code != "" && b.Loop? && Proper(b) && code[0] == '[' && Flatten(b) == Tokens(code)
    ensures k < |code[1..]| && k == Closing(code[1..], 0, 0)
    ensures Tokens(code[1..][..k]) == Flatten(b.body) && Tokens(code[1..][k + 1..]) == Flatten(b.rest)
  {
    hide *;
    var rest := code[1..];
    ProgParts(b, []);
    Brackets(code[0]);
    FirstCharacter(code, 0, |code|);
    assert code[0..|code|] == code && code[1..|code|] == rest && rest[0..] == rest;
    DropFirst(JmpFwd, Tokens(rest), JmpFwd, Flatten(b.body) + ([JmpBck] + Flatten(b.rest)));
    var l := ReadPast(rest, 0, b.body, [JmpBck] + Flatten(b.rest), 0);
    k := NextCode(rest, l, JmpBck, Flatten(b.rest), 0);
    Brackets(rest[k]);
    ClosingNext(rest, k, 0);
    TokensBetween(rest, 0, l, k);
    assert rest[0..k] == rest[..k];
  }

  /** What the first character says about the program. */
  lemma FirstToken(code: string, b: Prog)
    requires code != "" && Proper(b) && Flatten(b) == Tokens(code)
    ensures OpOf(code[0]) == End ==> Flatten(b) == Tokens(code[1..])
    ensures IsPrim(OpOf(code[0])) ==> b.Prim? && b.op == OpOf(code[0]) && Flatten(b.rest) == Tokens(code[1..])
    ensures OpOf(code[0]) == JmpFwd ==> b.Loop?
    ensures OpOf(code[0]) != JmpBck
  {
    hide Tokens, OpOf, Flatten;
    FirstCharacter(code, 0, |code|);
    assert code[0..|code|] == code && code[1..|code|] == code[1..];
    assert [] + Tokens(code[1..]) == Tokens(code[1..]);
    ProgParts(b, []);
    if OpOf(code[0]) != End && b != Nil {
      DropFirst(OpOf(code[0]), Tokens(code[1..]), Flatten(b)[0], Flatten(b)[1..]);
      assert b.Prim? ==> Flatten(b)[1..] == Flatten(b.rest);
    }
  }

  lemma AnyOp(c: char)
    ensures OpOf(c) == End || IsPrim(OpOf(c)) || OpOf(c) == JmpFwd || OpOf(c) == JmpBck
  {
  }

  lemma CurrentCell(m: Mem)
    requires GoodMem(m)
    ensures m.ptr < |m.data|
  {
  }

  /** A text does what the program it is written from means. */
  lemma {:induction false} TextMeaning(code: string, b: Prog, m: Mem, input: nat -> nat, fuel: nat)
    requires Proper(b) && Flatten(b) == Tokens(code) && GoodMem(m)
    ensures RunText(code, m, input, fuel) == Meaning(b, m, input, fuel)
    decreases fuel, |code|
  {
    hide *;
    ProgParts(b, []);
    if code == "" {
      NoTokens();
      RunNothing(m, input, fuel);
    } else {
      AnyOp(code[0]);
      Brackets(code[0]);
      FirstToken(code, b);
      if OpOf(code[0]) == End {
        RunComment(code, m, input, fuel);
        TextMeaning(code[1..], b, m, input, fuel);
      } else if b.Prim? {
        RunCharacter(code, m, input, fuel);
        MeaningOfPrim(b, m, input, fuel);
        var m' := Apply(b.op, m, input);
        if GoodMem(m') {
          TextMeaning(code[1..], b.rest, m', input, fuel);
        }
      } else {
        var k := LoopText(code, b);
        CurrentCell(m);
        RunLoop(code, m, input, fuel, k);
        MeaningOfLoop(b, m, input, fuel);
        if m.data[m.ptr] == 0 {
          TextMeaning(code[1..][k + 1..], b.rest, m, input, fuel);
        } else if fuel > 0 {
          TextMeaning(code[1..][..k], b.body, m, input, fuel - 1);
          var r := Meaning(b.body, m, input, fuel - 1);
          if r.Done? {
            TextMeaning(code, b, r.m, input, fuel - 1);
          }
        }
      }
    }
  }

  /** The run of the text comes to an end with memory `m`. */
  ghost predicate TextEndsWith(code: string, m0: Mem, input: nat -> nat, m: Mem)
    requires GoodMem(m0)
  {
    exists fuel: nat :: RunText(code, m0, input, fuel) == Done(m) || RunText(code, m0, input, fuel) == OffData(m)
  }

  /** Main result: what a compiled text does is what its characters do. */
  lemma CompiledRunsText(prog: seq<Instr>, code: string, b: Prog, m0: Mem, input: nat -> nat, m: Mem)
    requires Compiled(prog, b) && Flatten(b) == Tokens(code) && GoodMem(m0)
    ensures HaltsWith(prog, m0, input, m) <==> TextEndsWith(code, m0, input, m)
  {
    hide RunText, Meaning, Encodes, Flatten, Tokens, HaltsWith, Proper;
    CompiledMeansSource(prog, b, m0, input, m);
    forall fuel: nat ensures RunText(code, m0, input, fuel) == Meaning(b, m0, input, fuel) {
      TextMeaning(code, b, m0, input, fuel);
    }
    if EndsWith(b, m0, input, m) {
      var fuel: nat :| Meaning(b, m0, input, fuel) == Done(m) || Meaning(b, m0, input, fuel) == OffData(m);
      assert RunText(code, m0, input, fuel) == Done(m) || RunText(code, m0, input, fuel) == OffData(m);
    }
    if TextEndsWith(code, m0, input, m) {
      var fuel: nat :| RunText(code, m0, input, fuel) == Done(m) || RunText(code, m0, input, fuel) == OffData(m);
      assert Meaning(b, m0, input, fuel) == Done(m) || Meaning(b, m0, input, fuel) == OffData(m);
    }
  }

  /** `prog` does exactly what `code` does, from every memory and on every input. */
  ghost predicate DoesWhat(prog: seq<Instr>, code: string) {
    forall m0: Mem, input: nat -> nat, m: Mem | GoodMem(m0) ::
      HaltsWith(prog, m0, input, m) <==> TextEndsWith(code, m0, input, m)
  }

  lemma CompiledDoes(prog: seq<Instr>, code: string, b: Prog)
    requires Compiled(prog, b) && Flatten(b) == Tokens(code)
    ensures DoesWhat(prog, code)
  {
    hide Compiled, Flatten, Tokens, HaltsWith, TextEndsWith, GoodMem;
    forall m0: Mem, input: nat -> nat, m: Mem | GoodMem(m0)
      ensures HaltsWith(prog, m0, input, m) <==> TextEndsWith(code, m0, input, m)
    {
      CompiledRunsText(prog, code, b, m0, input, m);
    }
  }
}
