/**
  * The pipeline over whole runs: from reset, at every cycle, what commits is the sequential RV32I run,
  * instruction by instruction, and each commit happens in a cycle that is known in advance.
  */
module PipelineTheorem {
  import opened Rv32Words
  import Isa = Rv32Isa
  import opened PipelineStages
  import opened PipelineCpu
  import opened PipelineDatapath
  import opened PipelineRefinement

  /** The architectural state the core starts from: whatever one reset edge leaves behind. */
  function Boot(power: State): Arch {
    Isa.Arch(0x8000_0000, ResetTick(power).regs, ResetTick(power).mem)
  }

  /** The state `n` edges after reset is released. */
  function At(power: State, n: nat): State { Cycles(ResetTick(power), n) }

  // ---- the schedule ----

  /** The second instruction reads the register that the first one loads. */
  predicate ReadsLoaded(x: Isa.Insn, y: Isa.Insn) { x.Load? && x.rd != 0 && x.rd in Isa.Sources(y) }

  /** A load into x0, which nothing can use, delays every instruction that reads x0 or has fewer than two source
      registers. */
  predicate AfterIdleLoad(x: Isa.Insn, y: Isa.Insn) {
    x.Load? && x.rd == 0 && (0 in Isa.Sources(y) || !(y.Branch? || y.Store? || y.Op?))
  }

  /** Instruction `i + 1` waits a cycle for instruction `i`. */
  predicate Delayed(a0: Arch, i: nat) {
    var x, y := Isa.DecodeInsn(Word0(Isa.Run(a0, i))), Isa.DecodeInsn(Word0(Isa.Run(a0, i + 1)));
    ReadsLoaded(x, y) || AfterIdleLoad(x, y)
  }

  lemma IsLoadInsn(w: Word)
    requires Supported(w)
    ensures var x := Isa.DecodeInsn(w); (IsLoad(MemRwSel(w)) <==> x.Load?) && (x.Load? ==> x.rd == Rd(w))
  {
    hide Rd, Rs1, Rs2, Isa.ImmI, Isa.ImmS, Isa.ImmB, Isa.ImmJ, Isa.ImmU;
  }

  lemma SourcesAre(w: Word)
    requires Supported(w)
    ensures var y := Isa.DecodeInsn(w);
            && (if y.Branch? || y.Store? || y.Op? then Isa.Sources(y) == {EffRs1(w), EffRs2(w)}
                else EffRs2(w) == 0 && (Isa.Sources(y) == {EffRs1(w)} || (Isa.Sources(y) == {} && EffRs1(w) == 0)))
  {
    hide Opcode, Rd, Rs1, Rs2, Funct3, Isa.DecodeInsn, Isa.ImmI, Isa.ImmS, Isa.ImmB, Isa.ImmJ, Isa.ImmU, Imm, AluASel, AluBSel,
         AluFuncSel, MemRwSel, RegWen, ValDSel, NeedJump;
    OpcodeIs(w);
    match Opcode(w)
    case 0x37 => LuiControl(w);
    case 0x17 => AuipcControl(w);
    case 0x6f => JalControl(w);
    case 0x67 => JalrControl(w);
    case 0x63 => BranchControl(w);
    case 0x03 => LoadControl(w);
    case 0x23 => StoreControl(w);
    case 0x13 => OpImmOperand(w); OpImmControl(w);
    case 0x33 => OpControl(w);
    case _ => InertControl(w); InertSources(w);
  }

  lemma InertSources(w: Word)
    requires (Opcode(w) == 0x0f || Opcode(w) == 0x73) && Isa.DecodeInsn(w) != Isa.Illegal
    ensures EffRs1(w) == 0 && EffRs2(w) == 0
  {
    hide Isa.DecodeOpImm, Isa.DecodeOp, Isa.DecodeBranch, Isa.DecodeLoad, Isa.DecodeStore;
    if Opcode(w) == 0x73 {
      assert w == 0x73 || w == 0x0010_0073;
    }
  }

  /** The comparison of register numbers in the hardware says what the instructions say. */
  lemma HazardIs(w: Word, w': Word)
    requires Supported(w) && Supported(w')
    ensures var x, y := Isa.DecodeInsn(w), Isa.DecodeInsn(w');
            LoadUse(Rd(w), MemRwSel(w), EffRs1(w'), EffRs2(w')) <==> ReadsLoaded(x, y) || AfterIdleLoad(x, y)
  {
    hide Rd, Supported, MemRwSel, IsLoad, Isa.DecodeInsn, EffRs1, EffRs2, Isa.Sources;
    IsLoadInsn(w);
    SourcesAre(w');
  }

  /** The case where nothing is used: `lw x0, 0(x0)` delays `lui x5, 0`. */
  lemma IdleLoadStalls()
    ensures Isa.DecodeInsn(0x0000_2003) == Isa.Load(Isa.W, 0, 0, 0) && Isa.DecodeInsn(0x0000_02b7) == Isa.Lui(5, 0)
    ensures LoadUse(Rd(0x0000_2003), MemRwSel(0x0000_2003), EffRs1(0x0000_02b7), EffRs2(0x0000_02b7))
    ensures !ReadsLoaded(Isa.DecodeInsn(0x0000_2003), Isa.DecodeInsn(0x0000_02b7))
  {
  }

  /** Cycles lost between instruction `i` and its successor. */
  function Penalty(a0: Arch, i: nat): nat {
    if Jumps(Isa.Run(a0, i)) then 2 else if Delayed(a0, i) then 1 else 0
  }

  /** The cycle in which instruction `i` is in the execute stage. */
  function IssueCycle(a0: Arch, i: nat): nat {
    if i == 0 then 2 else IssueCycle(a0, i - 1) + 1 + Penalty(a0, i - 1)
  }

  function CommitCycle(a0: Arch, i: nat): nat { IssueCycle(a0, i) + 2 }

  predicate TimedE(a0: Arch, s: State, j: nat, c: nat)
    requires 0 <= LeftE(s, j)
  {
    if s.e.commit then c == IssueCycle(a0, LeftE(s, j))
    else c + (if s.d.commit then 1 else 2) == IssueCycle(a0, j) && (j > 0 ==> IssueCycle(a0, j - 1) < c)
  }

  predicate Timed(a0: Arch, s: State, j: nat, c: nat)
    requires 0 <= LeftW(s, j)
  {
    && TimedE(a0, s, j, c)
    && (s.m.commit ==> c == IssueCycle(a0, LeftM(s, j)) + 1)
    && (s.w.commit ==> c == IssueCycle(a0, LeftW(s, j)) + 2)
  }

  lemma ResetInv(power: State)
    ensures Inv(Boot(power), ResetTick(power), 0) && Timed(Boot(power), ResetTick(power), 0, 0)
  {
    hide NextMem, ReadWord;
  }

  /** The core stalls exactly when the next instruction of the run is delayed, and flushes exactly on jumps. */
  lemma StallIsPenalty(a0: Arch, n: nat, s: State, j: nat)
    requires RunnableTo(a0, n) && j <= n && Inv(a0, s, j) && s.e.commit
    ensures s.e.needJump == Jumps(Isa.Run(a0, LeftE(s, j)))
    ensures !s.e.needJump ==> s.d.commit && (LoadUseHazard(s) <==> Delayed(a0, LeftE(s, j)))
  {
    hide Isa.Run, ReadWord, Imm, AluASel, AluBSel, AluFuncSel, MemRwSel, RegWen, ValDSel, IsJalr, NeedJump, Rd, EffRs1,
         EffRs2, ReadReg, Add32, IsLoad, Supported, Isa.DecodeInsn, UsesRs1, UsesRs2, ReadsLoaded, AfterIdleLoad;
    HeldJump(s.e, Isa.Run(a0, LeftE(s, j)));
    assert Fine(Isa.Run(a0, LeftE(s, j))) && Fine(Isa.Run(a0, LeftE(s, j) + 1));
    HazardIs(Word0(Isa.Run(a0, LeftE(s, j))), Word0(Isa.Run(a0, LeftE(s, j) + 1)));
  }

  lemma StepTimedE(a0: Arch, n: nat, s: State, j: nat, c: nat)
    requires RunnableTo(a0, n) && j <= n && Inv(a0, s, j) && TimedE(a0, s, j, c)
    requires Tick(s).e.commit == Issues(s)
    ensures TimedE(a0, Tick(s), j + Count(Issues(s)), c + 1)
  {
    hide Isa.Run, ReadWord, Fine, SlotM, SlotW, NextE, NextM, NextW, NextRegs, NextMem, Jumps, RunnableTo, Delayed,
         NextF, HoldsE, IdealD, LoadUseHazard, IsLoad;
    if s.e.commit {
      StallIsPenalty(a0, n, s, j);
    } else {
      IdleHasNoHazard(s);
    }
  }

  lemma IdleHasNoHazard(s: State)
    requires IdleE(s.e)
    ensures !LoadUseHazard(s)
  {
    hide EffRs1, EffRs2;
  }

  lemma StepTimed(a0: Arch, n: nat, s: State, j: nat, c: nat)
    requires RunnableTo(a0, n) && j <= n && Inv(a0, s, j) && Timed(a0, s, j, c)
    ensures Back(a0, Tick(s), j + Count(Issues(s)))
    ensures j + Count(Issues(s)) <= n ==> Inv(a0, Tick(s), j + Count(Issues(s)))
    ensures Timed(a0, Tick(s), j + Count(Issues(s)), c + 1)
  {
    hide Isa.Run, RunnableTo, ReadWord, Fine, SlotE, SlotM, SlotW, Front, NextE, NextF, NextD, NextM, NextW, NextRegs, NextMem,
         Issues, IssueCycle;
    StepInv(a0, n, s, j);
    CommitsMove(s);
    StepTimedE(a0, n, s, j, c);
  }

  /** Until instruction `n` issues, the invariant holds. */
  lemma {:induction false} Reached(power: State, n: nat, c: nat) returns (j: nat)
    requires RunnableTo(Boot(power), n) && c < IssueCycle(Boot(power), n)
    ensures j <= n && Inv(Boot(power), At(power, c), j) && Timed(Boot(power), At(power, c), j, c)
  {
    hide *;
    AtCycle(power, c);
    if c == 0 {
      ResetInv(power);
      j := 0;
    } else {
      var i := Reached(power, n, c - 1);
      var s := At(power, c - 1);
      StepTimed(Boot(power), n, s, i, c - 1);
      j := i + Count(Issues(s));
      OneOrNone(Issues(s));
      if j == n + 1 {
        BackSizes(Boot(power), Tick(s), j);
        AfterIssue(Boot(power), Tick(s), n, c);
      }
    }
  }

  lemma AtCycle(power: State, c: nat)
    ensures At(power, c) == if c == 0 then ResetTick(power) else Tick(At(power, c - 1))
  {
    hide Tick, ResetTick;
  }

  lemma OneOrNone(b: bool)
    ensures Count(b) <= 1
  {
  }

  /** Once it counts as issued, its cycle has come. */
  lemma AfterIssue(a0: Arch, s: State, n: nat, c: nat)
    requires 0 <= LeftW(s, n + 1) && Timed(a0, s, n + 1, c)
    ensures IssueCycle(a0, n) <= c
  {
    hide IssueCycle;
  }

  lemma BackSizes(a0: Arch, s: State, j: nat)
    requires Back(a0, s, j)
    ensures 0 <= LeftW(s, j)
  {
    hide SlotE, SlotM, SlotW;
  }

  /** Then it enters the execute stage, with all older instructions in their places. */
  lemma Issued(power: State, n: nat)
    requires RunnableTo(Boot(power), n)
    ensures var c := IssueCycle(Boot(power), n);
            && Back(Boot(power), At(power, c), n + 1) && At(power, c).e.commit && Timed(Boot(power), At(power, c), n + 1, c)
  {
    hide Inv, Tick, RunnableTo, Issues, Boot, ResetTick, IssueCycle, Back, TimedE;
    var a0, c := Boot(power), IssueCycle(Boot(power), n);
    FirstIssue(a0);
    if n > 0 {
      IssueCycleIncreases(a0, 0, n);
    }
    var i := Reached(power, n, c - 1);
    var s := At(power, c - 1);
    StepTimed(a0, n, s, i, c - 1);
    var j := i + Count(Issues(s));
    BackSizes(a0, Tick(s), j);
    TimedPinsIndex(a0, Tick(s), j, n);
  }

  lemma {:induction false} IssueCycleIncreases(a0: Arch, i: nat, k: nat)
    requires i < k
    ensures IssueCycle(a0, i) < IssueCycle(a0, k) && 2 <= IssueCycle(a0, i)
    decreases k
  {
    hide Penalty;
    if i > 0 {
      IssueCycleIncreases(a0, i - 1, i);
    }
    if i < k - 1 {
      IssueCycleIncreases(a0, i, k - 1);
    }
  }

  lemma TimedPinsIndex(a0: Arch, s: State, j: nat, k: nat)
    requires 0 <= LeftE(s, j) && TimedE(a0, s, j, IssueCycle(a0, k))
    ensures s.e.commit && j == k + 1
  {
    FirstIssue(a0);
    hide IssueCycle;
    if k > 0 { IssueCycleIncreases(a0, 0, k); }
    if j < k { IssueCycleIncreases(a0, j, k); }
    if 0 < j <= k { IssueCycleIncreases(a0, j - 1, k); }
    if k < j - 1 { IssueCycleIncreases(a0, k, j - 1); }
  }

  lemma FirstIssue(a0: Arch)
    ensures IssueCycle(a0, 0) == 2
  {
  }

  // ---- main results ----

  /** What the core shows while `s` commits instruction `k` of the run: the pc and the word of that
      instruction, its successor's pc, the registers before and (one edge later) after it, and the
      memory after it. */
  predicate Commits(a0: Arch, s: State, k: nat) {
    && s.w.commit
    && s.w.pc == Isa.Run(a0, k).pc
    && s.w.instr == Word0(Isa.Run(a0, k))
    && s.w.prePc == Isa.Run(a0, k + 1).pc
    && s.regs == Isa.Run(a0, k).regs
    && NextRegs(s.w, s.regs) == Isa.Run(a0, k + 1).regs
    && s.mem == Isa.Run(a0, k + 1).mem
  }

  lemma HeldCommits(a0: Arch, s: State, k: nat)
    requires Fine(Isa.Run(a0, k)) && s.w.commit && HoldsW(s.w, Isa.Run(a0, k))
    requires s.regs == Isa.Run(a0, k).regs && s.mem == Isa.Run(a0, k + 1).mem
    ensures Commits(a0, s, k)
  {
    RunStep(a0, k);
    WriteBackHeld(s.w, Isa.Run(a0, k));
    hide Isa.Run, ReadWord, Fine, NextRegs, NextMem, ExeValE, Imm, AluASel, AluBSel, AluFuncSel, MemRwSel, RegWen, ValDSel,
         IsJalr, NeedJump, Rd, EffRs1, EffRs2, ReadReg, ValM, Known, WbValD, CommitNextPc;
  }

  lemma BackCommits(a0: Arch, n: nat, s: State, j: nat)
    requires RunnableTo(a0, n) && j <= n + 1 && Back(a0, s, j) && s.w.commit
    ensures Commits(a0, s, LeftW(s, j)) && LeftW(s, j) <= n
  {
    hide Isa.Run, HoldsW, HoldsE, HoldsM, Fine, Commits, SlotE, SlotM;
    HeldCommits(a0, s, LeftW(s, j));
  }

  /** Instruction `k` in the memory stage and its predecessor, if any, in the write-back stage; whatever is behind them. */
  predicate Tail(a0: Arch, s: State, k: nat) {
    && s.m.commit && HoldsM(s.m, Isa.Run(a0, k)) && s.mem == Isa.Run(a0, k).mem
    && if s.w.commit then k > 0 && HoldsW(s.w, Isa.Run(a0, k - 1)) && s.regs == Isa.Run(a0, k - 1).regs
       else IdleW(s.w) && s.regs == Isa.Run(a0, k).regs
  }

  lemma TailStarts(a0: Arch, n: nat, s: State)
    requires RunnableTo(a0, n) && Back(a0, s, n + 1) && s.e.commit
    ensures Tail(a0, Tick(s), n) && Tick(s).w.commit == s.m.commit
  {
    hide Isa.Run, RunnableTo, HoldsE, HoldsM, HoldsW, NextF, NextD, NextE, NextM, NextW, NextRegs, NextMem, IdleW, IdleM, IdleE;
    StepBack(a0, n, s, n + 1);
    CommitsMove(s);
  }

  lemma TailEnds(a0: Arch, n: nat, s: State)
    requires RunnableTo(a0, n) && Tail(a0, s, n)
    ensures Commits(a0, Tick(s), n)
  {
    hide Isa.Run, Fine, HoldsE, HoldsM, HoldsW, NextF, NextD, NextE, NextM, NextW, NextMem, DatapathStep, Commits, WbValD;
    var a := Isa.Run(a0, n);
    if s.w.commit {
      WriteBackHeld(s.w, Isa.Run(a0, n - 1));
      RunStep(a0, n - 1);
    }
    LoadHeld(s.m, a);
    StoreHeld(s.m, a);
    RunStep(a0, n);
    CommitsMove(s);
    HeldCommits(a0, Tick(s), n);
  }

  lemma LastEdges(power: State, n: nat)
    requires RunnableTo(Boot(power), n)
    ensures var c := IssueCycle(Boot(power), n);
            && Tail(Boot(power), At(power, c + 1), n) && Commits(Boot(power), At(power, c + 2), n)
            && (At(power, c + 1).w.commit ==> At(power, c).m.commit)
  {
    hide Back, Tail, Commits, RunnableTo, Boot, ResetTick, IssueCycle, Tick, TimedE, Timed;
    var c := IssueCycle(Boot(power), n);
    Issued(power, n);
    TailStarts(Boot(power), n, At(power, c));
    TailEnds(Boot(power), n, At(power, c + 1));
  }

  lemma TimedFacts(a0: Arch, s: State, j: nat, c: nat)
    requires 0 <= LeftW(s, j) && Timed(a0, s, j, c)
    ensures s.w.commit ==> c == CommitCycle(a0, LeftW(s, j))
    ensures s.e.commit && s.m.commit ==> j >= 2 && c == IssueCycle(a0, j - 2) + 1
  {
    hide IssueCycle, TimedE;
  }

  lemma BackInTurn(a0: Arch, n: nat, s: State, j: nat, c: nat)
    requires RunnableTo(a0, n) && j <= n + 1 && Back(a0, s, j) && s.w.commit
    requires 0 <= LeftW(s, j) && Timed(a0, s, j, c)
    ensures CommitsInTurn(a0, s, n, c)
  {
    hide *;
    TimedFacts(a0, s, j, c);
    BackCommits(a0, n, s, j);
    InTurn(a0, s, n, c, LeftW(s, j));
  }

  /** The state at cycle `c` commits an instruction up to number `n`, in its cycle. */
  ghost predicate CommitsInTurn(a0: Arch, s: State, n: nat, c: nat) {
    exists k: nat :: k <= n && c == CommitCycle(a0, k) && Commits(a0, s, k)
  }

  lemma InTurn(a0: Arch, s: State, n: nat, c: nat, k: nat)
    requires k <= n && c == CommitCycle(a0, k) && Commits(a0, s, k)
    ensures CommitsInTurn(a0, s, n, c)
  {
    hide Commits, CommitCycle;
  }

  lemma InvIsBack(a0: Arch, s: State, j: nat)
    requires Inv(a0, s, j)
    ensures Back(a0, s, j) && 0 <= LeftW(s, j)
  {
    hide SlotE, SlotM, SlotW, Front;
  }

  lemma CommitCycleIs(a0: Arch, n: nat)
    ensures CommitCycle(a0, n) == IssueCycle(a0, n) + 2
  {
    hide IssueCycle;
  }

  /** Soundness, as far as the conditions hold: whatever commits up to the cycle of instruction `n` is an instruction of
      the sequential run, in its turn. */
  lemma CommitsUpTo(power: State, n: nat, c: nat)
    requires RunnableTo(Boot(power), n) && c <= CommitCycle(Boot(power), n) && At(power, c).w.commit
    ensures CommitsInTurn(Boot(power), At(power, c), n, c)
  {
    hide *;
    var a0, s, i := Boot(power), At(power, c), IssueCycle(Boot(power), n);
    CommitCycleIs(a0, n);
    Issued(power, n);
    LastEdges(power, n);
    if c < i {
      var j := Reached(power, n, c);
      InvIsBack(a0, s, j);
      BackInTurn(a0, n, s, j, c);
    } else if c == i {
      BackSizes(a0, s, n + 1);
      BackInTurn(a0, n, s, n + 1, c);
    } else if c == i + 1 {
      BackSizes(a0, At(power, i), n + 1);
      TimedFacts(a0, At(power, i), n + 1, i);
      TailCommits(a0, n, s);
      CommitCycleIs(a0, n - 1);
      InTurn(a0, s, n, c, n - 1);
    } else {
      InTurn(a0, s, n, c, n);
    }
  }

  lemma TailCommits(a0: Arch, n: nat, s: State)
    requires RunnableTo(a0, n) && Tail(a0, s, n) && s.w.commit
    ensures n > 0 && Commits(a0, s, n - 1)
  {
    hide Isa.Run, Fine, HoldsM, HoldsW, Commits;
    HeldCommits(a0, s, n - 1);
  }

  /** Completeness, as far as the conditions hold: if they hold up to instruction `n`, it commits, in exactly its cycle. */
  lemma CommitsInItsCycle(power: State, n: nat)
    requires RunnableTo(Boot(power), n)
    ensures Commits(Boot(power), At(power, CommitCycle(Boot(power), n)), n)
  {
    hide Boot, ResetTick, RunnableTo, Commits, Cycles, IssueCycle, Tail;
    LastEdges(power, n);
  }

  lemma AllOfRun(a0: Arch, n: nat)
    requires Runnable(a0)
    ensures RunnableTo(a0, n)
  {
    hide Fine, FetchStable;
  }

  lemma {:induction false} CommitCycleAhead(a0: Arch, n: nat)
    ensures n <= CommitCycle(a0, n)
  {
    hide Penalty;
    if n > 0 {
      CommitCycleAhead(a0, n - 1);
    }
  }

  /** Soundness: whatever commits at cycle `n` is an instruction of the sequential run, in its turn. */
  lemma CommitsAreSequential(power: State, n: nat)
    requires Runnable(Boot(power)) && At(power, n).w.commit
    ensures exists k: nat :: n == CommitCycle(Boot(power), k) && Commits(Boot(power), At(power, n), k)
  {
    hide Boot, ResetTick, Runnable, RunnableTo, Commits, Cycles, IssueCycle;
    AllOfRun(Boot(power), n);
    CommitCycleAhead(Boot(power), n);
    CommitsUpTo(power, n, n);
  }

  /** Completeness: every instruction of the sequential run commits, and in exactly its cycle. */
  lemma EveryInstructionCommits(power: State, k: nat)
    requires Runnable(Boot(power))
    ensures Commits(Boot(power), At(power, CommitCycle(Boot(power), k)), k)
  {
    hide Boot, ResetTick, Runnable, RunnableTo, Commits, Cycles, IssueCycle;
    AllOfRun(Boot(power), k);
    CommitsInItsCycle(power, k);
  }

  // ---- cycle counts ----

  function StallsBefore(a0: Arch, k: nat): nat {
    if k == 0 then 0
    else StallsBefore(a0, k - 1) + Count(!Jumps(Isa.Run(a0, k - 1)) && Delayed(a0, k - 1))
  }

  function JumpsBefore(a0: Arch, k: nat): nat {
    if k == 0 then 0 else JumpsBefore(a0, k - 1) + Count(Jumps(Isa.Run(a0, k - 1)))
  }

  /** Cycles = fill + instructions + load-use stalls + 2 * taken jumps. */
  lemma {:induction false} CycleCount(a0: Arch, k: nat)
    ensures CommitCycle(a0, k) == 4 + k + StallsBefore(a0, k) + 2 * JumpsBefore(a0, k)
  {
    hide Jumps, Delayed, Isa.Run;
    if k > 0 {
      CycleCount(a0, k - 1);
    }
  }

  /** The instruction in the run whose commit is next at or after cycle `n`. */
  lemma {:induction false} NextCommit(a0: Arch, n: nat) returns (k: nat)
    ensures n <= CommitCycle(a0, k) <= n + (if n < 4 then 4 else 2)
  {
    hide Jumps, Delayed, Isa.Run;
    if n <= 4 {
      k := 0;
    } else {
      k := NextCommit(a0, n - 1);
      if CommitCycle(a0, k) < n {
        k := k + 1;
      }
    }
  }

  /** From every cycle on, the wait for a commit ends: after at most two more bubbles once the pipeline
      has filled, so between two commits there are at most two cycles without one. */
  lemma CommitWithinBound(power: State, n: nat)
    requires Runnable(Boot(power))
    ensures exists m: nat :: n <= m <= n + (if n < 4 then 4 else 2) && At(power, m).w.commit
  {
    hide Boot, ResetTick, Runnable, Cycles, IssueCycle;
    var k := NextCommit(Boot(power), n);
    EveryInstructionCommits(power, k);
    assert At(power, CommitCycle(Boot(power), k)).w.commit;
  }

  /** The simulator's wait loop on the clocked core. */
  method WaitForCommit(cpu: Cpu, ghost power: State, ghost n: nat) returns (ghost k: nat)
    requires Runnable(Boot(power)) && cpu.Now() == At(power, n)
    modifies cpu
    ensures n <= CommitCycle(Boot(power), k) <= n + 4
    ensures cpu.Now() == At(power, CommitCycle(Boot(power), k)) && Commits(Boot(power), cpu.Now(), k)
  {
    hide Boot, ResetTick, Tick, Runnable, Commits, IssueCycle;
    k := NextCommit(Boot(power), n);
    EveryInstructionCommits(power, k);
    ghost var c := n;
    while !cpu.w.commit
      invariant n <= c <= CommitCycle(Boot(power), k) && cpu.Now() == At(power, c)
      decreases CommitCycle(Boot(power), k) - c
    {
      assert c != CommitCycle(Boot(power), k) by { CommitMeansBit(Boot(power), cpu.Now(), k); }
      cpu.Posedge(false);
      c := c + 1;
    }
    CommitsAreSequential(power, c);
    k :| c == CommitCycle(Boot(power), k) && Commits(Boot(power), At(power, c), k);
  }

  lemma CommitMeansBit(a0: Arch, s: State, k: nat)
    ensures Commits(a0, s, k) ==> s.w.commit
  {
  }
}
