/**
  * The pipeline against the one-instruction-at-a-time machine: forwarding, load-use stalls and branch
  * flushes never change what an instruction sees, and the cycle of every commit is known exactly.
  */
module PipelineRefinement {
  import opened Rv32Words
  import Isa = Rv32Isa
  import opened PipelineStages
  import opened PipelineCpu
  import opened PipelineDatapath

  // ---- what the program must satisfy ----

  predicate Even(v: Word) { v & 1 == 0 }

  /** The instruction that executes in `a` redirects the fetch. */
  predicate Jumps(a: Arch) { IdealE(a).needJump }

  /** A supported instruction whose jalr target, if any, is even. */
  predicate Fine(a: Arch) {
    Supported(Word0(a)) && (IsJalr(Word0(a)) ==> Even(ExeValE(IdealE(a))))
  }

  /** Fetching instruction `i + k` early, before its `k` predecessors have stored, reads the same word. */
  predicate FetchStable(a0: Arch, i: nat, k: nat) {
    ReadWord(Isa.Run(a0, i).mem, Isa.Run(a0, i + k).pc) == Word0(Isa.Run(a0, i + k))
  }

  /** What the theorem asks of the instructions of the run up to number `n`, and of nothing after them. */
  ghost predicate RunnableTo(a0: Arch, n: nat) {
    && (forall i: nat :: i <= n ==> Fine(Isa.Run(a0, i)))
    && (forall i: nat, k: nat :: k <= 3 && i + k <= n ==> FetchStable(a0, i, k))
  }

  /** The same of the whole run. */
  ghost predicate Runnable(a0: Arch) {
    && (forall i: nat :: Fine(Isa.Run(a0, i)))
    && (forall i: nat, k: nat :: k <= 3 ==> FetchStable(a0, i, k))
  }

  // ---- which operands an instruction uses ----

  predicate UsesRs1(w: Word) { IsI(w) || IsB(w) || IsS(w) || IsR(w) }
  predicate UsesRs2(w: Word) { IsB(w) || IsS(w) || IsR(w) }
  predicate Known(w: Word) { UsesRs1(w) || IsU(w) || IsJ(w) }

  lemma ControlFacts(w: Word)
    ensures AluASel(w) == SelValA ==> UsesRs1(w)
    ensures Known(w) && AluBSel(w) == SelValB ==> UsesRs2(w)
    ensures UsesRs1(w) ==> EffRs1(w) == Rs1(w)
    ensures UsesRs2(w) ==> EffRs2(w) == Rs2(w)
    ensures RegWen(w) ==> Known(w)
    ensures IsJ(w) || IsJalr(w) ==> Known(w)
    ensures IsB(w) ==> UsesRs1(w) && UsesRs2(w)
    ensures RegWen(w) && ValDSel(w) == FromP ==> IsJ(w) || IsJalr(w)
    ensures IsLoad(MemRwSel(w)) ==> IsLoadOp(w) && Known(w)
    ensures IsStore(MemRwSel(w)) ==> UsesRs2(w) && Known(w)
  {
    hide Rs1, Rs2, Rd, Funct3, Funct7;
  }

  /** The branch decision looks at operands only for conditional branches, which use both. */
  lemma JumpFacts(w: Word, x: Word, y: Word, x': Word, y': Word)
    requires UsesRs1(w) ==> x == x'
    requires UsesRs2(w) ==> y == y'
    ensures NeedJump(w, x, y) == NeedJump(w, x', y')
    ensures NeedJump(w, x, y) ==> Known(w) && !IsLoadOp(w)
    ensures IsJ(w) || IsJalr(w) ==> NeedJump(w, x, y)
  {
    hide Rs1, Rs2, Rd, Funct3, Funct7, Signed;
  }

  /** A supported instruction whose register result comes from the memory stage is a load with a
      memory access (or writes x0). */
  lemma MemoryResultIsLoad(w: Word)
    requires Supported(w) && RegWen(w) && ValDSel(w) == FromM && Rd(w) != 0
    ensures IsLoad(MemRwSel(w))
  {
    hide Rs1, Rs2, Funct3, Funct7, Isa.ImmI, Isa.ImmS, Isa.ImmB, Isa.ImmU, Isa.ImmJ;
  }

  lemma NopFacts()
    ensures Rd(NOP) == 0 && MemRwSel(NOP) == NoRw && EffRs1(NOP) == 0 && EffRs2(NOP) == 0
    ensures forall x, y :: !NeedJump(NOP, x, y)
  {
  }

  lemma EvenIsUncleared(v: Word)
    ensures Even(v) <==> ClearBit0(v) == v
  {
  }

  // ---- a stage register holds an instruction, up to operands it does not use ----

  predicate HoldsE(e: StageE, a: Arch) {
    var w, ideal := Word0(a), IdealE(a);
    && e == ideal.(valA := e.valA, valB := e.valB)
    && (UsesRs1(w) ==> e.valA == ideal.valA)
    && (UsesRs2(w) ==> e.valB == ideal.valB)
  }

  predicate HoldsM(m: StageM, a: Arch) {
    var w, ideal := Word0(a), IdealM(a);
    && m == ideal.(valE := m.valE, valB := m.valB)
    && (Known(w) ==> m.valE == ideal.valE)
    && (UsesRs2(w) ==> m.valB == ideal.valB)
  }

  predicate HoldsW(x: StageW, a: Arch) {
    var w, ideal := Word0(a), IdealW(a);
    && x == ideal.(valE := x.valE)
    && (Known(w) ==> x.valE == ideal.valE)
  }

  // A bubble writes nothing, jumps nowhere and commits nothing.
  predicate IdleE(e: StageE) { !e.commit && !e.needJump && e.memRw == NoRw && (e.wen ==> e.rd == 0) }
  predicate IdleM(m: StageM) { !m.commit && m.memRw == NoRw && (m.wen ==> m.rd == 0) }
  predicate IdleW(w: StageW) { !w.commit && (w.wen ==> w.rd == 0) }

  lemma ExecuteHeld(e: StageE, a: Arch)
    requires HoldsE(e, a)
    ensures HoldsM(NextM(e), a)
    ensures Known(Word0(a)) ==> ExeValE(e) == IdealM(a).valE
  {
    var w := Word0(a);
    hide ReadWord, IsI, IsR, IsB, IsS, IsJ, IsU, IsJalr, Imm, AluASel, AluBSel, AluFuncSel, MemRwSel, RegWen, ValDSel,
         NeedJump, Alu, EffRs1, EffRs2, Rd;
    ControlFacts(w);
    JumpFacts(w, IdealE(a).valA, IdealE(a).valB, IdealE(a).valA, IdealE(a).valB);
  }

  lemma LoadHeld(m: StageM, a: Arch)
    requires HoldsM(m, a)
    ensures HoldsW(NextW(m, a.mem), a)
    ensures MemValM(m, a.mem) == MemValM(IdealM(a), a.mem)
  {
    ControlFacts(Word0(a));
    hide ReadWord, IsI, IsR, IsB, IsS, IsJ, IsU, IsJalr, Imm, AluASel, AluBSel, AluFuncSel, MemRwSel, RegWen, ValDSel,
         NeedJump, Alu, EffRs1, EffRs2, Rd, Extract;
  }

  lemma WriteBackHeld(x: StageW, a: Arch)
    requires HoldsW(x, a)
    ensures NextRegs(x, a.regs) == DatapathStep(a).regs
    ensures x.wen ==> WbValD(x) == WbValD(IdealW(a))
  {
    ControlFacts(Word0(a));
    hide ReadWord, IsI, IsR, IsB, IsS, IsJ, IsU, IsJalr, Imm, AluASel, AluBSel, AluFuncSel, MemRwSel, RegWen, ValDSel,
         NeedJump, Alu, EffRs1, EffRs2, Rd, Extract, ValM;
  }

  lemma StoreHeld(m: StageM, a: Arch)
    requires HoldsM(m, a)
    ensures NextMem(m, a.mem) == DatapathStep(a).mem
  {
    ControlFacts(Word0(a));
    hide ReadWord, IsI, IsR, IsB, IsS, IsJ, IsU, IsJalr, Imm, AluASel, AluBSel, AluFuncSel, MemRwSel, RegWen, ValDSel,
         NeedJump, Alu, EffRs1, EffRs2, Rd, Extract, ValM, WriteBytes;
  }

  /** A register after one instruction: the instruction's result, or what it was. */
  lemma RegisterAfter(a: Arch, r: RegNo)
    ensures ReadReg(DatapathStep(a).regs, r) ==
            if RegWen(Word0(a)) && Rd(Word0(a)) != 0 && r == Rd(Word0(a)) then WbValD(IdealW(a)) else ReadReg(a.regs, r)
  {
    hide ReadWord, IsI, IsR, IsB, IsS, IsJ, IsU, IsJalr, Imm, AluASel, AluBSel, AluFuncSel, MemRwSel, RegWen, ValDSel,
         NeedJump, Alu, EffRs1, EffRs2, Rd, Extract, ValM, WriteBytes, WbValD;
  }

  // ---- forwarding: one stage at a time ----

  /** Looking past the execute stage: nothing to stall for and no jump, so a matching producer there
      has its value on the ALU output. */
  lemma ForwardFromE(e: StageE, a: Arch, r: RegNo)
    requires HoldsE(e, a) && Fine(a) && !e.needJump
    requires !(e.rd == r && IsLoad(e.memRw))
    ensures ReadReg(DatapathStep(a).regs, r) == if r == e.rd && e.rd != 0 && e.wen then ExeValE(e) else ReadReg(a.regs, r)
  {
    var w := Word0(a);
    RegisterAfter(a, r);
    ControlFacts(w);
    ExecuteHeld(e, a);
    JumpFacts(w, IdealE(a).valA, IdealE(a).valB, IdealE(a).valA, IdealE(a).valB);
    if RegWen(w) && ValDSel(w) == FromM && Rd(w) != 0 {
      MemoryResultIsLoad(w);
    }
    hide ReadWord, IsI, IsR, IsB, IsS, IsJ, IsU, IsJalr, Imm, AluASel, AluBSel, AluFuncSel, MemRwSel, RegWen, ValDSel,
         NeedJump, Alu, EffRs1, EffRs2, Rd, Extract, ValM, ValE, WriteBytes, Supported, DatapathStep, ReadReg, IsLoad;
  }

  /** Past the memory stage: an instruction there that is not a jump never needs pc + 4 forwarded. */
  lemma ForwardFromM(m: StageM, a: Arch, r: RegNo)
    requires HoldsM(m, a) && !Jumps(a)
    ensures ReadReg(DatapathStep(a).regs, r) ==
            if r == m.rd && m.rd != 0 && m.wen && m.valD == FromM then MemValM(m, a.mem)
            else if r == m.rd && m.rd != 0 && m.wen && m.valD == FromE then m.valE
            else ReadReg(a.regs, r)
  {
    var w := Word0(a);
    RegisterAfter(a, r);
    ControlFacts(w);
    LoadHeld(m, a);
    JumpFacts(w, IdealE(a).valA, IdealE(a).valB, IdealE(a).valA, IdealE(a).valB);
    hide ReadWord, IsI, IsR, IsB, IsS, IsJ, IsU, IsJalr, Imm, AluASel, AluBSel, AluFuncSel, MemRwSel, RegWen, ValDSel,
         NeedJump, Alu, EffRs1, EffRs2, Rd, Extract, ValM, ValE, WriteBytes, DatapathStep, ReadReg, IsLoad;
  }

  lemma ForwardFromW(x: StageW, a: Arch, r: RegNo)
    requires HoldsW(x, a)
    ensures ReadReg(DatapathStep(a).regs, r) ==
            if r == x.rd && x.rd != 0 && x.wen then WbValD(x) else ReadReg(a.regs, r)
  {
    RegisterAfter(a, r);
    WriteBackHeld(x, a);
    hide ReadWord, IsI, IsR, IsB, IsS, IsJ, IsU, IsJalr, Imm, AluASel, AluBSel, AluFuncSel, MemRwSel, RegWen, ValDSel,
         NeedJump, Alu, EffRs1, EffRs2, Rd, Extract, ValM, ValE, WriteBytes, DatapathStep, ReadReg, WbValD;
  }

  // ---- the invariant ----

  function Count(b: bool): nat { if b then 1 else 0 }

  /** With `j` instructions issued to the execute stage so far, how many have left it, have left the
      memory stage, and have left the write-back stage. */
  function LeftE(s: State, j: nat): int { j - Count(s.e.commit) }
  function LeftM(s: State, j: nat): int { LeftE(s, j) - Count(s.m.commit) }
  function LeftW(s: State, j: nat): int { LeftM(s, j) - Count(s.w.commit) }

  /** The decode stage and the fetch pc, while the execute stage does not redirect the fetch. */
  predicate Front(a0: Arch, s: State, j: nat) {
    if s.d.commit then
      s.d == IdealD(Isa.Run(a0, j)) && (!Jumps(Isa.Run(a0, j)) ==> s.pcF == Isa.Run(a0, j + 1).pc)
    else
      s.d == BubbleD && !s.e.commit && s.pcF == Isa.Run(a0, j).pc
  }

  predicate SlotE(a0: Arch, s: State, j: nat)
    requires 0 <= LeftE(s, j)
  {
    if s.e.commit then HoldsE(s.e, Isa.Run(a0, LeftE(s, j))) else IdleE(s.e)
  }

  predicate SlotM(a0: Arch, s: State, j: nat)
    requires 0 <= LeftM(s, j)
  {
    if s.m.commit then HoldsM(s.m, Isa.Run(a0, LeftM(s, j))) else IdleM(s.m)
  }

  predicate SlotW(a0: Arch, s: State, j: nat)
    requires 0 <= LeftW(s, j)
  {
    if s.w.commit then HoldsW(s.w, Isa.Run(a0, LeftW(s, j))) else IdleW(s.w)
  }

  /** The stages from execute on, the registers and the memory. */
  predicate Back(a0: Arch, s: State, j: nat) {
    && 0 <= LeftW(s, j)
    && SlotE(a0, s, j) && SlotM(a0, s, j) && SlotW(a0, s, j)
    && s.regs == Isa.Run(a0, LeftW(s, j)).regs
    && s.mem == Isa.Run(a0, LeftM(s, j)).mem
  }

  predicate Inv(a0: Arch, s: State, j: nat) {
    && Back(a0, s, j)
    // behind a jump in the memory stage there are only bubbles
    && (s.m.commit && Jumps(Isa.Run(a0, LeftM(s, j))) ==> !s.e.commit && !s.d.commit)
    && (!s.e.needJump ==> Front(a0, s, j))
  }

  /** The instruction in decode moves on at the next edge. */
  predicate Issues(s: State) { s.d.commit && !s.e.needJump && !LoadUseHazard(s) }

  lemma RunStep(a0: Arch, i: nat)
    requires Fine(Isa.Run(a0, i))
    ensures Isa.Run(a0, i + 1) == DatapathStep(Isa.Run(a0, i))
  {
    hide DatapathStep, Isa.Step, Word0, Even, Supported;
    DatapathIsRv32i(Isa.Run(a0, i));
  }

  lemma StepBack(a0: Arch, n: nat, s: State, j: nat)
    requires RunnableTo(a0, n) && j <= n + 1 && Back(a0, s, j)
    ensures NextRegs(s.w, s.regs) == Isa.Run(a0, LeftM(s, j)).regs
    ensures NextMem(s.m, s.mem) == Isa.Run(a0, LeftE(s, j)).mem
    ensures s.m.commit ==> HoldsW(NextW(s.m, s.mem), Isa.Run(a0, LeftM(s, j)))
    ensures !s.m.commit ==> IdleW(NextW(s.m, s.mem))
    ensures s.e.commit ==> HoldsM(NextM(s.e), Isa.Run(a0, LeftE(s, j)))
    ensures !s.e.commit ==> IdleM(NextM(s.e))
  {
    hide Isa.Run, HoldsE, HoldsM, HoldsW, DatapathStep, WbValD, ExeValE, MemValM, CommitNextPc, Jumps, Fine, Front, WriteBytes;
    if s.w.commit {
      WriteBackHeld(s.w, Isa.Run(a0, LeftW(s, j)));
      RunStep(a0, LeftW(s, j));
    }
    if s.m.commit {
      StoreHeld(s.m, Isa.Run(a0, LeftM(s, j)));
      LoadHeld(s.m, Isa.Run(a0, LeftM(s, j)));
      RunStep(a0, LeftM(s, j));
    }
    if s.e.commit {
      ExecuteHeld(s.e, Isa.Run(a0, LeftE(s, j)));
    }
  }

  lemma PastW(a0: Arch, n: nat, s: State, j: nat, r: RegNo)
    requires RunnableTo(a0, n) && j <= n && Inv(a0, s, j)
    ensures ReadReg(Isa.Run(a0, LeftM(s, j)).regs, r) ==
            if r == s.w.rd && s.w.rd != 0 && s.w.wen then WbValD(s.w) else ReadReg(s.regs, r)
  {
    hide Isa.Run, HoldsE, HoldsM, HoldsW, DatapathStep, ExeValE, MemValM, WbValD, CommitNextPc, Jumps, Fine, Front,
         NextRegs, WriteBytes, ReadReg, IsLoad, Add32, IdealD, LoadUseHazard;
    if s.w.commit {
      ForwardFromW(s.w, Isa.Run(a0, LeftW(s, j)), r);
      RunStep(a0, LeftW(s, j));
    }
  }

  lemma PastM(a0: Arch, n: nat, s: State, j: nat, r: RegNo)
    requires RunnableTo(a0, n) && j <= n && Inv(a0, s, j) && s.d.commit
    ensures ReadReg(Isa.Run(a0, LeftE(s, j)).regs, r) ==
            if r == s.m.rd && s.m.rd != 0 && s.m.wen && s.m.valD == FromM then MemValM(s.m, s.mem)
            else if r == s.m.rd && s.m.rd != 0 && s.m.wen && s.m.valD == FromE then s.m.valE
            else ReadReg(Isa.Run(a0, LeftM(s, j)).regs, r)
  {
    hide Isa.Run, HoldsE, HoldsM, HoldsW, DatapathStep, ExeValE, MemValM, WbValD, CommitNextPc, Jumps, Fine, Front,
         NextRegs, WriteBytes, ReadReg, IsLoad, Add32, IdealD, LoadUseHazard;
    if s.m.commit {
      ForwardFromM(s.m, Isa.Run(a0, LeftM(s, j)), r);
      RunStep(a0, LeftM(s, j));
    }
  }

  lemma PastE(a0: Arch, n: nat, s: State, j: nat, r: RegNo)
    requires RunnableTo(a0, n) && j <= n && Inv(a0, s, j) && !s.e.needJump
    requires !(s.e.rd == r && IsLoad(s.e.memRw))
    ensures ReadReg(Isa.Run(a0, j).regs, r) ==
            if r == s.e.rd && s.e.rd != 0 && s.e.wen then ExeValE(s.e)
            else ReadReg(Isa.Run(a0, LeftE(s, j)).regs, r)
  {
    hide Isa.Run, HoldsE, HoldsM, HoldsW, DatapathStep, ExeValE, MemValM, WbValD, CommitNextPc, Jumps, Fine, Front,
         NextRegs, WriteBytes, ReadReg, IsLoad, Add32, IdealD, LoadUseHazard;
    if s.e.commit {
      ForwardFromE(s.e, Isa.Run(a0, LeftE(s, j)), r);
      RunStep(a0, LeftE(s, j));
    }
  }

  /** Forwarding is complete: the operand taken from the youngest producer in flight is the register's
      value in the sequential run. */
  lemma OperandIsCurrent(a0: Arch, n: nat, s: State, j: nat, r: RegNo)
    requires RunnableTo(a0, n) && j <= n && Inv(a0, s, j) && s.d.commit && !s.e.needJump
    requires !(s.e.rd == r && IsLoad(s.e.memRw))
    ensures Operand(s, r, r) == ReadReg(Isa.Run(a0, j).regs, r)
  {
    hide Isa.Run, Runnable, SlotE, SlotM, SlotW, ExeValE, MemValM, Jumps, Front, ReadReg, IsLoad, Add32;
    PastW(a0, n, s, j, r);
    PastM(a0, n, s, j, r);
    PastE(a0, n, s, j, r);
  }

  lemma IssueHeld(a: Arch, x: Word, y: Word)
    requires UsesRs1(Word0(a)) ==> x == ReadReg(a.regs, EffRs1(Word0(a)))
    requires UsesRs2(Word0(a)) ==> y == ReadReg(a.regs, EffRs2(Word0(a)))
    ensures HoldsE(Issue(IdealD(a), x, y), a)
    ensures NeedJump(Word0(a), x, y) == Jumps(a)
  {
    JumpFacts(Word0(a), x, y, IdealE(a).valA, IdealE(a).valB);
    hide ReadWord, IsJalr, Imm, AluASel, AluBSel, AluFuncSel, MemRwSel, RegWen, ValDSel, NeedJump, EffRs1, EffRs2, Rd,
         ReadReg, UsesRs1, UsesRs2, Add32;
  }

  /** The instruction that issues enters the execute stage with the operands it uses. */
  lemma StepIssue(a0: Arch, n: nat, s: State, j: nat)
    requires RunnableTo(a0, n) && j <= n && Inv(a0, s, j) && Issues(s)
    ensures HoldsE(NextE(s), Isa.Run(a0, j)) && NextE(s).commit
    ensures NextE(s).needJump == Jumps(Isa.Run(a0, j))
  {
    hide Isa.Run, Fine, SlotE, SlotM, SlotW, HoldsE, Jumps, EffRs1, EffRs2, Rs1, Rs2, Operand, ReadReg, UsesRs1, UsesRs2,
         IsLoad, Word0, ReadWord, Imm, AluASel, AluBSel, AluFuncSel, MemRwSel, RegWen, ValDSel, NeedJump, Rd, IsJalr,
         Add32, ExeValE;
    var a := Isa.Run(a0, j);
    var w := Word0(a);
    assert s.d == IdealD(a);
    ControlFacts(w);
    OperandIsCurrent(a0, n, s, j, EffRs1(w));
    OperandIsCurrent(a0, n, s, j, EffRs2(w));
    IssueHeld(a, Operand(s, EffRs1(w), Rs1(w)), Operand(s, EffRs2(w), Rs2(w)));
  }

  // ---- the fetch pc ----

  /** The target fetched after a jump is the committed next pc: exactly because the target is even. */
  lemma JumpTarget(e: StageE, a: Arch)
    requires HoldsE(e, a) && e.needJump
    ensures ExeValE(e) == DatapathStep(a).pc <==> (e.isJalr ==> Even(ExeValE(e)))
  {
    hide ReadWord, IsI, IsR, IsB, IsS, IsJ, IsU, IsJalr, Imm, AluASel, AluBSel, AluFuncSel, MemRwSel, RegWen, ValDSel,
         NeedJump, ValE, EffRs1, EffRs2, Rd, Even, ClearBit0, Add32, ReadReg, NextRegs, NextMem;
    ExecuteHeld(e, a);
    EvenIsUncleared(ExeValE(e));
    JumpFacts(Word0(a), IdealE(a).valA, IdealE(a).valB, IdealE(a).valA, IdealE(a).valB);
  }

  lemma FallThrough(a: Arch)
    requires !Jumps(a)
    ensures DatapathStep(a).pc == Add32(a.pc, 4)
  {
    hide ReadWord, IsI, IsR, IsB, IsS, IsU, Imm, AluASel, AluBSel, AluFuncSel, MemRwSel, RegWen, ValDSel,
         NeedJump, ValE, EffRs1, EffRs2, Rd, ClearBit0, Add32, ReadReg, NextRegs, NextMem;
    JumpFacts(Word0(a), IdealE(a).valA, IdealE(a).valB, IdealE(a).valA, IdealE(a).valB);
  }

  lemma JumpsAreNotLoads(e: StageE, a: Arch)
    requires HoldsE(e, a) && e.needJump
    ensures !IsLoad(e.memRw)
  {
    hide ReadWord, IsI, IsR, IsB, IsS, IsU, Imm, AluASel, AluBSel, AluFuncSel, MemRwSel, RegWen, ValDSel,
         NeedJump, ValE, EffRs1, EffRs2, Rd, ClearBit0, Add32, ReadReg, IsLoad, IsLoadOp;
    ControlFacts(Word0(a));
    JumpFacts(Word0(a), IdealE(a).valA, IdealE(a).valB, IdealE(a).valA, IdealE(a).valB);
  }

  /** Fetching at the pc of instruction `i`, with its predecessors from `LeftM` on still to store. */
  lemma FetchAhead(a0: Arch, n: nat, s: State, j: nat, i: nat)
    requires RunnableTo(a0, n) && i <= n && 0 <= LeftW(s, j)
    requires s.mem == Isa.Run(a0, LeftM(s, j)).mem
    requires LeftM(s, j) <= i <= LeftM(s, j) + 3
    requires s.pcF == Isa.Run(a0, i).pc
    ensures StageD(ReadWord(s.mem, s.pcF), true, s.pcF, Add32(s.pcF, 4)) == IdealD(Isa.Run(a0, i))
  {
    hide ReadWord, Isa.Run, Fine, Add32;
    assert FetchStable(a0, LeftM(s, j), i - LeftM(s, j));
  }

  lemma TakenTarget(e: StageE, a: Arch)
    requires HoldsE(e, a) && Fine(a) && e.needJump
    ensures ExeValE(e) == DatapathStep(a).pc && !IsLoad(e.memRw)
  {
    hide ReadWord, IsI, IsR, IsB, IsS, IsU, Imm, AluASel, AluBSel, AluFuncSel, MemRwSel, RegWen, ValDSel, IsJ, IsJalr,
         NeedJump, ValE, EffRs1, EffRs2, Rd, ClearBit0, Add32, ReadReg, IsLoad, DatapathStep, Even, Supported;
    JumpsAreNotLoads(e, a);
    JumpTarget(e, a);
    ExecuteHeld(e, a);
    JumpFacts(Word0(a), IdealE(a).valA, IdealE(a).valB, IdealE(a).valA, IdealE(a).valB);
  }

  lemma FrontAfterJump(a0: Arch, n: nat, s: State, j: nat)
    requires RunnableTo(a0, n) && j <= n && Inv(a0, s, j) && s.e.needJump
    ensures !LoadUseHazard(s) && s.e.commit && Front(a0, Tick(s), j)
  {
    hide ReadWord, Isa.Run, Fine, HoldsE, HoldsM, HoldsW, NextM, NextW, NextRegs, NextMem, ExeValE, Word0, Issue, Operand,
         Add32, DatapathStep, EffRs1, EffRs2, IsLoad;
    assert s.e.commit && 0 < j;
    TakenTarget(s.e, Isa.Run(a0, j - 1));
    RunStep(a0, j - 1);
  }

  lemma FrontAfterStall(a0: Arch, s: State, j: nat)
    requires Inv(a0, s, j) && !s.e.needJump && LoadUseHazard(s)
    ensures s.e.commit && s.d.commit && Front(a0, Tick(s), j)
  {
    hide ReadWord, Isa.Run, HoldsE, HoldsM, HoldsW, NextM, NextW, NextRegs, NextMem, ExeValE, Jumps, IdealD, EffRs1, EffRs2;
  }

  lemma FrontAfterIssue(a0: Arch, n: nat, s: State, j: nat)
    requires RunnableTo(a0, n) && j <= n && Inv(a0, s, j) && Issues(s) && !Jumps(Isa.Run(a0, j)) && j < n
    ensures Front(a0, Tick(s), j + 1)
  {
    hide ReadWord, Isa.Run, HoldsE, HoldsM, HoldsW, NextE, NextM, NextW, NextRegs, NextMem, ExeValE, Jumps, IdealD,
         LoadUseHazard, DatapathStep, Fine, Add32;
    FetchAhead(a0, n, s, j, j + 1);
    assert Tick(s).d == IdealD(Isa.Run(a0, j + 1));
    if !Jumps(Isa.Run(a0, j + 1)) {
      FallThrough(Isa.Run(a0, j + 1));
      RunStep(a0, j + 1);
    }
  }

  lemma FrontAfterBubble(a0: Arch, n: nat, s: State, j: nat)
    requires RunnableTo(a0, n) && j <= n && Inv(a0, s, j) && !s.e.needJump && !s.d.commit
    ensures !LoadUseHazard(s) && Front(a0, Tick(s), j) && IdleE(NextE(s))
  {
    hide ReadWord, Isa.Run, HoldsE, HoldsM, HoldsW, NextM, NextW, NextRegs, NextMem, ExeValE, Jumps, IdealD,
         DatapathStep, Fine, Add32, EffRs1, EffRs2, Operand, Imm, AluASel, AluBSel, AluFuncSel, RegWen, ValDSel,
         IsJalr, NeedJump, MemRwSel, Rd;
    NopFacts();
    assert !LoadUseHazard(s);
    FetchAhead(a0, n, s, j, j);
    assert Tick(s).d == IdealD(Isa.Run(a0, j));
    if !Jumps(Isa.Run(a0, j)) {
      FallThrough(Isa.Run(a0, j));
      RunStep(a0, j);
    }
  }

  lemma HeldJump(e: StageE, a: Arch)
    requires HoldsE(e, a)
    ensures e.needJump == Jumps(a) && e.commit
  {
    hide ReadWord, Imm, AluASel, AluBSel, AluFuncSel, MemRwSel, RegWen, ValDSel, IsJalr, NeedJump, EffRs1, EffRs2, Rd,
         ReadReg, Add32;
  }

  /** The next state satisfies the invariant as soon as its execute slot and its front end do. */
  lemma Reassemble(a0: Arch, n: nat, s: State, j: nat)
    requires RunnableTo(a0, n) && j <= n && Inv(a0, s, j)
    requires if NextE(s).commit then HoldsE(NextE(s), Isa.Run(a0, j)) else IdleE(NextE(s))
    ensures Back(a0, Tick(s), j + Count(NextE(s).commit))
    ensures NextE(s).needJump || Front(a0, Tick(s), j + Count(NextE(s).commit)) ==>
              Inv(a0, Tick(s), j + Count(NextE(s).commit))
  {
    hide ReadWord, Isa.Run, Fine, HoldsE, HoldsM, HoldsW, NextM, NextW, NextRegs, NextMem, Jumps, NextE, NextF,
         Front, LoadUseHazard;
    StepBack(a0, n, s, j);
    var s', j' := Tick(s), j + Count(NextE(s).commit);
    assert NextM(s.e).commit == s.e.commit && NextW(s.m, s.mem).commit == s.m.commit by {
      CommitsMove(s);
    }
    assert LeftE(s', j') == j && LeftM(s', j') == LeftE(s, j) && LeftW(s', j') == LeftM(s, j);
    assert SlotE(a0, s', j') && SlotM(a0, s', j') && SlotW(a0, s', j');
    if s.e.commit {
      HeldJump(s.e, Isa.Run(a0, LeftE(s, j)));
      BubblesBehindJump(s);
    }
  }

  lemma CommitsMove(s: State)
    ensures NextM(s.e).commit == s.e.commit && NextW(s.m, s.mem).commit == s.m.commit
  {
  }

  lemma BubblesBehindJump(s: State)
    ensures s.e.needJump ==> !NextE(s).commit && !NextD(s).commit
  {
  }

  /** One clock edge keeps the invariant, and of the stages from execute on also at the edge that issues the last
      instruction. */
  lemma StepInv(a0: Arch, n: nat, s: State, j: nat)
    requires RunnableTo(a0, n) && j <= n && Inv(a0, s, j)
    ensures Back(a0, Tick(s), j + Count(Issues(s)))
    ensures j + Count(Issues(s)) <= n ==> Inv(a0, Tick(s), j + Count(Issues(s)))
    ensures Tick(s).e.commit == Issues(s)
    ensures Tick(s).e.needJump == (Issues(s) && Jumps(Isa.Run(a0, j)))
  {
    hide ReadWord, Isa.Run, Fine, Inv, Back, HoldsE, HoldsM, HoldsW, NextM, NextW, NextRegs, NextMem, ExeValE, Jumps, IdealD,
         DatapathStep, Add32, EffRs1, EffRs2, Operand, IsLoad, Front, LoadUseHazard, Issue;
    if s.e.needJump {
      FrontAfterJump(a0, n, s, j);
    } else if LoadUseHazard(s) {
      FrontAfterStall(a0, s, j);
    } else if s.d.commit {
      StepIssue(a0, n, s, j);
      if !Jumps(Isa.Run(a0, j)) && j < n {
        FrontAfterIssue(a0, n, s, j);
      }
    } else {
      FrontAfterBubble(a0, n, s, j);
    }
    Reassemble(a0, n, s, j);
  }
}
