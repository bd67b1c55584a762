/** Power-on states on which the core does not run the program: what each condition of the pipeline theorem keeps out. */
module PipelineWitnesses {
  import opened Rv32Words
  import Isa = Rv32Isa
  import opened PipelineStages
  import opened PipelineCpu
  import opened PipelineDatapath
  import opened PipelineRefinement
  import opened PipelineTheorem
  import opened PipelineConditions

  // ---- the first cycles, whatever the program ----

  /** Nothing is in the pipeline behind decode. */
  predicate Empty(a0: Isa.Arch, s: State) {
    && IdleE(s.e) && IdleM(s.m) && IdleW(s.w) && s.regs == a0.regs && s.mem == a0.mem
    && s.e.rd == 0 && s.m.rd == 0 && s.w.rd == 0
  }

  lemma EmptyAfterReset(power: State)
    ensures Empty(Boot(power), At(power, 0)) && At(power, 0).d == BubbleD && At(power, 0).pcF == 0x8000_0000
  {
    hide NextMem;
  }

  lemma BubbleMoves(a0: Isa.Arch, s: State)
    requires Empty(a0, s) && s.d == BubbleD
    ensures Empty(a0, Tick(s)) && Tick(s).pcF == Add32(s.pcF, 4)
    ensures Tick(s).d == StageD(ReadWord(s.mem, s.pcF), true, s.pcF, Add32(s.pcF, 4))
  {
    hide ReadWord, Add32, Imm, AluASel, AluBSel, AluFuncSel, RegWen, ValDSel, IsJalr, NeedJump, MemRwSel, Rd, EffRs1, EffRs2,
         ReadReg, ExeValE, MemValM;
    NopFacts();
  }

  /** The instruction in decode enters the execute stage of an empty pipeline. */
  lemma FirstIssues(a0: Isa.Arch, s: State)
    requires Empty(a0, s) && s.d == IdealD(a0)
    ensures var s' := Tick(s);
            && HoldsE(s'.e, a0) && s'.e.commit && s'.e.needJump == Jumps(a0) && IdleM(s'.m) && IdleW(s'.w)
            && s'.m.rd == 0 && s'.w.rd == 0 && s'.regs == a0.regs && s'.mem == a0.mem
            && s'.d == StageD(ReadWord(s.mem, s.pcF), true, s.pcF, Add32(s.pcF, 4))
  {
    hide ReadWord, Add32, Imm, AluASel, AluBSel, AluFuncSel, RegWen, ValDSel, IsJalr, NeedJump, MemRwSel, Rd, Rs1, Rs2, EffRs1, EffRs2,
         ReadReg, ExeValE, MemValM, HoldsE, UsesRs1, UsesRs2, IdealE, Isa.Step;
    var w := Word0(a0);
    ControlFacts(w);
    OperandWhenEmpty(a0, s, EffRs1(w), Rs1(w));
    OperandWhenEmpty(a0, s, EffRs2(w), Rs2(w));
    IssueHeld(a0, Operand(s, EffRs1(w), Rs1(w)), Operand(s, EffRs2(w), Rs2(w)));
  }

  lemma OperandWhenEmpty(a0: Isa.Arch, s: State, eff: RegNo, raw: RegNo)
    requires Empty(a0, s)
    ensures Operand(s, eff, raw) == ReadReg(a0.regs, raw)
  {
    hide ReadReg, ExeValE, MemValM, Add32;
  }

  /** The first instruction in the execute stage, the second fetched. */
  lemma FirstInExecute(power: State)
    ensures var a0, s := Boot(power), At(power, 2);
            && HoldsE(s.e, a0) && s.e.commit && s.e.needJump == Jumps(a0) && IdleM(s.m) && IdleW(s.w)
            && s.m.rd == 0 && s.w.rd == 0 && s.regs == a0.regs && s.mem == a0.mem
            && s.d == StageD(ReadWord(a0.mem, Add32(a0.pc, 4)), true, Add32(a0.pc, 4), Add32(Add32(a0.pc, 4), 4))
  {
    hide Tick, ReadWord, Add32, Empty, ResetTick, HoldsE, Jumps, IdleM, IdleW;
    var a0 := Boot(power);
    EmptyAfterReset(power);
    BubbleMoves(a0, At(power, 0));
    assert At(power, 1) == Tick(At(power, 0)) && At(power, 2) == Tick(At(power, 1));
    EmptyMem(a0, At(power, 0));
    EmptyMem(a0, At(power, 1));
    FirstIssues(a0, At(power, 1));
  }

  lemma EmptyMem(a0: Isa.Arch, s: State)
    requires Empty(a0, s)
    ensures s.mem == a0.mem
  {
  }

  /** It commits in cycle 4, with the effect the datapath has. */
  lemma FirstCommits(power: State)
    ensures var a0, s := Boot(power), At(power, 4);
            && s.w.commit && HoldsW(s.w, a0) && s.regs == a0.regs && s.mem == DatapathStep(a0).mem
  {
    hide *;
    var a0, s2, s3, s4 := Boot(power), At(power, 2), At(power, 3), At(power, 4);
    FirstInExecute(power);
    OneTick(power, 2);
    OneTick(power, 3);
    TickBack(s2);
    TickBack(s3);
    ExecuteHeld(s2.e, a0);
    IdleKeeps(s2);
    IdleKeeps(s3);
    LoadHeld(s3.m, a0);
    StoreHeld(s3.m, a0);
    CommitsMove(s2);
    CommitsMove(s3);
    IdleW3(s2);
  }

  lemma OneTick(power: State, n: nat)
    ensures At(power, n + 1) == Tick(At(power, n))
  {
    hide Tick, ResetTick;
  }

  lemma TickBack(s: State)
    ensures Tick(s).m == NextM(s.e) && Tick(s).w == NextW(s.m, s.mem)
    ensures Tick(s).regs == NextRegs(s.w, s.regs) && Tick(s).mem == NextMem(s.m, s.mem)
  {
    hide NextF, NextD, NextE, NextM, NextW, NextRegs, NextMem;
  }

  lemma IdleKeeps(s: State)
    ensures IdleM(s.m) ==> NextMem(s.m, s.mem) == s.mem
    ensures IdleW(s.w) ==> NextRegs(s.w, s.regs) == s.regs
  {
  }

  lemma IdleW3(s: State)
    ensures IdleM(s.m) ==> IdleW(NextW(s.m, s.mem))
  {
  }

  /** So the first commit is right exactly when the datapath is right on the first instruction. */
  lemma FirstCommitExact(power: State)
    ensures At(power, 4).w.commit
    ensures Commits(Boot(power), At(power, 4), 0) <==> DatapathStep(Boot(power)) == Isa.Step(Boot(power))
  {
    hide Boot, At, DatapathStep, HoldsW, NextRegs;
    var a0, s := Boot(power), At(power, 4);
    FirstCommits(power);
    WriteBackHeld(s.w, a0);
    HeldOutputs(s.w, a0);
    assert Isa.Run(a0, 0) == a0 && Isa.Run(a0, 1) == Isa.Step(a0);
    hide Isa.Step;
  }

  lemma HeldOutputs(x: StageW, a: Isa.Arch)
    requires HoldsW(x, a)
    ensures x.pc == a.pc && x.instr == Word0(a) && x.prePc == DatapathStep(a).pc
  {
    hide ReadWord, Imm, AluASel, AluBSel, AluFuncSel, RegWen, ValDSel, IsJalr, NeedJump, MemRwSel, Rd, EffRs1, EffRs2, ReadReg,
         ExeValE, ValM, Known, CommitNextPc;
  }

  // ---- the skipped store ----

  /** A core that powers on before `sw x0, 0(x1)` with x1 at that instruction commits it, and not as RV32I has it. */
  lemma SkippedStoreCommits(power: State)
    requires Word0(Boot(power)) == SkippedStore && ReadReg(Boot(power).regs, 1) == Boot(power).pc
    ensures At(power, 4).w.commit && !Commits(Boot(power), At(power, 4), 0)
  {
    hide Boot, At, DatapathStep, Isa.Step, ReadWord, Commits, Word0;
    FirstCommitExact(power);
    SkippedStoreDiffers(Boot(power));
    SameIsSame(DatapathStep(Boot(power)));
  }

  lemma SameIsSame(a: Isa.Arch)
    ensures Isa.SameArch(a, a)
  {
  }

  lemma SkippedStorePower()
    ensures var power := PowerWith(map[1 := 0x8000_0000], map[0x8000_0000 := 0x23, 0x8000_0001 := 0xa0]);
            Word0(Boot(power)) == SkippedStore && ReadReg(Boot(power).regs, 1) == Boot(power).pc
  {
    assert Little(0x23, 0xa0, 0, 0) == SkippedStore;
  }

  // ---- what moves on from the execute stage ----

  lemma Flow(power: State, n: nat)
    ensures At(power, n + 2).w.commit == At(power, n).e.commit && At(power, n + 2).w.pc == At(power, n).e.pc
    ensures At(power, n + 2).w.instr == At(power, n).e.instr
  {
    hide *;
    OneTick(power, n);
    OneTick(power, n + 1);
    TickBack(At(power, n));
    TickBack(At(power, n + 1));
    StagesPass(At(power, n).e, At(power, n + 1).m, At(power, n + 1).mem);
  }

  lemma StagesPass(e: StageE, m: StageM, mem: Mem)
    ensures NextM(e).commit == e.commit && NextM(e).pc == e.pc && NextM(e).instr == e.instr
    ensures NextW(m, mem).commit == m.commit && NextW(m, mem).pc == m.pc && NextW(m, mem).instr == m.instr
  {
  }

  /** With nothing to stall or flush for, the instruction in decode moves on and the next one is fetched. */
  lemma DecodeMoves(s: State)
    requires !s.e.needJump && !IsLoad(s.e.memRw)
    ensures Tick(s).e.commit == s.d.commit && Tick(s).e.pc == s.d.pc && Tick(s).e.instr == s.d.instr
    ensures Tick(s).d == StageD(ReadWord(s.mem, s.pcF), true, s.pcF, Add32(s.pcF, 4))
  {
    hide ReadWord, Add32, Imm, AluASel, AluBSel, AluFuncSel, RegWen, ValDSel, IsJalr, NeedJump, MemRwSel, Rd, EffRs1, EffRs2,
         Operand, NextM, NextW, NextRegs, NextMem, ExeValE;
  }

  lemma NopIdles(s: State)
    requires !s.e.needJump && !IsLoad(s.e.memRw) && s.d == BubbleD
    ensures !Tick(s).e.needJump && !IsLoad(Tick(s).e.memRw)
  {
    hide ReadWord, Add32, Imm, AluASel, AluBSel, AluFuncSel, RegWen, ValDSel, IsJalr, NeedJump, MemRwSel, Rd, EffRs1, EffRs2,
         Operand, NextM, NextW, NextRegs, NextMem, ExeValE;
    NopFacts();
  }

  lemma FlushTick(s: State)
    requires s.e.needJump
    ensures Tick(s).d == BubbleD && Tick(s).e == BubbleE(s.e.instr) && Tick(s).pcF == NextF(s)
  {
    hide NextF, NextM, NextW, NextRegs, NextMem;
  }

  // ---- an odd jump target ----

  lemma OddJalrStep(a: Isa.Arch, e: StageE)
    requires Word0(a) == OddJalr && HoldsE(e, a) && NextM(e).prePc == 0
    ensures Isa.Step(a).pc == 0 && Jumps(a)
  {
    hide HoldsE, HoldsM, DatapathStep, Isa.Step, ReadWord, NextM;
    ExecuteHeld(e, a);
    OddJalrKnown();
    JalrStep(a);
    HeldNext(NextM(e), a);
    OddJalrDecodes();
    hide IsJalr, NeedJump;
  }

  lemma OddJalrKnown()
    ensures Opcode(OddJalr) == 0x67 && Isa.DecodeInsn(OddJalr) != Isa.Illegal
  {
  }

  lemma HeldNext(m: StageM, a: Isa.Arch)
    requires HoldsM(m, a)
    ensures m.prePc == DatapathStep(a).pc
  {
    hide ReadWord, Imm, AluASel, AluBSel, AluFuncSel, RegWen, ValDSel, IsJalr, NeedJump, MemRwSel, Rd, EffRs1, EffRs2, ReadReg,
         ExeValE, ValM, Known, CommitNextPc;
  }

  /** A core that powers on before `jalr x0, 1(x0)` commits the instruction at 1 next, where RV32I goes to 0. */
  lemma OddJalrCommits(power: State)
    requires Word0(Boot(power)) == OddJalr
    ensures At(power, 4).w.commit && !At(power, 5).w.commit && !At(power, 6).w.commit
    ensures At(power, 7).w.commit && At(power, 7).w.pc == 1 && Isa.Run(Boot(power), 1).pc == 0
  {
    hide *;
    FirstInExecute(power);
    FirstCommits(power);
    OddTarget(At(power, 2), Boot(power));
    OddJalrStep(Boot(power), At(power, 2).e);
    SecondState(Boot(power));
    OneTick(power, 2);
    FlushTick(At(power, 2));
    BubbleIs(At(power, 2).e.instr);
    OneTick(power, 3);
    DecodeMoves(At(power, 3));
    NopIdles(At(power, 3));
    OneTick(power, 4);
    DecodeMoves(At(power, 4));
    Flow(power, 3);
    Flow(power, 4);
    Flow(power, 5);
  }

  lemma BubbleIs(w: Word)
    ensures !BubbleE(w).needJump && !IsLoad(BubbleE(w).memRw) && !BubbleE(w).commit && !BubbleD.commit
  {
  }

  lemma SecondState(a: Isa.Arch)
    ensures Isa.Run(a, 1) == Isa.Step(a) && Isa.Run(a, 0) == a
  {
    hide Isa.Step;
    assert Isa.Run(a, 0) == a;
  }

  lemma OddJalrPower()
    ensures Word0(Boot(PowerWith(map[], map[0x8000_0000 := 0x67, 0x8000_0002 := 0x10]))) == OddJalr
  {
    assert Little(0x67, 0, 0x10, 0) == OddJalr;
  }

  // ---- a store into the next instruction ----

  const StoreNext: Word := 0x0011_2223   // sw x1, 4(x2)

  lemma StoreNextDecodes()
    ensures Isa.DecodeInsn(StoreNext) == Isa.Store(4, 2, 1, 4) && Supported(StoreNext) && !IsJalr(StoreNext)
    ensures MemRwSel(StoreNext) == Sw && forall x, y :: !NeedJump(StoreNext, x, y)
  {
  }

  lemma ReadAfterWrite(m: Mem, v: Word)
    ensures ReadWord(WriteBytes(m, 0x8000_0004, v, 4), 0x8000_0004) == v
  {
    hide Little;
    BytesOf(v);
    BytesAt();
    hide ByteAt;
  }

  lemma BytesAt()
    ensures ByteAt(0x8000_0004, 0) == 0x8000_0004 && ByteAt(0x8000_0004, 1) == 0x8000_0005
    ensures ByteAt(0x8000_0004, 2) == 0x8000_0006 && ByteAt(0x8000_0004, 3) == 0x8000_0007
  {
  }

  lemma BytesOf(v: Word)
    ensures Little((v & 0xff) as bv8, ((v >> 8) & 0xff) as bv8, ((v >> 16) & 0xff) as bv8, ((v >> 24) & 0xff) as bv8) == v
  {
  }

  /** `sw x1, 4(x2)` with x2 at itself: the next instruction becomes what x1 holds. */
  predicate Overwrites(a: Isa.Arch) {
    && a.pc == 0x8000_0000 && Word0(a) == StoreNext && ReadReg(a.regs, 2) == a.pc && ReadReg(a.regs, 1) == SelfJump
    && ReadWord(a.mem, Add32(a.pc, 4)) == NOP
  }

  lemma OverwriteStep(a: Isa.Arch)
    requires Overwrites(a)
    ensures Isa.Step(a).pc == Add32(a.pc, 4) && Word0(Isa.Step(a)) == SelfJump && Fine(a) && !Jumps(a)
  {
    hide Isa.DecodeInsn, ReadWord, WriteBytes, Add32, IsJalr, Supported, NeedJump, ReadReg;
    StoreNextDecodes();
    NextPc();
    ReadAfterWrite(a.mem, SelfJump);
  }

  lemma NextPc()
    ensures Add32(0x8000_0000, 4) == 0x8000_0004
  {
  }

  lemma OverwriteHeld(e: StageE, a: Isa.Arch)
    requires HoldsE(e, a) && Overwrites(a)
    ensures !e.needJump && !IsLoad(e.memRw)
  {
    hide ReadWord, Add32, Imm, AluASel, AluBSel, AluFuncSel, RegWen, ValDSel, IsJalr, NeedJump, MemRwSel, Rd, EffRs1, EffRs2, ReadReg;
    StoreNextDecodes();
  }

  /** The core has fetched the next instruction before the store and commits the old word, where RV32I executes the new one. */
  lemma OverwriteCommits(power: State)
    requires Overwrites(Boot(power))
    ensures !FetchStable(Boot(power), 0, 1) && Fine(Boot(power))
    ensures CommitCycle(Boot(power), 1) == 5
    ensures At(power, 5).w.commit && At(power, 5).w.instr == NOP && Word0(Isa.Run(Boot(power), 1)) == SelfJump
    ensures !Commits(Boot(power), At(power, 5), 1)
  {
    hide *;
    var a0 := Boot(power);
    FirstInExecute(power);
    OverwriteStep(a0);
    OverwriteHeld(At(power, 2).e, a0);
    SecondState(a0);
    OneTick(power, 2);
    DecodeMoves(At(power, 2));
    Flow(power, 3);
    OverwriteSchedule(a0);
    OldWord(a0);
    CommitsWord(a0, At(power, 5), 1);
    WordsDiffer();
  }

  lemma WordsDiffer()
    ensures NOP != SelfJump
  {
  }

  lemma OldWord(a: Isa.Arch)
    requires Overwrites(a) && Isa.Run(a, 1).pc == Add32(a.pc, 4) && Word0(Isa.Run(a, 1)) == SelfJump && Isa.Run(a, 0) == a
    ensures ReadWord(a.mem, Add32(a.pc, 4)) == NOP && !FetchStable(a, 0, 1)
  {
    hide ReadWord, Add32, Isa.Run, Word0;
    WordsDiffer();
  }

  lemma CommitsWord(a: Isa.Arch, s: State, k: nat)
    ensures Commits(a, s, k) ==> s.w.instr == Word0(Isa.Run(a, k))
  {
    hide Isa.Run, ReadWord, NextRegs;
  }

  lemma OverwriteSchedule(a: Isa.Arch)
    requires Overwrites(a) && !Jumps(a) && Isa.Run(a, 0) == a
    ensures CommitCycle(a, 1) == 5
  {
    hide Isa.Run, ReadWord, Isa.DecodeInsn, Jumps, ReadReg, Add32;
    StoreNextDecodes();
    FirstIssue(a);
    assert !Delayed(a, 0);
    assert IssueCycle(a, 1) == IssueCycle(a, 0) + 1 + Penalty(a, 0);
  }

  lemma OverwritePower()
    ensures Overwrites(Boot(PowerWith(map[1 := SelfJump, 2 := 0x8000_0000],
                                      map[0x8000_0000 := 0x23, 0x8000_0001 := 0x22, 0x8000_0002 := 0x11, 0x8000_0004 := 0x13])))
  {
    assert Little(0x23, 0x22, 0x11, 0) == StoreNext;
    assert Little(0x13, 0, 0, 0) == NOP;
    assert Add32(0x8000_0000, 4) == 0x8000_0004;
  }
}
