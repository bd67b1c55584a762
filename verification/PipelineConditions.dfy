/** The conditions of the pipeline theorem: where they come from, that they can be met, and what the
    core does at the one store encoding outside them. */
module PipelineConditions {
  import opened Rv32Words
  import Isa = Rv32Isa
  import opened PipelineStages
  import opened PipelineCpu
  import opened PipelineDatapath
  import opened PipelineRefinement
  import opened PipelineTheorem

  predicate SameByte(m: Mem, m': Mem, x: nat) {
    (x in m <==> x in m') && (x in m ==> m[x] == m'[x])
  }

  /** No instruction of the run changes a byte of `code`. */
  ghost predicate CodeKept(a0: Isa.Arch, code: set<nat>) {
    forall i: nat, x :: x in code ==> SameByte(Isa.Run(a0, i).mem, Isa.Run(a0, i + 1).mem, x)
  }

  /** The four bytes fetched at `pc` belong to `code`. */
  predicate InCode(pc: Word, code: set<nat>) {
    ByteAt(pc, 0) in code && ByteAt(pc, 1) in code && ByteAt(pc, 2) in code && ByteAt(pc, 3) in code
  }

  lemma {:induction false} CodeKeptLonger(a0: Isa.Arch, code: set<nat>, i: nat, k: nat, x: nat)
    requires CodeKept(a0, code) && x in code
    ensures SameByte(Isa.Run(a0, i).mem, Isa.Run(a0, i + k).mem, x)
  {
    hide Isa.Run;
    if k > 0 {
      CodeKeptLonger(a0, code, i, k - 1, x);
      assert SameByte(Isa.Run(a0, i + k - 1).mem, Isa.Run(a0, i + k - 1 + 1).mem, x);
    }
  }

  lemma SameBytesSameWord(m: Mem, m': Mem, pc: Word)
    requires SameByte(m, m', ByteAt(pc, 0)) && SameByte(m, m', ByteAt(pc, 1))
    requires SameByte(m, m', ByteAt(pc, 2)) && SameByte(m, m', ByteAt(pc, 3))
    ensures ReadWord(m, pc) == ReadWord(m', pc)
  {
    hide Little, ByteAt;
  }

  /** Fetches are stable, at any distance, whenever all fetched bytes lie in code no instruction stores to. */
  lemma FixedCodeIsFetchStable(a0: Isa.Arch, code: set<nat>, i: nat, k: nat)
    requires CodeKept(a0, code) && InCode(Isa.Run(a0, i + k).pc, code)
    ensures FetchStable(a0, i, k)
  {
    hide Isa.Run, ReadWord, CodeKept, SameByte, ByteAt;
    var pc := Isa.Run(a0, i + k).pc;
    CodeKeptLonger(a0, code, i, k, ByteAt(pc, 0));
    CodeKeptLonger(a0, code, i, k, ByteAt(pc, 1));
    CodeKeptLonger(a0, code, i, k, ByteAt(pc, 2));
    CodeKeptLonger(a0, code, i, k, ByteAt(pc, 3));
    SameBytesSameWord(Isa.Run(a0, i).mem, Isa.Run(a0, i + k).mem, pc);
  }

  // ---- the conditions can be met: a jump to itself ----

  const SelfJump: Word := 0x0000_006f

  lemma SelfJumpDecodes()
    ensures Opcode(SelfJump) == 0x6f && Rd(SelfJump) == 0 && Isa.ImmJ(SelfJump) == 0
    ensures Isa.DecodeInsn(SelfJump) == Isa.Jal(0, 0) && !IsJalr(SelfJump)
  {
  }

  lemma SelfJumpStays(a: Isa.Arch)
    requires Word0(a) == SelfJump
    ensures Isa.Step(a) == a && Fine(a)
  {
    hide Isa.DecodeInsn, ReadWord, Opcode, IsJalr;
    SelfJumpDecodes();
  }

  // ---- the store that is decoded as a no-op: sw x0, 0(x1) ----

  const SkippedStore: Word := 0x0000_a023

  lemma SkippedStoreDecodes()
    ensures Isa.DecodeInsn(SkippedStore) == Isa.Store(4, 1, 0, 0) && MemRwSel(SkippedStore) == NoRw
    ensures !RegWen(SkippedStore) && !IsJalr(SkippedStore)
    ensures forall x, y :: !NeedJump(SkippedStore, x, y)
  {
  }

  /** On `sw x0, 0(x1)`, which stores in RV32I, the datapath agrees with RV32I exactly when the word
      at the address in x1 already reads as zero. */
  lemma SkippedStoreExact(a: Isa.Arch)
    requires Word0(a) == SkippedStore
    ensures Isa.SameArch(DatapathStep(a), Isa.Step(a)) <==> ReadWord(a.mem, ReadReg(a.regs, 1)) == 0
  {
    hide Isa.DecodeInsn, ReadWord, Opcode, Rd, Rs1, Rs2, Imm, AluASel, AluBSel, AluFuncSel, MemRwSel, RegWen, ValDSel, IsJalr,
         NeedJump, EffRs1, EffRs2, Alu, Add32, ClearBit0, WriteBytes, SameMemory;
    SkippedStoreDecodes();
    assert Isa.Step(a) == a.(pc := Add32(a.pc, 4), mem := WriteBytes(a.mem, Add32(ReadReg(a.regs, 1), 0), 0, 4));
    assert DatapathStep(a) == a.(pc := Add32(a.pc, 4));
    AddZero(ReadReg(a.regs, 1));
    WriteZeroWord(a.mem, ReadReg(a.regs, 1));
  }

  lemma AddZero(x: Word)
    ensures Add32(x, 0) == x
  {
  }

  lemma WriteZeroWord(m: Mem, x: Word)
    ensures SameMemory(m, WriteBytes(m, x, 0, 4)) <==> ReadWord(m, x) == 0
  {
    hide ByteAt, Little;
    var b0, b1, b2, b3 := ByteAt(x, 0), ByteAt(x, 1), ByteAt(x, 2), ByteAt(x, 3);
    ShiftsOfZero();
    LittleZero(ReadByte(m, b0), ReadByte(m, b1), ReadByte(m, b2), ReadByte(m, b3));
    var m' := WriteBytes(m, x, 0, 4);
    forall y ensures ReadByte(m', y) == if y == b0 || y == b1 || y == b2 || y == b3 then 0 else ReadByte(m, y) {
    }
  }

  lemma LittleZero(b0: bv8, b1: bv8, b2: bv8, b3: bv8)
    ensures Little(b0, b1, b2, b3) == 0 <==> b0 == 0 && b1 == 0 && b2 == 0 && b3 == 0
  {
  }

  lemma ShiftsOfZero()
    ensures var z: Word := 0; z >> 8 == 0 && z >> 16 == 0 && z >> 24 == 0
  {
  }

  /** It does happen: the store is to wipe out its own instruction word, and the core leaves it. */
  lemma SkippedStoreDiffers(a: Isa.Arch)
    requires Word0(a) == SkippedStore && ReadReg(a.regs, 1) == a.pc
    ensures !Isa.SameArch(DatapathStep(a), Isa.Step(a))
  {
    hide ReadWord, DatapathStep, Isa.Step;
    SkippedStoreExact(a);
  }

  // ---- an odd jump target: jalr x0, 1(x0) ----

  const OddJalr: Word := 0x0010_0067

  lemma OddJalrDecodes()
    ensures IsJalr(OddJalr) && Imm(OddJalr) == 1 && AluASel(OddJalr) == SelValA && AluBSel(OddJalr) == SelImm
    ensures AluFuncSel(OddJalr) == FAdd && MemRwSel(OddJalr) == NoRw && EffRs1(OddJalr) == 0 && UsesRs1(OddJalr)
    ensures forall x, y :: NeedJump(OddJalr, x, y)
  {
  }

  lemma OnePastZero()
    ensures Alu(FAdd, 0, 1) == 1 && ClearBit0(1) == 0
  {
  }

  /** With this instruction in execute the core fetches from 1 and commits 0 as the next pc. */
  lemma OddTarget(s: State, a: Isa.Arch)
    requires HoldsE(s.e, a) && Word0(a) == OddJalr
    ensures NextF(s) == 1 && NextM(s.e).prePc == 0
  {
    hide ReadWord, IsJalr, Imm, AluASel, AluBSel, AluFuncSel, MemRwSel, RegWen, ValDSel, NeedJump, EffRs1, EffRs2, Rd, UsesRs1,
         UsesRs2, Alu, ClearBit0, Add32;
    OddJalrDecodes();
    OnePastZero();
  }

  // ---- the conditions can be met with a hazard: a load, an instruction that uses it, a jump to itself ----

  const LoadX1: Word := 0x0000_2083   // lw x1, 0(x0)
  const AddX1: Word := 0x0010_8133    // add x2, x1, x1

  predicate HazardProgram(a: Isa.Arch) {
    && ReadWord(a.mem, a.pc) == LoadX1
    && ReadWord(a.mem, Add32(a.pc, 4)) == AddX1
    && ReadWord(a.mem, Add32(Add32(a.pc, 4), 4)) == SelfJump
  }

  lemma HazardDecodes()
    ensures Isa.DecodeInsn(LoadX1) == Isa.Load(Isa.W, 1, 0, 0) && !IsJalr(LoadX1)
    ensures Isa.DecodeInsn(AddX1) == Isa.Op(Isa.Add, 2, 1, 1) && !IsJalr(AddX1)
  {
  }

  lemma {:induction false} HazardRun(a0: Isa.Arch, i: nat)
    requires HazardProgram(a0)
    ensures var a := Isa.Run(a0, i);
            && a.mem == a0.mem && Fine(a)
            && Word0(a) == if i == 0 then LoadX1 else if i == 1 then AddX1 else SelfJump
    ensures Isa.Run(a0, 1).pc == Add32(a0.pc, 4)
    ensures i >= 2 ==> Isa.Run(a0, i).pc == Add32(Add32(a0.pc, 4), 4)
  {
    hide Isa.DecodeInsn, ReadWord, IsJalr, Add32, Isa.LoadValue, Isa.Compute, ReadReg, WriteReg;
    HazardDecodes();
    SelfJumpDecodes();
    if i > 0 {
      HazardRun(a0, i - 1);
      assert Isa.Run(a0, i) == Isa.Step(Isa.Run(a0, i - 1));
    }
    assert Isa.Run(a0, 1) == Isa.Step(Isa.Run(a0, 0)) && Isa.Run(a0, 0) == a0;
    if i > 2 {
      SelfJumpStays(Isa.Run(a0, i - 1));
    }
  }

  lemma HazardIsRunnable(a0: Isa.Arch)
    requires HazardProgram(a0)
    ensures Runnable(a0)
  {
    hide Fine, Isa.Run, ReadWord, HazardProgram;
    forall i: nat ensures Isa.Run(a0, i).mem == a0.mem && Fine(Isa.Run(a0, i)) {
      HazardRun(a0, i);
    }
  }

  /** Its second instruction waits for the first, and its third jumps. */
  lemma HazardOccurs(a0: Isa.Arch)
    requires HazardProgram(a0)
    ensures Delayed(a0, 0) && Jumps(Isa.Run(a0, 2))
  {
    hide Isa.Run, ReadWord, HazardProgram, Isa.DecodeInsn, NeedJump;
    HazardRun(a0, 0);
    HazardRun(a0, 1);
    HazardRun(a0, 2);
    HazardDecodes();
    JalControl(SelfJump);
  }

  /** A power-on state with these registers and this memory. */
  function PowerWith(regs: RegFile, mem: Mem): State {
    State(0, BubbleD, BubbleE(0), StageM(0, 0, NoRw, false, 0, FromE, 0, false, 0, 0),
          StageW(false, 0, FromE, 0, 0, 0, false, 0, 0), regs, mem)
  }

  /** That program at the reset pc. */
  const HazardPower: State :=
    PowerWith(map[], map[0x8000_0000 := 0x83, 0x8000_0001 := 0x20, 0x8000_0004 := 0x33, 0x8000_0005 := 0x81,
                         0x8000_0006 := 0x10, 0x8000_0008 := 0x6f])

  lemma HazardBoots()
    ensures HazardProgram(Boot(HazardPower))
  {
    var m := Boot(HazardPower).mem;
    assert ReadWord(m, 0x8000_0000) == Little(0x83, 0x20, 0, 0) == LoadX1;
    assert ReadWord(m, 0x8000_0004) == Little(0x33, 0x81, 0x10, 0) == AddX1;
    assert ReadWord(m, 0x8000_0008) == Little(0x6f, 0, 0, 0) == SelfJump;
  }
}
