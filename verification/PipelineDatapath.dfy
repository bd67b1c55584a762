/**
  * The datapath without the pipeline: what the stages compute for one instruction when every earlier
  * instruction has finished. It is proved equal to the RV32I semantics.
  */
module PipelineDatapath {
  import opened Rv32Words
  import Isa = Rv32Isa
  import opened PipelineStages
  import opened PipelineCpu

  type Arch = Isa.Arch

  function Word0(a: Arch): Word { ReadWord(a.mem, a.pc) }

  /** What each stage register should hold while it holds the instruction that executes in `a`. */
  function IdealD(a: Arch): StageD { StageD(Word0(a), true, a.pc, Add32(a.pc, 4)) }

  function IdealE(a: Arch): StageE {
    var w := Word0(a);
    Issue(IdealD(a), ReadReg(a.regs, EffRs1(w)), ReadReg(a.regs, EffRs2(w)))
  }

  function IdealM(a: Arch): StageM { NextM(IdealE(a)) }
  function IdealW(a: Arch): StageW { NextW(IdealM(a), a.mem) }

  function DatapathStep(a: Arch): Arch {
    Isa.Arch(IdealM(a).prePc, NextRegs(IdealW(a), a.regs), NextMem(IdealM(a), a.mem))
  }

  /** RV32I, minus the one store encoding that the decoder turns into a no-op. */
  predicate Supported(w: Word) {
    Isa.DecodeInsn(w) != Isa.Illegal && w != 0x0000_a023
  }

  // ---- immediates ----

  lemma ImmIAgrees(w: Word)
    ensures HwImmI(w) == Isa.ImmI(w)
  {
  }

  lemma ImmSAgrees(w: Word)
    ensures HwImmS(w) == Isa.ImmS(w)
  {
  }

  lemma ImmBAgrees(w: Word)
    ensures HwImmB(w) == Isa.ImmB(w)
  {
  }

  lemma ImmUAgrees(w: Word)
    ensures HwImmU(w) == Isa.ImmU(w)
  {
  }

  lemma ImmJAgrees(w: Word)
    ensures HwImmJ(w) == Isa.ImmJ(w)
  {
  }

  // ---- loads ----

  lemma ExtractByteAgrees(b0: bv8, b1: bv8, b2: bv8, b3: bv8)
    ensures Extract(Lb, Little(b0, b1, b2, b3)) == Isa.SignExtend8(b0)
    ensures Extract(Lbu, Little(b0, b1, b2, b3)) == b0 as Word
  {
  }

  lemma ExtractHalfAgrees(b0: bv8, b1: bv8, b2: bv8, b3: bv8)
    ensures Extract(Lh, Little(b0, b1, b2, b3)) == Isa.SignExtend16(b0, b1)
  {
    hide Little;
    HalfSign(b0, b1, b2, b3);
    HalfBits(b0, b1, b2, b3);
    HalfExtended(b0, b1);
  }

  lemma HalfSign(b0: bv8, b1: bv8, b2: bv8, b3: bv8)
    ensures Little(b0, b1, b2, b3) & 0x8000 == 0 <==> b1 & 0x80 == 0
  {
  }

  lemma HalfBits(b0: bv8, b1: bv8, b2: bv8, b3: bv8)
    ensures Little(b0, b1, b2, b3) & 0xffff == Little(b0, b1, 0, 0)
  {
  }

  lemma HalfExtended(b0: bv8, b1: bv8)
    ensures Little(b0, b1, 0, 0) | 0xffff_0000 == Little(b0, b1, 0xff, 0xff)
  {
  }

  lemma ExtractUnsignedHalfAgrees(b0: bv8, b1: bv8, b2: bv8, b3: bv8)
    ensures Extract(Lhu, Little(b0, b1, b2, b3)) == Little(b0, b1, 0, 0)
  {
  }

  lemma ExtractWordAgrees(v: Word)
    ensures Extract(Lw, v) == v
  {
  }

  lemma LoadsAgree(mem: Mem, a: Word)
    ensures ValM(Lb, mem, a) == Isa.LoadValue(Isa.B, mem, a)
    ensures ValM(Lbu, mem, a) == Isa.LoadValue(Isa.Bu, mem, a)
    ensures ValM(Lh, mem, a) == Isa.LoadValue(Isa.H, mem, a)
    ensures ValM(Lhu, mem, a) == Isa.LoadValue(Isa.Hu, mem, a)
    ensures ValM(Lw, mem, a) == Isa.LoadValue(Isa.W, mem, a)
  {
    hide Little, Extract, ByteAt, ReadByte, Isa.SignExtend8, Isa.SignExtend16;
    var b0, b1 := ReadByte(mem, ByteAt(a, 0)), ReadByte(mem, ByteAt(a, 1));
    var b2, b3 := ReadByte(mem, ByteAt(a, 2)), ReadByte(mem, ByteAt(a, 3));
    ExtractByteAgrees(b0, b1, b2, b3);
    ExtractHalfAgrees(b0, b1, b2, b3);
    ExtractUnsignedHalfAgrees(b0, b1, b2, b3);
    ExtractWordAgrees(ReadWord(mem, a));
  }

  // ---- one instruction class at a time: the control word, then the whole step ----

  lemma AluAdds(x: Word, y: Word)
    ensures Alu(FAdd, x, y) == Add32(x, y) && Add32(0, y) == y
  {
  }

  lemma Funct3Bound(w: Word)
    ensures Funct3(w) <= 7
  {
  }

  lemma LuiControl(w: Word)
    requires Opcode(w) == 0x37
    ensures Isa.DecodeInsn(w) == Isa.Lui(Rd(w), Isa.ImmU(w))
    ensures Imm(w) == Isa.ImmU(w) && AluASel(w) == SelZero && AluBSel(w) == SelImm && AluFuncSel(w) == FAdd
    ensures MemRwSel(w) == NoRw && RegWen(w) && ValDSel(w) == FromE && !IsJalr(w)
    ensures forall x, y :: !NeedJump(w, x, y)
  {
    hide Rs1, Rs2, Rd, Funct3, Funct7, HwImmI, HwImmS, HwImmB, HwImmJ, Isa.ImmI, Isa.ImmS, Isa.ImmB, Isa.ImmJ;
    ImmUAgrees(w);
  }

  lemma LuiStep(a: Arch)
    requires Opcode(Word0(a)) == 0x37
    ensures DatapathStep(a) == Isa.Step(a)
  {
    hide Opcode, Rs1, Rs2, Rd, Funct3, Funct7, Imm, AluASel, AluBSel, AluFuncSel, MemRwSel, RegWen, ValDSel, IsJalr,
         NeedJump, EffRs1, EffRs2, ReadWord, Isa.DecodeInsn, Add32, ClearBit0, Isa.ImmU, Alu;
    LuiControl(Word0(a));
    AluAdds(0, Isa.ImmU(Word0(a)));
  }

  lemma AuipcControl(w: Word)
    requires Opcode(w) == 0x17
    ensures Isa.DecodeInsn(w) == Isa.Auipc(Rd(w), Isa.ImmU(w))
    ensures Imm(w) == Isa.ImmU(w) && AluASel(w) == SelPc && AluBSel(w) == SelImm && AluFuncSel(w) == FAdd
    ensures MemRwSel(w) == NoRw && RegWen(w) && ValDSel(w) == FromE && !IsJalr(w)
    ensures forall x, y :: !NeedJump(w, x, y)
  {
    hide Rs1, Rs2, Rd, Funct3, Funct7, HwImmI, HwImmS, HwImmB, HwImmJ, Isa.ImmI, Isa.ImmS, Isa.ImmB, Isa.ImmJ;
    ImmUAgrees(w);
  }

  lemma AuipcStep(a: Arch)
    requires Opcode(Word0(a)) == 0x17
    ensures DatapathStep(a) == Isa.Step(a)
  {
    hide Opcode, Rs1, Rs2, Rd, Funct3, Funct7, Imm, AluASel, AluBSel, AluFuncSel, MemRwSel, RegWen, ValDSel, IsJalr,
         NeedJump, EffRs1, EffRs2, ReadWord, Isa.DecodeInsn, Add32, ClearBit0, Alu, Isa.ImmU;
    AuipcControl(Word0(a));
    AluAdds(a.pc, Isa.ImmU(Word0(a)));
  }

  lemma JalControl(w: Word)
    requires Opcode(w) == 0x6f
    ensures Isa.DecodeInsn(w) == Isa.Jal(Rd(w), Isa.ImmJ(w))
    ensures Imm(w) == Isa.ImmJ(w) && AluASel(w) == SelPc && AluBSel(w) == SelImm && AluFuncSel(w) == FAdd
    ensures MemRwSel(w) == NoRw && RegWen(w) && ValDSel(w) == FromP && !IsJalr(w)
    ensures forall x, y :: NeedJump(w, x, y)
  {
    ImmJAgrees(w);
    hide Rs1, Rs2, Rd, Funct3, Funct7, HwImmI, HwImmS, HwImmB, HwImmU, HwImmJ, Isa.ImmI, Isa.ImmS, Isa.ImmB, Isa.ImmU,
         Isa.ImmJ;
  }

  lemma JalStep(a: Arch)
    requires Opcode(Word0(a)) == 0x6f
    ensures DatapathStep(a) == Isa.Step(a)
  {
    hide Opcode, Rs1, Rs2, Rd, Funct3, Funct7, Imm, AluASel, AluBSel, AluFuncSel, MemRwSel, RegWen, ValDSel, IsJalr,
         NeedJump, EffRs1, EffRs2, ReadWord, Isa.DecodeInsn, Add32, ClearBit0, Alu, Isa.ImmJ;
    JalControl(Word0(a));
    AluAdds(a.pc, Isa.ImmJ(Word0(a)));
  }

  lemma JalrControl(w: Word)
    requires Opcode(w) == 0x67 && Isa.DecodeInsn(w) != Isa.Illegal
    ensures Isa.DecodeInsn(w) == Isa.Jalr(Rd(w), Rs1(w), Isa.ImmI(w))
    ensures Imm(w) == Isa.ImmI(w) && AluASel(w) == SelValA && AluBSel(w) == SelImm && AluFuncSel(w) == FAdd
    ensures MemRwSel(w) == NoRw && RegWen(w) && ValDSel(w) == FromP && IsJalr(w) && EffRs1(w) == Rs1(w)
    ensures forall x, y :: NeedJump(w, x, y)
  {
    hide Rs1, Rs2, Rd, Funct3, Funct7, HwImmI, HwImmS, HwImmB, HwImmU, HwImmJ, Isa.ImmI, Isa.ImmS, Isa.ImmB, Isa.ImmU,
         Isa.ImmJ;
    ImmIAgrees(w);
  }

  lemma JalrStep(a: Arch)
    requires Opcode(Word0(a)) == 0x67 && Isa.DecodeInsn(Word0(a)) != Isa.Illegal
    ensures DatapathStep(a) == Isa.Step(a)
  {
    hide Opcode, Rs1, Rs2, Rd, Funct3, Funct7, Imm, AluASel, AluBSel, AluFuncSel, MemRwSel, RegWen, ValDSel, IsJalr,
         NeedJump, EffRs1, EffRs2, ReadWord, Isa.DecodeInsn, Add32, ClearBit0, Alu, Isa.ImmI;
    JalrControl(Word0(a));
    AluAdds(ReadReg(a.regs, Rs1(Word0(a))), Isa.ImmI(Word0(a)));
  }

  lemma BranchControl(w: Word)
    requires Opcode(w) == 0x63 && Isa.DecodeInsn(w) != Isa.Illegal
    ensures var i := Isa.DecodeInsn(w);
            && i.Branch? && i == Isa.Branch(i.cond, Rs1(w), Rs2(w), Isa.ImmB(w))
            && forall x, y :: NeedJump(w, x, y) <==> Isa.Taken(i.cond, x, y)
    ensures Imm(w) == Isa.ImmB(w) && AluASel(w) == SelPc && AluBSel(w) == SelImm && AluFuncSel(w) == FAdd
    ensures MemRwSel(w) == NoRw && !RegWen(w) && !IsJalr(w) && EffRs1(w) == Rs1(w) && EffRs2(w) == Rs2(w)
  {
    hide Rs1, Rs2, Rd, Funct3, Funct7, HwImmI, HwImmS, HwImmB, HwImmU, HwImmJ, Isa.ImmI, Isa.ImmS, Isa.ImmB, Isa.ImmU,
         Isa.ImmJ, Signed;
    ImmBAgrees(w);
  }

  lemma BranchStep(a: Arch)
    requires Opcode(Word0(a)) == 0x63 && Isa.DecodeInsn(Word0(a)) != Isa.Illegal
    ensures DatapathStep(a) == Isa.Step(a)
  {
    hide Opcode, Rs1, Rs2, Rd, Funct3, Funct7, Imm, AluASel, AluBSel, AluFuncSel, MemRwSel, RegWen, ValDSel, IsJalr,
         NeedJump, EffRs1, EffRs2, ReadWord, Isa.DecodeInsn, Add32, ClearBit0, Isa.Taken, Alu, Isa.ImmB;
    BranchControl(Word0(a));
    AluAdds(a.pc, Isa.ImmB(Word0(a)));
  }

  function LoadRw(width: Isa.Width): MemRw {
    match width case B => Lb case Bu => Lbu case H => Lh case Hu => Lhu case W => Lw
  }

  lemma LoadControl(w: Word)
    requires Opcode(w) == 0x03 && Isa.DecodeInsn(w) != Isa.Illegal
    ensures var i := Isa.DecodeInsn(w);
            i.Load? && i == Isa.Load(i.width, Rd(w), Rs1(w), Isa.ImmI(w)) && MemRwSel(w) == LoadRw(i.width)
    ensures Imm(w) == Isa.ImmI(w) && AluASel(w) == SelValA && AluBSel(w) == SelImm && AluFuncSel(w) == FAdd
    ensures RegWen(w) && ValDSel(w) == FromM && !IsJalr(w) && EffRs1(w) == Rs1(w)
    ensures forall x, y :: !NeedJump(w, x, y)
  {
    hide Rs1, Rs2, Rd, Funct3, Funct7, HwImmI, HwImmS, HwImmB, HwImmU, HwImmJ, Isa.ImmI, Isa.ImmS, Isa.ImmB, Isa.ImmU,
         Isa.ImmJ;
    ImmIAgrees(w);
  }

  lemma LoadStep(a: Arch)
    requires Opcode(Word0(a)) == 0x03 && Isa.DecodeInsn(Word0(a)) != Isa.Illegal
    ensures DatapathStep(a) == Isa.Step(a)
  {
    hide Opcode, Rs1, Rs2, Rd, Funct3, Funct7, Imm, AluASel, AluBSel, AluFuncSel, MemRwSel, RegWen, ValDSel, IsJalr,
         NeedJump, EffRs1, EffRs2, ReadWord, Isa.DecodeInsn, Add32, ClearBit0, ValM, Isa.LoadValue, Alu, Isa.ImmI, LoadRw,
         MemAfter;
    LoadControl(Word0(a));
    AluAdds(ReadReg(a.regs, Rs1(Word0(a))), Isa.ImmI(Word0(a)));
    LoadIs(Isa.DecodeInsn(Word0(a)).width, a.mem, Add32(ReadReg(a.regs, Rs1(Word0(a))), Isa.ImmI(Word0(a))));
  }

  lemma LoadIs(width: Isa.Width, mem: Mem, x: Word)
    ensures ValM(LoadRw(width), mem, x) == Isa.LoadValue(width, mem, x)
    ensures forall y, v :: MemAfter(LoadRw(width), mem, y, v) == mem
  {
    hide ValM, Isa.LoadValue;
    LoadsAgree(mem, x);
  }

  function StoreRw(len: nat): MemRw {
    if len == 1 then Sb else if len == 2 then Sh else Sw
  }

  lemma StoreControl(w: Word)
    requires Opcode(w) == 0x23 && Supported(w)
    ensures var i := Isa.DecodeInsn(w);
            && i.Store? && i == Isa.Store(i.len, Rs1(w), Rs2(w), Isa.ImmS(w)) && i.len in {1, 2, 4}
            && MemRwSel(w) == StoreRw(i.len)
    ensures Imm(w) == Isa.ImmS(w) && AluASel(w) == SelValA && AluBSel(w) == SelImm && AluFuncSel(w) == FAdd
    ensures !RegWen(w) && !IsJalr(w) && EffRs1(w) == Rs1(w) && EffRs2(w) == Rs2(w)
    ensures forall x, y :: !NeedJump(w, x, y)
  {
    hide Rs1, Rs2, Rd, Funct3, Funct7, HwImmI, HwImmS, HwImmB, HwImmU, HwImmJ, Isa.ImmI, Isa.ImmS, Isa.ImmB, Isa.ImmU,
         Isa.ImmJ;
    ImmSAgrees(w);
  }

  lemma StoreStep(a: Arch)
    requires Opcode(Word0(a)) == 0x23 && Supported(Word0(a))
    ensures DatapathStep(a) == Isa.Step(a)
  {
    hide Opcode, Rs1, Rs2, Rd, Funct3, Funct7, Imm, AluASel, AluBSel, AluFuncSel, MemRwSel, RegWen, ValDSel, IsJalr,
         NeedJump, EffRs1, EffRs2, ReadWord, Isa.DecodeInsn, Add32, ClearBit0, WriteBytes, Alu, Isa.ImmS;
    StoreControl(Word0(a));
    AluAdds(ReadReg(a.regs, Rs1(Word0(a))), Isa.ImmS(Word0(a)));
  }

  function FuncOf(op: Isa.AluOp): AluFunc {
    match op
    case Add => FAdd case Sub => FSub case Sll => FSll case Slt => FSlt case Sltu => FSltu
    case Xor => FXor case Srl => FSrl case ShiftRa => FSra case Or => FOr case And => FAnd
  }

  lemma AluAgrees(op: Isa.AluOp, a: Word, b: Word)
    ensures Alu(FuncOf(op), a, b) == Isa.Compute(op, a, b)
  {
    hide Signed, Sra;
  }

  lemma OpImmNeverJumps(w: Word, x: Word, y: Word)
    requires Opcode(w) == 0x13
    ensures !NeedJump(w, x, y)
  {
  }

  lemma OpImmOperand(w: Word)
    requires Opcode(w) == 0x13 && Isa.DecodeInsn(w) != Isa.Illegal
    ensures var i := Isa.DecodeInsn(w); i.OpImm? && i == Isa.OpImm(i.op, Rd(w), Rs1(w), Imm(w))
  {
    hide Rs1, Rs2, Rd, Funct3, Funct7, HwImmI, HwImmS, HwImmB, HwImmU, HwImmJ, Isa.ImmI, Isa.ImmS, Isa.ImmB, Isa.ImmU,
         Isa.ImmJ;
    ImmIAgrees(w);
    Funct3Bound(w);
  }

  lemma OpImmControl(w: Word)
    requires Opcode(w) == 0x13 && Isa.DecodeInsn(w) != Isa.Illegal
    ensures Isa.DecodeInsn(w).OpImm? && AluFuncSel(w) == FuncOf(Isa.DecodeInsn(w).op)
    ensures AluASel(w) == SelValA && AluBSel(w) == SelImm && MemRwSel(w) == NoRw
    ensures RegWen(w) && ValDSel(w) == FromE && !IsJalr(w) && EffRs1(w) == Rs1(w)
  {
    hide Rs1, Rs2, Rd, Funct3, Funct7, Isa.ImmI, Isa.ImmS, Isa.ImmB, Isa.ImmU, Isa.ImmJ;
    Funct3Bound(w);
  }

  lemma OpImmStep(a: Arch)
    requires Opcode(Word0(a)) == 0x13 && Isa.DecodeInsn(Word0(a)) != Isa.Illegal
    ensures DatapathStep(a) == Isa.Step(a)
  {
    hide Opcode, Rs1, Rs2, Rd, Funct3, Funct7, Imm, AluASel, AluBSel, AluFuncSel, MemRwSel, RegWen, ValDSel, IsJalr,
         NeedJump, EffRs1, EffRs2, ReadWord, Isa.DecodeInsn, Add32, ClearBit0, Alu, Isa.Compute;
    OpImmControl(Word0(a));
    OpImmOperand(Word0(a));
    OpImmNeverJumps(Word0(a), IdealE(a).valA, IdealE(a).valB);
    AluAgrees(Isa.DecodeInsn(Word0(a)).op, ReadReg(a.regs, Rs1(Word0(a))), Imm(Word0(a)));
  }

  lemma OpControl(w: Word)
    requires Opcode(w) == 0x33 && Isa.DecodeInsn(w) != Isa.Illegal
    ensures var i := Isa.DecodeInsn(w);
            i.Op? && i == Isa.Op(i.op, Rd(w), Rs1(w), Rs2(w)) && AluFuncSel(w) == FuncOf(i.op)
    ensures AluASel(w) == SelValA && AluBSel(w) == SelValB && MemRwSel(w) == NoRw
    ensures RegWen(w) && ValDSel(w) == FromE && !IsJalr(w) && EffRs1(w) == Rs1(w) && EffRs2(w) == Rs2(w)
    ensures forall x, y :: !NeedJump(w, x, y)
  {
    hide Rs1, Rs2, Rd, Funct3, Funct7, HwImmI, HwImmS, HwImmB, HwImmU, HwImmJ, Isa.ImmI, Isa.ImmS, Isa.ImmB, Isa.ImmU,
         Isa.ImmJ;
    Funct3Bound(w);
  }

  lemma OpStep(a: Arch)
    requires Opcode(Word0(a)) == 0x33 && Isa.DecodeInsn(Word0(a)) != Isa.Illegal
    ensures DatapathStep(a) == Isa.Step(a)
  {
    hide Opcode, Rs1, Rs2, Rd, Funct3, Funct7, Imm, AluASel, AluBSel, AluFuncSel, MemRwSel, RegWen, ValDSel, IsJalr,
         NeedJump, EffRs1, EffRs2, ReadWord, Isa.DecodeInsn, Add32, ClearBit0, Alu, Isa.Compute;
    OpControl(Word0(a));
    var w := Word0(a);
    AluAgrees(Isa.DecodeInsn(w).op, ReadReg(a.regs, Rs1(w)), ReadReg(a.regs, Rs2(w)));
  }

  lemma InertControl(w: Word)
    requires (Opcode(w) == 0x0f || Opcode(w) == 0x73) && Isa.DecodeInsn(w) != Isa.Illegal
    ensures Isa.DecodeInsn(w) == Isa.Fence || Isa.DecodeInsn(w) == Isa.Environment
    ensures MemRwSel(w) == NoRw && (RegWen(w) ==> Rd(w) == 0) && !IsJalr(w)
    ensures forall x, y :: !NeedJump(w, x, y)
  {
    hide Rs1, Rs2, Funct3, Funct7, HwImmI, HwImmS, HwImmB, HwImmU, HwImmJ, Isa.ImmI, Isa.ImmS, Isa.ImmB, Isa.ImmU,
         Isa.ImmJ;
  }

  lemma InertStep(a: Arch)
    requires (Opcode(Word0(a)) == 0x0f || Opcode(Word0(a)) == 0x73) && Isa.DecodeInsn(Word0(a)) != Isa.Illegal
    ensures DatapathStep(a) == Isa.Step(a)
  {
    hide Opcode, Rs1, Rs2, Rd, Funct3, Funct7, Imm, AluASel, AluBSel, AluFuncSel, MemRwSel, RegWen, ValDSel, IsJalr,
         NeedJump, EffRs1, EffRs2, ReadWord, Isa.DecodeInsn, Add32, ClearBit0, Alu;
    InertControl(Word0(a));
  }

  lemma OpcodeIs(w: Word)
    requires Isa.DecodeInsn(w) != Isa.Illegal
    ensures Opcode(w) == 0x37 || Opcode(w) == 0x17 || Opcode(w) == 0x6f || Opcode(w) == 0x67 || Opcode(w) == 0x63 ||
            Opcode(w) == 0x03 || Opcode(w) == 0x23 || Opcode(w) == 0x13 || Opcode(w) == 0x33 || Opcode(w) == 0x0f || Opcode(w) == 0x73
  {
    hide Opcode, Isa.DecodeOpImm, Isa.DecodeOp, Isa.DecodeBranch, Isa.DecodeLoad, Isa.DecodeStore;
  }

  /** Main result of this module: for every supported instruction, in every state, the datapath has
      exactly the architectural effect of RV32I. */
  lemma DatapathIsRv32i(a: Arch)
    requires Supported(Word0(a))
    ensures DatapathStep(a) == Isa.Step(a)
  {
    var w := Word0(a);
    OpcodeIs(w);
    hide DatapathStep, Isa.Step, Isa.DecodeInsn, Opcode;
    match Opcode(w)
    case 0x37 => LuiStep(a);
    case 0x17 => AuipcStep(a);
    case 0x6f => JalStep(a);
    case 0x67 => JalrStep(a);
    case 0x63 => BranchStep(a);
    case 0x03 => LoadStep(a);
    case 0x23 => StoreStep(a);
    case 0x13 => OpImmStep(a);
    case 0x33 => OpStep(a);
    case _ => InertStep(a);
  }
}
