/** The RV32I instruction listings: every instruction, put together from its fields as the manual lists them, is decoded
    as that instruction (chapter 2 and the instruction set listings of the RISC-V Unprivileged ISA). */
module Rv32Encoding {
  import opened Rv32Words
  import opened Rv32Isa

  // ---- words put together from fields, low bits first ----

  /** Opcode, destination, function code, sources and the upper function code. */
  function Pack(op: bv7, rd: bv5, f3: bv3, rs1: bv5, rs2: bv5, f7: bv7): Word {
    (op as Word) | ((rd as Word) << 7) | ((f3 as Word) << 12) | ((rs1 as Word) << 15) | ((rs2 as Word) << 20) |
    ((f7 as Word) << 25)
  }

  /** The same with a 12-bit immediate above the first source. */
  function PackI(op: bv7, rd: bv5, f3: bv3, rs1: bv5, imm: bv12): Word {
    (op as Word) | ((rd as Word) << 7) | ((f3 as Word) << 12) | ((rs1 as Word) << 15) | ((imm as Word) << 20)
  }

  /** A store: the low five bits of the offset in place of the destination, the others in place of the upper function code. */
  function PackS(f3: bv3, rs1: bv5, rs2: bv5, off: bv12): Word {
    Pack(0x23, (off & 0x1f) as bv5, f3, rs1, rs2, (off >> 5) as bv7)
  }

  /** A branch: offset bits 11, 4-1, 10-5 and 12 from bit 7 and from bit 25 on. */
  function PackB(f3: bv3, rs1: bv5, rs2: bv5, off: bv13): Word {
    var o := off as Word;
    0x63 | (((o >> 11) & 1) << 7) | (((o >> 1) & 0xf) << 8) | ((f3 as Word) << 12) | ((rs1 as Word) << 15) |
    ((rs2 as Word) << 20) | (((o >> 5) & 0x3f) << 25) | ((o >> 12) << 31)
  }

  /** A jump: offset bits 19-12, 11, 10-1 and 20 from bit 12 on. */
  function PackJ(rd: bv5, off: bv21): Word {
    var o := off as Word;
    0x6f | ((rd as Word) << 7) | (((o >> 12) & 0xff) << 12) | (((o >> 11) & 1) << 20) | (((o >> 1) & 0x3ff) << 21) |
    ((o >> 20) << 31)
  }

  /** An upper immediate of 20 bits. */
  function PackU(op: bv7, rd: bv5, imm: bv20): Word { (op as Word) | ((rd as Word) << 7) | ((imm as Word) << 12) }

  // An immediate is extended when its bits stand lowest and all bits above are copies of its top bit
  predicate Extends12(v: Word, x: bv12) { v & 0xfff == x as Word && v >> 11 == if x < 0x800 then 0 else 0x1f_ffff }
  predicate Extends13(v: Word, x: bv13) { v & 0x1fff == x as Word && v >> 12 == if x < 0x1000 then 0 else 0xf_ffff }
  predicate Extends21(v: Word, x: bv21) { v & 0x1f_ffff == x as Word && v >> 20 == if x < 0x10_0000 then 0 else 0xfff }

  // ---- the listings ----

  function OpCode3(op: AluOp): bv3 {
    match op
    case Add => 0 case Sub => 0 case Sll => 1 case Slt => 2 case Sltu => 3
    case Xor => 4 case Srl => 5 case ShiftRa => 5 case Or => 6 case And => 7
  }

  function OpCode7(op: AluOp): bv7 { if op == Sub || op == ShiftRa then 0x20 else 0 }

  predicate IsShift(op: AluOp) { op == Sll || op == Srl || op == ShiftRa }

  function BranchCode(c: Cond): bv3 {
    match c case Eq => 0 case Ne => 1 case Lt => 4 case Ge => 5 case Ltu => 6 case Geu => 7
  }

  function LoadCode(width: Width): bv3 { match width case B => 0 case H => 1 case W => 2 case Bu => 4 case Hu => 5 }

  /** Bytes, halfwords and words. */
  function StoreCode(len: nat): bv3 { if len == 1 then 0 else if len == 2 then 1 else 2 }

  // ---- taking words apart ----

  lemma Packed(op: bv7, rd: bv5, f3: bv3, rs1: bv5, rs2: bv5, f7: bv7)
    ensures var w := Pack(op, rd, f3, rs1, rs2, f7);
      && Opcode(w) == op as Word && Rd(w) == rd as nat && Funct3(w) == f3 as Word && Rs1(w) == rs1 as nat
      && Rs2(w) == rs2 as nat && Funct7(w) == f7 as Word && (w >> 20) & 0x1f == rs2 as Word
  {
  }

  lemma PackedI(op: bv7, rd: bv5, f3: bv3, rs1: bv5, imm: bv12)
    ensures var w := PackI(op, rd, f3, rs1, imm);
      && Opcode(w) == op as Word && Rd(w) == rd as nat && Funct3(w) == f3 as Word && Rs1(w) == rs1 as nat
  {
  }

  lemma ImmediateI(op: bv7, rd: bv5, f3: bv3, rs1: bv5, imm: bv12)
    ensures Extends12(ImmI(PackI(op, rd, f3, rs1, imm)), imm)
  {
    hide PackI, ImmI;
    LowI(op, rd, f3, rs1, imm);
    HighI(op, rd, f3, rs1, imm);
  }

  lemma LowI(op: bv7, rd: bv5, f3: bv3, rs1: bv5, imm: bv12)
    ensures ImmI(PackI(op, rd, f3, rs1, imm)) & 0xfff == imm as Word
  {
  }

  lemma HighI(op: bv7, rd: bv5, f3: bv3, rs1: bv5, imm: bv12)
    ensures ImmI(PackI(op, rd, f3, rs1, imm)) >> 11 == if imm < 0x800 then 0 else 0x1f_ffff
  {
  }

  lemma ImmediateS(f3: bv3, rs1: bv5, rs2: bv5, off: bv12)
    ensures Extends12(ImmS(PackS(f3, rs1, rs2, off)), off)
  {
    hide PackS, ImmS;
    LowS(f3, rs1, rs2, off);
    HighS(f3, rs1, rs2, off);
  }

  lemma LowS(f3: bv3, rs1: bv5, rs2: bv5, off: bv12)
    ensures ImmS(PackS(f3, rs1, rs2, off)) & 0xfff == off as Word
  {
  }

  lemma HighS(f3: bv3, rs1: bv5, rs2: bv5, off: bv12)
    ensures ImmS(PackS(f3, rs1, rs2, off)) >> 11 == if off < 0x800 then 0 else 0x1f_ffff
  {
  }

  lemma PackedS(f3: bv3, rs1: bv5, rs2: bv5, off: bv12)
    ensures var w := PackS(f3, rs1, rs2, off);
      Opcode(w) == 0x23 && Funct3(w) == f3 as Word && Rs1(w) == rs1 as nat && Rs2(w) == rs2 as nat
  {
    hide Pack, Opcode, Funct3, Rs1, Rs2;
    Packed(0x23, (off & 0x1f) as bv5, f3, rs1, rs2, (off >> 5) as bv7);
  }

  lemma PackedB(f3: bv3, rs1: bv5, rs2: bv5, off: bv13)
    ensures var w := PackB(f3, rs1, rs2, off);
      Opcode(w) == 0x63 && Funct3(w) == f3 as Word && Rs1(w) == rs1 as nat && Rs2(w) == rs2 as nat
  {
  }

  lemma ImmediateB(f3: bv3, rs1: bv5, rs2: bv5, off: bv13)
    requires off & 1 == 0
    ensures Extends13(ImmB(PackB(f3, rs1, rs2, off)), off)
  {
    hide PackB, ImmB;
    LowB(f3, rs1, rs2, off);
    HighB(f3, rs1, rs2, off);
  }

  lemma LowB(f3: bv3, rs1: bv5, rs2: bv5, off: bv13)
    requires off & 1 == 0
    ensures ImmB(PackB(f3, rs1, rs2, off)) & 0x1fff == off as Word
  {
  }

  lemma HighB(f3: bv3, rs1: bv5, rs2: bv5, off: bv13)
    ensures ImmB(PackB(f3, rs1, rs2, off)) >> 12 == if off < 0x1000 then 0 else 0xf_ffff
  {
  }

  lemma PackedJ(rd: bv5, off: bv21)
    ensures var w := PackJ(rd, off); Opcode(w) == 0x6f && Rd(w) == rd as nat
  {
  }

  lemma ImmediateJ(rd: bv5, off: bv21)
    requires off & 1 == 0
    ensures Extends21(ImmJ(PackJ(rd, off)), off)
  {
    hide PackJ, ImmJ;
    LowJ(rd, off);
    HighJ(rd, off);
  }

  lemma LowJ(rd: bv5, off: bv21)
    requires off & 1 == 0
    ensures ImmJ(PackJ(rd, off)) & 0x1f_ffff == off as Word
  {
  }

  lemma HighJ(rd: bv5, off: bv21)
    ensures ImmJ(PackJ(rd, off)) >> 20 == if off < 0x10_0000 then 0 else 0xfff
  {
  }

  lemma PackedU(op: bv7, rd: bv5, imm: bv20)
    ensures var w := PackU(op, rd, imm); Opcode(w) == op as Word && Rd(w) == rd as nat && ImmU(w) == (imm as Word) << 12
  {
  }

  // ---- decoding by the fields ----

  lemma OpFields(w: Word, op: AluOp)
    requires Opcode(w) == 0x33 && Funct3(w) == OpCode3(op) as Word && Funct7(w) == OpCode7(op) as Word
    ensures DecodeInsn(w) == Op(op, Rd(w), Rs1(w), Rs2(w))
  {
    hide Opcode, Rd, Funct3, Rs1, Rs2, Funct7, ImmI, ImmS, ImmB, ImmU, ImmJ;
  }

  lemma OpImmFields(w: Word, op: AluOp)
    requires Opcode(w) == 0x13 && Funct3(w) == OpCode3(op) as Word && op != Sub && !IsShift(op)
    ensures DecodeInsn(w) == OpImm(op, Rd(w), Rs1(w), ImmI(w))
  {
    hide Opcode, Rd, Funct3, Rs1, Rs2, Funct7, ImmI, ImmS, ImmB, ImmU, ImmJ;
  }

  lemma ShiftFields(w: Word, op: AluOp)
    requires Opcode(w) == 0x13 && Funct3(w) == OpCode3(op) as Word && Funct7(w) == OpCode7(op) as Word && IsShift(op)
    ensures DecodeInsn(w) == OpImm(op, Rd(w), Rs1(w), (w >> 20) & 0x1f)
  {
    hide Opcode, Rd, Funct3, Rs1, Rs2, Funct7, ImmI, ImmS, ImmB, ImmU, ImmJ;
  }

  lemma BranchFields(w: Word, c: Cond)
    requires Opcode(w) == 0x63 && Funct3(w) == BranchCode(c) as Word
    ensures DecodeInsn(w) == Branch(c, Rs1(w), Rs2(w), ImmB(w))
  {
    hide Opcode, Rd, Funct3, Rs1, Rs2, Funct7, ImmI, ImmS, ImmB, ImmU, ImmJ;
  }

  lemma LoadFields(w: Word, width: Width)
    requires Opcode(w) == 0x03 && Funct3(w) == LoadCode(width) as Word
    ensures DecodeInsn(w) == Load(width, Rd(w), Rs1(w), ImmI(w))
  {
    hide Opcode, Rd, Funct3, Rs1, Rs2, Funct7, ImmI, ImmS, ImmB, ImmU, ImmJ;
  }

  lemma StoreFields(w: Word, len: nat)
    requires Opcode(w) == 0x23 && len in {1, 2, 4} && Funct3(w) == StoreCode(len) as Word
    ensures DecodeInsn(w) == Store(len, Rs1(w), Rs2(w), ImmS(w))
  {
    hide Opcode, Rd, Funct3, Rs1, Rs2, Funct7, ImmI, ImmS, ImmB, ImmU, ImmJ;
  }

  lemma OtherFields(w: Word)
    ensures Opcode(w) == 0x6f ==> DecodeInsn(w) == Jal(Rd(w), ImmJ(w))
    ensures Opcode(w) == 0x67 && Funct3(w) == 0 ==> DecodeInsn(w) == Jalr(Rd(w), Rs1(w), ImmI(w))
    ensures Opcode(w) == 0x37 ==> DecodeInsn(w) == Lui(Rd(w), ImmU(w))
    ensures Opcode(w) == 0x17 ==> DecodeInsn(w) == Auipc(Rd(w), ImmU(w))
    ensures Opcode(w) == 0x0f ==> DecodeInsn(w) == Fence
  {
    hide Opcode, Rd, Funct3, Rs1, Rs2, Funct7, ImmI, ImmS, ImmB, ImmU, ImmJ;
  }

  // ---- every instruction ----

  lemma DecodesOp(op: AluOp, d: bv5, s: bv5, t: bv5)
    ensures DecodeInsn(Pack(0x33, d, OpCode3(op), s, t, OpCode7(op))) == Op(op, d as nat, s as nat, t as nat)
  {
    hide *;
    Packed(0x33, d, OpCode3(op), s, t, OpCode7(op));
    OpFields(Pack(0x33, d, OpCode3(op), s, t, OpCode7(op)), op);
  }

  lemma DecodesOpImm(op: AluOp, d: bv5, s: bv5, imm: bv12)
    requires op != Sub && !IsShift(op)
    ensures var i := DecodeInsn(PackI(0x13, d, OpCode3(op), s, imm));
      i.OpImm? && i == OpImm(op, d as nat, s as nat, i.imm) && Extends12(i.imm, imm)
  {
    hide *;
    PackedI(0x13, d, OpCode3(op), s, imm);
    ImmediateI(0x13, d, OpCode3(op), s, imm);
    OpImmFields(PackI(0x13, d, OpCode3(op), s, imm), op);
  }

  lemma DecodesShift(op: AluOp, d: bv5, s: bv5, shamt: bv5)
    requires IsShift(op)
    ensures DecodeInsn(Pack(0x13, d, OpCode3(op), s, shamt, OpCode7(op))) == OpImm(op, d as nat, s as nat, shamt as Word)
  {
    hide *;
    Packed(0x13, d, OpCode3(op), s, shamt, OpCode7(op));
    ShiftFields(Pack(0x13, d, OpCode3(op), s, shamt, OpCode7(op)), op);
  }

  lemma DecodesLoad(width: Width, d: bv5, s: bv5, off: bv12)
    ensures var i := DecodeInsn(PackI(0x03, d, LoadCode(width), s, off));
      i.Load? && i == Load(width, d as nat, s as nat, i.imm) && Extends12(i.imm, off)
  {
    hide *;
    PackedI(0x03, d, LoadCode(width), s, off);
    ImmediateI(0x03, d, LoadCode(width), s, off);
    LoadFields(PackI(0x03, d, LoadCode(width), s, off), width);
  }

  lemma DecodesStore(len: nat, s: bv5, t: bv5, off: bv12)
    requires len in {1, 2, 4}
    ensures var i := DecodeInsn(PackS(StoreCode(len), s, t, off));
      i.Store? && i == Store(len, s as nat, t as nat, i.imm) && Extends12(i.imm, off)
  {
    hide *;
    PackedS(StoreCode(len), s, t, off);
    ImmediateS(StoreCode(len), s, t, off);
    StoreFields(PackS(StoreCode(len), s, t, off), len);
  }

  lemma DecodesBranch(c: Cond, s: bv5, t: bv5, off: bv13)
    requires off & 1 == 0
    ensures var i := DecodeInsn(PackB(BranchCode(c), s, t, off));
      i.Branch? && i == Branch(c, s as nat, t as nat, i.imm) && Extends13(i.imm, off)
  {
    hide *;
    PackedB(BranchCode(c), s, t, off);
    ImmediateB(BranchCode(c), s, t, off);
    BranchFields(PackB(BranchCode(c), s, t, off), c);
  }

  lemma DecodesJump(d: bv5, s: bv5, off: bv21, imm: bv12)
    requires off & 1 == 0
    ensures var i := DecodeInsn(PackJ(d, off)); i.Jal? && i == Jal(d as nat, i.imm) && Extends21(i.imm, off)
    ensures var i := DecodeInsn(PackI(0x67, d, 0, s, imm));
      i.Jalr? && i == Jalr(d as nat, s as nat, i.imm) && Extends12(i.imm, imm)
  {
    hide *;
    PackedJ(d, off);
    ImmediateJ(d, off);
    OtherFields(PackJ(d, off));
    PackedI(0x67, d, 0, s, imm);
    ImmediateI(0x67, d, 0, s, imm);
    OtherFields(PackI(0x67, d, 0, s, imm));
  }

  lemma DecodesUpper(d: bv5, imm: bv20)
    ensures DecodeInsn(PackU(0x37, d, imm)) == Lui(d as nat, (imm as Word) << 12)
    ensures DecodeInsn(PackU(0x17, d, imm)) == Auipc(d as nat, (imm as Word) << 12)
  {
    hide *;
    PackedU(0x37, d, imm);
    PackedU(0x17, d, imm);
    OtherFields(PackU(0x37, d, imm));
    OtherFields(PackU(0x17, d, imm));
  }

  /** Fences of any kind, ECALL and EBREAK. */
  lemma DecodesSystem(d: bv5, f3: bv3, s: bv5, imm: bv12)
    ensures DecodeInsn(PackI(0x0f, d, f3, s, imm)) == Fence
    ensures DecodeInsn(PackI(0x73, 0, 0, 0, 0)) == Environment && DecodeInsn(PackI(0x73, 0, 0, 0, 1)) == Environment
  {
    hide *;
    PackedI(0x0f, d, f3, s, imm);
    OtherFields(PackI(0x0f, d, f3, s, imm));
    SystemWords();
  }

  lemma SystemWords()
    ensures DecodeInsn(PackI(0x73, 0, 0, 0, 0)) == Environment && DecodeInsn(PackI(0x73, 0, 0, 0, 1)) == Environment
  {
    assert PackI(0x73, 0, 0, 0, 0) == 0x73 && PackI(0x73, 0, 0, 0, 1) == 0x0010_0073;
  }

  // ---- and nothing else ----

  /** The word has the codes of the instruction. */
  predicate Listed(i: Insn, w: Word) {
    match i
    case Lui(_, _) => Opcode(w) == 0x37
    case Auipc(_, _) => Opcode(w) == 0x17
    case Jal(_, _) => Opcode(w) == 0x6f
    case Jalr(_, _, _) => Opcode(w) == 0x67 && Funct3(w) == 0
    case Branch(c, _, _, _) => Opcode(w) == 0x63 && Funct3(w) == BranchCode(c) as Word
    case Load(width, _, _, _) => Opcode(w) == 0x03 && Funct3(w) == LoadCode(width) as Word
    case Store(len, _, _, _) => Opcode(w) == 0x23 && len in {1, 2, 4} && Funct3(w) == StoreCode(len) as Word
    case OpImm(op, _, _, _) =>
      && Opcode(w) == 0x13 && op != Sub && Funct3(w) == OpCode3(op) as Word
      && (IsShift(op) ==> Funct7(w) == OpCode7(op) as Word)
    case Op(op, _, _, _) => Opcode(w) == 0x33 && Funct3(w) == OpCode3(op) as Word && Funct7(w) == OpCode7(op) as Word
    case Fence => Opcode(w) == 0x0f
    case Environment => w == 0x0000_0073 || w == 0x0010_0073
    case Illegal => true
  }

  lemma Funct3Below8(w: Word)
    ensures Funct3(w) <= 7
  {
  }

  lemma ListedBranch(w: Word)
    requires Opcode(w) == 0x63
    ensures Listed(DecodeInsn(w), w)
  {
    hide Opcode, Rd, Funct3, Rs1, Rs2, Funct7, ImmI, ImmS, ImmB, ImmU, ImmJ;
  }

  lemma ListedLoad(w: Word)
    requires Opcode(w) == 0x03
    ensures Listed(DecodeInsn(w), w)
  {
    hide Opcode, Rd, Funct3, Rs1, Rs2, Funct7, ImmI, ImmS, ImmB, ImmU, ImmJ;
  }

  lemma ListedStore(w: Word)
    requires Opcode(w) == 0x23
    ensures Listed(DecodeInsn(w), w)
  {
    hide Opcode, Rd, Funct3, Rs1, Rs2, Funct7, ImmI, ImmS, ImmB, ImmU, ImmJ;
  }

  lemma ListedShift(w: Word)
    requires Opcode(w) == 0x13 && (Funct3(w) == 1 || Funct3(w) == 5)
    ensures Listed(DecodeInsn(w), w)
  {
    hide Opcode, Rd, Funct3, Rs1, Rs2, Funct7, ImmI, ImmS, ImmB, ImmU, ImmJ;
  }

  lemma ListedOpImm(w: Word)
    requires Opcode(w) == 0x13 && Funct3(w) != 1 && Funct3(w) != 5
    ensures Listed(DecodeInsn(w), w)
  {
    hide Opcode, Rd, Funct3, Rs1, Rs2, Funct7, ImmI, ImmS, ImmB, ImmU, ImmJ;
    Funct3Below8(w);
  }

  lemma ListedOp(w: Word)
    requires Opcode(w) == 0x33
    ensures Listed(DecodeInsn(w), w)
  {
    hide Opcode, Rd, Funct3, Rs1, Rs2, Funct7, ImmI, ImmS, ImmB, ImmU, ImmJ;
    Funct3Below8(w);
  }

  lemma ListedOther(w: Word)
    requires Opcode(w) != 0x63 && Opcode(w) != 0x03 && Opcode(w) != 0x23 && Opcode(w) != 0x13 && Opcode(w) != 0x33
    ensures Listed(DecodeInsn(w), w)
  {
    hide Opcode, Rd, Funct3, Rs1, Rs2, Funct7, ImmI, ImmS, ImmB, ImmU, ImmJ;
  }

  /** A word that is decoded as an instruction has the codes of that instruction. */
  lemma OnlyListed(w: Word)
    ensures Listed(DecodeInsn(w), w)
  {
    hide *;
    if Opcode(w) == 0x63 {
      ListedBranch(w);
    } else if Opcode(w) == 0x03 {
      ListedLoad(w);
    } else if Opcode(w) == 0x23 {
      ListedStore(w);
    } else if Opcode(w) == 0x13 {
      if Funct3(w) == 1 || Funct3(w) == 5 {
        ListedShift(w);
      } else {
        ListedOpImm(w);
      }
    } else if Opcode(w) == 0x33 {
      ListedOp(w);
    } else {
      ListedOther(w);
    }
  }
}
