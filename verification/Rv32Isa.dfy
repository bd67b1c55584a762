/** Words, register numbers and byte-addressed little-endian memory of a 32-bit RISC-V machine. */
module Rv32Words {
  type Word = bv32
  type RegNo = n: nat | n < 32

  /** Registers that were never written read as zero, and so does x0. */
  type RegFile = map<RegNo, Word>

  /** Bytes that were never written read as zero. */
  type Mem = map<nat, bv8>

  function ReadReg(regs: RegFile, r: RegNo): Word {
    if r == 0 || r !in regs then 0 else regs[r]
  }

  function WriteReg(regs: RegFile, r: RegNo, v: Word): RegFile {
    if r == 0 then regs else regs[r := v]
  }

  /** The address `i` bytes past `a`, wrapping around. */
  function ByteAt(a: Word, i: Word): nat { (a + i) as nat }

  function ReadByte(mem: Mem, x: nat): bv8 {
    if x in mem then mem[x] else 0
  }

  function WriteByte(mem: Mem, x: nat, v: Word): Mem {
    mem[x := (v & 0xff) as bv8]
  }

  function Little(b0: bv8, b1: bv8, b2: bv8, b3: bv8): Word {
    (b0 as Word) | ((b1 as Word) << 8) | ((b2 as Word) << 16) | ((b3 as Word) << 24)
  }

  function ReadWord(mem: Mem, a: Word): Word {
    Little(ReadByte(mem, ByteAt(a, 0)), ReadByte(mem, ByteAt(a, 1)), ReadByte(mem, ByteAt(a, 2)), ReadByte(mem, ByteAt(a, 3)))
  }

  /** Stores the `len` low bytes of `v`; `len` is 1, 2 or 4. */
  function WriteBytes(mem: Mem, a: Word, v: Word, len: nat): Mem {
    var m1 := WriteByte(mem, ByteAt(a, 0), v);
    if len == 1 then m1
    else
      var m2 := WriteByte(m1, ByteAt(a, 1), v >> 8);
      if len == 2 then m2
      else WriteByte(WriteByte(m2, ByteAt(a, 2), v >> 16), ByteAt(a, 3), v >> 24)
  }

  /** Memories that no load can tell apart. */
  ghost predicate SameMemory(m: Mem, m': Mem) { forall x :: ReadByte(m, x) == ReadByte(m', x) }

  /** Addition modulo 2^32. */
  function Add32(x: Word, y: Word): Word { x + y }

  function ClearBit0(x: Word): Word { x & 0xffff_fffe }

  /** The two's-complement value of a word. */
  function Signed(x: Word): int {
    if x < 0x8000_0000 then x as int else x as int - 0x1_0000_0000
  }

  /** Arithmetic right shift. */
  function Sra(x: Word, n: bv5): Word {
    if x & 0x8000_0000 == 0 then x >> n else !(!x >> n)
  }

  // Instruction fields
  function Opcode(w: Word): Word { w & 0x7f }
  function Rd(w: Word): RegNo { ((w >> 7) & 0x1f) as bv5 as nat }
  function Funct3(w: Word): Word { (w >> 12) & 0x7 }
  function Rs1(w: Word): RegNo { ((w >> 15) & 0x1f) as bv5 as nat }
  function Rs2(w: Word): RegNo { ((w >> 20) & 0x1f) as bv5 as nat }
  function Funct7(w: Word): Word { w >> 25 }
}

/**
  * RV32I as the RISC-V Unprivileged ISA defines it (chapter 2): one instruction at a time, with no
  * pipeline, no control signals and no forwarding.
  */
module Rv32Isa {
  import opened Rv32Words

  datatype AluOp = Add | Sub | Sll | Slt | Sltu | Xor | Srl | ShiftRa | Or | And
  datatype Cond = Eq | Ne | Lt | Ge | Ltu | Geu
  datatype Width = B | Bu | H | Hu | W

  datatype Insn =
    | Lui(rd: RegNo, imm: Word)
    | Auipc(rd: RegNo, imm: Word)
    | Jal(rd: RegNo, imm: Word)
    | Jalr(rd: RegNo, rs1: RegNo, imm: Word)
    | Branch(cond: Cond, rs1: RegNo, rs2: RegNo, imm: Word)
    | Load(width: Width, rd: RegNo, rs1: RegNo, imm: Word)
    | Store(len: nat, rs1: RegNo, rs2: RegNo, imm: Word)
    | OpImm(op: AluOp, rd: RegNo, rs1: RegNo, imm: Word)
    | Op(op: AluOp, rd: RegNo, rs1: RegNo, rs2: RegNo)
    | Fence
    | Environment  // ECALL and EBREAK: the environment acts, the registers and the memory stay
    | Illegal      // not an RV32I instruction (CSR accesses, RV32M and reserved encodings included)

  datatype Arch = Arch(pc: Word, regs: RegFile, mem: Mem)

  // Immediates, bit position by bit position (section 2.3)
  function ImmI(w: Word): Word { (Sra(w, 31) << 12) | (w >> 20) }
  function ImmS(w: Word): Word { (Sra(w, 31) << 12) | ((w >> 25) << 5) | ((w >> 7) & 0x1f) }
  function ImmB(w: Word): Word {
    (Sra(w, 31) << 12) | (((w >> 7) & 1) << 11) | (((w >> 25) & 0x3f) << 5) | (((w >> 8) & 0xf) << 1)
  }
  function ImmU(w: Word): Word { w & 0xffff_f000 }
  function ImmJ(w: Word): Word {
    (Sra(w, 31) << 20) | (w & 0xff000) | (((w >> 20) & 1) << 11) | (((w >> 21) & 0x3ff) << 1)
  }

  function DecodeOpImm(w: Word): Insn {
    var shamt := (w >> 20) & 0x1f;
    match Funct3(w)
    case 0 => OpImm(Add, Rd(w), Rs1(w), ImmI(w))
    case 1 => if Funct7(w) == 0 then OpImm(Sll, Rd(w), Rs1(w), shamt) else Illegal
    case 2 => OpImm(Slt, Rd(w), Rs1(w), ImmI(w))
    case 3 => OpImm(Sltu, Rd(w), Rs1(w), ImmI(w))
    case 4 => OpImm(Xor, Rd(w), Rs1(w), ImmI(w))
    case 5 =>
      if Funct7(w) == 0 then OpImm(Srl, Rd(w), Rs1(w), shamt)
      else if Funct7(w) == 0x20 then OpImm(ShiftRa, Rd(w), Rs1(w), shamt)
      else Illegal
    case 6 => OpImm(Or, Rd(w), Rs1(w), ImmI(w))
    case _ => OpImm(And, Rd(w), Rs1(w), ImmI(w))
  }

  function DecodeOp(w: Word): Insn {
    if Funct7(w) == 0 then
      var op := match Funct3(w)
        case 0 => Add case 1 => Sll case 2 => Slt case 3 => Sltu
        case 4 => Xor case 5 => Srl case 6 => Or case _ => And;
      Op(op, Rd(w), Rs1(w), Rs2(w))
    else if Funct7(w) == 0x20 && Funct3(w) == 0 then Op(Sub, Rd(w), Rs1(w), Rs2(w))
    else if Funct7(w) == 0x20 && Funct3(w) == 5 then Op(ShiftRa, Rd(w), Rs1(w), Rs2(w))
    else Illegal
  }

  function DecodeBranch(w: Word): Insn {
    match Funct3(w)
    case 0 => Branch(Eq, Rs1(w), Rs2(w), ImmB(w))
    case 1 => Branch(Ne, Rs1(w), Rs2(w), ImmB(w))
    case 4 => Branch(Lt, Rs1(w), Rs2(w), ImmB(w))
    case 5 => Branch(Ge, Rs1(w), Rs2(w), ImmB(w))
    case 6 => Branch(Ltu, Rs1(w), Rs2(w), ImmB(w))
    case 7 => Branch(Geu, Rs1(w), Rs2(w), ImmB(w))
    case _ => Illegal
  }

  function DecodeLoad(w: Word): Insn {
    match Funct3(w)
    case 0 => Load(B, Rd(w), Rs1(w), ImmI(w))
    case 1 => Load(H, Rd(w), Rs1(w), ImmI(w))
    case 2 => Load(W, Rd(w), Rs1(w), ImmI(w))
    case 4 => Load(Bu, Rd(w), Rs1(w), ImmI(w))
    case 5 => Load(Hu, Rd(w), Rs1(w), ImmI(w))
    case _ => Illegal
  }

  function DecodeStore(w: Word): Insn {
    match Funct3(w)
    case 0 => Store(1, Rs1(w), Rs2(w), ImmS(w))
    case 1 => Store(2, Rs1(w), Rs2(w), ImmS(w))
    case 2 => Store(4, Rs1(w), Rs2(w), ImmS(w))
    case _ => Illegal
  }

  function DecodeInsn(w: Word): Insn {
    match Opcode(w)
    case 0x37 => Lui(Rd(w), ImmU(w))
    case 0x17 => Auipc(Rd(w), ImmU(w))
    case 0x6f => Jal(Rd(w), ImmJ(w))
    case 0x67 => if Funct3(w) == 0 then Jalr(Rd(w), Rs1(w), ImmI(w)) else Illegal
    case 0x63 => DecodeBranch(w)
    case 0x03 => DecodeLoad(w)
    case 0x23 => DecodeStore(w)
    case 0x13 => DecodeOpImm(w)
    case 0x33 => DecodeOp(w)
    case 0x0f => Fence
    case 0x73 => if w == 0x0000_0073 || w == 0x0010_0073 then Environment else Illegal
    case _ => Illegal
  }

  function Compute(op: AluOp, a: Word, b: Word): Word {
    var shamt := (b & 0x1f) as bv5;
    match op
    case Add => Add32(a, b)
    case Sub => a - b
    case Sll => a << shamt
    case Slt => if Signed(a) < Signed(b) then 1 else 0
    case Sltu => if a < b then 1 else 0
    case Xor => a ^ b
    case Srl => a >> shamt
    case ShiftRa => Sra(a, shamt)
    case Or => a | b
    case And => a & b
  }

  predicate Taken(cond: Cond, a: Word, b: Word) {
    match cond
    case Eq => a == b
    case Ne => a != b
    case Lt => Signed(a) < Signed(b)
    case Ge => Signed(a) >= Signed(b)
    case Ltu => a < b
    case Geu => a >= b
  }

  function SignExtend8(b: bv8): Word { if b & 0x80 == 0 then b as Word else (b as Word) | 0xffff_ff00 }

  function SignExtend16(lo: bv8, hi: bv8): Word {
    if hi & 0x80 == 0 then Little(lo, hi, 0, 0) else Little(lo, hi, 0xff, 0xff)
  }

  function LoadValue(width: Width, mem: Mem, a: Word): Word {
    match width
    case B => SignExtend8(ReadByte(mem, ByteAt(a, 0)))
    case Bu => ReadByte(mem, ByteAt(a, 0)) as Word
    case H => SignExtend16(ReadByte(mem, ByteAt(a, 0)), ReadByte(mem, ByteAt(a, 1)))
    case Hu => Little(ReadByte(mem, ByteAt(a, 0)), ReadByte(mem, ByteAt(a, 1)), 0, 0)
    case W => ReadWord(mem, a)
  }

  /** The architectural effect of one instruction. */
  function Execute(i: Insn, a: Arch): Arch {
    var next := Add32(a.pc, 4);
    match i
    case Lui(rd, imm) => Arch(next, WriteReg(a.regs, rd, imm), a.mem)
    case Auipc(rd, imm) => Arch(next, WriteReg(a.regs, rd, Add32(a.pc, imm)), a.mem)
    case Jal(rd, imm) => Arch(Add32(a.pc, imm), WriteReg(a.regs, rd, next), a.mem)
    case Jalr(rd, rs1, imm) => Arch(ClearBit0(Add32(ReadReg(a.regs, rs1), imm)), WriteReg(a.regs, rd, next), a.mem)
    case Branch(cond, rs1, rs2, imm) =>
      if Taken(cond, ReadReg(a.regs, rs1), ReadReg(a.regs, rs2)) then a.(pc := Add32(a.pc, imm)) else a.(pc := next)
    case Load(width, rd, rs1, imm) =>
      Arch(next, WriteReg(a.regs, rd, LoadValue(width, a.mem, Add32(ReadReg(a.regs, rs1), imm))), a.mem)
    case Store(len, rs1, rs2, imm) =>
      Arch(next, a.regs, WriteBytes(a.mem, Add32(ReadReg(a.regs, rs1), imm), ReadReg(a.regs, rs2), len))
    case OpImm(op, rd, rs1, imm) => Arch(next, WriteReg(a.regs, rd, Compute(op, ReadReg(a.regs, rs1), imm)), a.mem)
    case Op(op, rd, rs1, rs2) =>
      Arch(next, WriteReg(a.regs, rd, Compute(op, ReadReg(a.regs, rs1), ReadReg(a.regs, rs2))), a.mem)
    case Fence => a.(pc := next)
    case Environment => a.(pc := next)
    case Illegal => a.(pc := next)
  }

  /** States that no program can tell apart. */
  ghost predicate SameArch(a: Arch, b: Arch) { a.pc == b.pc && a.regs == b.regs && SameMemory(a.mem, b.mem) }

  /** The source registers of an instruction. */
  function Sources(i: Insn): set<RegNo> {
    match i
    case Jalr(_, rs1, _) => {rs1}
    case Branch(_, rs1, rs2, _) => {rs1, rs2}
    case Load(_, _, rs1, _) => {rs1}
    case Store(_, rs1, rs2, _) => {rs1, rs2}
    case OpImm(_, _, rs1, _) => {rs1}
    case Op(_, _, rs1, rs2) => {rs1, rs2}
    case _ => {}
  }

  function Fetch(a: Arch): Word { ReadWord(a.mem, a.pc) }

  function Step(a: Arch): Arch {
    Execute(DecodeInsn(Fetch(a)), a)
  }

  /** The state in which instruction number `i` of the run from `a` executes. */
  function Run(a: Arch, i: nat): Arch {
    if i == 0 then a else Step(Run(a, i - 1))
  }
}
