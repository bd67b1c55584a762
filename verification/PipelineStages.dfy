/**
  * The combinational logic of the five-stage core: every function here is one output of one
  * Verilog module, written over the outputs of the stage registers.
  */
module PipelineStages {
  import opened Rv32Words

  datatype ASel = SelValA | SelPc | SelZero
  datatype BSel = SelValB | SelImm
  datatype AluFunc = FAdd | FSub | FSll | FSlt | FSltu | FXor | FSrl | FSra | FOr | FAnd
  datatype MemRw = Lb | Lbu | Lh | Lhu | Lw | Sb | Sh | Sw | NoRw
  datatype ValD = FromE | FromM | FromP

  const NOP: Word := 0x13

  // ---- decode: signals that depend on the instruction word alone ----

  predicate IsLogicImm(w: Word) { Opcode(w) == 0x13 }
  predicate IsLoadOp(w: Word) { Opcode(w) == 0x03 }
  predicate IsCsr(w: Word) { Opcode(w) == 0x73 }
  predicate IsJalr(w: Word) { Opcode(w) == 0x67 }
  predicate IsI(w: Word) { IsLogicImm(w) || IsLoadOp(w) || IsCsr(w) || IsJalr(w) }
  predicate IsR(w: Word) { Opcode(w) == 0x33 }
  predicate IsB(w: Word) { Opcode(w) == 0x63 }
  predicate IsS(w: Word) { Opcode(w) == 0x23 }
  predicate IsJ(w: Word) { Opcode(w) == 0x6f }
  predicate IsLui(w: Word) { Opcode(w) == 0x37 }
  predicate IsAuipc(w: Word) { Opcode(w) == 0x17 }
  predicate IsU(w: Word) { IsLui(w) || IsAuipc(w) }

  /** The sign bit repeated over the top twenty bits. */
  function Sign20(w: Word): Word { if w & 0x8000_0000 == 0 then 0 else 0xffff_f000 }

  function HwImmU(w: Word): Word { (w >> 12) << 12 }
  function HwImmI(w: Word): Word { Sign20(w) | (w >> 20) }
  function HwShamt(w: Word): Word { (w >> 20) & 0x1f }
  function HwImmS(w: Word): Word { Sign20(w) | ((w >> 25) << 5) | ((w >> 7) & 0x1f) }
  function HwImmB(w: Word): Word {
    (Sign20(w) | ((w >> 31) << 11) | (((w >> 7) & 1) << 10) | (((w >> 25) & 0x3f) << 4) | ((w >> 8) & 0xf)) << 1
  }
  function HwImmJ(w: Word): Word {
    ((Sign20(w) & 0xfff0_0000) | ((w >> 31) << 19) | (((w >> 12) & 0xff) << 11) | (((w >> 20) & 1) << 10) |
     ((w >> 21) & 0x3ff)) << 1
  }

  function EffRs1(w: Word): RegNo {
    if IsU(w) || IsJ(w) then 0 else if IsI(w) || IsB(w) || IsS(w) || IsR(w) then Rs1(w) else 0
  }

  function EffRs2(w: Word): RegNo {
    if IsI(w) || IsU(w) || IsJ(w) then 0 else if IsB(w) || IsS(w) || IsR(w) then Rs2(w) else 0
  }

  function Imm(w: Word): Word {
    if IsR(w) then 0
    else if IsU(w) then HwImmU(w)
    else if IsI(w) then
      if IsLogicImm(w) && (Funct3(w) == 1 || (Funct3(w) == 5 && (Funct7(w) == 0 || Funct7(w) == 0x20)))
      then HwShamt(w) else HwImmI(w)
    else if IsS(w) then HwImmS(w)
    else if IsB(w) then HwImmB(w)
    else if IsJ(w) then HwImmJ(w)
    else 0
  }

  function AluASel(w: Word): ASel {
    if IsI(w) || IsR(w) || IsS(w) then SelValA
    else if IsJ(w) || IsB(w) || IsAuipc(w) then SelPc
    else SelZero
  }

  function AluBSel(w: Word): BSel {
    if IsR(w) then SelValB
    else if IsI(w) || IsS(w) || IsB(w) || IsU(w) || IsJ(w) then SelImm
    else SelValB
  }

  function AluFuncSel(w: Word): AluFunc {
    var r, i, f3, f7 := IsR(w), IsLogicImm(w), Funct3(w), Funct7(w);
    if (r && f3 == 0 && f7 == 0) || (i && f3 == 0) then FAdd
    else if r && f3 == 0 && f7 == 0x20 then FSub
    else if (r || i) && f3 == 1 then FSll
    else if (r || i) && f3 == 2 then FSlt
    else if (r || i) && f3 == 3 then FSltu
    else if (r || i) && f3 == 4 then FXor
    else if (r || i) && f3 == 5 && f7 == 0 then FSrl
    else if (r || i) && f3 == 5 && f7 == 0x20 then FSra
    else if (r || i) && f3 == 6 then FOr
    else if (r || i) && f3 == 7 then FAnd
    else FAdd
  }

  function MemRwSel(w: Word): MemRw {
    if w == 0x0000_a023 then NoRw
    else if IsLoadOp(w) && Funct3(w) == 0 then Lb
    else if IsLoadOp(w) && Funct3(w) == 4 then Lbu
    else if IsLoadOp(w) && Funct3(w) == 1 then Lh
    else if IsLoadOp(w) && Funct3(w) == 5 then Lhu
    else if IsLoadOp(w) && Funct3(w) == 2 then Lw
    else if IsS(w) && Funct3(w) == 0 then Sb
    else if IsS(w) && Funct3(w) == 1 then Sh
    else if IsS(w) && Funct3(w) == 2 then Sw
    else NoRw
  }

  predicate RegWen(w: Word) { IsI(w) || IsR(w) || IsU(w) || IsJ(w) }

  function ValDSel(w: Word): ValD {
    if IsR(w) || IsLogicImm(w) || IsU(w) then FromE
    else if IsLoadOp(w) then FromM
    else if IsJalr(w) || IsJ(w) then FromP
    else FromM
  }

  /** The branch decision, taken in the decode stage on the forwarded operands. */
  predicate NeedJump(w: Word, a: Word, b: Word) {
    var f3 := Funct3(w);
    if IsB(w) && f3 == 0 && a == b then true
    else if IsB(w) && f3 == 1 && a != b then true
    else if IsB(w) && f3 == 4 && Signed(a) < Signed(b) then true
    else if IsB(w) && f3 == 5 && Signed(a) >= Signed(b) then true
    else if IsB(w) && f3 == 6 && a < b then true
    else if IsB(w) && f3 == 7 && a >= b then true
    else IsJ(w) || IsJalr(w)
  }

  // ---- execute ----

  function Alu(func: AluFunc, a: Word, b: Word): Word {
    var sh := (b & 0x1f) as bv5;
    match func
    case FAdd => Add32(a, b)
    case FSub => a - b
    case FSll => a << sh
    case FSlt => if Signed(a) < Signed(b) then 1 else 0
    case FSltu => if a < b then 1 else 0
    case FXor => a ^ b
    case FSrl => a >> sh
    case FSra => Sra(a, sh)
    case FOr => a | b
    case FAnd => a & b
  }

  function ValE(aSel: ASel, bSel: BSel, func: AluFunc, valA: Word, valB: Word, imm: Word, pc: Word): Word {
    var a := match aSel case SelValA => valA case SelPc => pc case SelZero => 0;
    var b := match bSel case SelValB => valB case SelImm => imm;
    Alu(func, a, b)
  }

  /** The next pc reported when the instruction commits; only here is bit 0 of a jalr target cleared. */
  function CommitNextPc(isJalr: bool, needJump: bool, valE: Word, prePc: Word): Word {
    if isJalr then ClearBit0(valE) else if needJump then valE else prePc
  }

  // ---- memory ----

  predicate IsLoad(rw: MemRw) { rw in {Lb, Lh, Lw, Lbu, Lhu} }
  predicate IsStore(rw: MemRw) { rw in {Sb, Sh, Sw} }

  /** The value loaded for `rw` out of the word at the effective address. */
  function Extract(rw: MemRw, tmp: Word): Word {
    match rw
    case Lb => if tmp & 0x80 == 0 then tmp & 0xff else (tmp & 0xff) | 0xffff_ff00
    case Lh => if tmp & 0x8000 == 0 then tmp & 0xffff else (tmp & 0xffff) | 0xffff_0000
    case Lbu => tmp & 0xff
    case Lhu => tmp & 0xffff
    case _ => tmp
  }

  function ValM(rw: MemRw, mem: Mem, addr: Word): Word {
    Extract(rw, if IsLoad(rw) then ReadWord(mem, addr) else 0)
  }

  function MemAfter(rw: MemRw, mem: Mem, addr: Word, data: Word): Mem {
    match rw
    case Sb => WriteBytes(mem, addr, data, 1)
    case Sh => WriteBytes(mem, addr, data, 2)
    case Sw => WriteBytes(mem, addr, data, 4)
    case _ => mem
  }

  // ---- write back ----

  function WbValue(sel: ValD, valE: Word, valM: Word, pc: Word): Word {
    match sel case FromE => valE case FromP => Add32(pc, 4) case FromM => valM
  }

  // ---- control ----

  predicate LoadUse(rd: RegNo, rw: MemRw, rs1: RegNo, rs2: RegNo) {
    (rd == rs1 || rd == rs2) && IsLoad(rw)
  }
}
