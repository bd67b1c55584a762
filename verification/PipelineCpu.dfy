/** The stage registers and the whole core, clocked. */
module PipelineCpu {
  import opened Rv32Words
  import opened PipelineStages

  // ---- the contents of the stage registers, and one clock edge as a function of them ----

  datatype StageD = StageD(instr: Word, commit: bool, pc: Word, prePc: Word)

  datatype StageE = StageE(valA: Word, valB: Word, imm: Word, aSel: ASel, bSel: BSel, func: AluFunc, memRw: MemRw,
                           wen: bool, rd: RegNo, valD: ValD, needJump: bool, isJalr: bool,
                           instr: Word, commit: bool, pc: Word, prePc: Word)

  datatype StageM = StageM(valE: Word, valB: Word, memRw: MemRw, wen: bool, rd: RegNo, valD: ValD,
                           instr: Word, commit: bool, pc: Word, prePc: Word)

  datatype StageW = StageW(wen: bool, rd: RegNo, valD: ValD, valE: Word, valM: Word,
                           instr: Word, commit: bool, pc: Word, prePc: Word)

  datatype State = State(pcF: Word, d: StageD, e: StageE, m: StageM, w: StageW, regs: RegFile, mem: Mem)

  const BubbleD := StageD(NOP, false, 0, 0)

  /** A bubble in the execute stage keeps the old instruction word, as the Verilog does. */
  function BubbleE(instr: Word): StageE {
    StageE(0, 0, 0, SelValA, SelValB, FAdd, NoRw, false, 0, FromE, false, false, instr, false, 0, 0)
  }

  function ExeValE(e: StageE): Word { ValE(e.aSel, e.bSel, e.func, e.valA, e.valB, e.imm, e.pc) }
  function MemValM(m: StageM, mem: Mem): Word { ValM(m.memRw, mem, m.valE) }
  function WbValD(w: StageW): Word { WbValue(w.valD, w.valE, w.valM, w.pc) }

  predicate LoadUseHazard(s: State) { LoadUse(s.e.rd, s.e.memRw, EffRs1(s.d.instr), EffRs2(s.d.instr)) }

  /** An operand: the youngest producer still in flight, else the register file. There is no path from
      the memory stage for a pc + 4 result. */
  function Operand(s: State, eff: RegNo, raw: RegNo): Word {
    if eff == s.e.rd && s.e.rd != 0 && s.e.wen then ExeValE(s.e)
    else if eff == s.m.rd && s.m.rd != 0 && s.m.wen && s.m.valD == FromM then MemValM(s.m, s.mem)
    else if eff == s.m.rd && s.m.rd != 0 && s.m.wen && s.m.valD == FromE then s.m.valE
    else if eff == s.w.rd && s.w.rd != 0 && s.w.wen && s.w.valD == FromE then s.w.valE
    else if eff == s.w.rd && s.w.rd != 0 && s.w.wen && s.w.valD == FromM then s.w.valM
    else if eff == s.w.rd && s.w.rd != 0 && s.w.wen && s.w.valD == FromP then Add32(s.w.pc, 4)
    else ReadReg(s.regs, raw)
  }

  function NextF(s: State): Word {
    if LoadUseHazard(s) then s.pcF
    else if s.e.needJump then ExeValE(s.e)
    else Add32(s.pcF, 4)
  }

  function NextD(s: State): StageD {
    if s.e.needJump then BubbleD
    else if LoadUseHazard(s) then s.d
    else StageD(ReadWord(s.mem, s.pcF), true, s.pcF, Add32(s.pcF, 4))
  }

  /** The instruction in decode, on its way into the execute stage with operands `a` and `b`. */
  function Issue(d: StageD, a: Word, b: Word): StageE {
    var w := d.instr;
    StageE(a, b, Imm(w), AluASel(w), AluBSel(w), AluFuncSel(w), MemRwSel(w), RegWen(w), Rd(w), ValDSel(w),
           NeedJump(w, a, b), IsJalr(w), w, d.commit, d.pc, d.prePc)
  }

  function NextE(s: State): StageE {
    if s.e.needJump || LoadUseHazard(s) then BubbleE(s.e.instr)
    else Issue(s.d, Operand(s, EffRs1(s.d.instr), Rs1(s.d.instr)), Operand(s, EffRs2(s.d.instr), Rs2(s.d.instr)))
  }

  function NextM(e: StageE): StageM {
    StageM(ExeValE(e), e.valB, e.memRw, e.wen, e.rd, e.valD, e.instr, e.commit, e.pc,
           CommitNextPc(e.isJalr, e.needJump, ExeValE(e), e.prePc))
  }

  function NextW(m: StageM, mem: Mem): StageW {
    StageW(m.wen, m.rd, m.valD, m.valE, MemValM(m, mem), m.instr, m.commit, m.pc, m.prePc)
  }

  function NextRegs(w: StageW, regs: RegFile): RegFile {
    if w.wen && w.rd != 0 then regs[w.rd := WbValD(w)] else regs
  }

  function NextMem(m: StageM, mem: Mem): Mem { MemAfter(m.memRw, mem, m.valE, m.valB) }

  /** One clock edge out of reset. */
  function Tick(s: State): State {
    State(NextF(s), NextD(s), NextE(s), NextM(s.e), NextW(s.m, s.mem), NextRegs(s.w, s.regs), NextMem(s.m, s.mem))
  }

  /** One clock edge with reset held: the stages empty, the register file keeps all but register 0,
      and a store already in the memory stage still happens. */
  function ResetTick(s: State): State {
    State(0x8000_0000, BubbleD, BubbleE(s.e.instr),
          StageM(0, 0, NoRw, false, 0, FromE, s.m.instr, false, 0, 0),
          StageW(false, 0, FromE, 0, 0, s.w.instr, false, 0, s.w.prePc),
          s.regs[0 := 0], NextMem(s.m, s.mem))
  }

  function Cycles(s: State, n: nat): State {
    if n == 0 then s else Tick(Cycles(s, n - 1))
  }

  // ---- the core as a clocked object ----

  /** The stage registers, the register file and the data memory. */
  class Cpu {
    var pcF: Word
    var d: StageD
    var e: StageE
    var m: StageM
    var w: StageW
    var regs: RegFile
    var mem: Mem

    constructor (s: State)
      ensures Now() == s
    {
      pcF, d, e, m, w, regs, mem := s.pcF, s.d, s.e, s.m, s.w, s.regs, s.mem;
    }

    function Now(): State
      reads this
    {
      State(pcF, d, e, m, w, regs, mem)
    }

    /** One clock edge: every wire is computed from the old register contents, then every register
        takes its next value. */
    method Posedge(rst: bool)
      modifies this
      ensures Now() == if rst then ResetTick(old(Now())) else Tick(old(Now()))
    {
      hide ExeValE, MemAfter, WbValD, LoadUse, NextM, NextW, ReadWord, EffRs1, EffRs2, Rs1, Rs2, Operand, Issue;
      var loadUse := LoadUse(e.rd, e.memRw, EffRs1(d.instr), EffRs2(d.instr));
      var branchBubble := e.needJump;
      var selectedPc := if branchBubble then ExeValE(e) else Add32(pcF, 4);
      var fetched := StageD(ReadWord(mem, pcF), true, pcF, Add32(pcF, 4));
      var valA := Operand(Now(), EffRs1(d.instr), Rs1(d.instr));
      var valB := Operand(Now(), EffRs2(d.instr), Rs2(d.instr));
      var decoded, executed, loaded := Issue(d, valA, valB), NextM(e), NextW(m, mem);

      regs := if rst then regs[0 := 0] else NextRegs(w, regs);
      mem := NextMem(m, mem);  // not gated by reset
      pcF := if rst then 0x8000_0000 else if loadUse then pcF else selectedPc;
      d := if rst || branchBubble then StageD(0x13, false, 0, 0) else if loadUse then d else fetched;
      w := if rst then w.(wen := false, rd := 0, valD := FromE, valE := 0, pc := 0, commit := false, valM := 0)
           else loaded;
      m := if rst then m.(valE := 0, memRw := NoRw, wen := false, rd := 0, valD := FromE, valB := 0,
                          pc := 0, commit := false, prePc := 0)
           else executed;
      e := if rst || branchBubble || loadUse
           then e.(valA := 0, valB := 0, imm := 0, aSel := SelValA, bSel := SelValB, func := FAdd, memRw := NoRw,
                   wen := false, rd := 0, valD := FromE, needJump := false, isJalr := false,
                   commit := false, pc := 0, prePc := 0)  // the instruction word stays
           else decoded;
    }
  }
}
