/** What the words, registers, bytes and comparisons of the RV32I definition are, in plain arithmetic. */
module Rv32Facts {
  import opened Rv32Words
  import Isa = Rv32Isa
  import opened PipelineStages

  // ---- signed comparison ----

  /** Moving both operands by 2^31 turns signed into unsigned comparison. */
  function Biased(x: Word): int { (x as int + 0x8000_0000) % 0x1_0000_0000 }

  /** The signed value of a word is the one number of the signed range with the same 32 bits. */
  lemma SignedIs(x: Word)
    ensures -0x8000_0000 <= Signed(x) < 0x8000_0000
    ensures Signed(x) == x as int || Signed(x) == x as int - 0x1_0000_0000
  {
  }

  lemma Moved(n: int, s: int)
    requires 0 <= n < 0x1_0000_0000 && -0x8000_0000 <= s < 0x8000_0000
    requires s == n || s == n - 0x1_0000_0000
    ensures (n + 0x8000_0000) % 0x1_0000_0000 == s + 0x8000_0000
  {
  }

  lemma BiasedIs(x: Word)
    ensures Biased(x) == Signed(x) + 0x8000_0000
  {
    hide Signed;
    SignedIs(x);
    Moved(x as int, Signed(x));
  }

  lemma SignedOrder(a: Word, b: Word)
    ensures Signed(a) < Signed(b) <==> Biased(a) < Biased(b)
  {
    hide Signed, Biased;
    BiasedIs(a);
    BiasedIs(b);
  }

  lemma IsaComparesSigned(a: Word, b: Word)
    ensures Isa.Taken(Isa.Lt, a, b) <==> Biased(a) < Biased(b)
    ensures Isa.Taken(Isa.Ge, a, b) <==> Biased(a) >= Biased(b)
    ensures Isa.Compute(Isa.Slt, a, b) == if Biased(a) < Biased(b) then 1 else 0
  {
    hide Signed, Biased;
    SignedOrder(a, b);
  }

  lemma CoreComparesSigned(w: Word, a: Word, b: Word)
    ensures IsB(w) && Funct3(w) == 4 ==> (NeedJump(w, a, b) <==> Biased(a) < Biased(b))
    ensures IsB(w) && Funct3(w) == 5 ==> (NeedJump(w, a, b) <==> Biased(a) >= Biased(b))
    ensures Alu(FSlt, a, b) == if Biased(a) < Biased(b) then 1 else 0
  {
    hide Signed, Biased, Funct3;
    SignedOrder(a, b);
  }

  // ---- arithmetic ----

  function Sub32(x: Word, y: Word): Word { x - y }

  /** Addition is what subtraction undoes. */
  lemma AddIs(x: Word, y: Word)
    ensures Sub32(Add32(x, y), y) == x
  {
    hide *;
    AddUnfold(x, y);
    SubOfSum(x, y);
  }

  lemma AddUnfold(x: Word, y: Word)
    ensures Add32(x, y) == x + y
  {
  }

  lemma SubOfSum(x: Word, y: Word)
    ensures Sub32(x + y, y) == x
  {
  }

  /** The places that a shift by `n` to the right leaves to the operand, and the word with all of them set. */
  function Kept(x: Word, n: bv5): Word { x & (0xffff_ffff >> n) }
  function Filled(x: Word, n: bv5): Word { x | (0xffff_ffff >> n) }

  /** An arithmetic shift moves every bit down `n` places and puts copies of the sign bit above them. */
  lemma SraIs(x: Word, n: bv5)
    ensures Kept(Sra(x, n), n) == x >> n
    ensures Filled(Sra(x, n), n) == if x & 0x8000_0000 == 0 then 0xffff_ffff >> n else 0xffff_ffff
  {
    hide *;
    if x & 0x8000_0000 == 0 {
      SraPositive(x, n);
      KeptShift(x, n);
      FilledShift(x, n);
    } else {
      SraNegative(x, n);
      KeptOnes(x, n);
      FilledOnes(x, n);
    }
  }

  lemma SraPositive(x: Word, n: bv5)
    requires x & 0x8000_0000 == 0
    ensures Sra(x, n) == x >> n
  {
  }

  lemma SraNegative(x: Word, n: bv5)
    requires x & 0x8000_0000 != 0
    ensures Sra(x, n) == !(!x >> n)
  {
  }

  lemma KeptShift(x: Word, n: bv5)
    ensures Kept(x >> n, n) == x >> n
  {
  }

  lemma FilledShift(x: Word, n: bv5)
    ensures Filled(x >> n, n) == 0xffff_ffff >> n
  {
  }

  lemma KeptOnes(x: Word, n: bv5)
    ensures Kept(!(!x >> n), n) == x >> n
  {
  }

  lemma FilledOnes(x: Word, n: bv5)
    ensures Filled(!(!x >> n), n) == 0xffff_ffff
  {
  }

  lemma ClearedBit(x: Word)
    ensures ClearBit0(x) & 1 == 0 && ClearBit0(x) | (x & 1) == x
  {
  }

  // ---- registers ----

  lemma ReadAfterWrite(regs: RegFile, r: RegNo, v: Word, q: RegNo)
    ensures ReadReg(WriteReg(regs, r, v), q) == if q == 0 then 0 else if q == r then v else ReadReg(regs, q)
  {
  }

  // ---- memory ----

  function Number(x: Word): nat { x as nat }

  lemma NumberBack(x: Word)
    ensures Number(x) < 0x1_0000_0000 && Number(x) as Word == x
  {
  }

  lemma SameNumber(x: Word, y: Word)
    requires Number(x) == Number(y)
    ensures x == y
  {
    hide *;
    NumberBack(x);
    NumberBack(y);
  }

  /** Byte `i` after an address is the first byte of the address `i` further on. */
  lemma ByteAtIs(a: Word, i: Word)
    ensures ByteAt(a, 0) == Number(a) && ByteAt(a, i) == ByteAt(Add32(a, i), 0)
  {
  }

  lemma FourAddresses(a: Word)
    ensures Add32(a, 1) != Add32(a, 0) && Add32(a, 2) != Add32(a, 0) && Add32(a, 3) != Add32(a, 0)
    ensures Add32(a, 2) != Add32(a, 1) && Add32(a, 3) != Add32(a, 1) && Add32(a, 3) != Add32(a, 2)
  {
  }

  lemma ByteAtNumber(a: Word, i: Word)
    ensures ByteAt(a, i) == Number(Add32(a, i))
  {
  }

  lemma ByteAtOther(a: Word, i: Word, j: Word)
    requires Add32(a, i) != Add32(a, j)
    ensures ByteAt(a, i) != ByteAt(a, j)
  {
    hide *;
    ByteAtNumber(a, i);
    ByteAtNumber(a, j);
    if ByteAt(a, i) == ByteAt(a, j) {
      SameNumber(Add32(a, i), Add32(a, j));
    }
  }

  lemma FourBytes(a: Word)
    ensures ByteAt(a, 0) != ByteAt(a, 1) && ByteAt(a, 0) != ByteAt(a, 2) && ByteAt(a, 0) != ByteAt(a, 3)
    ensures ByteAt(a, 1) != ByteAt(a, 2) && ByteAt(a, 1) != ByteAt(a, 3) && ByteAt(a, 2) != ByteAt(a, 3)
  {
    hide *;
    FourAddresses(a);
    ByteAtOther(a, 0, 1);
    ByteAtOther(a, 0, 2);
    ByteAtOther(a, 0, 3);
    ByteAtOther(a, 1, 2);
    ByteAtOther(a, 1, 3);
    ByteAtOther(a, 2, 3);
  }

  lemma BytesOfWord(mem: Mem, a: Word)
    ensures ReadWord(mem, a) & 0xff == ReadByte(mem, ByteAt(a, 0)) as Word
    ensures (ReadWord(mem, a) >> 8) & 0xff == ReadByte(mem, ByteAt(a, 1)) as Word
    ensures (ReadWord(mem, a) >> 16) & 0xff == ReadByte(mem, ByteAt(a, 2)) as Word
    ensures ReadWord(mem, a) >> 24 == ReadByte(mem, ByteAt(a, 3)) as Word
  {
  }

  /** A store of 1, 2 or 4 bytes: the low bytes of the value, least significant first, and nothing else. */
  lemma StoredBytes(mem: Mem, a: Word, v: Word, len: nat, x: nat)
    requires len in {1, 2, 4}
    ensures ReadByte(WriteBytes(mem, a, v, len), x) ==
      if x == ByteAt(a, 0) then (v & 0xff) as bv8
      else if len > 1 && x == ByteAt(a, 1) then ((v >> 8) & 0xff) as bv8
      else if len > 2 && x == ByteAt(a, 2) then ((v >> 16) & 0xff) as bv8
      else if len > 2 && x == ByteAt(a, 3) then ((v >> 24) & 0xff) as bv8
      else ReadByte(mem, x)
  {
    FourBytes(a);
    hide ByteAt;
  }
}
