/** A reader of 16-bit instructions written from chapter 16 of the RISC-V Unprivileged ISA
    (20191213), giving the base instruction each expands to. */
module Decode16 {
  import opened Isa
  import opened Bits

  function Quadrant(h: bv16): bv16 { h & 3 }
  function CFunct3(h: bv16): bv16 { h >> 13 }
  function Bit12(h: bv16): bv16 { (h >> 12) & 1 }
  function Funct2(h: bv16): bv16 { (h >> 10) & 3 }
  function Funct2Low(h: bv16): bv16 { (h >> 5) & 3 }
  function CRd(h: bv16): Reg { ((h >> 7) & 0x1F) as bv5 }
  function CRs2(h: bv16): Reg { ((h >> 2) & 0x1F) as bv5 }
  function PrimeHigh(h: bv16): Reg { (((h >> 7) & 0x7) | 8) as bv5 }
  function PrimeLow(h: bv16): Reg { (((h >> 2) & 0x7) | 8) as bv5 }

  // Immediates: bits 12:2 sent to the places chapter 16 gives them.
  function At(h: bv16, hi: bv8, lo: bv8, place: bv8): bv32
    requires lo <= hi <= 15 && place <= 12
  {
    (((h as bv32) >> lo) & (((1 as bv32) << (hi - lo + 1)) - 1)) << place
  }
  function CiImm(h: bv16): bv32 { At(h, 12, 12, 5) | At(h, 6, 2, 0) }
  function Addi16spImm(h: bv16): bv32 { At(h, 12, 12, 9) | At(h, 6, 6, 4) | At(h, 5, 5, 6) | At(h, 4, 3, 7) | At(h, 2, 2, 5) }
  function Addi4spnImm(h: bv16): bv32 { At(h, 12, 11, 4) | At(h, 10, 7, 6) | At(h, 6, 6, 2) | At(h, 5, 5, 3) }
  function LwspImm(h: bv16): bv32 { At(h, 12, 12, 5) | At(h, 6, 4, 2) | At(h, 3, 2, 6) }
  function LdspImm(h: bv16): bv32 { At(h, 12, 12, 5) | At(h, 6, 5, 3) | At(h, 4, 2, 6) }
  function SwspImm(h: bv16): bv32 { At(h, 12, 9, 2) | At(h, 8, 7, 6) }
  function SdspImm(h: bv16): bv32 { At(h, 12, 10, 3) | At(h, 9, 7, 6) }
  function WordImm(h: bv16): bv32 { At(h, 12, 10, 3) | At(h, 6, 6, 2) | At(h, 5, 5, 6) }
  function DoubleImm(h: bv16): bv32 { At(h, 12, 10, 3) | At(h, 6, 5, 6) }
  function BranchImm(h: bv16): bv32 {
    At(h, 12, 12, 8) | At(h, 11, 10, 3) | At(h, 6, 5, 6) | At(h, 4, 3, 1) | At(h, 2, 2, 5)
  }
  function JumpImm(h: bv16): bv32 {
    At(h, 12, 12, 11) | At(h, 11, 11, 4) | At(h, 10, 9, 8) | At(h, 8, 8, 10) | At(h, 7, 7, 6) |
    At(h, 6, 6, 7) | At(h, 5, 3, 1) | At(h, 2, 2, 5)
  }

  function Quadrant0(xlen: Xlen, h: bv16): Option<Insn> {
    var f3 := CFunct3(h);
    if f3 == 0 then
      // a zero immediate is reserved, all zeros the defined illegal instruction
      if Addi4spnImm(h) == 0 then None else Some(Insn(ADDI, PrimeLow(h), 2, 0, Val(Addi4spnImm(h), 10)))
    else if f3 == 2 then Some(Insn(LW, PrimeLow(h), PrimeHigh(h), 0, Val(WordImm(h), 8)))
    else if f3 == 3 && xlen == RV64 then Some(Insn(LD, PrimeLow(h), PrimeHigh(h), 0, Val(DoubleImm(h), 8)))
    else if f3 == 6 then Some(Insn(SW, 0, PrimeHigh(h), PrimeLow(h), Val(WordImm(h), 8)))
    else if f3 == 7 && xlen == RV64 then Some(Insn(SD, 0, PrimeHigh(h), PrimeLow(h), Val(DoubleImm(h), 8)))
    else None
  }

  /** Quadrant 1, funct3 = 100: shifts, ANDI and the register-register group. */
  function MiscAlu(xlen: Xlen, h: bv16): Option<Insn> {
    var rd, rs2, b12, f2, f2low := PrimeHigh(h), PrimeLow(h), Bit12(h), Funct2(h), Funct2Low(h);
    if f2 == 0 then (if xlen == RV32 && b12 == 1 then None else Some(Insn(SRLI, rd, rd, 0, Val(CiImm(h), 6))))
    else if f2 == 1 then (if xlen == RV32 && b12 == 1 then None else Some(Insn(SRAI, rd, rd, 0, Val(CiImm(h), 6))))
    else if f2 == 2 then Some(Insn(ANDI, rd, rd, 0, Signed(CiImm(h), 6)))
    else if b12 == 0 then
      var op := if f2low == 0 then SUB else if f2low == 1 then XOR else if f2low == 2 then OR else AND;
      Some(Insn(op, rd, rd, rs2, 0))
    else if xlen == RV64 && f2low == 0 then Some(Insn(SUBW, rd, rd, rs2, 0))
    else if xlen == RV64 && f2low == 1 then Some(Insn(ADDW, rd, rd, rs2, 0))
    else None
  }

  function Quadrant1(xlen: Xlen, h: bv16): Option<Insn> {
    var f3, rd := CFunct3(h), CRd(h);
    if f3 == 0 then Some(Insn(ADDI, rd, rd, 0, Signed(CiImm(h), 6)))
    else if f3 == 1 then
      if xlen == RV32 then Some(Insn(JAL, 1, 0, 0, Signed(JumpImm(h), 12)))
      else if rd == 0 then None
      else Some(Insn(ADDIW, rd, rd, 0, Signed(CiImm(h), 6)))
    else if f3 == 2 then Some(Insn(ADDI, rd, 0, 0, Signed(CiImm(h), 6)))
    else if f3 == 3 then
      // rd = 2 is C.ADDI16SP; for both a zero immediate is reserved
      if CiImm(h) == 0 then None
      else if rd == 2 then Some(Insn(ADDI, 2, 2, 0, Signed(Addi16spImm(h), 10)))
      else Some(Insn(LUI, rd, 0, 0, Signed(CiImm(h), 6) * 4096))
    else if f3 == 4 then MiscAlu(xlen, h)
    else if f3 == 5 then Some(Insn(JAL, 0, 0, 0, Signed(JumpImm(h), 12)))
    else if f3 == 6 then Some(Insn(BEQ, 0, PrimeHigh(h), 0, Signed(BranchImm(h), 9)))
    else Some(Insn(BNE, 0, PrimeHigh(h), 0, Signed(BranchImm(h), 9)))
  }

  /** Quadrant 2, funct3 = 100: jumps, moves, adds and EBREAK. */
  function JumpMoveAdd(h: bv16): Option<Insn> {
    var rd, rs2 := CRd(h), CRs2(h);
    if Bit12(h) == 0 then
      if rs2 == 0 then (if rd == 0 then None else Some(Insn(JALR, 0, rd, 0, 0)))
      else Some(Insn(ADD, rd, 0, rs2, 0))
    else if rs2 == 0 then (if rd == 0 then Some(Insn(EBREAK, 0, 0, 0, 0)) else Some(Insn(JALR, 1, rd, 0, 0)))
    else Some(Insn(ADD, rd, rd, rs2, 0))
  }

  function Quadrant2(xlen: Xlen, h: bv16): Option<Insn> {
    var f3, rd := CFunct3(h), CRd(h);
    if f3 == 0 then (if xlen == RV32 && Bit12(h) == 1 then None else Some(Insn(SLLI, rd, rd, 0, Val(CiImm(h), 6))))
    else if f3 == 2 then (if rd == 0 then None else Some(Insn(LW, rd, 2, 0, Val(LwspImm(h), 9))))
    else if f3 == 3 && xlen == RV64 then (if rd == 0 then None else Some(Insn(LD, rd, 2, 0, Val(LdspImm(h), 9))))
    else if f3 == 4 then JumpMoveAdd(h)
    else if f3 == 6 then Some(Insn(SW, 0, 2, CRs2(h), Val(SwspImm(h), 9)))
    else if f3 == 7 && xlen == RV64 then Some(Insn(SD, 0, 2, CRs2(h), Val(SdspImm(h), 9)))
    else None
  }

  /** The base instruction a halfword expands to, or None if it is reserved for the width,
      belongs to the floating-point subset, or is not a 16-bit instruction. */
  function Decode(xlen: Xlen, h: bv16): Option<Insn> {
    var q := Quadrant(h);
    if q == 0 then Quadrant0(xlen, h) else if q == 1 then Quadrant1(xlen, h)
    else if q == 2 then Quadrant2(xlen, h) else None
  }

  /** What each compressed mnemonic stands for (sections 16.3 to 16.5). */
  function Meaning(op: COp, rd: Reg, rs1: Reg, rs2: Reg, imm: int): Insn {
    match op
    case C_ADD => Insn(ADD, rd, rd, rs2, 0)
    case C_MV => Insn(ADD, rd, 0, rs2, 0)
    case C_JR => Insn(JALR, 0, rs1, 0, 0)
    case C_JALR => Insn(JALR, 1, rs1, 0, 0)
    case C_EBREAK => Insn(EBREAK, 0, 0, 0, 0)
    case C_ADDI => Insn(ADDI, rd, rd, 0, imm)
    case C_ADDIW => Insn(ADDIW, rd, rd, 0, imm)
    case C_LI => Insn(ADDI, rd, 0, 0, imm)
    case C_LUI => Insn(LUI, rd, 0, 0, imm * 4096)
    case C_SLLI => Insn(SLLI, rd, rd, 0, imm)
    case C_SRLI => Insn(SRLI, rd, rd, 0, imm)
    case C_SRAI => Insn(SRAI, rd, rd, 0, imm)
    case C_ANDI => Insn(ANDI, rd, rd, 0, imm)
    case C_LWSP => Insn(LW, rd, 2, 0, imm)
    case C_LDSP => Insn(LD, rd, 2, 0, imm)
    case C_LW => Insn(LW, rd, rs1, 0, imm)
    case C_LD => Insn(LD, rd, rs1, 0, imm)
    case C_SW => Insn(SW, 0, rs1, rs2, imm)
    case C_SD => Insn(SD, 0, rs1, rs2, imm)
    case C_SWSP => Insn(SW, 0, 2, rs2, imm)
    case C_SDSP => Insn(SD, 0, 2, rs2, imm)
    case C_SUB => Insn(SUB, rd, rd, rs2, 0)
    case C_XOR => Insn(XOR, rd, rd, rs2, 0)
    case C_OR => Insn(OR, rd, rd, rs2, 0)
    case C_AND => Insn(AND, rd, rd, rs2, 0)
    case C_SUBW => Insn(SUBW, rd, rd, rs2, 0)
    case C_ADDW => Insn(ADDW, rd, rd, rs2, 0)
    case C_BEQZ => Insn(BEQ, 0, rs1, 0, imm)
    case C_BNEZ => Insn(BNE, 0, rs1, 0, imm)
    case C_J => Insn(JAL, 0, 0, 0, imm)
    case C_JAL => Insn(JAL, 1, 0, 0, imm)
  }
}
