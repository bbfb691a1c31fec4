/** The 32-bit encoders of `pass2.c`: the encoding table and the R/I/S/B/J/U packers.
    `imm & 0xFFF`, an operation on the 64-bit immediate, is `Low(imm, 12)`; a right shift
    of the immediate is a division; a cast to `uint32_t` is `Word`. */
module Encode32 {
  import opened Isa
  import opened Bits

  datatype Info = Info(opcode: bv32, funct3: bv32, funct7: bv32)

  /** `encoding_table`, register-register rows. */
  function InfoReg(op: BaseOp): Info
    requires BaseFmt(op) == FmtR
  {
    match op
    case ADD => Info(0x33, 0, 0)
    case SUB => Info(0x33, 0, 0x20)
    case SLL => Info(0x33, 0x1, 0)
    case SLT => Info(0x33, 0x2, 0)
    case SLTU => Info(0x33, 0x3, 0)
    case XOR => Info(0x33, 0x4, 0)
    case SRL => Info(0x33, 0x5, 0)
    case SRA => Info(0x33, 0x5, 0x20)
    case OR => Info(0x33, 0x6, 0)
    case AND => Info(0x33, 0x7, 0)
    case MUL => Info(0x33, 0, 0x1)
    case MULH => Info(0x33, 0x1, 0x1)
    case MULHSU => Info(0x33, 0x2, 0x1)
    case MULHU => Info(0x33, 0x3, 0x1)
    case DIV => Info(0x33, 0x4, 0x1)
    case DIVU => Info(0x33, 0x5, 0x1)
    case REM => Info(0x33, 0x6, 0x1)
    case REMU => Info(0x33, 0x7, 0x1)
    case ADDW => Info(0x3B, 0, 0)
    case SUBW => Info(0x3B, 0, 0x20)
    case SLLW => Info(0x3B, 0x1, 0)
    case SRLW => Info(0x3B, 0x5, 0)
    case SRAW => Info(0x3B, 0x5, 0x20)
    case MULW => Info(0x3B, 0, 0x1)
    case DIVW => Info(0x3B, 0x4, 0x1)
    case DIVUW => Info(0x3B, 0x5, 0x1)
    case REMW => Info(0x3B, 0x6, 0x1)
    case _ => Info(0x3B, 0x7, 0x1)  // REMUW
  }

  /** `encoding_table`, I-type rows. */
  function InfoImm(op: BaseOp): Info
    requires BaseFmt(op) == FmtI
  {
    match op
    case ADDI => Info(0x13, 0, 0)
    case SLLI => Info(0x13, 0x1, 0)
    case LW => Info(0x3, 0x2, 0)
    case SLTI => Info(0x13, 0x2, 0)
    case SLTIU => Info(0x13, 0x3, 0)
    case XORI => Info(0x13, 0x4, 0)
    case ORI => Info(0x13, 0x6, 0)
    case ANDI => Info(0x13, 0x7, 0)
    case SRLI => Info(0x13, 0x5, 0)
    case SRAI => Info(0x13, 0x5, 0x20)
    case JALR => Info(0x67, 0, 0)
    case LB => Info(0x3, 0, 0)
    case LH => Info(0x3, 0x1, 0)
    case LBU => Info(0x3, 0x4, 0)
    case LHU => Info(0x3, 0x5, 0)
    case ECALL => Info(0x73, 0, 0)
    case EBREAK => Info(0x73, 0, 0)
    case ADDIW => Info(0x1B, 0, 0)
    case SLLIW => Info(0x1B, 0x1, 0)
    case SRLIW => Info(0x1B, 0x5, 0)
    case SRAIW => Info(0x1B, 0x5, 0x20)
    case LWU => Info(0x3, 0x6, 0)
    case _ => Info(0x3, 0x3, 0)  // LD
  }

  /** `encoding_table`, the remaining rows. */
  function InfoOther(op: BaseOp): Info
    requires !BaseFmt(op).FmtR? && !BaseFmt(op).FmtI?
  {
    match op
    case SW => Info(0x23, 0x2, 0)
    case SH => Info(0x23, 0x1, 0)
    case SB => Info(0x23, 0, 0)
    case SD => Info(0x23, 0x3, 0)
    case BEQ => Info(0x63, 0, 0)
    case BNE => Info(0x63, 0x1, 0)
    case BLT => Info(0x63, 0x4, 0)
    case BGE => Info(0x63, 0x5, 0)
    case BLTU => Info(0x63, 0x6, 0)
    case BGEU => Info(0x63, 0x7, 0)
    case JAL => Info(0x6F, 0, 0)
    case AUIPC => Info(0x17, 0, 0)
    case _ => Info(0x37, 0, 0)  // LUI
  }

  /** `encoding_table`, which has entries for the base operations only. */
  function InfoOf(op: BaseOp): Info
  {
    if BaseFmt(op) == FmtR then InfoReg(op) else if BaseFmt(op) == FmtI then InfoImm(op) else InfoOther(op)
  }

  function PackR(i: Info, rd: Reg, rs1: Reg, rs2: Reg): bv32 {
    ((i.funct7 & 0x7F) << 25) | ((rs2 as bv32) << 20) | ((rs1 as bv32) << 15) |
    ((i.funct3 & 0x07) << 12) | ((rd as bv32) << 7) | (i.opcode & 0x7F)
  }

  function PackShift6(i: Info, f6: bv32, rd: Reg, rs1: Reg, shamt: bv32): bv32 {
    (f6 << 26) | ((shamt & 0x3F) << 20) | ((rs1 as bv32) << 15) |
    ((i.funct3 & 0x07) << 12) | ((rd as bv32) << 7) | (i.opcode & 0x7F)
  }

  function PackShift5(i: Info, rd: Reg, rs1: Reg, shamt: bv32): bv32 {
    ((i.funct7 & 0x7F) << 25) | ((shamt & 0x1F) << 20) | ((rs1 as bv32) << 15) |
    ((i.funct3 & 0x07) << 12) | ((rd as bv32) << 7) | (i.opcode & 0x7F)
  }

  function PackI(i: Info, rd: Reg, rs1: Reg, uimm: bv32): bv32 {
    (uimm << 20) | ((rs1 as bv32) << 15) | ((i.funct3 & 0x07) << 12) | ((rd as bv32) << 7) | (i.opcode & 0x7F)
  }

  function PackS(i: Info, rs1: Reg, rs2: Reg, uimm: bv32): bv32 {
    (((uimm >> 5) & 0x7F) << 25) | ((rs2 as bv32) << 20) | ((rs1 as bv32) << 15) |
    ((i.funct3 & 0x07) << 12) | ((uimm & 0x1F) << 7) | (i.opcode & 0x7F)
  }

  function PackB(i: Info, rs1: Reg, rs2: Reg, uimm: bv32): bv32 {
    (((uimm >> 11) & 0x1) << 31) | (((uimm >> 4) & 0x3F) << 25) | ((rs2 as bv32) << 20) |
    ((rs1 as bv32) << 15) | ((i.funct3 & 0x07) << 12) | ((uimm & 0xF) << 8) |
    (((uimm >> 10) & 0x1) << 7) | (i.opcode & 0x7F)
  }

  function PackJ(i: Info, rd: Reg, uimm: bv32): bv32 {
    (((uimm >> 19) & 0x1) << 31) | ((uimm & 0x3FF) << 21) | (((uimm >> 10) & 0x1) << 20) |
    (((uimm >> 11) & 0xFF) << 12) | ((rd as bv32) << 7) | (i.opcode & 0x7F)
  }

  function PackU(i: Info, rd: Reg, upper: bv32): bv32 {
    upper | ((rd as bv32) << 7) | (i.opcode & 0x7F)
  }

  predicate IsShift(op: BaseOp) { op in {SLLI, SRLI, SRAI, SLLIW, SRLIW, SRAIW} }
  predicate IsWordShift(op: BaseOp) { op in {SLLIW, SRLIW, SRAIW} }

  function MaxShamt(xlen: Xlen, op: BaseOp): int {
    if IsWordShift(op) then 31 else if xlen == RV64 then 63 else 31
  }

  function EncodeI(xlen: Xlen, op: BaseOp, rd: Reg, rs1: Reg, imm: int): Option<bv32>
  {
    var i := InfoOf(op);
    if IsShift(op) then
      if imm < 0 || imm > MaxShamt(xlen, op) then None
      else if !IsWordShift(op) && xlen == RV64 then
        var f6 := if op == SRAI then 0x10 else i.funct7 & 0x3F;
        Some(PackShift6(i, f6, rd, rs1, Word(imm)))
      else Some(PackShift5(i, rd, rs1, Word(imm)))
    else
      var system := op == EBREAK || op == ECALL;
      var imm' := if op == EBREAK then 1 else if op == ECALL then 0 else imm;
      if imm' < -2048 || imm' > 2047 then None
      else Some(PackI(i, if system then 0 else rd, if system then 0 else rs1, Low(imm', 12)))
  }

  function EncodeS(op: BaseOp, rs1: Reg, rs2: Reg, imm: int): Option<bv32>
  {
    if imm < -2048 || imm > 2047 then None else Some(PackS(InfoOf(op), rs1, rs2, Low(imm, 12)))
  }

  function EncodeB(op: BaseOp, rs1: Reg, rs2: Reg, imm: int): Option<bv32>
  {
    if imm % 2 != 0 then None
    else if imm < -4096 || imm > 4094 then None
    else Some(PackB(InfoOf(op), rs1, rs2, Low(imm / 2, 12)))
  }

  function EncodeJ(op: BaseOp, rd: Reg, imm: int): Option<bv32>
  {
    if imm % 2 != 0 then None
    else if imm < -1048576 || imm > 1048574 then None
    else Some(PackJ(InfoOf(op), rd, Low(imm / 2, 20)))
  }

  function EncodeU(op: BaseOp, rd: Reg, imm: int): Option<bv32>
  {
    if Low(imm, 12) != 0 then None
    else if imm < -TWO31 || imm > TWO31 - 1 then None
    else Some(PackU(InfoOf(op), rd, Word(imm) & 0xFFFF_F000))
  }

  /** `encode_instruction`: dispatch on the format; None is a reported error. */
  function Encode(xlen: Xlen, op: BaseOp, fmt: Fmt, rd: Reg, rs1: Reg, rs2: Reg, imm: int): Option<bv32>
  {
    match fmt
    case FmtR => Some(PackR(InfoOf(op), rd, rs1, rs2))
    case FmtI => EncodeI(xlen, op, rd, rs1, imm)
    case FmtS => EncodeS(op, rs1, rs2, imm)
    case FmtB => EncodeB(op, rs1, rs2, imm)
    case FmtJ => EncodeJ(op, rd, imm)
    case FmtUI => EncodeU(op, rd, imm)
    case _ => None
  }

  /** `require_for_op`: the width and the M extension an operation needs. */
  predicate RequireForOp(cfg: Config, op: BaseOp) {
    match op
    case ADDW | SUBW | SLLW | SRLW | SRAW | ADDIW | SRLIW | SRAIW | SLLIW | LWU | LD | SD => cfg.xlen == RV64
    case MUL | MULH | MULHSU | MULHU | DIV | DIVU | REM | REMU => cfg.hasM
    case MULW | DIVW | DIVUW | REMW | REMUW => cfg.hasM && cfg.xlen == RV64
    case _ => true
  }
}
