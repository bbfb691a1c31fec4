/** The vocabulary every stage shares: operations, formats, relocations, sections,
    architecture flags, and the machine-integer conversions the C code performs. */
module Isa {

  datatype Option<+T> = None | Some(value: T)

  datatype Xlen = RV32 | RV64

  /** The flags of `pass.c`: target width, M and C extensions, automatic compression. */
  datatype Config = Config(xlen: Xlen, hasM: bool, hasC: bool, autoC: bool)

  datatype Section = Text | Data

  /** Operations of the base ISA and the M extension. */
  datatype BaseOp =
    | ADD | SUB | SLL | SLT | SLTU | XOR | SRL | SRA | OR | AND
    | MUL | MULH | MULHSU | MULHU | DIV | DIVU | REM | REMU
    | ADDW | SUBW | SLLW | SRLW | SRAW | MULW | DIVW | DIVUW | REMW | REMUW
    | ADDI | SLLI | LW | SLTI | SLTIU | XORI | ORI | ANDI | SRLI | SRAI | JALR
    | LB | LH | LBU | LHU | ECALL | EBREAK | ADDIW | SLLIW | SRLIW | SRAIW | LWU | LD
    | AUIPC | LUI
    | SW | SH | SB | SD
    | BEQ | BNE | BLT | BGE | BLTU | BGEU
    | JAL

  /** Operations of the C extension. */
  datatype COp =
    | C_ADD | C_SUB | C_XOR | C_OR | C_AND | C_SUBW | C_ADDW | C_JALR | C_EBREAK
    | C_ADDI | C_ADDIW | C_SRLI | C_SRAI | C_SLLI | C_LW | C_LD | C_BEQZ | C_BNEZ | C_JAL
    | C_SD | C_SW | C_LUI | C_SWSP | C_SDSP | C_LDSP | C_LWSP | C_J | C_JR | C_ANDI | C_MV | C_LI

  /** `opcode_t`. */
  datatype Op = Base(base: BaseOp) | Comp(comp: COp)

  datatype Fmt =
    | FmtR | FmtI | FmtS | FmtB | FmtJ | FmtUI
    | FmtCR | FmtCI | FmtCL | FmtCS | FmtCSS | FmtCB | FmtCJ | FmtCA

  datatype Reloc = RelocNone | Hi20 | Lo12 | Boff | Jtgt

  /** Register numbers: the lexer produces 0..31 only. */
  type Reg = bv5

  /** What one machine instruction means, in base-ISA terms: operation, the operands
      it uses (the others zero) and the immediate as a signed number. */
  datatype Insn = Insn(op: BaseOp, rd: Reg, rs1: Reg, rs2: Reg, imm: int)

  predicate IsCFmt(fmt: Fmt) {
    fmt.FmtCR? || fmt.FmtCI? || fmt.FmtCL? || fmt.FmtCS? || fmt.FmtCSS? || fmt.FmtCJ? || fmt.FmtCB? || fmt.FmtCA?
  }

  /** The single format the grammar uses with each operation. */
  function FmtOf(op: Op): Fmt {
    match op
    case Base(b) => BaseFmt(b)
    case Comp(c) => CFmt(c)
  }

  function BaseFmt(op: BaseOp): Fmt {
    match op
    case ADD | SUB | SLL | SLT | SLTU | XOR | SRL | SRA | OR | AND => FmtR
    case MUL | MULH | MULHSU | MULHU | DIV | DIVU | REM | REMU => FmtR
    case ADDW | SUBW | SLLW | SRLW | SRAW | MULW | DIVW | DIVUW | REMW | REMUW => FmtR
    case SW | SH | SB | SD => FmtS
    case BEQ | BNE | BLT | BGE | BLTU | BGEU => FmtB
    case JAL => FmtJ
    case AUIPC | LUI => FmtUI
    case _ => FmtI
  }

  function CFmt(op: COp): Fmt {
    match op
    case C_ADD | C_JALR | C_EBREAK | C_JR | C_MV => FmtCR
    case C_SUB | C_XOR | C_OR | C_AND | C_SUBW | C_ADDW => FmtCA
    case C_LW | C_LD => FmtCL
    case C_SD | C_SW => FmtCS
    case C_SWSP | C_SDSP => FmtCSS
    case C_BEQZ | C_BNEZ => FmtCB
    case C_JAL | C_J => FmtCJ
    case _ => FmtCI
  }

  const TWO31: int := 0x8000_0000
  const TWO32: int := 0x1_0000_0000

  /** Conversion to `uint32_t`. */
  function U32(x: int): (u: int)
    ensures 0 <= u < TWO32
  {
    x % TWO32
  }

  /** Conversion to `int32_t` (two's complement). */
  function I32(x: int): int {
    var u := x % TWO32;
    if u >= TWO31 then u - TWO32 else u
  }
}
