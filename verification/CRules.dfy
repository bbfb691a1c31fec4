/** The nineteen compression rules of `c_rules.c`, in the order they are tried. */
module CRules {
  import opened Isa
  import opened Ir

  function MaxShift(xlen: Xlen): int { if xlen == RV64 then 63 else 31 }

  predicate Prime(x: Reg) { 8 <= x <= 15 }

  function Pick(op: COp, rd: Reg, rs1: Reg, rs2: Reg, imm: int): Option<Choice> {
    Some(Choice(op, CFmt(op), rd, rs1, rs2, imm, None, RelocNone))
  }

  function MapAddiSelf(n: Entry): Option<Choice> {
    if n.op != Base(ADDI) || n.rd != n.rs1 || n.imm < -32 || n.imm > 31 || n.rd == 0 then None
    else Pick(C_ADDI, n.rd, n.rd, 0, n.imm)
  }

  function MapLi(n: Entry): Option<Choice> {
    if n.op != Base(ADDI) || n.rs1 != 0 || n.rd == 0 || n.imm == 0 || n.imm < -32 || n.imm > 31 then None
    else Pick(C_LI, n.rd, 0, 0, n.imm)
  }

  function MapNop(n: Entry): Option<Choice> {
    if n.rd != 0 || n.rs1 != 0 || n.imm != 0 || n.op != Base(ADDI) then None else Pick(C_ADDI, 0, 0, 0, 0)
  }

  function MapSlli(xlen: Xlen, n: Entry): Option<Choice> {
    if n.rd == 0 || n.rd != n.rs1 || n.op != Base(SLLI) || n.imm < 0 || n.imm > MaxShift(xlen) then None
    else Pick(C_SLLI, n.rd, n.rd, 0, n.imm)
  }

  function MapShiftPrime(xlen: Xlen, n: Entry): Option<Choice> {
    if n.rd != n.rs1 || (n.op != Base(SRAI) && n.op != Base(SRLI)) || !Prime(n.rd) then None
    else if n.imm < 0 || n.imm > MaxShift(xlen) then None
    else Pick(if n.op == Base(SRAI) then C_SRAI else C_SRLI, n.rd, n.rd, 0, n.imm)
  }

  function MapAndiPrime(n: Entry): Option<Choice> {
    if n.rd != n.rs1 || !Prime(n.rd) || n.imm < -32 || n.imm > 31 || n.op != Base(ANDI) then None
    else Pick(C_ANDI, n.rd, n.rd, 0, n.imm)
  }

  function MapMv(n: Entry): Option<Choice> {
    if n.rd == 0 || n.rs2 == 0 || n.rs1 != 0 || n.op != Base(ADD) then None else Pick(C_MV, n.rd, 0, n.rs2, 0)
  }

  function MapAdd(n: Entry): Option<Choice> {
    if n.op != Base(ADD) || n.rd != n.rs1 || n.rd == 0 || n.rs2 == 0 then None else Pick(C_ADD, n.rd, n.rd, n.rs2, 0)
  }

  function MapJr(n: Entry): Option<Choice> {
    if n.rd != 0 || n.imm != 0 || n.rs1 == 0 || n.op != Base(JALR) then None else Pick(C_JR, 0, n.rs1, 0, 0)
  }

  function MapJalr(n: Entry): Option<Choice> {
    if n.rd != 1 || n.rs1 == 0 || n.imm != 0 || n.op != Base(JALR) then None else Pick(C_JALR, 1, n.rs1, 0, 0)
  }

  function MapEbreak(n: Entry): Option<Choice> {
    if n.op != Base(EBREAK) then None else Pick(C_EBREAK, 0, 0, 0, 0)
  }

  function MapCaAlu(n: Entry): Option<Choice> {
    if n.op != Base(SUB) && n.op != Base(XOR) && n.op != Base(OR) && n.op != Base(AND) then None
    else if n.rd != n.rs1 || !Prime(n.rs2) || !Prime(n.rd) then None
    else
      var op := if n.op == Base(SUB) then C_SUB else if n.op == Base(XOR) then C_XOR
                else if n.op == Base(OR) then C_OR else C_AND;
      Pick(op, n.rd, n.rs1, n.rs2, 0)
  }

  function MapCawAlu(xlen: Xlen, n: Entry): Option<Choice> {
    if xlen != RV64 || (n.op != Base(SUBW) && n.op != Base(ADDW)) || n.rd != n.rs1 || !Prime(n.rd) || !Prime(n.rs2) then None
    else Pick(if n.op == Base(SUBW) then C_SUBW else C_ADDW, n.rd, n.rd, n.rs2, 0)
  }

  function MapLoad(xlen: Xlen, n: Entry): Option<Choice> {
    if n.op != Base(LW) && n.op != Base(LD) then None
    else if !Prime(n.rd) || !Prime(n.rs1) || n.imm < 0 then None
    else if n.op == Base(LW) then
      if n.imm % 4 != 0 || n.imm > 124 then None else Pick(C_LW, n.rd, n.rs1, 0, n.imm)
    else if xlen != RV64 || n.imm % 8 != 0 || n.imm > 248 then None
    else Pick(C_LD, n.rd, n.rs1, 0, n.imm)
  }

  function MapStore(n: Entry): Option<Choice> {
    if n.op != Base(SW) && n.op != Base(SD) then None
    else if !Prime(n.rs2) || !Prime(n.rs1) || n.imm < 0 then None
    else if n.op == Base(SW) then
      if n.imm % 4 != 0 || n.imm > 124 then None else Pick(C_SW, 0, n.rs1, n.rs2, n.imm)
    else if n.imm % 8 != 0 || n.imm > 248 then None
    else Pick(C_SD, 0, n.rs1, n.rs2, n.imm)
  }

  function MapSpLoad(xlen: Xlen, n: Entry): Option<Choice> {
    if n.op != Base(LW) && n.op != Base(LD) then None
    else if n.rd == 0 || n.rs1 != 2 || n.imm < 0 then None
    else if n.op == Base(LW) then
      if n.imm % 4 != 0 || n.imm > 252 then None else Pick(C_LWSP, n.rd, 2, 0, n.imm)
    else if xlen != RV64 || n.imm % 8 != 0 || n.imm > 504 then None
    else Pick(C_LDSP, n.rd, 2, 0, n.imm)
  }

  function MapSpStore(n: Entry): Option<Choice> {
    if n.op != Base(SW) && n.op != Base(SD) then None
    else if n.rs2 == 0 || n.rs1 != 2 || n.imm < 0 then None
    else if n.op == Base(SW) then
      if n.imm % 4 != 0 || n.imm > 252 then None else Pick(C_SWSP, 0, 2, n.rs2, n.imm)
    else if n.imm % 8 != 0 || n.imm > 504 then None
    else Pick(C_SDSP, 0, 2, n.rs2, n.imm)
  }

  function MapBranch(n: Entry): Option<Choice> {
    if n.op != Base(BEQ) && n.op != Base(BNE) then None
    else if n.rs2 != 0 || !Prime(n.rs1) || n.imm % 2 != 0 || n.imm < -256 || n.imm > 254 then None
    else
      var op := if n.op == Base(BEQ) then C_BEQZ else C_BNEZ;
      Some(Choice(op, FmtCB, 0, n.rs1, 0, n.imm, n.target, n.reloc))
  }

  function MapJump(xlen: Xlen, n: Entry): Option<Choice> {
    if n.op != Base(JAL) || (n.rd != 0 && n.rd != 1) || (n.rd == 1 && xlen != RV32) then None
    else if n.imm % 2 != 0 || n.imm < -2048 || n.imm > 2046 then None
    else Some(Choice(if n.rd == 0 then C_J else C_JAL, FmtCJ, n.rd, 0, 0, n.imm, n.target, n.reloc))
  }

  function OrElse(a: Option<Choice>, b: Option<Choice>): Option<Choice> {
    if a.Some? then a else b
  }

  /** `c_try_map`: the first rule that applies. */
  function TryMap(xlen: Xlen, n: Entry): Option<Choice> {
    OrElse(MapAddiSelf(n), OrElse(MapLi(n), OrElse(MapNop(n), OrElse(MapSlli(xlen, n),
    OrElse(MapShiftPrime(xlen, n), OrElse(MapAndiPrime(n), OrElse(MapMv(n), OrElse(MapAdd(n),
    OrElse(MapJr(n), OrElse(MapJalr(n), OrElse(MapEbreak(n), OrElse(MapCaAlu(n),
    OrElse(MapCawAlu(xlen, n), OrElse(MapLoad(xlen, n), OrElse(MapStore(n), OrElse(MapSpLoad(xlen, n),
    OrElse(MapSpStore(n), OrElse(MapBranch(n), MapJump(xlen, n)))))))))))))))))))
  }
}
