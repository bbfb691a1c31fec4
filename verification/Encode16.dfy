/** The 16-bit encoders of `pass2.c`: the compressed table and the CR..CB packers. */
module Encode16 {
  import opened Isa
  import opened Bits

  const ANY: bv16 := 0xFF

  datatype CInfo = CInfo(quadrant: bv16, funct3: bv16, op12: bv16, op11_10: bv16, op6_5: bv16)

  /** `c_encoding_table`, the fixed fields. */
  function CInfoOf(op: COp): CInfo
  {
    match op
    case C_SUB => CInfo(0x1, 0x4, 0x1, 0x3, 0x0)
    case C_XOR => CInfo(0x1, 0x4, 0x1, 0x3, 0x1)
    case C_OR => CInfo(0x1, 0x4, 0x1, 0x3, 0x2)
    case C_AND => CInfo(0x1, 0x4, 0x1, 0x3, 0x3)
    case C_SUBW => CInfo(0x1, 0x4, 0x1, 0x1, 0x0)
    case C_ADDW => CInfo(0x1, 0x4, 0x1, 0x1, 0x1)
    case C_ADD => CInfo(0x2, 0x4, 0x1, ANY, ANY)
    case C_JALR => CInfo(0x2, 0x4, 0x1, ANY, ANY)
    case C_EBREAK => CInfo(0x2, 0x4, 0x1, ANY, ANY)
    case C_JR => CInfo(0x2, 0x4, 0x0, ANY, ANY)
    case C_MV => CInfo(0x2, 0x4, 0x0, ANY, ANY)
    case C_ADDI => CInfo(0x1, 0x0, ANY, ANY, ANY)
    case C_ADDIW => CInfo(0x1, 0x1, ANY, ANY, ANY)
    case C_SRLI => CInfo(0x1, 0x4, ANY, 0x0, ANY)
    case C_SRAI => CInfo(0x1, 0x4, ANY, 0x1, ANY)
    case C_ANDI => CInfo(0x1, 0x4, ANY, 0x2, ANY)
    case C_LUI => CInfo(0x1, 0x3, ANY, ANY, ANY)
    case C_LWSP => CInfo(0x2, 0x2, ANY, ANY, ANY)
    case C_LDSP => CInfo(0x2, 0x3, ANY, ANY, ANY)
    case C_SLLI => CInfo(0x2, 0x0, ANY, ANY, ANY)
    case C_LI => CInfo(0x1, 0x2, ANY, ANY, ANY)
    case C_LW => CInfo(0x0, 0x2, ANY, ANY, ANY)
    case C_LD => CInfo(0x0, 0x3, ANY, ANY, ANY)
    case C_SW => CInfo(0x0, 0x6, ANY, ANY, ANY)
    case C_SD => CInfo(0x0, 0x7, ANY, ANY, ANY)
    case C_BEQZ => CInfo(0x1, 0x6, ANY, ANY, ANY)
    case C_BNEZ => CInfo(0x1, 0x7, ANY, ANY, ANY)
    case C_JAL => CInfo(0x1, 0x1, ANY, ANY, ANY)
    case C_J => CInfo(0x1, 0x5, ANY, ANY, ANY)
    case C_SWSP => CInfo(0x2, 0x6, ANY, ANY, ANY)
    case _ => CInfo(0x2, 0x7, ANY, ANY, ANY)  // C_SDSP
  }

  /** `c_encoding_table`, the widths an entry is for. */
  predicate ForWidth(op: COp, xlen: Xlen) {
    match op
    case C_SUBW | C_ADDW | C_ADDIW | C_LDSP | C_LD | C_SD | C_SDSP => xlen == RV64
    case C_JAL => xlen == RV32
    case _ => true
  }

  /** `c_build_tags`: the fixed bits of a table entry. */
  function BuildTags(i: CInfo): bv16 {
    ((i.funct3 & 0x7) << 13) | (i.quadrant & 0x3) |
    (if i.op12 != ANY then (i.op12 & 0x1) << 12 else 0) |
    (if i.op11_10 != ANY then (i.op11_10 & 0x3) << 10 else 0) |
    (if i.op6_5 != ANY then (i.op6_5 & 0x3) << 5 else 0)
  }

  /** `c_tags_match` applied to a whole halfword. */
  predicate TagsMatch(i: CInfo, h: bv16) {
    && i.quadrant == h & 3
    && i.funct3 == h >> 13
    && (i.op12 != ANY ==> i.op12 == (h >> 12) & 1)
    && (i.op11_10 != ANY ==> i.op11_10 == (h >> 10) & 3)
    && (i.op6_5 != ANY ==> i.op6_5 == (h >> 5) & 3)
  }

  /** `require_c_for_op` for an operation that has a table entry: C enabled, right width. */
  predicate RequireC(cfg: Config, op: COp) {
    cfg.hasC && ForWidth(op, cfg.xlen)
  }

  /** `c_regp`: x8..x15 as 0..7. */
  function RegP(x: Reg): Option<bv32> {
    if x < 8 || x > 15 then None else Some((x as bv32) - 8)
  }

  function PackCR(i: CInfo, rd: Reg, rs2: Reg): bv16 {
    ((i.funct3 & 0x7) << 13) | ((i.op12 & 0x1) << 12) | ((rd as bv16) << 7) | ((rs2 as bv16) << 2) | (i.quadrant & 0x3)
  }

  function EncodeCR(op: COp, rd: Reg, rs1: Reg, rs2: Reg): Option<bv16>
  {
    if op == C_MV && (rd == 0 || rs2 == 0 || rs1 != 0) then None
    else if op == C_ADD && (rd == 0 || rs2 == 0 || rs1 != rd) then None
    else if (op == C_JR || op == C_JALR) && (rs1 == 0 || rs2 != 0) then None
    else if op == C_EBREAK && (rd != 0 || rs1 != 0 || rs2 != 0) then None
    else Some(PackCR(CInfoOf(op), if op == C_JR || op == C_JALR then rs1 else rd, rs2))
  }

  function PackCA(i: CInfo, rd: bv32, rs2: bv32): bv16 {
    ((i.funct3 & 0x7) << 13) | ((i.op12 & 0x1) << 12) | ((i.op11_10 & 0x3) << 10) | (((rd & 0x7) as bv16) << 7) |
    ((i.op6_5 & 0x3) << 5) | (((rs2 & 0x7) as bv16) << 2) | (i.quadrant & 0x3)
  }

  function EncodeCA(op: COp, rd: Reg, rs1: Reg, rs2: Reg): Option<bv16>
  {
    if RegP(rd).None? || RegP(rs1).None? || RegP(rs2).None? || rd != rs1 then None
    else Some(PackCA(CInfoOf(op), RegP(rd).value, RegP(rs2).value))
  }

  /** `put_imm5_0_ci`. */
  function PutImm6(w: bv16, u6: bv32): bv16 {
    Put(Put(w, 12, 12, (u6 >> 5) & 0x1), 6, 2, u6 & 0x1F)
  }

  function PackCI(w: bv16, rd: Reg, u6: bv32): bv16 {
    PutImm6(Put(w, 11, 7, rd as bv32), u6)
  }

  function PackCIPrime(w: bv16, rp: bv32, u6: bv32): bv16 {
    PutImm6(Put(w, 9, 7, rp & 0x7), u6)
  }

  function PackLwsp(w: bv16, rd: Reg, u: bv32): bv16 {
    var w := Put(w, 11, 7, rd as bv32);
    var w := Put(w, 12, 12, (u >> 5) & 0x1);
    var w := Put(w, 6, 4, (u >> 2) & 0x7);
    Put(w, 3, 2, (u >> 6) & 0x3)
  }

  /** C.LDSP: the source never stores rd. */
  function PackLdsp(w: bv16, u: bv32): bv16 {
    var w := Put(w, 12, 12, (u >> 5) & 0x1);
    var w := Put(w, 6, 5, (u >> 3) & 0x3);
    Put(w, 4, 2, (u >> 6) & 0x7)
  }

  function EncodeCI(xlen: Xlen, op: COp, rd: Reg, rs1: Reg, imm: int): Option<bv16>
  {
    var w := BuildTags(CInfoOf(op));
    var maxShamt := if xlen == RV64 then 63 else 31;
    match op
    case C_ADDI =>
      if rd == 0 && imm == 0 then Some(PackCI(w, 0, 0))
      else if rd == 0 || imm < -32 || imm > 31 then None
      else Some(PackCI(w, rd, Low(imm, 6)))
    case C_ADDIW =>
      if xlen != RV64 || rd == 0 || imm < -32 || imm > 31 then None else Some(PackCI(w, rd, Low(imm, 6)))
    case C_LUI =>
      if rd == 0 || rd == 2 || imm == 0 || imm < -32 || imm > 31 then None else Some(PackCI(w, rd, Low(imm, 6)))
    case C_SLLI =>
      if rd == 0 || imm < 0 || imm > maxShamt then None else Some(PackCI(w, rd, Low(imm, 6)))
    case C_SRLI | C_SRAI =>
      if RegP(rd).None? || imm < 0 || imm > maxShamt then None else Some(PackCIPrime(w, RegP(rd).value, Low(imm, 6)))
    case C_ANDI =>
      if RegP(rd).None? || imm < -32 || imm > 31 then None else Some(PackCIPrime(w, RegP(rd).value, Low(imm, 6)))
    case C_LWSP =>
      if rs1 != 2 || rd == 0 || imm < 0 || imm % 4 != 0 || imm > 252 then None else Some(PackLwsp(w, rd, Word(imm)))
    case C_LDSP =>
      if xlen != RV64 || rs1 != 2 || rd == 0 || imm < 0 || imm % 8 != 0 || imm > 504 then None
      else Some(PackLdsp(w, Word(imm)))
    case C_LI =>
      if rd == 0 || imm < -32 || imm > 31 || imm == 0 then None else Some(PackCI(w, rd, Low(imm, 6)))
    case _ => None
  }

  /** The offset test shared by CL, CS and CSS: the lower bound is tested on the 64-bit
      immediate, the rest on its truncation to 32 bits. */
  predicate OffsetOk(imm: int, step: int, max: int)
    requires step > 0
  {
    imm >= 0 && U32(imm) % step == 0 && U32(imm) <= max
  }

  function PackWordMem(w: bv16, u: bv32, base: bv32, reg: bv32): bv16 {
    var w := Put(w, 12, 10, (u >> 3) & 0x7);
    var w := Put(w, 6, 6, (u >> 2) & 0x1);
    var w := Put(w, 5, 5, (u >> 6) & 0x1);
    var w := Put(w, 9, 7, base & 0x7);
    Put(w, 4, 2, reg & 0x7)
  }

  function PackDoubleMem(w: bv16, u: bv32, base: bv32, reg: bv32): bv16 {
    var w := Put(w, 12, 10, (u >> 3) & 0x7);
    var w := Put(w, 6, 5, (u >> 6) & 0x3);
    var w := Put(w, 9, 7, base & 0x7);
    Put(w, 4, 2, reg & 0x7)
  }

  /** CL and CS: `reg` is rd of a load or rs2 of a store. */
  function EncodeMem(op: COp, reg: Reg, base: Reg, imm: int): Option<bv16>
  {
    var w := BuildTags(CInfoOf(op));
    if RegP(reg).None? || RegP(base).None? then None
    else if op == C_LW || op == C_SW then
      if !OffsetOk(imm, 4, 124) then None else Some(PackWordMem(w, Word(imm), RegP(base).value, RegP(reg).value))
    else if op == C_LD || op == C_SD then
      if !OffsetOk(imm, 8, 248) then None else Some(PackDoubleMem(w, Word(imm), RegP(base).value, RegP(reg).value))
    else None
  }

  function PackSwsp(w: bv16, rs2: Reg, u: bv32): bv16 {
    var w := Put(w, 12, 12, (u >> 7) & 0x1);
    var w := Put(w, 6, 2, (u >> 2) & 0x1F);
    Put(w, 11, 7, rs2 as bv32)
  }

  function PackSdsp(w: bv16, rs2: Reg, u: bv32): bv16 {
    var w := Put(w, 12, 10, (u >> 6) & 0x7);
    var w := Put(w, 6, 2, (u >> 3) & 0x1F);
    Put(w, 11, 7, rs2 as bv32)
  }

  function EncodeCSS(op: COp, rs1: Reg, rs2: Reg, imm: int): Option<bv16>
  {
    var w := BuildTags(CInfoOf(op));
    if rs1 != 2 then None
    else if op == C_SWSP then
      if !OffsetOk(imm, 4, 252) then None else Some(PackSwsp(w, rs2, Word(imm)))
    else if op == C_SDSP then
      if !OffsetOk(imm, 8, 504) then None else Some(PackSdsp(w, rs2, Word(imm)))
    else None
  }

  function PackCB(w: bv16, r1p: bv32, u: bv32): bv16 {
    var w := Put(w, 12, 12, (u >> 7) & 0x1);
    var w := Put(w, 11, 10, (u >> 5) & 0x3);
    var w := Put(w, 9, 7, r1p & 0x7);
    var w := Put(w, 6, 3, u & 0xF);
    Put(w, 2, 2, (u >> 4) & 0x1)
  }

  function EncodeCB(op: COp, rs1: Reg, imm: int): Option<bv16>
  {
    if RegP(rs1).None? || imm % 2 != 0 || imm < -256 || imm > 254 then None
    else Some(PackCB(BuildTags(CInfoOf(op)), RegP(rs1).value, Low(imm / 2, 8)))
  }

  function PackCJ(w: bv16, u: bv32): bv16 {
    var w := Put(w, 12, 12, (u >> 10) & 0x1);
    var w := Put(w, 11, 11, (u >> 3) & 0x1);
    var w := Put(w, 10, 9, (u >> 8) & 0x3);
    var w := Put(w, 8, 8, (u >> 9) & 0x1);
    var w := Put(w, 7, 7, (u >> 6) & 0x1);
    var w := Put(w, 6, 6, (u >> 7) & 0x1);
    var w := Put(w, 5, 3, (u >> 1) & 0x7);
    Put(w, 2, 2, (u >> 5) & 0x1)
  }

  function EncodeCJ(op: COp, imm: int): Option<bv16>
  {
    if imm % 2 != 0 || imm < -2048 || imm > 2046 then None
    else Some(PackCJ(BuildTags(CInfoOf(op)), Low(imm / 2, 11)))
  }

  /** `c_encode_instruction`: dispatch on the format; None is a reported error. Every
      encoder starts with `require_c_for_op`, done here once. */
  function CEncode(cfg: Config, op: COp, fmt: Fmt, rd: Reg, rs1: Reg, rs2: Reg, imm: int): Option<bv16> {
    if !RequireC(cfg, op) then None
    else
      match fmt
      case FmtCA => EncodeCA(op, rd, rs1, rs2)
      case FmtCI => EncodeCI(cfg.xlen, op, rd, rs1, imm)
      case FmtCR => EncodeCR(op, rd, rs1, rs2)
      case FmtCS => if op == C_SW || op == C_SD then EncodeMem(op, rs2, rs1, imm) else None
      case FmtCSS => EncodeCSS(op, rs1, rs2, imm)
      case FmtCB => EncodeCB(op, rs1, imm)
      case FmtCJ => EncodeCJ(op, imm)
      case FmtCL => if op == C_LW || op == C_LD then EncodeMem(op, rd, rs1, imm) else None
      case _ => None
  }
}
