/** A reader of 32-bit instructions written from the RISC-V Unprivileged ISA (20191213),
    sections 2.2-2.3 and chapter 24, and the proof that the encoders agree with it. */
module Decode32 {
  import opened Isa
  import opened Bits
  import opened Encode32

  function Opcode(w: bv32): bv32 { w & 0x7F }
  function Funct3(w: bv32): bv32 { (w >> 12) & 0x7 }
  function Funct7(w: bv32): bv32 { w >> 25 }
  function Rd(w: bv32): Reg { ((w >> 7) & 0x1F) as bv5 }
  function Rs1(w: bv32): Reg { ((w >> 15) & 0x1F) as bv5 }
  function Rs2(w: bv32): Reg { ((w >> 20) & 0x1F) as bv5 }

  // Immediates, each bit at the place chapter 2.3 names.
  function ImmI(w: bv32): bv32 { w >> 20 }
  function ImmS(w: bv32): bv32 { ((w >> 25) << 5) | ((w >> 7) & 0x1F) }
  function ImmB(w: bv32): bv32 {
    ((w >> 31) << 12) | (((w >> 7) & 0x1) << 11) | (((w >> 25) & 0x3F) << 5) | (((w >> 8) & 0xF) << 1)
  }
  function ImmJ(w: bv32): bv32 {
    ((w >> 31) << 20) | (((w >> 12) & 0xFF) << 12) | (((w >> 20) & 0x1) << 11) | (((w >> 21) & 0x3FF) << 1)
  }
  function ImmU(w: bv32): bv32 { w & 0xFFFF_F000 }

  /** OP (0x33): register-register operations by funct3 and funct7. */
  function RegOp(f3: bv32, f7: bv32): Option<BaseOp> {
    if f7 == 0 then
      (if f3 == 0 then Some(ADD) else if f3 == 1 then Some(SLL) else if f3 == 2 then Some(SLT)
       else if f3 == 3 then Some(SLTU) else if f3 == 4 then Some(XOR) else if f3 == 5 then Some(SRL)
       else if f3 == 6 then Some(OR) else Some(AND))
    else if f7 == 0x20 then
      (if f3 == 0 then Some(SUB) else if f3 == 5 then Some(SRA) else None)
    else if f7 == 1 then
      (if f3 == 0 then Some(MUL) else if f3 == 1 then Some(MULH) else if f3 == 2 then Some(MULHSU)
       else if f3 == 3 then Some(MULHU) else if f3 == 4 then Some(DIV) else if f3 == 5 then Some(DIVU)
       else if f3 == 6 then Some(REM) else Some(REMU))
    else None
  }

  /** OP-32 (0x3B): the RV64 word operations. */
  function RegWOp(f3: bv32, f7: bv32): Option<BaseOp> {
    if f7 == 0 then (if f3 == 0 then Some(ADDW) else if f3 == 1 then Some(SLLW) else if f3 == 5 then Some(SRLW) else None)
    else if f7 == 0x20 then (if f3 == 0 then Some(SUBW) else if f3 == 5 then Some(SRAW) else None)
    else if f7 == 1 then
      (if f3 == 0 then Some(MULW) else if f3 == 4 then Some(DIVW) else if f3 == 5 then Some(DIVUW)
       else if f3 == 6 then Some(REMW) else if f3 == 7 then Some(REMUW) else None)
    else None
  }

  /** OP-IMM (0x13) without the shifts. */
  function ImmOp(f3: bv32): Option<BaseOp> {
    if f3 == 0 then Some(ADDI) else if f3 == 2 then Some(SLTI) else if f3 == 3 then Some(SLTIU)
    else if f3 == 4 then Some(XORI) else if f3 == 6 then Some(ORI) else if f3 == 7 then Some(ANDI) else None
  }

  function ShiftOp(f3: bv32, logical: bool, arithmetic: bool): Option<BaseOp> {
    if f3 == 1 && logical then Some(SLLI) else if f3 == 5 && logical then Some(SRLI)
    else if f3 == 5 && arithmetic then Some(SRAI) else None
  }

  function ShiftWOp(f3: bv32, f7: bv32): Option<BaseOp> {
    if f3 == 1 && f7 == 0 then Some(SLLIW) else if f3 == 5 && f7 == 0 then Some(SRLIW)
    else if f3 == 5 && f7 == 0x20 then Some(SRAIW) else None
  }

  function LoadOp(xlen: Xlen, f3: bv32): Option<BaseOp> {
    if f3 == 0 then Some(LB) else if f3 == 1 then Some(LH) else if f3 == 2 then Some(LW)
    else if f3 == 4 then Some(LBU) else if f3 == 5 then Some(LHU)
    else if f3 == 3 && xlen == RV64 then Some(LD) else if f3 == 6 && xlen == RV64 then Some(LWU) else None
  }

  function StoreOp(xlen: Xlen, f3: bv32): Option<BaseOp> {
    if f3 == 0 then Some(SB) else if f3 == 1 then Some(SH) else if f3 == 2 then Some(SW)
    else if f3 == 3 && xlen == RV64 then Some(SD) else None
  }

  function BranchOp(f3: bv32): Option<BaseOp> {
    if f3 == 0 then Some(BEQ) else if f3 == 1 then Some(BNE) else if f3 == 4 then Some(BLT)
    else if f3 == 5 then Some(BGE) else if f3 == 6 then Some(BLTU) else if f3 == 7 then Some(BGEU) else None
  }

  function WithOp(op: Option<BaseOp>, rd: Reg, rs1: Reg, rs2: Reg, imm: int): Option<Insn> {
    if op.Some? then Some(Insn(op.value, rd, rs1, rs2, imm)) else None
  }

  /** The base instruction a word denotes, or None if it denotes none of those above. */
  function Decode(xlen: Xlen, w: bv32): Option<Insn> {
    var opc, f3, f7 := Opcode(w), Funct3(w), Funct7(w);
    var rd, rs1, rs2 := Rd(w), Rs1(w), Rs2(w);
    if opc == 0x33 then WithOp(RegOp(f3, f7), rd, rs1, rs2, 0)
    else if opc == 0x3B && xlen == RV64 then WithOp(RegWOp(f3, f7), rd, rs1, rs2, 0)
    else if opc == 0x13 && (f3 == 1 || f3 == 5) then
      if xlen == RV64 then
        WithOp(ShiftOp(f3, w >> 26 == 0, w >> 26 == 0x10), rd, rs1, 0, Val((w >> 20) & 0x3F, 6))
      else
        WithOp(ShiftOp(f3, f7 == 0, f7 == 0x20), rd, rs1, 0, Val((w >> 20) & 0x1F, 5))
    else if opc == 0x13 then WithOp(ImmOp(f3), rd, rs1, 0, Signed(ImmI(w), 12))
    else if opc == 0x1B && xlen == RV64 then
      if f3 == 0 then Some(Insn(ADDIW, rd, rs1, 0, Signed(ImmI(w), 12)))
      else WithOp(ShiftWOp(f3, f7), rd, rs1, 0, Val((w >> 20) & 0x1F, 5))
    else if opc == 0x03 then WithOp(LoadOp(xlen, f3), rd, rs1, 0, Signed(ImmI(w), 12))
    else if opc == 0x67 && f3 == 0 then Some(Insn(JALR, rd, rs1, 0, Signed(ImmI(w), 12)))
    else if w == 0x0000_0073 then Some(Insn(ECALL, 0, 0, 0, 0))
    else if w == 0x0010_0073 then Some(Insn(EBREAK, 0, 0, 0, 0))
    else if opc == 0x23 then WithOp(StoreOp(xlen, f3), 0, rs1, rs2, Signed(ImmS(w), 12))
    else if opc == 0x63 then WithOp(BranchOp(f3), 0, rs1, rs2, Signed(ImmB(w), 13))
    else if opc == 0x6F then Some(Insn(JAL, rd, 0, 0, Signed(ImmJ(w), 21)))
    else if opc == 0x37 then Some(Insn(LUI, rd, 0, 0, Signed(ImmU(w), 32)))
    else if opc == 0x17 then Some(Insn(AUIPC, rd, 0, 0, Signed(ImmU(w), 32)))
    else None
  }

  /** The meaning of a base operation with these operands: those its format uses. */
  function Meaning(op: BaseOp, rd: Reg, rs1: Reg, rs2: Reg, imm: int): Insn {
    match BaseFmt(op)
    case FmtR => Insn(op, rd, rs1, rs2, 0)
    case FmtS | FmtB => Insn(op, 0, rs1, rs2, imm)
    case FmtJ | FmtUI => Insn(op, rd, 0, 0, imm)
    case _ => if op == ECALL || op == EBREAK then Insn(op, 0, 0, 0, 0) else Insn(op, rd, rs1, 0, imm)
  }

  // ------------------------------------------------- reading, one instruction class at a time

  lemma DecodesReg(xlen: Xlen, op: BaseOp, w: bv32)
    requires || (Opcode(w) == 0x33 && RegOp(Funct3(w), Funct7(w)) == Some(op))
             || (Opcode(w) == 0x3B && xlen == RV64 && RegWOp(Funct3(w), Funct7(w)) == Some(op))
    ensures Decode(xlen, w) == Some(Insn(op, Rd(w), Rs1(w), Rs2(w), 0)) && w & 3 == 3
  {
    hide Val, Signed, ImmI, ImmS, ImmB, ImmJ, ImmU, Rd, Rs1, Rs2, RegOp, RegWOp, ImmOp, ShiftOp, ShiftWOp, LoadOp, StoreOp, BranchOp;
  }

  lemma DecodesImm(xlen: Xlen, op: BaseOp, w: bv32)
    requires || (Opcode(w) == 0x13 && Funct3(w) != 1 && Funct3(w) != 5 && ImmOp(Funct3(w)) == Some(op))
             || (Opcode(w) == 0x1B && xlen == RV64 && Funct3(w) == 0 && op == ADDIW)
             || (Opcode(w) == 0x03 && LoadOp(xlen, Funct3(w)) == Some(op))
             || (Opcode(w) == 0x67 && Funct3(w) == 0 && op == JALR)
    ensures Decode(xlen, w) == Some(Insn(op, Rd(w), Rs1(w), 0, Signed(ImmI(w), 12))) && w & 3 == 3
  {
    hide Val, Signed, ImmI, ImmS, ImmB, ImmJ, ImmU, Rd, Rs1, Rs2, RegOp, RegWOp, ImmOp, ShiftOp, ShiftWOp, LoadOp, StoreOp, BranchOp;
  }

  lemma DecodesShift6(op: BaseOp, w: bv32, u: bv32)
    requires Opcode(w) == 0x13 && (Funct3(w) == 1 || Funct3(w) == 5) && u == (w >> 20) & 0x3F
    requires ShiftOp(Funct3(w), w >> 26 == 0, w >> 26 == 0x10) == Some(op)
    ensures Decode(RV64, w) == Some(Insn(op, Rd(w), Rs1(w), 0, Val(u, 6))) && w & 3 == 3
  {
    hide Val, Signed, ImmI, ImmS, ImmB, ImmJ, ImmU, Rd, Rs1, Rs2, RegOp, RegWOp, ImmOp, ShiftOp, ShiftWOp, LoadOp, StoreOp, BranchOp;
  }

  lemma DecodesShift5(xlen: Xlen, op: BaseOp, w: bv32, u: bv32)
    requires (Funct3(w) == 1 || Funct3(w) == 5) && u == (w >> 20) & 0x1F
    requires || (Opcode(w) == 0x13 && xlen == RV32 && ShiftOp(Funct3(w), Funct7(w) == 0, Funct7(w) == 0x20) == Some(op))
             || (Opcode(w) == 0x1B && xlen == RV64 && ShiftWOp(Funct3(w), Funct7(w)) == Some(op))
    ensures Decode(xlen, w) == Some(Insn(op, Rd(w), Rs1(w), 0, Val(u, 5))) && w & 3 == 3
  {
    hide Val, Signed, ImmI, ImmS, ImmB, ImmJ, ImmU, Rd, Rs1, Rs2, RegOp, RegWOp, ImmOp, ShiftOp, ShiftWOp, LoadOp, StoreOp, BranchOp;
  }

  lemma DecodesStore(xlen: Xlen, op: BaseOp, w: bv32)
    requires Opcode(w) == 0x23 && StoreOp(xlen, Funct3(w)) == Some(op)
    ensures Decode(xlen, w) == Some(Insn(op, 0, Rs1(w), Rs2(w), Signed(ImmS(w), 12))) && w & 3 == 3
  {
    hide Val, Signed, ImmI, ImmS, ImmB, ImmJ, ImmU, Rd, Rs1, Rs2, RegOp, RegWOp, ImmOp, ShiftOp, ShiftWOp, LoadOp, StoreOp, BranchOp;
  }

  lemma DecodesBranch(xlen: Xlen, op: BaseOp, w: bv32)
    requires Opcode(w) == 0x63 && BranchOp(Funct3(w)) == Some(op)
    ensures Decode(xlen, w) == Some(Insn(op, 0, Rs1(w), Rs2(w), Signed(ImmB(w), 13))) && w & 3 == 3
  {
    hide Val, Signed, ImmI, ImmS, ImmB, ImmJ, ImmU, Rd, Rs1, Rs2, RegOp, RegWOp, ImmOp, ShiftOp, ShiftWOp, LoadOp, StoreOp, BranchOp;
  }

  lemma DecodesJal(xlen: Xlen, w: bv32)
    requires Opcode(w) == 0x6F
    ensures Decode(xlen, w) == Some(Insn(JAL, Rd(w), 0, 0, Signed(ImmJ(w), 21))) && w & 3 == 3
  {
    hide Val, Signed, ImmI, ImmS, ImmB, ImmJ, ImmU, Rd, Rs1, Rs2, RegOp, RegWOp, ImmOp, ShiftOp, ShiftWOp, LoadOp, StoreOp, BranchOp;
  }

  lemma DecodesUpper(xlen: Xlen, op: BaseOp, w: bv32)
    requires (op == LUI && Opcode(w) == 0x37) || (op == AUIPC && Opcode(w) == 0x17)
    ensures Decode(xlen, w) == Some(Insn(op, Rd(w), 0, 0, Signed(ImmU(w), 32))) && w & 3 == 3
  {
    hide Val, Signed, ImmI, ImmS, ImmB, ImmJ, ImmU, Rd, Rs1, Rs2, RegOp, RegWOp, ImmOp, ShiftOp, ShiftWOp, LoadOp, StoreOp, BranchOp;
  }

  // ------------------------------------------------- what the packers put where

  lemma FieldsR(i: Info, rd: Reg, rs1: Reg, rs2: Reg) returns (w: bv32)
    ensures w == PackR(i, rd, rs1, rs2)
    ensures Opcode(w) == i.opcode & 0x7F && Funct3(w) == i.funct3 & 7 && Funct7(w) == i.funct7 & 0x7F
    ensures Rd(w) == rd && Rs1(w) == rs1 && Rs2(w) == rs2
  {
    w := PackR(i, rd, rs1, rs2);
  }

  lemma FieldsShift6(i: Info, f6: bv32, rd: Reg, rs1: Reg, shamt: bv32) returns (w: bv32)
    requires f6 & 0x3F == f6
    ensures w == PackShift6(i, f6, rd, rs1, shamt)
    ensures Opcode(w) == i.opcode & 0x7F && Funct3(w) == i.funct3 & 7 && w >> 26 == f6
    ensures Rd(w) == rd && Rs1(w) == rs1 && (w >> 20) & 0x3F == shamt & 0x3F
  {
    w := PackShift6(i, f6, rd, rs1, shamt);
  }

  lemma FieldsShift5(i: Info, rd: Reg, rs1: Reg, shamt: bv32) returns (w: bv32)
    ensures w == PackShift5(i, rd, rs1, shamt)
    ensures Opcode(w) == i.opcode & 0x7F && Funct3(w) == i.funct3 & 7 && Funct7(w) == i.funct7 & 0x7F
    ensures Rd(w) == rd && Rs1(w) == rs1 && (w >> 20) & 0x1F == shamt & 0x1F
  {
    w := PackShift5(i, rd, rs1, shamt);
  }

  lemma FieldsI(i: Info, rd: Reg, rs1: Reg, uimm: bv32) returns (w: bv32)
    requires uimm & 0xFFF == uimm
    ensures w == PackI(i, rd, rs1, uimm)
    ensures Opcode(w) == i.opcode & 0x7F && Funct3(w) == i.funct3 & 7
    ensures Rd(w) == rd && Rs1(w) == rs1 && ImmI(w) == uimm
  {
    w := PackI(i, rd, rs1, uimm);
  }

  lemma FieldsS(i: Info, rs1: Reg, rs2: Reg, uimm: bv32) returns (w: bv32)
    requires uimm & 0xFFF == uimm
    ensures w == PackS(i, rs1, rs2, uimm)
    ensures Opcode(w) == i.opcode & 0x7F && Funct3(w) == i.funct3 & 7
    ensures Rs1(w) == rs1 && Rs2(w) == rs2 && ImmS(w) == uimm
  {
    w := PackS(i, rs1, rs2, uimm);
  }

  lemma FieldsB(i: Info, rs1: Reg, rs2: Reg, uimm: bv32) returns (w: bv32)
    requires uimm & 0xFFF == uimm
    ensures w == PackB(i, rs1, rs2, uimm)
    ensures Opcode(w) == i.opcode & 0x7F && Funct3(w) == i.funct3 & 7
    ensures Rs1(w) == rs1 && Rs2(w) == rs2 && ImmB(w) == uimm << 1
  {
    w := PackB(i, rs1, rs2, uimm);
  }

  lemma OpcodeJ(i: Info, rd: Reg, u: bv32)
    ensures Opcode(PackJ(i, rd, u)) == i.opcode & 0x7F
  {}

  lemma RdJ(i: Info, rd: Reg, u: bv32)
    ensures Rd(PackJ(i, rd, u)) == rd
  {}

  lemma OffsetJ(i: Info, rd: Reg, u: bv32)
    requires u & 0xF_FFFF == u
    ensures ImmJ(PackJ(i, rd, u)) == u << 1
  {}

  lemma FieldsJ(i: Info, rd: Reg, uimm: bv32) returns (w: bv32)
    requires uimm & 0xF_FFFF == uimm
    ensures w == PackJ(i, rd, uimm)
    ensures Opcode(w) == i.opcode & 0x7F && Rd(w) == rd && ImmJ(w) == uimm << 1
  {
    hide Opcode, Rd, ImmJ, PackJ;
    OpcodeJ(i, rd, uimm);
    RdJ(i, rd, uimm);
    OffsetJ(i, rd, uimm);
    w := PackJ(i, rd, uimm);
  }

  lemma OpcodeU(i: Info, rd: Reg, upper: bv32)
    requires upper & 0xFFF == 0
    ensures Opcode(PackU(i, rd, upper)) == i.opcode & 0x7F
  {}

  lemma RdU(i: Info, rd: Reg, upper: bv32)
    requires upper & 0xFFF == 0
    ensures Rd(PackU(i, rd, upper)) == rd
  {}

  lemma UpperU(i: Info, rd: Reg, upper: bv32)
    requires upper & 0xFFF == 0
    ensures ImmU(PackU(i, rd, upper)) == upper
  {}

  lemma FieldsU(i: Info, rd: Reg, upper: bv32) returns (w: bv32)
    requires upper & 0xFFF == 0
    ensures w == PackU(i, rd, upper)
    ensures Opcode(w) == i.opcode & 0x7F && Rd(w) == rd && ImmU(w) == upper
  {
    hide Opcode, Rd, ImmU, PackU;
    OpcodeU(i, rd, upper);
    RdU(i, rd, upper);
    UpperU(i, rd, upper);
    w := PackU(i, rd, upper);
  }

  // ------------------------------------------------- immediates survive

  lemma Imm12(imm: int) returns (u: bv32)
    requires -2048 <= imm <= 2047
    ensures u == Low(imm, 12) && u & 0xFFF == u && Signed(u, 12) == imm
  {
    OnesTable();
    PowerTable();
    var o;
    u, o := LowFits(imm, 12);
    SignedLow(imm, 12);
  }

  lemma Imm13(imm: int) returns (u: bv32, v: bv32)
    requires imm % 2 == 0 && -4096 <= imm < 4096
    ensures u == Low(imm / 2, 12) && u & 0xFFF == u && v == u << 1 && Signed(v, 13) == imm
  {
    OnesTable();
    PowerTable();
    var o;
    u, o := ImmEven(imm, 13);
    v := u << 1;
  }

  lemma Imm21(imm: int) returns (u: bv32, v: bv32)
    requires imm % 2 == 0 && -0x10_0000 <= imm < 0x10_0000
    ensures u == Low(imm / 2, 20) && u & 0xF_FFFF == u && v == u << 1 && Signed(v, 21) == imm
  {
    OnesTable();
    PowerTable();
    var o;
    u, o := ImmEven(imm, 21);
    v := u << 1;
  }

  lemma Shamt5(imm: int) returns (x: bv32, u: bv32)
    requires 0 <= imm <= 31
    ensures x == Word(imm) && u == x & 0x1F && Val(u, 5) == imm
  {
    OnesTable();
    PowerTable();
    var o;
    x, u, o := ImmShift(imm, 5);
  }

  lemma Shamt6(imm: int) returns (x: bv32, u: bv32)
    requires 0 <= imm <= 63
    ensures x == Word(imm) && u == x & 0x3F && Val(u, 6) == imm
  {
    OnesTable();
    PowerTable();
    var o;
    x, u, o := ImmShift(imm, 6);
  }

  lemma ImmUpper(imm: int) returns (x: bv32)
    requires -TWO31 <= imm < TWO31 && Low(imm, 12) == 0
    ensures x == Word(imm) && x & 0xFFF == 0 && Signed(x, 32) == imm
  {
    LowMask(imm, 32, 12);
    OnesTable();
    PowerTable();
    SignedLow(imm, 32);
    x := Word(imm);
  }

  // ------------------------------------------------- the two tables agree

  /** The immediates an operation can carry in its 32-bit form. */
  predicate Representable(xlen: Xlen, op: BaseOp, imm: int) {
    match BaseFmt(op)
    case FmtR => true
    case FmtB => imm % 2 == 0 && -4096 <= imm < 4096
    case FmtJ => imm % 2 == 0 && -0x10_0000 <= imm < 0x10_0000
    case FmtUI => imm % 4096 == 0 && -TWO31 <= imm < TWO31
    case _ =>
      if IsShift(op) then 0 <= imm <= MaxShamt(xlen, op)
      else op == ECALL || op == EBREAK || -2048 <= imm < 2048
  }

  // Each table lemma: opcode and function fields single out the operation.

  lemma TableReg(cfg: Config, op: BaseOp) returns (i: Info)
    requires BaseFmt(op) == FmtR && RequireForOp(cfg, op)
    ensures i == InfoOf(op) && i.funct3 & 7 == i.funct3 && i.funct7 & 0x7F == i.funct7
    ensures || (i.opcode == 0x33 && RegOp(i.funct3, i.funct7) == Some(op))
            || (i.opcode == 0x3B && cfg.xlen == RV64 && RegWOp(i.funct3, i.funct7) == Some(op))
  {
    i := InfoReg(op);
  }

  lemma TableImm(cfg: Config, op: BaseOp) returns (i: Info)
    requires BaseFmt(op) == FmtI && !IsShift(op) && op != ECALL && op != EBREAK && RequireForOp(cfg, op)
    ensures i == InfoOf(op) && i.funct3 & 7 == i.funct3
    ensures || (i.opcode == 0x13 && i.funct3 != 1 && i.funct3 != 5 && ImmOp(i.funct3) == Some(op))
            || (i.opcode == 0x1B && cfg.xlen == RV64 && i.funct3 == 0 && op == ADDIW)
            || (i.opcode == 0x03 && LoadOp(cfg.xlen, i.funct3) == Some(op))
            || (i.opcode == 0x67 && i.funct3 == 0 && op == JALR)
  {
    i := InfoImm(op);
  }

  lemma TableShift(cfg: Config, op: BaseOp) returns (i: Info)
    requires IsShift(op) && RequireForOp(cfg, op)
    ensures i == InfoOf(op) && (i.funct3 == 1 || i.funct3 == 5) && i.funct7 & 0x7F == i.funct7
    ensures if IsWordShift(op)
            then i.opcode == 0x1B && cfg.xlen == RV64 && ShiftWOp(i.funct3, i.funct7) == Some(op)
            else && i.opcode == 0x13 && ShiftOp(i.funct3, i.funct7 == 0, i.funct7 == 0x20) == Some(op)
                 && ShiftOp(i.funct3, op != SRAI, op == SRAI) == Some(op) && (op != SRAI ==> i.funct7 == 0)
  {
    i := InfoImm(op);
  }

  lemma TableStore(cfg: Config, op: BaseOp) returns (i: Info)
    requires BaseFmt(op) == FmtS && RequireForOp(cfg, op)
    ensures i == InfoOf(op) && i.funct3 & 7 == i.funct3 && i.opcode == 0x23 && StoreOp(cfg.xlen, i.funct3) == Some(op)
  {
    i := InfoOther(op);
  }

  lemma TableBranch(op: BaseOp) returns (i: Info)
    requires BaseFmt(op) == FmtB
    ensures i == InfoOf(op) && i.funct3 & 7 == i.funct3 && i.opcode == 0x63 && BranchOp(i.funct3) == Some(op)
  {
    i := InfoOther(op);
  }

  lemma RoundTripR(cfg: Config, op: BaseOp, rd: Reg, rs1: Reg, rs2: Reg) returns (w: bv32)
    requires BaseFmt(op) == FmtR && RequireForOp(cfg, op)
    ensures w == PackR(InfoOf(op), rd, rs1, rs2)
    ensures Decode(cfg.xlen, w) == Some(Insn(op, rd, rs1, rs2, 0)) && w & 3 == 3
  {
    hide Decode, Low, Val, Signed;
    var i := TableReg(cfg, op);
    w := FieldsR(i, rd, rs1, rs2);
    DecodesReg(cfg.xlen, op, w);
  }

  lemma RoundTripShift(cfg: Config, op: BaseOp, rd: Reg, rs1: Reg, imm: int) returns (w: bv32)
    requires IsShift(op) && RequireForOp(cfg, op) && 0 <= imm <= MaxShamt(cfg.xlen, op)
    ensures EncodeI(cfg.xlen, op, rd, rs1, imm) == Some(w)
    ensures Decode(cfg.xlen, w) == Some(Insn(op, rd, rs1, 0, imm)) && w & 3 == 3
  {
    hide Decode, Low, Val, Signed;
    var i := TableShift(cfg, op);
    var x, u;
    if !IsWordShift(op) && cfg.xlen == RV64 {
      x, u := Shamt6(imm);
      w := FieldsShift6(i, if op == SRAI then 0x10 else 0, rd, rs1, x);
      DecodesShift6(op, w, u);
    } else {
      x, u := Shamt5(imm);
      w := FieldsShift5(i, rd, rs1, x);
      DecodesShift5(cfg.xlen, op, w, u);
    }
  }

  lemma RoundTripI(cfg: Config, op: BaseOp, rd: Reg, rs1: Reg, imm: int) returns (w: bv32)
    requires BaseFmt(op) == FmtI && !IsShift(op) && op != ECALL && op != EBREAK && RequireForOp(cfg, op)
    requires -2048 <= imm < 2048
    ensures EncodeI(cfg.xlen, op, rd, rs1, imm) == Some(w)
    ensures Decode(cfg.xlen, w) == Some(Insn(op, rd, rs1, 0, imm)) && w & 3 == 3
  {
    hide Decode, Low, Val, Signed;
    var i := TableImm(cfg, op);
    var u := Imm12(imm);
    w := FieldsI(i, rd, rs1, u);
    DecodesImm(cfg.xlen, op, w);
  }

  lemma LowOne()
    ensures Low(0, 12) == 0 && Low(1, 12) == 1
  {
    Zeros(12);
    Zeros(11);
  }

  lemma RoundTripSystem(xlen: Xlen, op: BaseOp, rd: Reg, rs1: Reg, imm: int) returns (w: bv32)
    requires op == ECALL || op == EBREAK
    ensures EncodeI(xlen, op, rd, rs1, imm) == Some(w)
    ensures Decode(xlen, w) == Some(Insn(op, 0, 0, 0, 0)) && w & 3 == 3
  {
    hide Low, Val, Signed;
    LowOne();
    w := if op == ECALL then 0x73 else 0x10_0073;
  }

  lemma RoundTripS(cfg: Config, op: BaseOp, rs1: Reg, rs2: Reg, imm: int) returns (w: bv32)
    requires BaseFmt(op) == FmtS && RequireForOp(cfg, op) && -2048 <= imm < 2048
    ensures EncodeS(op, rs1, rs2, imm) == Some(w)
    ensures Decode(cfg.xlen, w) == Some(Insn(op, 0, rs1, rs2, imm)) && w & 3 == 3
  {
    hide Decode, Low, Val, Signed;
    var i := TableStore(cfg, op);
    var u := Imm12(imm);
    w := FieldsS(i, rs1, rs2, u);
    DecodesStore(cfg.xlen, op, w);
  }

  lemma RoundTripB(xlen: Xlen, op: BaseOp, rs1: Reg, rs2: Reg, imm: int) returns (w: bv32)
    requires BaseFmt(op) == FmtB && imm % 2 == 0 && -4096 <= imm < 4096
    ensures EncodeB(op, rs1, rs2, imm) == Some(w)
    ensures Decode(xlen, w) == Some(Insn(op, 0, rs1, rs2, imm)) && w & 3 == 3
  {
    hide Decode, Low, Val, Signed;
    var i := TableBranch(op);
    var u, v := Imm13(imm);
    w := FieldsB(i, rs1, rs2, u);
    DecodesBranch(xlen, op, w);
  }

  lemma RoundTripJ(xlen: Xlen, rd: Reg, imm: int) returns (w: bv32)
    requires imm % 2 == 0 && -0x10_0000 <= imm < 0x10_0000
    ensures EncodeJ(JAL, rd, imm) == Some(w)
    ensures Decode(xlen, w) == Some(Insn(JAL, rd, 0, 0, imm)) && w & 3 == 3
  {
    hide Decode, Low, Val, Signed;
    var u, v := Imm21(imm);
    w := FieldsJ(InfoOf(JAL), rd, u);
    DecodesJal(xlen, w);
  }

  lemma UpperOpcode(op: BaseOp)
    requires op == LUI || op == AUIPC
    ensures InfoOf(op).opcode & 0x7F == if op == LUI then 0x37 else 0x17
  {}

  lemma UpperKept(x: bv32)
    requires x & 0xFFF == 0
    ensures x & 0xFFFF_F000 == x
  {}

  lemma EncodesUpper(op: BaseOp, rd: Reg, imm: int, x: bv32)
    requires Low(imm, 12) == 0 && -TWO31 <= imm < TWO31 && x == Word(imm) && x & 0xFFF == 0
    ensures EncodeU(op, rd, imm) == Some(PackU(InfoOf(op), rd, x))
  {
    hide PackU, InfoOf, Low, Word;
    UpperKept(x);
  }

  lemma RoundTripU(xlen: Xlen, op: BaseOp, rd: Reg, imm: int) returns (w: bv32)
    requires op == LUI || op == AUIPC
    requires Low(imm, 12) == 0 && -TWO31 <= imm < TWO31
    ensures EncodeU(op, rd, imm) == Some(w)
    ensures Decode(xlen, w) == Some(Insn(op, rd, 0, 0, imm)) && w & 3 == 3
  {
    hide Decode, Low, Val, Signed, PackU, InfoOf, Opcode, Rd, ImmU, EncodeU, Word;
    var x := ImmUpper(imm);
    UpperOpcode(op);
    EncodesUpper(op, rd, imm, x);
    w := FieldsU(InfoOf(op), rd, x);
    DecodesUpper(xlen, op, w);
  }

  /** Every base operation, operand and immediate: the encoder accepts exactly the
      representable immediates, and the word it makes denotes that instruction. */
  lemma EncodeExact(cfg: Config, op: BaseOp, rd: Reg, rs1: Reg, rs2: Reg, imm: int)
    requires RequireForOp(cfg, op)
    ensures var r := Encode(cfg.xlen, op, BaseFmt(op), rd, rs1, rs2, imm);
            && (r.Some? <==> Representable(cfg.xlen, op, imm))
            && (r.Some? ==> Decode(cfg.xlen, r.value) == Some(Meaning(op, rd, rs1, rs2, imm)) && r.value & 3 == 3)
  {
    hide Decode, Low, Word, InfoOf, PackR, PackI, PackS, PackB, PackJ, PackU, PackShift5, PackShift6;
    if BaseFmt(op) == FmtUI {
      PowerTable();
      LowIsZero(imm, 12);
    }
    if Representable(cfg.xlen, op, imm) {
      var w := EncodeRepresentable(cfg, op, rd, rs1, rs2, imm);
    }
  }

  lemma EncodeRepresentable(cfg: Config, op: BaseOp, rd: Reg, rs1: Reg, rs2: Reg, imm: int) returns (w: bv32)
    requires RequireForOp(cfg, op) && Representable(cfg.xlen, op, imm)
    ensures Encode(cfg.xlen, op, BaseFmt(op), rd, rs1, rs2, imm) == Some(w)
    ensures Decode(cfg.xlen, w) == Some(Meaning(op, rd, rs1, rs2, imm)) && w & 3 == 3
  {
    hide Decode, Low, Word, Val, Signed, InfoOf, PackR, PackI, PackS, PackB, PackJ, PackU, Pow2, EncodeI, EncodeS, EncodeB, EncodeJ, EncodeU;
    var fmt := BaseFmt(op);
    if fmt.FmtR? {
      w := RoundTripR(cfg, op, rd, rs1, rs2);
    } else if fmt.FmtI? {
      if IsShift(op) { w := RoundTripShift(cfg, op, rd, rs1, imm); }
      else if op == ECALL || op == EBREAK { w := RoundTripSystem(cfg.xlen, op, rd, rs1, imm); }
      else { w := RoundTripI(cfg, op, rd, rs1, imm); }
    } else if fmt.FmtS? {
      w := RoundTripS(cfg, op, rs1, rs2, imm);
    } else if fmt.FmtB? {
      w := RoundTripB(cfg.xlen, op, rs1, rs2, imm);
    } else if fmt.FmtJ? {
      w := RoundTripJ(cfg.xlen, rd, imm);
    } else {
      PowerTable();
      LowIsZero(imm, 12);
      w := RoundTripU(cfg.xlen, op, rd, imm);
    }
  }
}
