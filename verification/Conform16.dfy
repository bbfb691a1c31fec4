/** Where the compressed encoders agree with chapter 16 of the manual, and exactly where not. */
module Conform16 {
  import opened Isa
  import opened Bits
  import opened Encode16
  import opened Decode16

  // ------------------------------------------------- layouts, one per packer

  lemma LayoutCI(w: bv16, rd: Reg, u6: bv32) returns (h: bv16)
    requires u6 & 0x3F == u6
    ensures h == PackCI(w, rd, u6)
    ensures Quadrant(h) == Quadrant(w) && CFunct3(h) == CFunct3(w) && CRd(h) == rd && CiImm(h) == u6
    ensures Bit12(h) as bv32 == u6 >> 5
  {
    h := PackCI(w, rd, u6);
  }

  lemma LayoutCIPrime(w: bv16, rp: bv32, u6: bv32) returns (h: bv16)
    requires u6 & 0x3F == u6 && rp <= 7
    ensures h == PackCIPrime(w, rp, u6)
    ensures Quadrant(h) == Quadrant(w) && CFunct3(h) == CFunct3(w) && Funct2(h) == Funct2(w)
    ensures PrimeHigh(h) as bv32 == rp + 8 && CiImm(h) == u6 && Bit12(h) as bv32 == u6 >> 5
  {
    h := PackCIPrime(w, rp, u6);
  }

  lemma LayoutLwsp(w: bv16, rd: Reg, u: bv32) returns (h: bv16)
    requires u & 0xFC == u
    ensures h == PackLwsp(w, rd, u)
    ensures Quadrant(h) == Quadrant(w) && CFunct3(h) == CFunct3(w) && CRd(h) == rd && LwspImm(h) == u
  {
    h := PackLwsp(w, rd, u);
  }

  lemma LayoutWordMem(w: bv16, u: bv32, base: bv32, reg: bv32) returns (h: bv16)
    requires u & 0x7C == u && base <= 7 && reg <= 7
    ensures h == PackWordMem(w, u, base, reg)
    ensures Quadrant(h) == Quadrant(w) && CFunct3(h) == CFunct3(w) && WordImm(h) == u
    ensures PrimeHigh(h) as bv32 == base + 8 && PrimeLow(h) as bv32 == reg + 8
  {
    h := PackWordMem(w, u, base, reg);
  }

  lemma LayoutDoubleMem(w: bv16, u: bv32, base: bv32, reg: bv32) returns (h: bv16)
    requires u & 0xF8 == u && base <= 7 && reg <= 7
    ensures h == PackDoubleMem(w, u, base, reg)
    ensures Quadrant(h) == Quadrant(w) && CFunct3(h) == CFunct3(w) && DoubleImm(h) == u
    ensures PrimeHigh(h) as bv32 == base + 8 && PrimeLow(h) as bv32 == reg + 8
  {
    h := PackDoubleMem(w, u, base, reg);
  }

  /** C.SWSP: registers and offset sit in each other's place. */
  lemma LayoutSwsp(w: bv16, rs2: Reg, u: bv32) returns (h: bv16)
    requires u & 0xFC == u
    ensures h == PackSwsp(w, rs2, u)
    ensures Quadrant(h) == Quadrant(w) && CFunct3(h) == CFunct3(w)
    ensures SwspImm(h) & 0xFC == SwspImm(h)
    ensures SwspImm(h) == u && CRs2(h) == rs2 <==>
            (rs2 == 0 && u == 0) || (rs2 == 10 && u == 168) || (rs2 == 21 && u == 84) || (rs2 == 31 && u == 252)
  {
    h := PackSwsp(w, rs2, u);
  }

  lemma LayoutSdsp(w: bv16, rs2: Reg, u: bv32) returns (h: bv16)
    requires u & 0x1F8 == u
    ensures h == PackSdsp(w, rs2, u)
    ensures Quadrant(h) == Quadrant(w) && CFunct3(h) == CFunct3(w)
    ensures SdspImm(h) & 0x1F8 == SdspImm(h)
    ensures SdspImm(h) == u && CRs2(h) == rs2 <==>
            (rs2 == 0 && u == 0) || (rs2 == 4 && u == 288) || (rs2 == 9 && u == 72) || (rs2 == 13 && u == 360) ||
            (rs2 == 18 && u == 144) || (rs2 == 22 && u == 432) || (rs2 == 27 && u == 216) || (rs2 == 31 && u == 504)
  {
    h := PackSdsp(w, rs2, u);
  }

  /** CB: offset bits 7:6 and 4:3 sit in each other's place. */
  lemma LayoutCB(w: bv16, r1p: bv32, u: bv32) returns (h: bv16, off: bv32)
    requires u & 0xFF == u && r1p <= 7
    ensures h == PackCB(w, r1p, u) && off == u << 1
    ensures Quadrant(h) == Quadrant(w) && CFunct3(h) == CFunct3(w) && PrimeHigh(h) as bv32 == r1p + 8
    ensures BranchImm(h) & 0x1FF == BranchImm(h) && off & 0x1FF == off
    ensures BranchImm(h) == off <==> (u >> 5) & 3 == (u >> 2) & 3
  {
    h, off := PackCB(w, r1p, u), u << 1;
  }

  /** The four low bits are all alike, and so are the six above them. */
  predicate UniformGroups(u: bv32) {
    (u & 0xF == 0 || u & 0xF == 0xF) && ((u >> 4) & 0x3F == 0 || (u >> 4) & 0x3F == 0x3F)
  }

  lemma LayoutCJ(w: bv16, u: bv32) returns (h: bv16, off: bv32)
    requires u & 0x7FF == u
    ensures h == PackCJ(w, u) && off == u << 1
    ensures Quadrant(h) == Quadrant(w) && CFunct3(h) == CFunct3(w)
    ensures JumpImm(h) & 0xFFF == JumpImm(h) && off & 0xFFF == off
    ensures JumpImm(h) == off <==> UniformGroups(u)
  {
    h, off := PackCJ(w, u), u << 1;
  }

  // ------------------------------------------------- immediates

  lemma Signed6(imm: int) returns (u: bv32)
    requires -32 <= imm <= 31
    ensures u == Low(imm, 6) && u & 0x3F == u && Signed(u, 6) == imm && (imm != 0 ==> u != 0)
  {
    hide Low, Val;
    PowerTable();
    OnesTable();
    var o;
    u, o := LowFits(imm, 6);
    SignedLow(imm, 6);
    Zeros(6);
  }

  lemma FiveBits(u: bv32)
    requires u & 0x1F == u
    ensures u >> 5 == 0
  {}

  lemma Shamt5(imm: int)
    requires 0 <= imm <= 31
    ensures Low(imm, 6) >> 5 == 0
  {
    hide Low;
    PowerTable();
    OnesTable();
    LowShort(imm, 6, 5);
    var u, o := LowFits(imm, 5);
    FiveBits(u);
  }

  lemma Shamt6(imm: int) returns (u: bv32)
    requires 0 <= imm <= 63
    ensures u == Low(imm, 6) && u & 0x3F == u && Val(u, 6) == imm && (imm <= 31 ==> u >> 5 == 0)
  {
    hide Low, Val;
    PowerTable();
    OnesTable();
    var o;
    u, o := LowFits(imm, 6);
    ValLow(imm, 6);
    if imm <= 31 {
      Shamt5(imm);
    }
  }

  /** A multiple of 2^j below 2^k: its word has bits only from j to k-1. */
  lemma OffsetWord(imm: int, j: nat, k: nat) returns (u: bv32, low: bv32, top: bv32)
    requires j <= k <= 32 && 0 <= U32(imm) < Pow2(k) && U32(imm) % Pow2(j) == 0
    ensures u == Word(imm) && Val(u, k) == U32(imm)
    ensures low == Ones(j) && top == Ones(k) && u & low == 0 && u & top == u
  {
    PowerTable();
    LowPeriodic(imm, U32(imm), 32);
    var n := U32(imm);
    LowShort(n, 32, k);
    ValLow(n, k);
    DivModUnique(n, Pow2(k), 0, n);
    u, top := LowFits(n, k);
    LowMask(n, 32, j);
    LowIsZero(n, j);
    low := Ones(j);
  }

  // ------------------------------------------------- operation by operation

  predicate IsCA(op: COp) { op.C_SUB? || op.C_XOR? || op.C_OR? || op.C_AND? || op.C_SUBW? || op.C_ADDW? }
  predicate IsWordMem(op: COp) { op.C_LW? || op.C_SW? }
  predicate IsDoubleMem(op: COp) { op.C_LD? || op.C_SD? }
  predicate IsCR(op: COp) { op.C_ADD? || op.C_MV? || op.C_JR? || op.C_JALR? || op.C_EBREAK? }

  /** The fixed bits of each entry are where the reader looks for them. */
  lemma Tags(op: COp) returns (w: bv16)
    ensures var i := CInfoOf(op);
            && w == BuildTags(i) && Quadrant(w) == i.quadrant && CFunct3(w) == i.funct3
            && (i.op11_10 != ANY ==> Funct2(w) == i.op11_10)
  {
    w := BuildTags(CInfoOf(op));
  }

  lemma RegPrime(x: Reg, y: Reg)
    requires RegP(x).Some? && y as bv32 == RegP(x).value + 8
    ensures x == y
  {}

  lemma RegPSmall(x: Reg)
    requires RegP(x).Some?
    ensures RegP(x).value <= 7
  {}

  lemma ReadsAddi(xlen: Xlen, h: bv16)
    requires Quadrant(h) == 1 && CFunct3(h) == 0
    ensures Decode(xlen, h) == Some(Insn(ADDI, CRd(h), CRd(h), 0, Signed(CiImm(h), 6)))
  {
    hide Val, Signed, CiImm, JumpImm, BranchImm, CRd, MiscAlu;
  }

  lemma ConformAddi(xlen: Xlen, rd: Reg, imm: int) returns (h: bv16)
    requires -32 <= imm <= 31 && (rd == 0 ==> imm == 0)
    ensures EncodeCI(xlen, C_ADDI, rd, rd, imm) == Some(h) && Decode(xlen, h) == Some(Meaning(C_ADDI, rd, 0, 0, imm))
  {
    hide Low, Val, Signed, BuildTags, PackCI, CiImm, Decode;
    var w := Tags(C_ADDI);
    var u := Signed6(imm);
    Zeros(6);
    h := LayoutCI(w, rd, u);
    ReadsAddi(xlen, h);
  }

  lemma ReadsAddiw(xlen: Xlen, h: bv16)
    requires Quadrant(h) == 1 && CFunct3(h) == 1 && xlen == RV64 && CRd(h) != 0
    ensures Decode(xlen, h) == Some(Insn(ADDIW, CRd(h), CRd(h), 0, Signed(CiImm(h), 6)))
  {
    hide Val, Signed, CiImm, JumpImm, BranchImm, CRd, MiscAlu;
  }

  lemma ConformAddiw(xlen: Xlen, rd: Reg, imm: int) returns (h: bv16)
    requires xlen == RV64 && rd != 0 && -32 <= imm <= 31
    ensures EncodeCI(xlen, C_ADDIW, rd, rd, imm) == Some(h) && Decode(xlen, h) == Some(Meaning(C_ADDIW, rd, 0, 0, imm))
  {
    hide Low, Val, Signed, BuildTags, PackCI, CiImm, Decode;
    var w := Tags(C_ADDIW);
    var u := Signed6(imm);
    h := LayoutCI(w, rd, u);
    ReadsAddiw(xlen, h);
  }

  lemma ReadsLi(xlen: Xlen, h: bv16)
    requires Quadrant(h) == 1 && CFunct3(h) == 2
    ensures Decode(xlen, h) == Some(Insn(ADDI, CRd(h), 0, 0, Signed(CiImm(h), 6)))
  {
    hide Val, Signed, CiImm, JumpImm, BranchImm, CRd, MiscAlu;
  }

  lemma ConformLi(xlen: Xlen, rd: Reg, imm: int) returns (h: bv16)
    requires rd != 0 && imm != 0 && -32 <= imm <= 31
    ensures EncodeCI(xlen, C_LI, rd, rd, imm) == Some(h) && Decode(xlen, h) == Some(Meaning(C_LI, rd, 0, 0, imm))
  {
    hide Low, Val, Signed, BuildTags, PackCI, CiImm, Decode;
    var w := Tags(C_LI);
    var u := Signed6(imm);
    h := LayoutCI(w, rd, u);
    ReadsLi(xlen, h);
  }

  lemma ReadsLui(xlen: Xlen, h: bv16)
    requires Quadrant(h) == 1 && CFunct3(h) == 3 && CRd(h) != 2 && CiImm(h) != 0
    ensures Decode(xlen, h) == Some(Insn(LUI, CRd(h), 0, 0, Signed(CiImm(h), 6) * 4096))
  {
    hide Val, Signed, CiImm, JumpImm, BranchImm, CRd, MiscAlu;
  }

  lemma ConformLui(xlen: Xlen, rd: Reg, imm: int) returns (h: bv16)
    requires rd != 0 && rd != 2 && imm != 0 && -32 <= imm <= 31
    ensures EncodeCI(xlen, C_LUI, rd, rd, imm) == Some(h) && Decode(xlen, h) == Some(Meaning(C_LUI, rd, 0, 0, imm))
  {
    hide Low, Val, Signed, BuildTags, PackCI, CiImm, Decode;
    var w := Tags(C_LUI);
    var u := Signed6(imm);
    h := LayoutCI(w, rd, u);
    ReadsLui(xlen, h);
  }

  lemma ConformSlli(xlen: Xlen, rd: Reg, imm: int) returns (h: bv16)
    requires rd != 0 && 0 <= imm <= (if xlen == RV64 then 63 else 31)
    ensures EncodeCI(xlen, C_SLLI, rd, rd, imm) == Some(h) && Decode(xlen, h) == Some(Insn(SLLI, rd, rd, 0, imm))
  {
    hide Low, Val, BuildTags, PackCI, CiImm;
    var w := Tags(C_SLLI);
    var u := Shamt6(imm);
    h := LayoutCI(w, rd, u);
  }

  lemma ConformShift(xlen: Xlen, op: COp, rd: Reg, imm: int) returns (h: bv16)
    requires (op == C_SRLI || op == C_SRAI) && RegP(rd).Some? && 0 <= imm <= (if xlen == RV64 then 63 else 31)
    ensures EncodeCI(xlen, op, rd, rd, imm) == Some(h) && Decode(xlen, h) == Some(Meaning(op, rd, 0, 0, imm))
  {
    hide Low, Val, BuildTags, PackCIPrime, CiImm, Decode, Quadrant, CFunct3, Funct2, Bit12, PrimeHigh, RegP;
    var w := Tags(op);
    var u := Shamt6(imm);
    RegPSmall(rd);
    h := LayoutCIPrime(w, RegP(rd).value, u);
    RegPrime(rd, PrimeHigh(h));
    FiveBitsClear(h, u);
    ReadsShift(xlen, h);
  }

  lemma FiveBitsClear(h: bv16, u: bv32)
    requires Bit12(h) as bv32 == u >> 5
    ensures u >> 5 == 0 ==> Bit12(h) == 0
  {}

  lemma ReadsShift(xlen: Xlen, h: bv16)
    requires Quadrant(h) == 1 && CFunct3(h) == 4 && Funct2(h) <= 1 && (xlen == RV32 ==> Bit12(h) == 0)
    ensures Decode(xlen, h) == Some(Insn(if Funct2(h) == 0 then SRLI else SRAI, PrimeHigh(h), PrimeHigh(h), 0, Val(CiImm(h), 6)))
  {
    hide Val, Signed, CiImm, PrimeHigh, PrimeLow;
  }

  lemma ConformAndi(xlen: Xlen, rd: Reg, imm: int) returns (h: bv16)
    requires RegP(rd).Some? && -32 <= imm <= 31
    ensures EncodeCI(xlen, C_ANDI, rd, rd, imm) == Some(h) && Decode(xlen, h) == Some(Insn(ANDI, rd, rd, 0, imm))
  {
    hide Low, Val, Signed, BuildTags, PackCIPrime, CiImm;
    var w := Tags(C_ANDI);
    var u := Signed6(imm);
    RegPSmall(rd);
    h := LayoutCIPrime(w, RegP(rd).value, u);
    RegPrime(rd, PrimeHigh(h));
  }

  lemma Aligned(imm: int, step: int, max: int) returns (u: bv32)
    requires (step == 4 && max == 252) || (step == 8 && max == 504)
    requires OffsetOk(imm, step, max)
    ensures u == Word(imm) && Val(u, 9) == U32(imm)
    ensures u & (if step == 4 then 0xFC else 0x1F8) == u
    ensures U32(imm) <= 255 ==> Val(u, 8) == U32(imm) && u & 0xFF == u
    ensures U32(imm) <= 127 ==> u & 0x7F == u
  {
    hide Low, Val;
    PowerTable();
    OnesTable();
    var low, top;
    u, low, top := OffsetWord(imm, if step == 4 then 2 else 3, 9);
    var u', low', top';
    if U32(imm) <= 255 { u', low', top' := OffsetWord(imm, if step == 4 then 2 else 3, 8); }
    if U32(imm) <= 127 { u', low', top' := OffsetWord(imm, if step == 4 then 2 else 3, 7); }
  }

  lemma WordMasks(u: bv32)
    ensures u & 0xFC == u && u & 0x7F == u ==> u & 0x7C == u
    ensures u & 0x1F8 == u && u & 0xFF == u ==> u & 0xF8 == u
  {}

  lemma ConformLwsp(xlen: Xlen, rd: Reg, imm: int) returns (h: bv16)
    requires rd != 0 && 0 <= imm <= 252 && imm % 4 == 0
    ensures EncodeCI(xlen, C_LWSP, rd, 2, imm) == Some(h) && Decode(xlen, h) == Some(Insn(LW, rd, 2, 0, imm))
  {
    hide Low, Word, Val, BuildTags, PackLwsp, LwspImm;
    var w := Tags(C_LWSP);
    var u := Aligned(imm, 4, 252);
    h := LayoutLwsp(w, rd, u);
  }

  /** C.LDSP leaves the rd field zero, which is a reserved encoding. */
  lemma LdspReserved(rd: Reg, rs1: Reg, imm: int)
    requires EncodeCI(RV64, C_LDSP, rd, rs1, imm).Some?
    ensures Decode(RV64, EncodeCI(RV64, C_LDSP, rd, rs1, imm).value) == None
  {
    hide Low, Word, BuildTags, PackLdsp;
    var w := LdspTags();
    var h := LayoutLdsp(w, Word(imm));
  }

  lemma LdspTags() returns (w: bv16)
    ensures w == BuildTags(CInfoOf(C_LDSP)) && Quadrant(w) == 2 && CFunct3(w) == 3 && CRd(w) == 0
  {
    w := BuildTags(CInfoOf(C_LDSP));
  }

  lemma LayoutLdsp(w: bv16, u: bv32) returns (h: bv16)
    ensures h == PackLdsp(w, u)
    ensures Quadrant(h) == Quadrant(w) && CFunct3(h) == CFunct3(w) && CRd(h) == CRd(w)
  {
    h := PackLdsp(w, u);
  }

  lemma LayoutCR(i: CInfo, rd: Reg, rs2: Reg) returns (h: bv16)
    requires i.quadrant == 2 && i.funct3 == 4 && i.op12 <= 1
    ensures h == PackCR(i, rd, rs2)
    ensures Quadrant(h) == 2 && CFunct3(h) == 4 && Bit12(h) == i.op12 && CRd(h) == rd && CRs2(h) == rs2
  {
    h := PackCR(i, rd, rs2);
  }

  lemma ReadsCR(xlen: Xlen, h: bv16)
    requires Quadrant(h) == 2 && CFunct3(h) == 4
    ensures Decode(xlen, h) == JumpMoveAdd(h)
  {
    hide JumpMoveAdd, Val;
  }

  lemma ConformCR(xlen: Xlen, op: COp, rd: Reg, rs1: Reg, rs2: Reg)
    requires IsCR(op) && EncodeCR(op, rd, rs1, rs2).Some?
    ensures Decode(xlen, EncodeCR(op, rd, rs1, rs2).value) == Some(Meaning(op, rd, rs1, rs2, 0))
  {
    hide PackCR, Decode, Quadrant, CFunct3, Bit12, CRd, CRs2;
    var h := LayoutCR(CInfoOf(op), if op == C_JR || op == C_JALR then rs1 else rd, rs2);
    ReadsCR(xlen, h);
  }

  lemma LayoutCA(i: CInfo, rd: bv32, rs2: bv32) returns (h: bv16)
    requires i.quadrant == 1 && i.funct3 == 4 && i.op12 == 1 && i.op11_10 <= 3 && i.op6_5 <= 3 && rd <= 7 && rs2 <= 7
    ensures h == PackCA(i, rd, rs2)
    ensures Quadrant(h) == 1 && CFunct3(h) == 4 && Bit12(h) == 1 && Funct2(h) == i.op11_10 && Funct2Low(h) == i.op6_5
    ensures PrimeHigh(h) as bv32 == rd + 8 && PrimeLow(h) as bv32 == rs2 + 8
  {
    h := PackCA(i, rd, rs2);
  }

  lemma FieldsOfCA(op: COp, rd: Reg, rs1: Reg, rs2: Reg) returns (h: bv16)
    requires IsCA(op) && EncodeCA(op, rd, rs1, rs2).Some?
    ensures EncodeCA(op, rd, rs1, rs2) == Some(h)
    ensures Quadrant(h) == 1 && CFunct3(h) == 4 && Bit12(h) == 1 && PrimeHigh(h) == rd && PrimeLow(h) == rs2
    ensures Funct2(h) == if op.C_SUBW? || op.C_ADDW? then 1 else 3
    ensures Funct2Low(h) == if op.C_SUB? || op.C_SUBW? then 0 else if op.C_XOR? || op.C_ADDW? then 1 else if op.C_OR? then 2 else 3
  {
    hide PackCA, Quadrant, CFunct3, Bit12, Funct2, Funct2Low, PrimeHigh, PrimeLow, RegP;
    RegPSmall(rd);
    RegPSmall(rs2);
    h := LayoutCA(CInfoOf(op), RegP(rd).value, RegP(rs2).value);
    RegPrime(rd, PrimeHigh(h));
    RegPrime(rs2, PrimeLow(h));
  }

  lemma ReadsCA(xlen: Xlen, h: bv16)
    requires Quadrant(h) == 1 && CFunct3(h) == 4 && Bit12(h) == 1
    ensures Funct2(h) == 1 && xlen == RV64 ==> Decode(xlen, h).Some? && Decode(xlen, h).value.op == SRAI
    ensures Funct2(h) == 3 && Funct2Low(h) >= 2 ==> Decode(xlen, h) == None
    ensures Funct2(h) == 3 && xlen == RV32 ==> Decode(xlen, h) == None
    ensures Funct2(h) == 3 && Funct2Low(h) == 0 && xlen == RV64 ==>
            Decode(xlen, h) == Some(Insn(SUBW, PrimeHigh(h), PrimeHigh(h), PrimeLow(h), 0))
    ensures Funct2(h) == 3 && Funct2Low(h) == 1 && xlen == RV64 ==>
            Decode(xlen, h) == Some(Insn(ADDW, PrimeHigh(h), PrimeHigh(h), PrimeLow(h), 0))
  {
    hide CiImm, Val, Signed, PrimeHigh, PrimeLow;
  }

  /** Every CA entry has bit 12 set: C.SUB and C.XOR denote SUBW and ADDW on RV64, C.SUBW and
      C.ADDW denote a right shift, and the rest is reserved. None denotes its own operation. */
  lemma CaMisread(xlen: Xlen, op: COp, rd: Reg, rs1: Reg, rs2: Reg)
    requires IsCA(op) && EncodeCA(op, rd, rs1, rs2).Some?
    requires (op.C_SUBW? || op.C_ADDW?) ==> xlen == RV64
    ensures var r := Decode(xlen, EncodeCA(op, rd, rs1, rs2).value);
            match op
            case C_SUB => r == if xlen == RV64 then Some(Insn(SUBW, rd, rd, rs2, 0)) else None
            case C_XOR => r == if xlen == RV64 then Some(Insn(ADDW, rd, rd, rs2, 0)) else None
            case C_SUBW | C_ADDW => r.Some? && r.value.op == SRAI
            case _ => r == None
  {
    hide Decode, EncodeCA, CInfoOf, Quadrant, CFunct3, Bit12, Funct2, Funct2Low, PrimeHigh, PrimeLow;
    var h := FieldsOfCA(op, rd, rs1, rs2);
    ReadsCA(xlen, h);
  }

  lemma ReadsMem(xlen: Xlen, h: bv16)
    requires Quadrant(h) == 0
    ensures CFunct3(h) == 2 ==> Decode(xlen, h) == Some(Insn(LW, PrimeLow(h), PrimeHigh(h), 0, Val(WordImm(h), 8)))
    ensures CFunct3(h) == 6 ==> Decode(xlen, h) == Some(Insn(SW, 0, PrimeHigh(h), PrimeLow(h), Val(WordImm(h), 8)))
    ensures CFunct3(h) == 3 && xlen == RV64 ==>
            Decode(xlen, h) == Some(Insn(LD, PrimeLow(h), PrimeHigh(h), 0, Val(DoubleImm(h), 8)))
    ensures CFunct3(h) == 7 && xlen == RV64 ==>
            Decode(xlen, h) == Some(Insn(SD, 0, PrimeHigh(h), PrimeLow(h), Val(DoubleImm(h), 8)))
  {
    hide Val, WordImm, DoubleImm, PrimeHigh, PrimeLow;
  }

  lemma FieldsOfWordMem(op: COp, reg: Reg, base: Reg, imm: int) returns (h: bv16)
    requires IsWordMem(op) && EncodeMem(op, reg, base, imm).Some?
    ensures EncodeMem(op, reg, base, imm) == Some(h)
    ensures Quadrant(h) == 0 && CFunct3(h) == if op.C_LW? then 2 else 6
    ensures PrimeHigh(h) == base && PrimeLow(h) == reg && Val(WordImm(h), 8) == U32(imm)
  {
    hide Low, Word, Val, BuildTags, PackWordMem, WordImm, Quadrant, CFunct3, PrimeHigh, PrimeLow, RegP;
    var w := Tags(op);
    RegPSmall(reg);
    RegPSmall(base);
    var u := Aligned(imm, 4, 252);
    WordMasks(u);
    h := LayoutWordMem(w, u, RegP(base).value, RegP(reg).value);
    RegPrime(base, PrimeHigh(h));
    RegPrime(reg, PrimeLow(h));
  }

  lemma FieldsOfDoubleMem(op: COp, reg: Reg, base: Reg, imm: int) returns (h: bv16)
    requires IsDoubleMem(op) && EncodeMem(op, reg, base, imm).Some?
    ensures EncodeMem(op, reg, base, imm) == Some(h)
    ensures Quadrant(h) == 0 && CFunct3(h) == if op.C_LD? then 3 else 7
    ensures PrimeHigh(h) == base && PrimeLow(h) == reg && Val(DoubleImm(h), 8) == U32(imm)
  {
    hide Low, Word, Val, BuildTags, PackDoubleMem, DoubleImm, Quadrant, CFunct3, PrimeHigh, PrimeLow, RegP;
    var w := Tags(op);
    RegPSmall(reg);
    RegPSmall(base);
    var u := Aligned(imm, 8, 504);
    WordMasks(u);
    h := LayoutDoubleMem(w, u, RegP(base).value, RegP(reg).value);
    RegPrime(base, PrimeHigh(h));
    RegPrime(reg, PrimeLow(h));
  }

  /** CL and CS denote the offset as truncated to 32 bits. */
  lemma ConformMem(xlen: Xlen, op: COp, reg: Reg, base: Reg, imm: int)
    requires (IsWordMem(op) || IsDoubleMem(op)) && (IsDoubleMem(op) ==> xlen == RV64)
    requires EncodeMem(op, reg, base, imm).Some?
    ensures Decode(xlen, EncodeMem(op, reg, base, imm).value) ==
            Some(if op.C_LW? || op.C_LD? then Meaning(op, reg, base, 0, U32(imm)) else Meaning(op, 0, base, reg, U32(imm)))
  {
    hide Decode, EncodeMem, CInfoOf, WordImm, DoubleImm, PrimeHigh, PrimeLow, Quadrant, CFunct3, Val;
    var h;
    if IsWordMem(op) {
      h := FieldsOfWordMem(op, reg, base, imm);
    } else {
      h := FieldsOfDoubleMem(op, reg, base, imm);
    }
    ReadsMem(xlen, h);
  }

  // ------------------------------------------------- the layouts that differ

  /** Fields of k bits that denote the same number are the same field. */
  lemma ValInjective(a: bv32, b: bv32, k: nat, o: bv32)
    requires o == Ones(k) && a & o == a && b & o == b && Val(a, k) == Val(b, k)
    ensures a == b
  {
    hide Val, Low, Ones;
    var r, _ := LowVal(a, k);
    var r', _ := LowVal(b, k);
  }

  lemma SignedInjective(a: bv32, b: bv32, k: nat, o: bv32)
    requires 0 < k && o == Ones(k) && a & o == a && b & o == b && Signed(a, k) == Signed(b, k)
    ensures a == b
  {
    hide Low, Ones;
    assert Pow2(k) == 2 * Pow2(k - 1);
    ValInjective(a, b, k, o);
  }

  /** The (source register, offset) pairs for which the C.SWSP layout happens to be right. */
  predicate SwspPair(rs2: Reg, imm: int) {
    (rs2 == 0 && imm == 0) || (rs2 == 10 && imm == 168) || (rs2 == 21 && imm == 84) || (rs2 == 31 && imm == 252)
  }

  predicate SdspPair(rs2: Reg, imm: int) {
    (rs2 == 0 && imm == 0) || (rs2 == 4 && imm == 288) || (rs2 == 9 && imm == 72) || (rs2 == 13 && imm == 360) ||
    (rs2 == 18 && imm == 144) || (rs2 == 22 && imm == 432) || (rs2 == 27 && imm == 216) || (rs2 == 31 && imm == 504)
  }

  lemma NineBits(u: bv32)
    ensures u & 0xFC == u ==> u & 0x1FF == u
    ensures u & 0x1F8 == u ==> u & 0x1FF == u
  {}

  /** The nine-bit word of a number, from its three top bits. */
  lemma NineBitWord(n: int, top: bv32) returns (x: bv32)
    requires Low(n / 2 / 2 / 2 / 2 / 2 / 2, 3) == top
    ensures x == Low(n, 9)
    ensures x == (top << 6) | (Lsb(n / 2 / 2 / 2 / 2 / 2) << 5) | (Lsb(n / 2 / 2 / 2 / 2) << 4) | (Lsb(n / 2 / 2 / 2) << 3) |
                 (Lsb(n / 2 / 2) << 2) | (Lsb(n / 2) << 1) | Lsb(n)
  {
    hide Low, Lsb, Push;
    x := LowUnfold(n / 2 / 2 / 2 / 2 / 2, 4, top);
    x := LowUnfold(n / 2 / 2 / 2 / 2, 5, x);
    x := LowUnfold(n / 2 / 2 / 2, 6, x);
    x := LowUnfold(n / 2 / 2, 7, x);
    x := LowUnfold(n / 2, 8, x);
    x := LowUnfold(n, 9, x);
    SixPushes(top, Lsb(n / 2 / 2 / 2 / 2 / 2), Lsb(n / 2 / 2 / 2 / 2), Lsb(n / 2 / 2 / 2), Lsb(n / 2 / 2), Lsb(n / 2), Lsb(n));
  }

  lemma SixPushes(t: bv32, a: bv32, b: bv32, c: bv32, d: bv32, e: bv32, f: bv32)
    ensures Push(Push(Push(Push(Push(Push(t, a), b), c), d), e), f) ==
            (t << 6) | (a << 5) | (b << 4) | (c << 3) | (d << 2) | (e << 1) | f
  {}

  lemma ThreeBitWords()
    ensures Low(0, 3) == 0 && Low(1, 3) == 1 && Low(2, 3) == 2 && Low(3, 3) == 3
    ensures Low(4, 3) == 4 && Low(5, 3) == 5 && Low(6, 3) == 6 && Low(7, 3) == 7
  {}

  lemma SwspWords()
    ensures Low(0, 9) == 0 && Low(168, 9) == 168 && Low(84, 9) == 84 && Low(252, 9) == 252
  {
    hide Low;
    ThreeBitWords();
    var x := NineBitWord(0, 0);
    x := NineBitWord(168, 2);
    x := NineBitWord(84, 1);
    x := NineBitWord(252, 3);
  }

  lemma SdspWords()
    ensures Low(288, 9) == 288 && Low(72, 9) == 72 && Low(360, 9) == 360 && Low(144, 9) == 144
    ensures Low(432, 9) == 432 && Low(216, 9) == 216 && Low(504, 9) == 504
  {
    hide Low;
    ThreeBitWords();
    var x := NineBitWord(288, 4);
    x := NineBitWord(72, 1);
    x := NineBitWord(360, 5);
    x := NineBitWord(144, 2);
    x := NineBitWord(432, 6);
    x := NineBitWord(216, 3);
    x := NineBitWord(504, 7);
  }

  /** Which word an offset of the tables above is. */
  lemma OffsetIs(u: bv32, c: bv32, n: int)
    requires u & 0x1FF == u && 0 <= n < 512 && Low(n, 9) == c
    ensures u == c <==> Val(u, 9) == n
  {
    hide Low, Val;
    OnesTable();
    PowerTable();
    var r, o := LowVal(u, 9);
    ValLow(n, 9);
  }

  lemma ConformSwsp(xlen: Xlen, rs1: Reg, rs2: Reg, imm: int)
    requires EncodeCSS(C_SWSP, rs1, rs2, imm).Some?
    ensures Decode(xlen, EncodeCSS(C_SWSP, rs1, rs2, imm).value) == Some(Insn(SW, 0, 2, rs2, imm)) <==> SwspPair(rs2, imm)
  {
    hide Low, Word, Val, BuildTags, PackSwsp, SwspImm, Decode;
    var w := Tags(C_SWSP);
    var u := Aligned(imm, 4, 252);
    var h := LayoutSwsp(w, rs2, u);
    ReadsSwsp(xlen, h);
    NineBits(u);
    NineBits(SwspImm(h));
    SwspWords();
    OffsetIs(u, 0, 0);
    OffsetIs(u, 168, 168);
    OffsetIs(u, 84, 84);
    OffsetIs(u, 252, 252);
    if Val(SwspImm(h), 9) == Val(u, 9) { OnesTable(); ValInjective(SwspImm(h), u, 9, 0x1FF); }
  }

  lemma ReadsSwsp(xlen: Xlen, h: bv16)
    requires Quadrant(h) == 2 && CFunct3(h) == 6
    ensures Decode(xlen, h) == Some(Insn(SW, 0, 2, CRs2(h), Val(SwspImm(h), 9)))
  {
    hide Val, SwspImm, CRs2;
  }

  lemma ReadsSdsp(h: bv16)
    requires Quadrant(h) == 2 && CFunct3(h) == 7
    ensures Decode(RV64, h) == Some(Insn(SD, 0, 2, CRs2(h), Val(SdspImm(h), 9)))
  {
    hide Val, SdspImm, CRs2;
  }

  lemma SdspOffsets(u: bv32)
    requires u & 0x1FF == u
    ensures (u == 0 <==> Val(u, 9) == 0) && (u == 288 <==> Val(u, 9) == 288) && (u == 72 <==> Val(u, 9) == 72)
    ensures (u == 360 <==> Val(u, 9) == 360) && (u == 144 <==> Val(u, 9) == 144) && (u == 432 <==> Val(u, 9) == 432)
    ensures (u == 216 <==> Val(u, 9) == 216) && (u == 504 <==> Val(u, 9) == 504)
  {
    hide Val, Low;
    SwspWords();
    SdspWords();
    OffsetIs(u, 0, 0);
    OffsetIs(u, 288, 288);
    OffsetIs(u, 72, 72);
    OffsetIs(u, 360, 360);
    OffsetIs(u, 144, 144);
    OffsetIs(u, 432, 432);
    OffsetIs(u, 216, 216);
    OffsetIs(u, 504, 504);
  }

  lemma FieldsOfSdsp(rs1: Reg, rs2: Reg, imm: int) returns (h: bv16, u: bv32)
    requires EncodeCSS(C_SDSP, rs1, rs2, imm).Some?
    ensures EncodeCSS(C_SDSP, rs1, rs2, imm) == Some(h)
    ensures Quadrant(h) == 2 && CFunct3(h) == 7 && Val(u, 9) == U32(imm)
    ensures SdspImm(h) & 0x1FF == SdspImm(h) && u & 0x1FF == u
    ensures SdspImm(h) == u && CRs2(h) == rs2 <==>
            (rs2 == 0 && u == 0) || (rs2 == 4 && u == 288) || (rs2 == 9 && u == 72) || (rs2 == 13 && u == 360) ||
            (rs2 == 18 && u == 144) || (rs2 == 22 && u == 432) || (rs2 == 27 && u == 216) || (rs2 == 31 && u == 504)
  {
    hide Low, Word, Val, BuildTags, PackSdsp, SdspImm, Quadrant, CFunct3, CRs2;
    var w := Tags(C_SDSP);
    u := Aligned(imm, 8, 504);
    h := LayoutSdsp(w, rs2, u);
    NineBits(u);
    NineBits(SdspImm(h));
  }

  lemma ConformSdsp(rs1: Reg, rs2: Reg, imm: int)
    requires EncodeCSS(C_SDSP, rs1, rs2, imm).Some?
    ensures Decode(RV64, EncodeCSS(C_SDSP, rs1, rs2, imm).value) == Some(Insn(SD, 0, 2, rs2, imm)) <==> SdspPair(rs2, imm)
  {
    hide Low, Word, Val, EncodeCSS, SdspImm, Decode, Quadrant, CFunct3, CRs2, Ones;
    assert imm >= 0 by { CssOffset(C_SDSP, rs1, rs2, imm); }
    var h, u := FieldsOfSdsp(rs1, rs2, imm);
    ReadsSdsp(h);
    SdspOffsets(u);
    if Val(SdspImm(h), 9) == Val(u, 9) { OnesTable(); ValInjective(SdspImm(h), u, 9, 0x1FF); }
  }

  lemma CssOffset(op: COp, rs1: Reg, rs2: Reg, imm: int)
    requires EncodeCSS(op, rs1, rs2, imm).Some?
    ensures imm >= 0 && U32(imm) <= 504
  {
    hide PackSwsp, PackSdsp, Word, BuildTags;
  }

  /** A branch offset survives the CB layout exactly when bits 7:6 and 4:3 coincide. */
  predicate BranchPattern(imm: int) { (imm / 64) % 4 == (imm / 8) % 4 }

  /** Two adjacent bits of a number, read from its word. */
  lemma TwoBits(x: bv32, y: bv32)
    requires x & 3 == x && y & 3 == y
    ensures x == y <==> Val(x, 2) == Val(y, 2)
  {
    OnesTable();
    if Val(x, 2) == Val(y, 2) { ValInjective(x, y, 2, 3); }
  }

  lemma HalfOf(n: int, k: nat, w: bv32) returns (x: bv32)
    requires 0 < k <= 32 && w == Low(n, k)
    ensures x == Low(n / 2, k - 1) && x == w >> 1
  {
    hide Low;
    var w';
    w', x := LowHalf(n, k);
    SameHalf(w, w', x);
  }

  lemma SameHalf(w: bv32, w': bv32, x: bv32)
    requires w == w' && w' >> 1 == x
    ensures x == w >> 1
  {}

  lemma TwoShifts(w: bv32, a: bv32, x: bv32)
    requires a == w >> 1 && x == a >> 1
    ensures x == w >> 2
  {}

  lemma DropTwo(n: int, k: nat, w: bv32) returns (x: bv32)
    requires 2 <= k <= 32 && w == Low(n, k)
    ensures x == Low(n / 2 / 2, k - 2) && x == w >> 2
  {
    hide Low;
    var a := HalfOf(n, k, w);
    x := HalfOf(n / 2, k - 1, a);
    TwoShifts(w, a, x);
  }

  lemma FiveShifts(w: bv32, a: bv32, b: bv32, x: bv32)
    requires a == w >> 2 && b == a >> 2 && x == b >> 1
    ensures x == w >> 5
  {}

  lemma DropFive(n: int, k: nat, w: bv32) returns (x: bv32)
    requires 5 <= k <= 32 && w == Low(n, k)
    ensures x == Low(n / 2 / 2 / 2 / 2 / 2, k - 5) && x == w >> 5
  {
    hide Low;
    var a := DropTwo(n, k, w);
    var b := DropTwo(n / 2 / 2, k - 2, a);
    x := HalfOf(n / 2 / 2 / 2 / 2, k - 4, b);
    FiveShifts(w, a, b, x);
  }

  /** The low j bits of a word denote the number it came from, modulo 2^j. */
  lemma FieldOf(n: int, k: nat, x: bv32, j: nat) returns (y: bv32, o: bv32)
    requires j <= k <= 32 && x == Low(n, k)
    ensures o == Ones(j) && y == x & o && y & o == y && Val(y, j) == n % Pow2(j)
  {
    hide Low, Val, Ones;
    LowMask(n, k, j);
    ValLow(n, j);
    o := Ones(j);
    y := CutTo(x, Low(n, k), o, Low(n, j));
  }

  lemma CutTo(x: bv32, x': bv32, o: bv32, y': bv32) returns (y: bv32)
    requires x == x' && x' & o == y'
    ensures y == y' && y == x & o && y & o == y
  {
    y := x & o;
  }

  lemma PairOf(n: int, k: nat, x: bv32) returns (y: bv32)
    requires 2 <= k <= 32 && x == Low(n, k)
    ensures y == x & 3 && y & 3 == y && Val(y, 2) == n % 4
  {
    hide Low, Val;
    OnesTable();
    PowerTable();
    var o;
    y, o := FieldOf(n, k, x, 2);
  }

  lemma BranchBits(n: int) returns (w: bv32)
    ensures w == Low(n, 8) && ((w >> 5) & 3 == (w >> 2) & 3 <==> (n / 2 / 2 / 2 / 2 / 2) % 4 == (n / 2 / 2) % 4)
  {
    hide Low, Val;
    w := Low(n, 8);
    var x := DropTwo(n, 8, w);
    var y := DropFive(n, 8, w);
    var p := PairOf(n / 2 / 2, 6, x);
    var q := PairOf(n / 2 / 2 / 2 / 2 / 2, 3, y);
    TwoBits(p, q);
  }

  lemma SignedNine(imm: int) returns (u: bv32, off: bv32, o: bv32)
    requires imm % 2 == 0 && -256 <= imm <= 254
    ensures u == Low(imm / 2, 8) && u & 0xFF == u && off == u << 1 && Signed(off, 9) == imm
  {
    hide Low, Val, Signed;
    PowerTable();
    OnesTable();
    u, o := ImmEven(imm, 9);
    off := u << 1;
  }

  lemma ReadsBranch(xlen: Xlen, h: bv16)
    requires Quadrant(h) == 1 && CFunct3(h) >= 6
    ensures Decode(xlen, h) ==
            Some(Insn(if CFunct3(h) == 6 then BEQ else BNE, 0, PrimeHigh(h), 0, Signed(BranchImm(h), 9)))
  {
    hide Val, Signed, BranchImm, JumpImm, CiImm, PrimeHigh, MiscAlu;
  }

  lemma ConformCB(xlen: Xlen, op: COp, rs1: Reg, imm: int)
    requires (op == C_BEQZ || op == C_BNEZ) && EncodeCB(op, rs1, imm).Some?
    ensures Decode(xlen, EncodeCB(op, rs1, imm).value) == Some(Meaning(op, 0, rs1, 0, imm)) <==> BranchPattern(imm)
  {
    hide Low, Val, Signed, BuildTags, PackCB, BranchImm, Decode, Quadrant, CFunct3, PrimeHigh, RegP;
    var w := Tags(op);
    RegPSmall(rs1);
    var u, off, _ := SignedNine(imm);
    var h, off' := LayoutCB(w, RegP(rs1).value, u);
    RegPrime(rs1, PrimeHigh(h));
    ReadsBranch(xlen, h);
    var w' := BranchBits(imm / 2);
    assert imm / 2 / 2 / 2 / 2 / 2 / 2 == imm / 64 && imm / 2 / 2 / 2 == imm / 8;
    if Signed(BranchImm(h), 9) == Signed(off, 9) { OnesTable(); SignedInjective(BranchImm(h), off, 9, 0x1FF); }
  }

  /** A jump offset survives the CJ layout exactly when bits 4:1 are all alike and bits
      10:5 are all alike. */
  predicate JumpPattern(imm: int) {
    && ((imm / 2) % 16 == 0 || (imm / 2) % 16 == 15)
    && ((imm / 32) % 64 == 0 || (imm / 32) % 64 == 63)
  }

  lemma SignedTwelve(imm: int) returns (u: bv32, off: bv32, o: bv32)
    requires imm % 2 == 0 && -2048 <= imm <= 2046
    ensures u == Low(imm / 2, 11) && u & 0x7FF == u && off == u << 1 && Signed(off, 12) == imm
  {
    hide Low, Val, Signed;
    PowerTable();
    OnesTable();
    u, o := ImmEven(imm, 12);
    off := u << 1;
  }

  lemma ReadsJump(xlen: Xlen, op: COp, h: bv16)
    requires Quadrant(h) == 1 && ((op == C_J && CFunct3(h) == 5) || (op == C_JAL && CFunct3(h) == 1 && xlen == RV32))
    ensures Decode(xlen, h) == Some(Insn(JAL, if op == C_J then 0 else 1, 0, 0, Signed(JumpImm(h), 12)))
  {
    hide Val, Signed, BranchImm, JumpImm, CiImm, PrimeHigh, MiscAlu;
  }

  lemma SameJumpOffset(a: bv32, b: bv32)
    requires a & 0xFFF == a && b & 0xFFF == b && Signed(a, 12) == Signed(b, 12)
    ensures a == b
  {
    hide Signed;
    OnesTable();
    SignedInjective(a, b, 12, 0xFFF);
  }

  lemma FieldsOfCJ(op: COp, imm: int, u: bv32) returns (h: bv16, off: bv32)
    requires (op == C_J || op == C_JAL) && EncodeCJ(op, imm).Some? && u == Low(imm / 2, 11)
    ensures EncodeCJ(op, imm) == Some(h) && Quadrant(h) == 1 && CFunct3(h) == if op == C_J then 5 else 1
    ensures Signed(off, 12) == imm && JumpImm(h) & 0xFFF == JumpImm(h) && off & 0xFFF == off
    ensures JumpImm(h) == off <==> UniformGroups(u)
  {
    hide Low, Val, Signed, BuildTags, PackCJ, JumpImm, Quadrant, CFunct3;
    var w := Tags(op);
    var u', v, o := SignedTwelve(imm);
    h, off := LayoutCJ(w, u');
  }

  lemma {:induction false} ValOnes(k: nat) returns (o: bv32)
    requires k < 32
    ensures o == Ones(k) && Val(o, k) == Pow2(k) - 1
    decreases k
  {
    if k == 0 {
      o := 0;
    } else {
      hide Ones, Val;
      var x := ValOnes(k - 1);
      o := OnesHalf(k);
      ValStep(o, x, k);
    }
  }

  lemma OnesHalf(k: nat) returns (o: bv32)
    requires 0 < k < 32
    ensures o == Ones(k) && o >> 1 == Ones(k - 1) && o & 1 == 1
  {
    hide Ones, Push;
    var x := OnesBelowTop(k - 1);
    PushHalf(x, 1);
    PushLast(x, 1);
    o := OnesUnfold(k, x);
  }

  /** All bits of a field are alike exactly when it denotes 0 or the largest number. */
  lemma AllAlike(y: bv32, k: nat, o: bv32)
    requires k < 32 && o == Ones(k) && y & o == y
    ensures y == 0 || y == o <==> Val(y, k) == 0 || Val(y, k) == Pow2(k) - 1
  {
    hide Ones, Val;
    Zeros(k);
    var o' := ValOnes(k);
    ZeroFits(o);
    if Val(y, k) == 0 { ValInjective(y, 0, k, o); }
    if Val(y, k) == Pow2(k) - 1 { ValInjective(y, o, k, o); }
  }

  lemma ZeroFits(o: bv32)
    ensures 0 & o == 0 && o & o == o
  {}

  lemma FourShifts(w: bv32, a: bv32, x: bv32)
    requires a == w >> 2 && x == a >> 2
    ensures x == w >> 4
  {}

  lemma JumpLow(n: int, u: bv32)
    requires u == Low(n, 11)
    ensures u & 0xF == 0 || u & 0xF == 0xF <==> n % 16 == 0 || n % 16 == 15
  {
    assert Pow2(4) == 16 && Ones(4) == 0xF;
    hide Low, Val, Ones;
    var y, o := FieldOf(n, 11, u, 4);
    AllAlike(y, 4, o);
  }

  lemma JumpHigh(n: int, u: bv32)
    requires u == Low(n, 11)
    ensures (u >> 4) & 0x3F == 0 || (u >> 4) & 0x3F == 0x3F <==>
            (n / 2 / 2 / 2 / 2) % 64 == 0 || (n / 2 / 2 / 2 / 2) % 64 == 63
  {
    hide Low, Val, Ones, Pow2;
    PowerTable();
    OnesTable();
    var a := DropTwo(n, 11, u);
    var x := DropTwo(n / 2 / 2, 9, a);
    FourShifts(u, a, x);
    var z, p := FieldOf(n / 2 / 2 / 2 / 2, 7, x, 6);
    AllAlike(z, 6, p);
  }

  lemma JumpBits(imm: int) returns (u: bv32)
    ensures u == Low(imm / 2, 11)
    ensures JumpPattern(imm) <==> UniformGroups(u)
  {
    hide Low;
    u := Low(imm / 2, 11);
    JumpLow(imm / 2, u);
    JumpHigh(imm / 2, u);
    assert imm / 2 / 2 / 2 / 2 / 2 == imm / 32;
  }

  lemma ConformCJ(xlen: Xlen, op: COp, imm: int)
    requires (op == C_J || (op == C_JAL && xlen == RV32)) && EncodeCJ(op, imm).Some?
    ensures Decode(xlen, EncodeCJ(op, imm).value) == Some(Meaning(op, 0, 0, 0, imm)) <==> JumpPattern(imm)
  {
    hide Low, Val, Signed, EncodeCJ, Decode, JumpImm, Quadrant, CFunct3, UniformGroups, JumpPattern;
    var u := JumpBits(imm);
    var h, off := FieldsOfCJ(op, imm, u);
    ReadsJump(xlen, op, h);
    if Signed(JumpImm(h), 12) == Signed(off, 12) { SameJumpOffset(JumpImm(h), off); }
  }

  // ------------------------------------------------- the whole encoder

  /** When the halfword denotes, by chapter 16, the instruction the mnemonic stands for. */
  predicate Conforms(op: COp, rs2: Reg, imm: int) {
    match op
    case C_SUB | C_XOR | C_OR | C_AND | C_SUBW | C_ADDW | C_LDSP => false
    case C_SWSP => SwspPair(rs2, imm)
    case C_SDSP => SdspPair(rs2, imm)
    case C_BEQZ | C_BNEZ => BranchPattern(imm)
    case C_J | C_JAL => JumpPattern(imm)
    case C_LW | C_LD | C_SW | C_SD => imm < TWO32
    case _ => true
  }

  lemma ExactCI(cfg: Config, op: COp, rd: Reg, rs1: Reg, rs2: Reg, imm: int)
    requires CFmt(op) == FmtCI && op != C_LDSP && ForWidth(op, cfg.xlen) && EncodeCI(cfg.xlen, op, rd, rs1, imm).Some?
    ensures Decode(cfg.xlen, EncodeCI(cfg.xlen, op, rd, rs1, imm).value) == Some(Meaning(op, rd, rs1, rs2, imm))
  {
    hide Decode, Low, BuildTags, PackCI, PackCIPrime, PackLwsp, PackLdsp;
    Zeros(6);
    var h;
    match op
    case C_ADDI => h := ConformAddi(cfg.xlen, rd, imm);
    case C_ADDIW => h := ConformAddiw(cfg.xlen, rd, imm);
    case C_LI => h := ConformLi(cfg.xlen, rd, imm);
    case C_LUI => h := ConformLui(cfg.xlen, rd, imm);
    case C_SLLI => h := ConformSlli(cfg.xlen, rd, imm);
    case C_SRLI => h := ConformShift(cfg.xlen, op, rd, imm);
    case C_SRAI => h := ConformShift(cfg.xlen, op, rd, imm);
    case C_ANDI => h := ConformAndi(cfg.xlen, rd, imm);
    case C_LWSP => h := ConformLwsp(cfg.xlen, rd, imm);
  }

  /** For every compressed operation and every operand the encoder accepts, explicit or
      chosen automatically: the halfword denotes the mnemonic's instruction exactly when
      Conforms says so. */
  lemma CEncodeExact(cfg: Config, op: COp, rd: Reg, rs1: Reg, rs2: Reg, imm: int)
    requires CEncode(cfg, op, CFmt(op), rd, rs1, rs2, imm).Some?
    ensures Decode(cfg.xlen, CEncode(cfg, op, CFmt(op), rd, rs1, rs2, imm).value) == Some(Meaning(op, rd, rs1, rs2, imm))
            <==> Conforms(op, rs2, imm)
  {
    hide Decode, EncodeCI, EncodeCR, EncodeCA, EncodeCSS, EncodeCB, EncodeCJ, EncodeMem;
    match CFmt(op)
    case FmtCI =>
      if op == C_LDSP { LdspReserved(rd, rs1, imm); } else { ExactCI(cfg, op, rd, rs1, rs2, imm); }
    case FmtCR => ConformCR(cfg.xlen, op, rd, rs1, rs2);
    case FmtCA => CaMisread(cfg.xlen, op, rd, rs1, rs2);
    case FmtCL =>
      ConformMem(cfg.xlen, op, rd, rs1, imm);
      MemOffset(op, rd, rs1, imm);
    case FmtCS =>
      ConformMem(cfg.xlen, op, rs2, rs1, imm);
      MemOffset(op, rs2, rs1, imm);
    case FmtCSS =>
      if op == C_SWSP { ConformSwsp(cfg.xlen, rs1, rs2, imm); } else { ConformSdsp(rs1, rs2, imm); }
    case FmtCB => ConformCB(cfg.xlen, op, rs1, imm);
    case _ => ConformCJ(cfg.xlen, op, imm);
  }

  lemma MemOffset(op: COp, reg: Reg, base: Reg, imm: int)
    requires EncodeMem(op, reg, base, imm).Some?
    ensures U32(imm) == imm <==> imm < TWO32
  {
    hide PackWordMem, PackDoubleMem, Word, BuildTags;
  }
}
