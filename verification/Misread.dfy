/** What the compressed forms that the source packs differently from chapter 16 denote instead,
    for every operand: each reading determines all sixteen bits. */
module Misread {
  import opened Isa
  import opened Bits
  import opened Encode16
  import opened Decode16
  import opened Conform16

  // ------------------------------------------------- C.SWSP and C.SDSP

  /** Offset bits 6:2 name the register; offset bit 7 and the register's bits make the offset. */
  lemma SwspRegister(w: bv16, rs2: Reg, u: bv32)
    requires u & 0xFC == u
    ensures CRs2(PackSwsp(w, rs2, u)) as bv32 == (u >> 2) & 0x1F
  {}

  lemma SwspOffset(w: bv16, rs2: Reg, u: bv32)
    requires u & 0xFC == u
    ensures SwspImm(PackSwsp(w, rs2, u)) == ((u >> 7) << 5) | (((rs2 as bv32) >> 2) << 2) | (((rs2 as bv32) & 3) << 6)
  {}

  lemma SwspLands(w: bv16, rs2: Reg, u: bv32) returns (h: bv16)
    requires u & 0xFC == u
    ensures h == PackSwsp(w, rs2, u) && Quadrant(h) == Quadrant(w) && CFunct3(h) == CFunct3(w)
    ensures CRs2(h) as bv32 == (u >> 2) & 0x1F
    ensures SwspImm(h) == ((u >> 7) << 5) | (((rs2 as bv32) >> 2) << 2) | (((rs2 as bv32) & 3) << 6)
  {
    hide PackSwsp, SwspImm, CRs2, Quadrant, CFunct3;
    SwspRegister(w, rs2, u);
    SwspOffset(w, rs2, u);
    h := LayoutSwsp(w, rs2, u);
  }

  /** C.SWSP of register r at offset o stores instead register o[6:2] at the offset whose bits 7:6
      are r[1:0], bit 5 is o[7], and bits 4:2 are r[4:2]. */
  lemma SwspReading(xlen: Xlen, rs1: Reg, rs2: Reg, imm: int) returns (u: bv32, r: Reg, o: bv32)
    requires EncodeCSS(C_SWSP, rs1, rs2, imm).Some?
    ensures Val(u, 9) == U32(imm) && u & 0xFC == u && r as bv32 == (u >> 2) & 0x1F
    ensures o == ((u >> 7) << 5) | (((rs2 as bv32) >> 2) << 2) | (((rs2 as bv32) & 3) << 6)
    ensures Decode(xlen, EncodeCSS(C_SWSP, rs1, rs2, imm).value) == Some(Insn(SW, 0, 2, r, Val(o, 9)))
  {
    hide Low, Word, Val, BuildTags, PackSwsp, SwspImm, Decode, CRs2, Quadrant, CFunct3;
    var w := Tags(C_SWSP);
    u := Aligned(imm, 4, 252);
    var h := SwspLands(w, rs2, u);
    ReadsSwsp(xlen, h);
    r, o := CRs2(h), SwspImm(h);
  }

  lemma SdspRegister(w: bv16, rs2: Reg, u: bv32)
    requires u & 0x1F8 == u
    ensures CRs2(PackSdsp(w, rs2, u)) as bv32 == (u >> 3) & 0x1F
  {}

  lemma SdspOffset(w: bv16, rs2: Reg, u: bv32)
    requires u & 0x1F8 == u
    ensures SdspImm(PackSdsp(w, rs2, u)) == ((u >> 8) << 5) | (((rs2 as bv32) >> 3) << 3) | (((rs2 as bv32) & 7) << 6)
  {}

  lemma SdspLands(w: bv16, rs2: Reg, u: bv32) returns (h: bv16)
    requires u & 0x1F8 == u
    ensures h == PackSdsp(w, rs2, u) && Quadrant(h) == Quadrant(w) && CFunct3(h) == CFunct3(w)
    ensures CRs2(h) as bv32 == (u >> 3) & 0x1F
    ensures SdspImm(h) == ((u >> 8) << 5) | (((rs2 as bv32) >> 3) << 3) | (((rs2 as bv32) & 7) << 6)
  {
    hide PackSdsp, SdspImm, CRs2, Quadrant, CFunct3;
    SdspRegister(w, rs2, u);
    SdspOffset(w, rs2, u);
    h := LayoutSdsp(w, rs2, u);
  }

  /** C.SDSP of register r at offset o stores instead register o[7:3] at the offset whose bits 8:6
      are r[2:0], bit 5 is o[8], and bits 4:3 are r[4:3]. */
  lemma SdspReading(rs1: Reg, rs2: Reg, imm: int) returns (u: bv32, r: Reg, o: bv32)
    requires EncodeCSS(C_SDSP, rs1, rs2, imm).Some?
    ensures Val(u, 9) == U32(imm) && u & 0x1F8 == u && r as bv32 == (u >> 3) & 0x1F
    ensures o == ((u >> 8) << 5) | (((rs2 as bv32) >> 3) << 3) | (((rs2 as bv32) & 7) << 6)
    ensures Decode(RV64, EncodeCSS(C_SDSP, rs1, rs2, imm).value) == Some(Insn(SD, 0, 2, r, Val(o, 9)))
  {
    hide Low, Word, Val, BuildTags, PackSdsp, SdspImm, Decode, CRs2, Quadrant, CFunct3;
    var w := Tags(C_SDSP);
    u := Aligned(imm, 8, 504);
    var h := SdspLands(w, rs2, u);
    ReadsSdsp(h);
    r, o := CRs2(h), SdspImm(h);
  }

  // ------------------------------------------------- C.LDSP

  lemma LdspLands(w: bv16, u: bv32) returns (h: bv16)
    requires u & 0x1F8 == u
    ensures h == PackLdsp(w, u) && h & 0xEF83 == w & 0xEF83 && LdspImm(h) == u
  {
    h := PackLdsp(w, u);
  }

  lemma LdspFixed() returns (w: bv16)
    ensures w == BuildTags(CInfoOf(C_LDSP)) && w & 0xEF83 == 0x6002
  {
    w := BuildTags(CInfoOf(C_LDSP));
  }

  /** C.LDSP differs from what chapter 16 wants in the register alone: it stays zero. */
  lemma LdspReading(rd: Reg, rs1: Reg, imm: int) returns (h: bv16)
    requires EncodeCI(RV64, C_LDSP, rd, rs1, imm).Some?
    ensures EncodeCI(RV64, C_LDSP, rd, rs1, imm) == Some(h) && h & 0xEF83 == 0x6002 && Val(LdspImm(h), 9) == imm
  {
    hide Low, Word, Val, BuildTags, PackLdsp, LdspImm;
    var w := LdspFixed();
    var u := Aligned(imm, 8, 504);
    h := LdspLands(w, u);
  }

  // ------------------------------------------------- branches and jumps

  lemma BranchLands(w: bv16, r1p: bv32, u: bv32) returns (h: bv16, off: bv32)
    requires u & 0xFF == u && r1p <= 7
    ensures h == PackCB(w, r1p, u) && off == u << 1
    ensures Quadrant(h) == Quadrant(w) && CFunct3(h) == CFunct3(w) && PrimeHigh(h) as bv32 == r1p + 8
    ensures BranchImm(h) == (off & 0x127 ) | ((off >> 3) & 0x18) | ((off & 0x18) << 3)
  {
    h, off := PackCB(w, r1p, u), u << 1;
  }

  /** A compressed branch by an offset branches instead by the offset with bits 7:6 and 4:3
      exchanged. */
  lemma BranchReading(xlen: Xlen, op: COp, rs1: Reg, imm: int) returns (off: bv32, v: bv32)
    requires (op == C_BEQZ || op == C_BNEZ) && EncodeCB(op, rs1, imm).Some?
    ensures Signed(off, 9) == imm && off & 0x1FE == off && v == (off & 0x127) | ((off >> 3) & 0x18) | ((off & 0x18) << 3)
    ensures Decode(xlen, EncodeCB(op, rs1, imm).value) == Some(Insn(if op == C_BEQZ then BEQ else BNE, 0, rs1, 0, Signed(v, 9)))
  {
    hide Low, Val, Signed, BuildTags, PackCB, BranchImm, Decode, Quadrant, CFunct3, PrimeHigh, RegP;
    var w := Tags(op);
    RegPSmall(rs1);
    var u, off', o := SignedNine(imm);
    var h;
    h, off := BranchLands(w, RegP(rs1).value, u);
    RegPrime(rs1, PrimeHigh(h));
    ReadsBranch(xlen, h);
    EvenNine(u, off);
    v := BranchImm(h);
  }

  lemma EvenNine(u: bv32, off: bv32)
    requires u & 0xFF == u && off == u << 1
    ensures off & 0x1FE == off
  {}

  lemma JumpBitsLand(w: bv16, u: bv32)
    requires u & 0x7FF == u
    ensures JumpImm(PackCJ(w, u)) == ((u << 1) & 0xC10) | (u & 0x3EE)
  {}

  lemma JumpLands(w: bv16, u: bv32) returns (h: bv16, off: bv32)
    requires u & 0x7FF == u
    ensures h == PackCJ(w, u) && off == u << 1
    ensures Quadrant(h) == Quadrant(w) && CFunct3(h) == CFunct3(w)
    ensures JumpImm(h) == ((u << 1) & 0xC10) | (u & 0x3EE)
  {
    hide PackCJ, JumpImm, Quadrant, CFunct3, UniformGroups;
    JumpBitsLand(w, u);
    h, off := LayoutCJ(w, u);
  }

  lemma EvenTwelve(u: bv32, off: bv32)
    requires u & 0x7FF == u && off == u << 1
    ensures off & 0xFFE == off && off >> 1 == u
  {}

  /** A compressed jump by an offset jumps instead by the number that keeps the offset's bits 11, 10
      and 4 and has its bits 10, 9, 8, 7, 6 and 4, 3, 2 one place further down. */
  lemma JumpReading(xlen: Xlen, op: COp, imm: int) returns (off: bv32, v: bv32)
    requires (op == C_J || (op == C_JAL && xlen == RV32)) && EncodeCJ(op, imm).Some?
    ensures Signed(off, 12) == imm && off & 0xFFE == off && v == (off & 0xC10) | ((off >> 1) & 0x3EE)
    ensures Decode(xlen, EncodeCJ(op, imm).value) == Some(Insn(JAL, if op == C_J then 0 else 1, 0, 0, Signed(v, 12)))
  {
    hide Low, Val, Signed, BuildTags, PackCJ, Decode, JumpImm, Quadrant, CFunct3;
    var w := Tags(op);
    var u, off', o := SignedTwelve(imm);
    var h;
    h, off := JumpLands(w, u);
    EvenTwelve(u, off);
    ReadsJump(xlen, op, h);
    v := JumpImm(h);
  }
}
