/** The fixed bits of a compressed halfword survive packing, and the packed fields
    determine the operands except where the source drops operand bits. */
module Tags16 {
  import opened Isa
  import opened Bits
  import opened Encode16
  import opened Decode16
  import opened Conform16

  /** Quadrant and funct3, in place. */
  function Fixed(h: bv16): bv16 { h & 0xE003 }

  lemma TagsOf(i: CInfo, w: bv16, h: bv16)
    requires TagsMatch(i, w) && Fixed(h) == Fixed(w)
    requires i.op12 == ANY && i.op6_5 == ANY && (i.op11_10 != ANY ==> Funct2(h) == Funct2(w))
    ensures TagsMatch(i, h)
  {
    SameFixed(w, h);
  }

  lemma SameFixed(w: bv16, h: bv16)
    requires w & 0xE003 == h & 0xE003
    ensures w & 3 == h & 3 && w >> 13 == h >> 13
  {}

  lemma BuildMatches(op: COp) returns (w: bv16)
    ensures w == BuildTags(CInfoOf(op)) && TagsMatch(CInfoOf(op), w)
  {
    w := BuildTags(CInfoOf(op));
  }

  lemma KeepCI(w: bv16, rd: Reg, u: bv32)
    ensures Fixed(PackCI(w, rd, u)) == Fixed(w)
  {}

  lemma KeepCIPrime(w: bv16, rp: bv32, u: bv32)
    ensures Fixed(PackCIPrime(w, rp, u)) == Fixed(w) && Funct2(PackCIPrime(w, rp, u)) == Funct2(w)
  {}

  lemma KeepSpLoad(w: bv16, rd: Reg, u: bv32)
    ensures Fixed(PackLwsp(w, rd, u)) == Fixed(w) && Fixed(PackLdsp(w, u)) == Fixed(w)
  {}

  lemma KeepCSS(w: bv16, rs2: Reg, u: bv32)
    ensures Fixed(PackSwsp(w, rs2, u)) == Fixed(w) && Fixed(PackSdsp(w, rs2, u)) == Fixed(w)
  {}

  lemma KeepCB(w: bv16, r1p: bv32, u: bv32)
    ensures Fixed(PackCB(w, r1p, u)) == Fixed(w) && Fixed(PackCJ(w, u)) == Fixed(w)
  {}

  /** What the encoder of the CI operations packs. */
  lemma CIHalfword(cfg: Config, op: COp, rd: Reg, rs1: Reg, imm: int)
    requires CFmt(op) == FmtCI && EncodeCI(cfg.xlen, op, rd, rs1, imm).Some?
    ensures var h, w := EncodeCI(cfg.xlen, op, rd, rs1, imm).value, BuildTags(CInfoOf(op));
            || (CInfoOf(op).op11_10 == ANY &&
                (h == PackCI(w, rd, Low(imm, 6)) || h == PackCI(w, 0, 0) || h == PackLwsp(w, rd, Word(imm)) || h == PackLdsp(w, Word(imm))))
            || (RegP(rd).Some? && h == PackCIPrime(w, RegP(rd).value, Low(imm, 6)))
  {
    hide Low, Word, BuildTags, PackCI, PackCIPrime, PackLwsp, PackLdsp, RegP;
  }

  lemma TagsCI(cfg: Config, op: COp, rd: Reg, rs1: Reg, imm: int)
    requires CFmt(op) == FmtCI && EncodeCI(cfg.xlen, op, rd, rs1, imm).Some?
    ensures TagsMatch(CInfoOf(op), EncodeCI(cfg.xlen, op, rd, rs1, imm).value)
  {
    hide Low, Word, BuildTags, PackCI, PackCIPrime, PackLwsp, PackLdsp, TagsMatch, Funct2, Fixed;
    var w := BuildMatches(op);
    CIHalfword(cfg, op, rd, rs1, imm);
    hide EncodeCI, RegP, CInfoOf, CFmt;
    KeepCI(w, rd, Low(imm, 6));
    KeepCI(w, 0, 0);
    KeepSpLoad(w, rd, Word(imm));
    if RegP(rd).Some? { KeepCIPrime(w, RegP(rd).value, Low(imm, 6)); }
    TagsOf(CInfoOf(op), w, EncodeCI(cfg.xlen, op, rd, rs1, imm).value);
  }

  lemma TagsMem(op: COp, reg: Reg, base: Reg, imm: int)
    requires (IsWordMem(op) || IsDoubleMem(op)) && EncodeMem(op, reg, base, imm).Some?
    ensures TagsMatch(CInfoOf(op), EncodeMem(op, reg, base, imm).value)
  {
    hide EncodeMem, U32, Val, WordImm, DoubleImm, PrimeHigh, PrimeLow;
    var h;
    if IsWordMem(op) { h := FieldsOfWordMem(op, reg, base, imm); } else { h := FieldsOfDoubleMem(op, reg, base, imm); }
  }

  lemma TagsCSS(op: COp, rs1: Reg, rs2: Reg, imm: int)
    requires CFmt(op) == FmtCSS && EncodeCSS(op, rs1, rs2, imm).Some?
    ensures TagsMatch(CInfoOf(op), EncodeCSS(op, rs1, rs2, imm).value)
  {
    hide Low, Word, BuildTags, PackSwsp, PackSdsp, TagsMatch, Funct2, Fixed, OffsetOk;
    var w := BuildMatches(op);
    KeepCSS(w, rs2, Word(imm));
    TagsOf(CInfoOf(op), w, EncodeCSS(op, rs1, rs2, imm).value);
  }

  lemma TagsCB(op: COp, rs1: Reg, imm: int)
    requires CFmt(op) == FmtCB && EncodeCB(op, rs1, imm).Some?
    ensures TagsMatch(CInfoOf(op), EncodeCB(op, rs1, imm).value)
  {
    hide Low, BuildTags, PackCB, TagsMatch, Funct2, Fixed, RegP;
    var w := BuildMatches(op);
    KeepCB(w, RegP(rs1).value, Low(imm / 2, 8));
    TagsOf(CInfoOf(op), w, EncodeCB(op, rs1, imm).value);
  }

  lemma TagsCJ(op: COp, imm: int)
    requires CFmt(op) == FmtCJ && EncodeCJ(op, imm).Some?
    ensures TagsMatch(CInfoOf(op), EncodeCJ(op, imm).value)
  {
    hide Low, BuildTags, PackCJ, TagsMatch, Funct2, Fixed;
    var w := BuildMatches(op);
    KeepCB(w, 0, Low(imm / 2, 11));
    TagsOf(CInfoOf(op), w, EncodeCJ(op, imm).value);
  }

  lemma TagsCR(op: COp, rd: Reg, rs1: Reg, rs2: Reg)
    requires CFmt(op) == FmtCR && EncodeCR(op, rd, rs1, rs2).Some?
    ensures TagsMatch(CInfoOf(op), EncodeCR(op, rd, rs1, rs2).value)
  {
    hide PackCR;
    var h := LayoutCR(CInfoOf(op), if op == C_JR || op == C_JALR then rs1 else rd, rs2);
  }

  lemma TagsCA(op: COp, rd: Reg, rs1: Reg, rs2: Reg)
    requires CFmt(op) == FmtCA && EncodeCA(op, rd, rs1, rs2).Some?
    ensures TagsMatch(CInfoOf(op), EncodeCA(op, rd, rs1, rs2).value)
  {
    hide EncodeCA;
    var h := FieldsOfCA(op, rd, rs1, rs2);
  }

  /** Every halfword the encoder produces satisfies `c_tags_match` for its own table entry;
      in particular its two low bits never mark a 32-bit instruction. */
  lemma EncodedTagsMatch(cfg: Config, op: COp, rd: Reg, rs1: Reg, rs2: Reg, imm: int)
    requires CEncode(cfg, op, CFmt(op), rd, rs1, rs2, imm).Some?
    ensures var h := CEncode(cfg, op, CFmt(op), rd, rs1, rs2, imm).value;
            TagsMatch(CInfoOf(op), h) && h & 3 != 3
  {
    hide EncodeCI, EncodeCR, EncodeCA, EncodeCSS, EncodeCB, EncodeCJ, EncodeMem, TagsMatch;
    match CFmt(op) {
      case FmtCI => TagsCI(cfg, op, rd, rs1, imm);
      case FmtCR => TagsCR(op, rd, rs1, rs2);
      case FmtCA => TagsCA(op, rd, rs1, rs2);
      case FmtCL => TagsMem(op, rd, rs1, imm);
      case FmtCS => TagsMem(op, rs2, rs1, imm);
      case FmtCSS => TagsCSS(op, rs1, rs2, imm);
      case FmtCB => TagsCB(op, rs1, imm);
      case _ => TagsCJ(op, imm);
    }
    LowBits(op, CEncode(cfg, op, CFmt(op), rd, rs1, rs2, imm).value);
  }

  lemma LowBits(op: COp, h: bv16)
    requires TagsMatch(CInfoOf(op), h)
    ensures h & 3 != 3
  {}

  // ------------------------------------------------- distinct operands, distinct halfwords

  /** The operands a mnemonic uses, its offset as the encoder sees it. */
  function Operands(op: COp, rd: Reg, rs1: Reg, rs2: Reg, imm: int): Insn {
    var m := Meaning(op, rd, rs1, rs2, imm);
    match op
    case C_LW | C_LD | C_SW | C_SD | C_SWSP | C_SDSP => m.(imm := U32(imm))
    case _ => m
  }

  lemma InjectSwsp(w: bv16, a: Reg, u: bv32, b: Reg, v: bv32)
    requires PackSwsp(w, a, u) == PackSwsp(w, b, v) && u & 0xFC == u && v & 0xFC == v
    ensures a == b && u == v
  {}

  lemma InjectSdsp(w: bv16, a: Reg, u: bv32, b: Reg, v: bv32)
    requires PackSdsp(w, a, u) == PackSdsp(w, b, v) && u & 0x1F8 == u && v & 0x1F8 == v
    ensures a == b && u == v
  {}

  lemma InjectCB(w: bv16, a: bv32, u: bv32, b: bv32, v: bv32)
    requires PackCB(w, a, u) == PackCB(w, b, v) && u & 0xFF == u && v & 0xFF == v && a <= 7 && b <= 7
    ensures a == b && u == v
  {}

  lemma DistinctCSS(op: COp, s: Reg, a: Reg, m: int, s': Reg, b: Reg, n: int)
    requires CFmt(op) == FmtCSS && EncodeCSS(op, s, a, m).Some? && EncodeCSS(op, s, a, m) == EncodeCSS(op, s', b, n)
    ensures a == b && U32(m) == U32(n)
  {
    hide Low, Word, Val, BuildTags, PackSwsp, PackSdsp;
    var u, v;
    if op == C_SWSP {
      u := Aligned(m, 4, 252);
      v := Aligned(n, 4, 252);
      InjectSwsp(BuildTags(CInfoOf(op)), a, u, b, v);
    } else {
      u := Aligned(m, 8, 504);
      v := Aligned(n, 8, 504);
      InjectSdsp(BuildTags(CInfoOf(op)), a, u, b, v);
    }
  }

  lemma SamePrime(a: Reg, b: Reg)
    requires RegP(a).Some? && RegP(a) == RegP(b)
    ensures a == b
  {}

  lemma DistinctCB(op: COp, a: Reg, m: int, b: Reg, n: int)
    requires CFmt(op) == FmtCB && EncodeCB(op, a, m).Some? && EncodeCB(op, a, m) == EncodeCB(op, b, n)
    ensures a == b && m == n
  {
    hide Low, Val, Signed, BuildTags, PackCB, RegP;
    var u, x, _ := SignedNine(m);
    var v, y, _ := SignedNine(n);
    RegPSmall(a);
    RegPSmall(b);
    InjectCB(BuildTags(CInfoOf(op)), RegP(a).value, u, RegP(b).value, v);
    SamePrime(a, b);
    ShiftSame(u, v, x, y);
  }

  lemma ShiftSame(u: bv32, v: bv32, x: bv32, y: bv32)
    requires u == v && x == u << 1 && y == v << 1
    ensures x == y
  {}

  lemma DistinctCA(op: COp, a: Reg, s: Reg, c: Reg, b: Reg, t: Reg, d: Reg)
    requires CFmt(op) == FmtCA && EncodeCA(op, a, s, c).Some? && EncodeCA(op, a, s, c) == EncodeCA(op, b, t, d)
    ensures a == b && c == d
  {
    hide EncodeCA, Quadrant, CFunct3, Bit12, Funct2, Funct2Low, PrimeHigh, PrimeLow;
    var g := FieldsOfCA(op, a, s, c);
    var h := FieldsOfCA(op, b, t, d);
  }

  lemma DistinctMem(op: COp, a: Reg, s: Reg, m: int, b: Reg, t: Reg, n: int)
    requires IsWordMem(op) || IsDoubleMem(op)
    requires EncodeMem(op, a, s, m).Some? && EncodeMem(op, a, s, m) == EncodeMem(op, b, t, n)
    ensures a == b && s == t && U32(m) == U32(n)
  {
    hide EncodeMem, U32, Val, WordImm, DoubleImm, PrimeHigh, PrimeLow, Quadrant, CFunct3;
    var g, h;
    if IsWordMem(op) {
      g := FieldsOfWordMem(op, a, s, m);
      h := FieldsOfWordMem(op, b, t, n);
    } else {
      g := FieldsOfDoubleMem(op, a, s, m);
      h := FieldsOfDoubleMem(op, b, t, n);
    }
  }

  /** Accepted operands for which the source keeps the layout's meaning are read back. */
  lemma DistinctByDecode(cfg: Config, op: COp, rd: Reg, rs1: Reg, rs2: Reg, imm: int, rd': Reg, rs1': Reg, rs2': Reg, imm': int)
    requires (CFmt(op) == FmtCI || CFmt(op) == FmtCR) && op != C_LDSP
    requires CEncode(cfg, op, CFmt(op), rd, rs1, rs2, imm).Some?
    requires CEncode(cfg, op, CFmt(op), rd, rs1, rs2, imm) == CEncode(cfg, op, CFmt(op), rd', rs1', rs2', imm')
    ensures Meaning(op, rd, rs1, rs2, imm) == Meaning(op, rd', rs1', rs2', imm')
  {
    hide CEncode, Decode, Meaning;
    CEncodeExact(cfg, op, rd, rs1, rs2, imm);
    CEncodeExact(cfg, op, rd', rs1', rs2', imm');
  }

  /** Except for C.J, C.JAL and C.LDSP, two accepted operand lists that give the same
      halfword are the same in every operand the operation uses. */
  lemma DistinctOperands(cfg: Config, op: COp, rd: Reg, rs1: Reg, rs2: Reg, imm: int, rd': Reg, rs1': Reg, rs2': Reg, imm': int)
    requires op != C_J && op != C_JAL && op != C_LDSP
    requires CEncode(cfg, op, CFmt(op), rd, rs1, rs2, imm).Some?
    requires CEncode(cfg, op, CFmt(op), rd, rs1, rs2, imm) == CEncode(cfg, op, CFmt(op), rd', rs1', rs2', imm')
    ensures Operands(op, rd, rs1, rs2, imm) == Operands(op, rd', rs1', rs2', imm')
  {
    hide EncodeCI, EncodeCR, EncodeCA, EncodeCSS, EncodeCB, EncodeCJ, EncodeMem, Decode, Meaning, Operands;
    UsedByFormat(op, rd, rs1, rs2, imm, rd', rs1', rs2', imm');
    match CFmt(op)
    case FmtCA => DistinctCA(op, rd, rs1, rs2, rd', rs1', rs2');
    case FmtCSS => DistinctCSS(op, rs1, rs2, imm, rs1', rs2', imm');
    case FmtCB => DistinctCB(op, rs1, imm, rs1', imm');
    case FmtCL => DistinctMem(op, rd, rs1, imm, rd', rs1', imm');
    case FmtCS => DistinctMem(op, rs2, rs1, imm, rs2', rs1', imm');
    case _ => DistinctByDecode(cfg, op, rd, rs1, rs2, imm, rd', rs1', rs2', imm');
  }

  /** Which operands each format uses. */
  lemma UsedByFormat(op: COp, rd: Reg, rs1: Reg, rs2: Reg, imm: int, rd': Reg, rs1': Reg, rs2': Reg, imm': int)
    ensures CFmt(op) == FmtCA && rd == rd' && rs2 == rs2' ==> Operands(op, rd, rs1, rs2, imm) == Operands(op, rd', rs1', rs2', imm')
    ensures CFmt(op) == FmtCSS && rs2 == rs2' && U32(imm) == U32(imm') ==> Operands(op, rd, rs1, rs2, imm) == Operands(op, rd', rs1', rs2', imm')
    ensures CFmt(op) == FmtCB && rs1 == rs1' && imm == imm' ==> Operands(op, rd, rs1, rs2, imm) == Operands(op, rd', rs1', rs2', imm')
    ensures CFmt(op) == FmtCL && rd == rd' && rs1 == rs1' && U32(imm) == U32(imm') ==> Operands(op, rd, rs1, rs2, imm) == Operands(op, rd', rs1', rs2', imm')
    ensures CFmt(op) == FmtCS && rs2 == rs2' && rs1 == rs1' && U32(imm) == U32(imm') ==> Operands(op, rd, rs1, rs2, imm) == Operands(op, rd', rs1', rs2', imm')
    ensures (CFmt(op) == FmtCI || CFmt(op) == FmtCR) && Meaning(op, rd, rs1, rs2, imm) == Meaning(op, rd', rs1', rs2', imm') ==>
            Operands(op, rd, rs1, rs2, imm) == Operands(op, rd', rs1', rs2', imm')
  {
    hide U32;
  }

  // ------------------------------------------------- the three exceptions

  /** Two jump words share a halfword when they agree but for bits 0 and 4. */
  lemma JumpCollides(w: bv16, u: bv32, v: bv32)
    requires u & 0x7FF == u && v & 0x7FF == v
    ensures PackCJ(w, u) == PackCJ(w, v) <==> (u >> 1) & 7 == (v >> 1) & 7 && (u >> 5) & 0x3F == (v >> 5) & 0x3F
  {}

  /** The two groups of bits of a jump word that are stored, as numbers. */
  lemma JumpGroups(imm: int, u: bv32) returns (x: bv32, y: bv32)
    requires -2048 <= imm <= 2046 && u == Low(imm / 2, 11)
    ensures x == (u >> 1) & 7 && x & 7 == x && Val(x, 3) == (imm / 4) % 8
    ensures y == (u >> 5) & 0x3F && y & 0x3F == y && Val(y, 6) == (imm / 64) % 64
  {
    hide Low, Val, Pow2, Ones;
    PowerTable();
    OnesTable();
    var a := HalfOf(imm / 2, 11, u);
    var b := DropFive(imm / 2, 11, u);
    var o, o';
    x, o := FieldOf(imm / 2 / 2, 10, a, 3);
    y, o' := FieldOf(imm / 2 / 2 / 2 / 2 / 2 / 2, 6, b, 6);
    assert imm / 2 / 2 == imm / 4 && imm / 2 / 2 / 2 / 2 / 2 / 2 == imm / 64;
    SameFields(u, a, b, x, y);
  }

  lemma SameFields(u: bv32, a: bv32, b: bv32, x: bv32, y: bv32)
    requires a == u >> 1 && b == u >> 5 && x == a & 7 && y == b & 0x3F
    ensures x == (u >> 1) & 7 && y == (u >> 5) & 0x3F
  {}

  /** The offset bits a jump stores are those but 1 and 5. */
  predicate SameButTwo(m: int, n: int) {
    (m / 4) % 8 == (n / 4) % 8 && m / 64 == n / 64
  }

  lemma SameSixBits(m: int, n: int)
    requires -2048 <= m <= 2046 && -2048 <= n <= 2046
    ensures (m / 64) % 64 == (n / 64) % 64 <==> m / 64 == n / 64
  {}

  /** Two accepted jumps share a halfword exactly when their offsets agree in every bit but
      1 and 5. */
  lemma JumpsLost(op: COp, m: int, n: int)
    requires (op == C_J || op == C_JAL) && EncodeCJ(op, m).Some? && EncodeCJ(op, n).Some?
    ensures EncodeCJ(op, m) == EncodeCJ(op, n) <==> SameButTwo(m, n)
  {
    hide Low, Val, Signed, BuildTags, PackCJ;
    var u, off, o := SignedTwelve(m);
    var v, off', o' := SignedTwelve(n);
    var x, y := JumpGroups(m, u);
    var x', y' := JumpGroups(n, v);
    JumpCollides(BuildTags(CInfoOf(op)), u, v);
    OnesTable();
    if Val(x, 3) == Val(x', 3) { ValInjective(x, x', 3, 7); }
    if Val(y, 6) == Val(y', 6) { ValInjective(y, y', 6, 0x3F); }
    SameSixBits(m, n);
  }

  lemma LdspCollides(w: bv16, u: bv32, v: bv32)
    requires u & 0x1F8 == u && v & 0x1F8 == v
    ensures PackLdsp(w, u) == PackLdsp(w, v) <==> u == v
  {}

  /** Two accepted C.LDSP share a halfword exactly when their offsets agree, whatever rd is. */
  lemma LoadsLost(rd: Reg, rs1: Reg, m: int, rd': Reg, rs1': Reg, n: int)
    requires EncodeCI(RV64, C_LDSP, rd, rs1, m).Some? && EncodeCI(RV64, C_LDSP, rd', rs1', n).Some?
    ensures EncodeCI(RV64, C_LDSP, rd, rs1, m) == EncodeCI(RV64, C_LDSP, rd', rs1', n) <==> m == n
  {
    hide Low, Word, Val, BuildTags, PackLdsp;
    var u := Aligned(m, 8, 504);
    var v := Aligned(n, 8, 504);
    LdspCollides(BuildTags(CInfoOf(C_LDSP)), u, v);
  }
}
