/** What automatic compression keeps: the rules rewrite an instruction to a mnemonic with
    the same meaning, the encoders accept what the rules produce, and where the compressed
    layout is right both forms denote the same instruction, bit for bit. */
module Compress {
  import opened Isa
  import opened Bits
  import opened Ir
  import opened CRules
  import Encode32
  import Decode32
  import Encode16
  import Decode16
  import Conform16

  function BaseMeaning(n: Entry): Insn
    requires n.op.Base?
  {
    Decode32.Meaning(n.op.base, n.rd, n.rs1, n.rs2, n.imm)
  }

  function ChoiceMeaning(ch: Choice): Insn {
    Decode16.Meaning(ch.op, ch.rd, ch.rs1, ch.rs2, ch.imm)
  }

  predicate PcRelative(op: COp) { op == C_BEQZ || op == C_BNEZ || op == C_J || op == C_JAL }

  /** A replacement keeps operation, operands and immediate; its format is its
      operation's, and a label survives on control transfers only. */
  predicate SameMeaning(n: Entry, r: Option<Choice>) {
    r.Some? ==>
      var ch := r.value;
      && n.op.Base?
      && ch.fmt == CFmt(ch.op)
      && ChoiceMeaning(ch) == BaseMeaning(n)
      && (PcRelative(ch.op) ==> ch.target == n.target && ch.reloc == n.reloc)
      && (!PcRelative(ch.op) ==> ch.target == None && ch.reloc == RelocNone)
  }

  /** Every rule, hence the first that applies, keeps the meaning. */
  lemma RulesKeepMeaning(xlen: Xlen, n: Entry)
    ensures SameMeaning(n, TryMap(xlen, n))
  {
    hide MapAddiSelf, MapLi, MapNop, MapSlli, MapShiftPrime, MapAndiPrime, MapMv, MapAdd, MapJr, MapJalr, MapEbreak, MapCaAlu, MapCawAlu, MapLoad, MapStore, MapSpLoad, MapSpStore, MapBranch, MapJump, SameMeaning;
    KeepsAddi(xlen, n);
    KeepsSlli(xlen, n);
    KeepsShift(xlen, n);
    KeepsAndi(xlen, n);
    KeepsCr(xlen, n);
    KeepsJump(xlen, n);
    KeepsCaAlu(xlen, n);
    KeepsCawAlu(xlen, n);
    KeepsLoad(xlen, n);
    KeepsStore(xlen, n);
    KeepsSpLoad(xlen, n);
    KeepsSpStore(xlen, n);
    KeepsBranch(xlen, n);
    KeepsJal(xlen, n);
  }

  lemma KeepsAddi(xlen: Xlen, n: Entry)
    ensures SameMeaning(n, MapAddiSelf(n))
    ensures SameMeaning(n, MapLi(n))
    ensures SameMeaning(n, MapNop(n))
  {}

  lemma KeepsSlli(xlen: Xlen, n: Entry)
    ensures SameMeaning(n, MapSlli(xlen, n))
  {}

  lemma KeepsShift(xlen: Xlen, n: Entry)
    ensures SameMeaning(n, MapShiftPrime(xlen, n))
  {}

  lemma KeepsAndi(xlen: Xlen, n: Entry)
    ensures SameMeaning(n, MapAndiPrime(n))
  {}

  lemma KeepsCr(xlen: Xlen, n: Entry)
    ensures SameMeaning(n, MapMv(n))
    ensures SameMeaning(n, MapAdd(n))
  {}

  lemma JumpMeanings(rd: Reg, rs1: Reg, rs2: Reg, imm: int)
    ensures Decode32.Meaning(JALR, rd, rs1, rs2, imm) == Insn(JALR, rd, rs1, 0, imm)
    ensures Decode32.Meaning(EBREAK, rd, rs1, rs2, imm) == Insn(EBREAK, 0, 0, 0, 0)
  {}

  lemma JumpMeanings16(rs1: Reg)
    ensures Decode16.Meaning(C_JR, 0, rs1, 0, 0) == Insn(JALR, 0, rs1, 0, 0)
    ensures Decode16.Meaning(C_JALR, 1, rs1, 0, 0) == Insn(JALR, 1, rs1, 0, 0)
    ensures Decode16.Meaning(C_EBREAK, 0, 0, 0, 0) == Insn(EBREAK, 0, 0, 0, 0)
  {}

  lemma KeepsJump(xlen: Xlen, n: Entry)
    ensures SameMeaning(n, MapJr(n))
    ensures SameMeaning(n, MapJalr(n))
    ensures SameMeaning(n, MapEbreak(n))
  {
    hide Decode16.Meaning, Decode32.Meaning;
    JumpMeanings(n.rd, n.rs1, n.rs2, n.imm);
    JumpMeanings16(n.rs1);
  }

  lemma KeepsCaAlu(xlen: Xlen, n: Entry)
    ensures SameMeaning(n, MapCaAlu(n))
  {}

  lemma KeepsCawAlu(xlen: Xlen, n: Entry)
    ensures SameMeaning(n, MapCawAlu(xlen, n))
  {}

  // What the operations of each group stand for, in both vocabularies.

  lemma LoadMeanings(rd: Reg, rs1: Reg, rs2: Reg, imm: int)
    ensures Decode32.Meaning(LW, rd, rs1, rs2, imm) == Insn(LW, rd, rs1, 0, imm)
    ensures Decode32.Meaning(LD, rd, rs1, rs2, imm) == Insn(LD, rd, rs1, 0, imm)
  {}

  lemma LoadMeanings16(rd: Reg, rs1: Reg, imm: int)
    ensures Decode16.Meaning(C_LW, rd, rs1, 0, imm) == Insn(LW, rd, rs1, 0, imm)
    ensures Decode16.Meaning(C_LD, rd, rs1, 0, imm) == Insn(LD, rd, rs1, 0, imm)
    ensures Decode16.Meaning(C_LWSP, rd, 2, 0, imm) == Insn(LW, rd, 2, 0, imm)
    ensures Decode16.Meaning(C_LDSP, rd, 2, 0, imm) == Insn(LD, rd, 2, 0, imm)
  {}

  lemma StoreMeanings(rd: Reg, rs1: Reg, rs2: Reg, imm: int)
    ensures Decode32.Meaning(SW, rd, rs1, rs2, imm) == Insn(SW, 0, rs1, rs2, imm)
    ensures Decode32.Meaning(SD, rd, rs1, rs2, imm) == Insn(SD, 0, rs1, rs2, imm)
  {}

  lemma StoreMeanings16(rs1: Reg, rs2: Reg, imm: int)
    ensures Decode16.Meaning(C_SW, 0, rs1, rs2, imm) == Insn(SW, 0, rs1, rs2, imm)
    ensures Decode16.Meaning(C_SD, 0, rs1, rs2, imm) == Insn(SD, 0, rs1, rs2, imm)
    ensures Decode16.Meaning(C_SWSP, 0, 2, rs2, imm) == Insn(SW, 0, 2, rs2, imm)
    ensures Decode16.Meaning(C_SDSP, 0, 2, rs2, imm) == Insn(SD, 0, 2, rs2, imm)
  {}

  lemma BranchMeanings(rd: Reg, rs1: Reg, rs2: Reg, imm: int)
    ensures Decode32.Meaning(BEQ, rd, rs1, rs2, imm) == Insn(BEQ, 0, rs1, rs2, imm)
    ensures Decode32.Meaning(BNE, rd, rs1, rs2, imm) == Insn(BNE, 0, rs1, rs2, imm)
  {}

  lemma BranchMeanings16(rs1: Reg, imm: int)
    ensures Decode16.Meaning(C_BEQZ, 0, rs1, 0, imm) == Insn(BEQ, 0, rs1, 0, imm)
    ensures Decode16.Meaning(C_BNEZ, 0, rs1, 0, imm) == Insn(BNE, 0, rs1, 0, imm)
  {}

  lemma KeepsLoad(xlen: Xlen, n: Entry)
    ensures SameMeaning(n, MapLoad(xlen, n))
  {
    hide Prime, Decode16.Meaning, Decode32.Meaning;
    LoadMeanings(n.rd, n.rs1, n.rs2, n.imm);
    LoadMeanings16(n.rd, n.rs1, n.imm);
  }

  lemma KeepsStore(xlen: Xlen, n: Entry)
    ensures SameMeaning(n, MapStore(n))
  {
    hide Prime, Decode16.Meaning, Decode32.Meaning;
    StoreMeanings(n.rd, n.rs1, n.rs2, n.imm);
    StoreMeanings16(n.rs1, n.rs2, n.imm);
  }

  lemma KeepsSpLoad(xlen: Xlen, n: Entry)
    ensures SameMeaning(n, MapSpLoad(xlen, n))
  {
    hide Decode16.Meaning, Decode32.Meaning;
    LoadMeanings(n.rd, n.rs1, n.rs2, n.imm);
    LoadMeanings16(n.rd, n.rs1, n.imm);
  }

  lemma KeepsSpStore(xlen: Xlen, n: Entry)
    ensures SameMeaning(n, MapSpStore(n))
  {
    hide Decode16.Meaning, Decode32.Meaning;
    StoreMeanings(n.rd, n.rs1, n.rs2, n.imm);
    StoreMeanings16(n.rs1, n.rs2, n.imm);
  }

  lemma KeepsBranch(xlen: Xlen, n: Entry)
    ensures SameMeaning(n, MapBranch(n))
  {
    hide Prime, Decode16.Meaning, Decode32.Meaning;
    BranchMeanings(n.rd, n.rs1, n.rs2, n.imm);
    BranchMeanings16(n.rs1, n.imm);
  }

  lemma KeepsJal(xlen: Xlen, n: Entry)
    ensures SameMeaning(n, MapJump(xlen, n))
  {}

  /** The encoder accepts a replacement unless the C extension is off or the operation is
      for the other width; the width can only rule out a doubleword store. */
  predicate Accepted(cfg: Config, n: Entry, r: Option<Choice>) {
    r.Some? ==>
      var ch := r.value;
      && (Encode16.ForWidth(ch.op, cfg.xlen) || (cfg.xlen == RV32 && n.op == Base(SD)))
      && (Encode16.CEncode(cfg, ch.op, CFmt(ch.op), ch.rd, ch.rs1, ch.rs2, ch.imm).Some? <==>
          cfg.hasC && Encode16.ForWidth(ch.op, cfg.xlen))
  }

  lemma MemAccepted(op: COp, reg: Reg, base: Reg, imm: int)
    requires Prime(reg) && Prime(base) && imm >= 0
    requires (Conform16.IsWordMem(op) && imm % 4 == 0 && imm <= 124) || (Conform16.IsDoubleMem(op) && imm % 8 == 0 && imm <= 248)
    ensures Encode16.EncodeMem(op, reg, base, imm).Some?
  {
    hide Word, U32, Prime, Encode16.RegP, Encode16.BuildTags, Encode16.CInfoOf, Encode16.PackWordMem, Encode16.PackDoubleMem;
    SmallOffset(imm);
    PrimeRegister(reg);
    PrimeRegister(base);
  }

  lemma MemEncodes(cfg: Config, op: COp, reg: Reg, base: Reg, imm: int)
    requires Prime(reg) && Prime(base) && imm >= 0
    requires (Conform16.IsWordMem(op) && imm % 4 == 0 && imm <= 124) || (Conform16.IsDoubleMem(op) && imm % 8 == 0 && imm <= 248)
    ensures op == C_LW || op == C_LD ==>
            (Encode16.CEncode(cfg, op, FmtCL, reg, base, 0, imm).Some? <==> cfg.hasC && Encode16.ForWidth(op, cfg.xlen))
    ensures op == C_SW || op == C_SD ==>
            (Encode16.CEncode(cfg, op, FmtCS, 0, base, reg, imm).Some? <==> cfg.hasC && Encode16.ForWidth(op, cfg.xlen))
  {
    hide Prime, Encode16.EncodeMem, Encode16.EncodeCI, Encode16.EncodeCR, Encode16.EncodeCA, Encode16.EncodeCSS, Encode16.EncodeCB,
      Encode16.EncodeCJ;
    MemAccepted(op, reg, base, imm);
  }

  lemma PrimeRegister(x: Reg)
    ensures Prime(x) <==> Encode16.RegP(x).Some?
  {}

  lemma SmallOffset(imm: int)
    ensures 0 <= imm < TWO32 ==> U32(imm) == imm
  {}

  // The dispatch of the compressed encoders, one format each.

  lemma DispatchCI(cfg: Config, op: COp, rd: Reg, rs1: Reg, rs2: Reg, imm: int)
    requires CFmt(op) == FmtCI
    ensures Encode16.CEncode(cfg, op, CFmt(op), rd, rs1, rs2, imm).Some? <==>
            Encode16.RequireC(cfg, op) && Encode16.EncodeCI(cfg.xlen, op, rd, rs1, imm).Some?
  {
    hide Encode16.EncodeCI, Encode16.RequireC, CFmt;
  }

  lemma DispatchCR(cfg: Config, op: COp, rd: Reg, rs1: Reg, rs2: Reg, imm: int)
    requires CFmt(op) == FmtCR
    ensures Encode16.CEncode(cfg, op, CFmt(op), rd, rs1, rs2, imm).Some? <==>
            Encode16.RequireC(cfg, op) && Encode16.EncodeCR(op, rd, rs1, rs2).Some?
  {
    hide Encode16.EncodeCR, Encode16.RequireC, CFmt;
  }

  lemma DispatchCA(cfg: Config, op: COp, rd: Reg, rs1: Reg, rs2: Reg, imm: int)
    requires CFmt(op) == FmtCA
    ensures Encode16.CEncode(cfg, op, CFmt(op), rd, rs1, rs2, imm).Some? <==>
            Encode16.RequireC(cfg, op) && Encode16.EncodeCA(op, rd, rs1, rs2).Some?
  {
    hide Encode16.EncodeCA, Encode16.RequireC, CFmt;
  }

  lemma DispatchCSS(cfg: Config, op: COp, rd: Reg, rs1: Reg, rs2: Reg, imm: int)
    requires CFmt(op) == FmtCSS
    ensures Encode16.CEncode(cfg, op, CFmt(op), rd, rs1, rs2, imm).Some? <==>
            Encode16.RequireC(cfg, op) && Encode16.EncodeCSS(op, rs1, rs2, imm).Some?
  {
    hide Encode16.EncodeCSS, Encode16.RequireC, CFmt;
  }

  lemma DispatchTransfer(cfg: Config, op: COp, rd: Reg, rs1: Reg, rs2: Reg, imm: int)
    requires CFmt(op) == FmtCB || CFmt(op) == FmtCJ
    ensures Encode16.CEncode(cfg, op, CFmt(op), rd, rs1, rs2, imm).Some? <==>
            Encode16.RequireC(cfg, op) &&
            (if CFmt(op) == FmtCB then Encode16.EncodeCB(op, rs1, imm).Some? else Encode16.EncodeCJ(op, imm).Some?)
  {
    hide Encode16.EncodeCB, Encode16.EncodeCJ, Encode16.RequireC, CFmt;
  }

  lemma AcceptsAddi(cfg: Config, n: Entry)
    ensures Accepted(cfg, n, MapAddiSelf(n))
    ensures Accepted(cfg, n, MapLi(n))
    ensures Accepted(cfg, n, MapNop(n))
  {
    hide Encode16.CEncode, Encode16.BuildTags, Encode16.PackCI, Low;
    DispatchCI(cfg, C_ADDI, n.rd, n.rd, 0, n.imm);
    DispatchCI(cfg, C_ADDI, 0, 0, 0, 0);
    DispatchCI(cfg, C_LI, n.rd, 0, 0, n.imm);
  }

  lemma AcceptsSlli(cfg: Config, n: Entry)
    ensures Accepted(cfg, n, MapSlli(cfg.xlen, n))
  {
    hide Encode16.CEncode, Encode16.BuildTags, Encode16.PackCI, Low;
    DispatchCI(cfg, C_SLLI, n.rd, n.rd, 0, n.imm);
  }

  lemma AcceptsShift(cfg: Config, n: Entry)
    ensures Accepted(cfg, n, MapShiftPrime(cfg.xlen, n))
  {
    hide Encode16.CEncode, Encode16.BuildTags, Encode16.PackCIPrime, Encode16.RegP, Prime, Low;
    PrimeRegister(n.rd);
    DispatchCI(cfg, if n.op == Base(SRAI) then C_SRAI else C_SRLI, n.rd, n.rd, 0, n.imm);
  }

  lemma AcceptsAndi(cfg: Config, n: Entry)
    ensures Accepted(cfg, n, MapAndiPrime(n))
  {
    hide Encode16.CEncode, Encode16.BuildTags, Encode16.PackCIPrime, Encode16.RegP, Prime, Low;
    PrimeRegister(n.rd);
    DispatchCI(cfg, C_ANDI, n.rd, n.rd, 0, n.imm);
  }

  lemma AcceptsCr(cfg: Config, n: Entry)
    ensures Accepted(cfg, n, MapMv(n))
    ensures Accepted(cfg, n, MapAdd(n))
  {
    hide Encode16.CEncode, Encode16.PackCR;
    DispatchCR(cfg, C_MV, n.rd, 0, n.rs2, 0);
    DispatchCR(cfg, C_ADD, n.rd, n.rd, n.rs2, 0);
  }

  lemma AcceptsJump(cfg: Config, n: Entry)
    ensures Accepted(cfg, n, MapJr(n))
    ensures Accepted(cfg, n, MapJalr(n))
    ensures Accepted(cfg, n, MapEbreak(n))
  {
    hide Encode16.CEncode, Encode16.PackCR;
    DispatchCR(cfg, C_JR, 0, n.rs1, 0, 0);
    DispatchCR(cfg, C_JALR, 1, n.rs1, 0, 0);
    DispatchCR(cfg, C_EBREAK, 0, 0, 0, 0);
  }

  lemma AcceptsCaAlu(cfg: Config, n: Entry)
    ensures Accepted(cfg, n, MapCaAlu(n))
  {
    hide Encode16.CEncode, Encode16.PackCA, Encode16.RegP, Prime;
    PrimeRegister(n.rd);
    PrimeRegister(n.rs2);
    DispatchCA(cfg, C_SUB, n.rd, n.rs1, n.rs2, 0);
    DispatchCA(cfg, C_XOR, n.rd, n.rs1, n.rs2, 0);
    DispatchCA(cfg, C_OR, n.rd, n.rs1, n.rs2, 0);
    DispatchCA(cfg, C_AND, n.rd, n.rs1, n.rs2, 0);
  }

  lemma AcceptsCawAlu(cfg: Config, n: Entry)
    ensures Accepted(cfg, n, MapCawAlu(cfg.xlen, n))
  {
    hide Encode16.CEncode, Encode16.PackCA, Encode16.RegP, Prime;
    PrimeRegister(n.rd);
    PrimeRegister(n.rs2);
    DispatchCA(cfg, if n.op == Base(SUBW) then C_SUBW else C_ADDW, n.rd, n.rd, n.rs2, 0);
  }

  lemma AcceptsLoad(cfg: Config, n: Entry)
    ensures Accepted(cfg, n, MapLoad(cfg.xlen, n))
  {
    hide Prime, Encode16.CEncode;
    if MapLoad(cfg.xlen, n).Some? {
      MemEncodes(cfg, if n.op == Base(LW) then C_LW else C_LD, n.rd, n.rs1, n.imm);
    }
  }

  lemma AcceptsStore(cfg: Config, n: Entry)
    ensures Accepted(cfg, n, MapStore(n))
  {
    hide Prime, Encode16.CEncode;
    if MapStore(n).Some? {
      MemEncodes(cfg, if n.op == Base(SW) then C_SW else C_SD, n.rs2, n.rs1, n.imm);
    }
  }

  lemma AcceptsSpLoad(cfg: Config, n: Entry)
    ensures Accepted(cfg, n, MapSpLoad(cfg.xlen, n))
  {
    hide Encode16.CEncode, Encode16.BuildTags, Encode16.PackLwsp, Encode16.PackLdsp, Word;
    DispatchCI(cfg, if n.op == Base(LW) then C_LWSP else C_LDSP, n.rd, 2, 0, n.imm);
  }

  lemma AcceptsSpStore(cfg: Config, n: Entry)
    ensures Accepted(cfg, n, MapSpStore(n))
  {
    hide Encode16.CEncode, Encode16.BuildTags, Encode16.PackSwsp, Encode16.PackSdsp, Word, U32;
    SmallOffset(n.imm);
    DispatchCSS(cfg, if n.op == Base(SW) then C_SWSP else C_SDSP, 0, 2, n.rs2, n.imm);
  }

  lemma AcceptsBranch(cfg: Config, n: Entry)
    ensures Accepted(cfg, n, MapBranch(n))
  {
    hide Encode16.CEncode, Encode16.BuildTags, Encode16.PackCB, Encode16.RegP, Prime, Low;
    PrimeRegister(n.rs1);
    DispatchTransfer(cfg, if n.op == Base(BEQ) then C_BEQZ else C_BNEZ, 0, n.rs1, 0, n.imm);
  }

  lemma AcceptsJal(cfg: Config, n: Entry)
    ensures Accepted(cfg, n, MapJump(cfg.xlen, n))
  {
    hide Encode16.CEncode, Encode16.BuildTags, Encode16.PackCJ, Low;
    DispatchTransfer(cfg, if n.rd == 0 then C_J else C_JAL, n.rd, 0, 0, n.imm);
  }

  /** What the rules produce, the encoders accept. */
  lemma RulesAccepted(cfg: Config, n: Entry)
    ensures Accepted(cfg, n, TryMap(cfg.xlen, n))
  {
    hide MapAddiSelf, MapLi, MapNop, MapSlli, MapShiftPrime, MapAndiPrime, MapMv, MapAdd, MapJr, MapJalr, MapEbreak, MapCaAlu, MapCawAlu, MapLoad, MapStore, MapSpLoad, MapSpStore, MapBranch, MapJump, Accepted;
    AcceptsAddi(cfg, n);
    AcceptsSlli(cfg, n);
    AcceptsShift(cfg, n);
    AcceptsAndi(cfg, n);
    AcceptsCr(cfg, n);
    AcceptsJump(cfg, n);
    AcceptsCaAlu(cfg, n);
    AcceptsCawAlu(cfg, n);
    AcceptsLoad(cfg, n);
    AcceptsStore(cfg, n);
    AcceptsSpLoad(cfg, n);
    AcceptsSpStore(cfg, n);
    AcceptsBranch(cfg, n);
    AcceptsJal(cfg, n);
  }

  /** For every instruction the rules compress and the encoder accepts: the halfword, read by
      chapter 16, denotes the original instruction exactly when its layout is one the encoder
      gets right; that is so of every CI (but C.LDSP), CR, CL and CS form the rules choose. */
  lemma CompressionExact(cfg: Config, n: Entry)
    requires TryMap(cfg.xlen, n).Some?
    requires var ch := TryMap(cfg.xlen, n).value; Encode16.CEncode(cfg, ch.op, CFmt(ch.op), ch.rd, ch.rs1, ch.rs2, ch.imm).Some?
    ensures n.op.Base?
    ensures var ch := TryMap(cfg.xlen, n).value;
            var h := Encode16.CEncode(cfg, ch.op, CFmt(ch.op), ch.rd, ch.rs1, ch.rs2, ch.imm).value;
            && (Decode16.Decode(cfg.xlen, h) == Some(BaseMeaning(n)) <==> Conform16.Conforms(ch.op, ch.rs2, ch.imm))
            && (ch.fmt.FmtCI? || ch.fmt.FmtCR? || ch.fmt.FmtCL? || ch.fmt.FmtCS? ==>
                ch.op == C_LDSP || Decode16.Decode(cfg.xlen, h) == Some(BaseMeaning(n)))
  {
    hide TryMap, Encode16.CEncode, Decode16.Decode, Decode16.Meaning, BaseMeaning, Conform16.Conforms, CFmt, Encode32.RequireForOp,
      Decode32.Representable;
    var ch := TryMap(cfg.xlen, n).value;
    RulesKeepMeaning(cfg.xlen, n);
    Conform16.CEncodeExact(cfg, ch.op, ch.rd, ch.rs1, ch.rs2, ch.imm);
    RulesModest(cfg, n);
    if ch.fmt.FmtCI? || ch.fmt.FmtCR? || ch.fmt.FmtCL? || ch.fmt.FmtCS? { PlainFormats(ch.op, ch.rs2, ch.imm); }
  }

  /** An instruction the rules compress has a 32-bit form, a doubleword store on RV32 apart,
      and memory operations are chosen with small offsets only. */
  predicate Modest(cfg: Config, n: Entry, r: Option<Choice>) {
    r.Some? ==>
      && n.op.Base?
      && (Encode32.RequireForOp(cfg, n.op.base) || (cfg.xlen == RV32 && n.op == Base(SD)))
      && Decode32.Representable(cfg.xlen, n.op.base, n.imm)
      && (r.value.fmt.FmtCL? || r.value.fmt.FmtCS? ==> r.value.imm <= 248)
  }

  lemma ModestImm(cfg: Config, n: Entry)
    ensures Modest(cfg, n, MapAddiSelf(n))
    ensures Modest(cfg, n, MapLi(n))
    ensures Modest(cfg, n, MapNop(n))
    ensures Modest(cfg, n, MapAndiPrime(n))
  {}

  lemma ModestShift(cfg: Config, n: Entry)
    ensures Modest(cfg, n, MapSlli(cfg.xlen, n))
    ensures Modest(cfg, n, MapShiftPrime(cfg.xlen, n))
  {}

  lemma ModestReg(cfg: Config, n: Entry)
    ensures Modest(cfg, n, MapMv(n))
    ensures Modest(cfg, n, MapAdd(n))
    ensures Modest(cfg, n, MapCaAlu(n))
    ensures Modest(cfg, n, MapCawAlu(cfg.xlen, n))
  {}

  lemma ModestJump(cfg: Config, n: Entry)
    ensures Modest(cfg, n, MapJr(n))
    ensures Modest(cfg, n, MapJalr(n))
    ensures Modest(cfg, n, MapEbreak(n))
  {}

  lemma ModestTransfer(cfg: Config, n: Entry)
    ensures Modest(cfg, n, MapBranch(n))
    ensures Modest(cfg, n, MapJump(cfg.xlen, n))
  {
    hide Prime;
  }

  lemma FormatsOfMem()
    ensures BaseFmt(LW) == FmtI && BaseFmt(LD) == FmtI && BaseFmt(SW) == FmtS && BaseFmt(SD) == FmtS
  {}

  lemma ModestLoad(cfg: Config, n: Entry)
    ensures Modest(cfg, n, MapLoad(cfg.xlen, n))
    ensures Modest(cfg, n, MapSpLoad(cfg.xlen, n))
  {
    hide Prime, BaseFmt;
    FormatsOfMem();
  }

  lemma ModestStore(cfg: Config, n: Entry)
    ensures Modest(cfg, n, MapStore(n))
    ensures Modest(cfg, n, MapSpStore(n))
  {
    hide Prime, BaseFmt;
    FormatsOfMem();
  }

  lemma RulesModest(cfg: Config, n: Entry)
    ensures Modest(cfg, n, TryMap(cfg.xlen, n))
  {
    hide MapAddiSelf, MapLi, MapNop, MapSlli, MapShiftPrime, MapAndiPrime, MapMv, MapAdd, MapJr, MapJalr, MapEbreak, MapCaAlu,
      MapCawAlu, MapLoad, MapStore, MapSpLoad, MapSpStore, MapBranch, MapJump, Modest;
    ModestImm(cfg, n);
    ModestShift(cfg, n);
    ModestReg(cfg, n);
    ModestJump(cfg, n);
    ModestTransfer(cfg, n);
    ModestLoad(cfg, n);
    ModestStore(cfg, n);
  }

  lemma PlainFormats(op: COp, rs2: Reg, imm: int)
    requires CFmt(op).FmtCI? || CFmt(op).FmtCR? || ((CFmt(op).FmtCL? || CFmt(op).FmtCS?) && imm <= 248)
    ensures op == C_LDSP || Conform16.Conforms(op, rs2, imm)
  {}
}
