/** The rules miss nothing they aim at: an instruction some accepted compressed operation
    denotes is compressed, with three exceptions that are stated. */
module Complete {
  import opened Isa
  import opened Ir
  import opened CRules
  import opened Compress
  import Layout
  import Encode16
  import Decode16
  import Decode32

  /** What the rules never choose: C.LUI and C.ADDIW, and a stack-relative store of x0;
      nor an offset the encoder accepts only after truncating it to 32 bits. */
  predicate Aimed(op: COp, rs2: Reg, imm: int) {
    && op != C_LUI && op != C_ADDIW && imm < TWO32
    && (op == C_SWSP || op == C_SDSP ==> rs2 != 0)
  }

  /** The instruction is denoted by the compressed operation with these operands. */
  predicate Denotes(n: Entry, op: COp, rd: Reg, rs1: Reg, rs2: Reg, imm: int) {
    n.op.Base? && BaseMeaning(n) == Decode16.Meaning(op, rd, rs1, rs2, imm)
  }

  /** Some rule applies. */
  predicate SomeRule(xlen: Xlen, n: Entry) {
    || MapAddiSelf(n).Some? || MapLi(n).Some? || MapNop(n).Some? || MapSlli(xlen, n).Some? || MapShiftPrime(xlen, n).Some?
    || MapAndiPrime(n).Some? || MapMv(n).Some? || MapAdd(n).Some? || MapJr(n).Some? || MapJalr(n).Some? || MapEbreak(n).Some?
    || MapCaAlu(n).Some? || MapCawAlu(xlen, n).Some? || MapLoad(xlen, n).Some? || MapStore(n).Some? || MapSpLoad(xlen, n).Some?
    || MapSpStore(n).Some? || MapBranch(n).Some? || MapJump(xlen, n).Some?
  }

  lemma FirstRule(xlen: Xlen, n: Entry)
    requires SomeRule(xlen, n)
    ensures TryMap(xlen, n).Some?
  {
    hide MapAddiSelf, MapLi, MapNop, MapSlli, MapShiftPrime, MapAndiPrime, MapMv, MapAdd, MapJr, MapJalr, MapEbreak, MapCaAlu,
      MapCawAlu, MapLoad, MapStore, MapSpLoad, MapSpStore, MapBranch, MapJump;
  }

  lemma CompleteImm(cfg: Config, n: Entry, op: COp, rd: Reg, rs1: Reg, rs2: Reg, imm: int)
    requires op == C_ADDI || op == C_LI || op == C_SLLI || op == C_SRLI || op == C_SRAI || op == C_ANDI
    requires Denotes(n, op, rd, rs1, rs2, imm) && Encode16.EncodeCI(cfg.xlen, op, rd, rs1, imm).Some?
    ensures SomeRule(cfg.xlen, n)
  {
    hide Encode16.BuildTags, Encode16.PackCI, Encode16.PackCIPrime, MapMv, MapAdd, MapJr, MapJalr, MapEbreak, MapCaAlu,
      MapCawAlu, MapLoad, MapStore, MapSpLoad, MapSpStore, MapBranch, MapJump;
    PrimeRegister(rd);
    SameOperation(n, op, rd, rs1, rs2, imm);
    match op
    case C_ADDI =>
    case C_LI =>
    case C_SLLI =>
    case _ =>
  }

  lemma SameOperation(n: Entry, op: COp, rd: Reg, rs1: Reg, rs2: Reg, imm: int)
    requires Denotes(n, op, rd, rs1, rs2, imm)
    ensures n.op == Base(Decode16.Meaning(op, rd, rs1, rs2, imm).op)
  {
    hide Decode16.Meaning;
  }

  lemma CompleteSpLoad(cfg: Config, n: Entry, op: COp, rd: Reg, rs1: Reg, rs2: Reg, imm: int)
    requires op == C_LWSP || op == C_LDSP
    requires Denotes(n, op, rd, rs1, rs2, imm) && Encode16.EncodeCI(cfg.xlen, op, rd, rs1, imm).Some?
    ensures MapSpLoad(cfg.xlen, n).Some?
  {
    hide Encode16.BuildTags, Encode16.PackLwsp, Encode16.PackLdsp;
    SameOperation(n, op, rd, rs1, rs2, imm);
  }

  lemma CompleteCR(cfg: Config, n: Entry, op: COp, rd: Reg, rs1: Reg, rs2: Reg, imm: int)
    requires CFmt(op) == FmtCR && Denotes(n, op, rd, rs1, rs2, imm) && Encode16.EncodeCR(op, rd, rs1, rs2).Some?
    ensures MapMv(n).Some? || MapAdd(n).Some? || MapJr(n).Some? || MapJalr(n).Some? || MapEbreak(n).Some?
  {
    hide Encode16.PackCR;
    SameOperation(n, op, rd, rs1, rs2, imm);
  }

  lemma CompleteCA(cfg: Config, n: Entry, op: COp, rd: Reg, rs1: Reg, rs2: Reg, imm: int)
    requires CFmt(op) == FmtCA && Denotes(n, op, rd, rs1, rs2, imm) && Encode16.EncodeCA(op, rd, rs1, rs2).Some?
    requires Encode16.ForWidth(op, cfg.xlen)
    ensures MapCaAlu(n).Some? || MapCawAlu(cfg.xlen, n).Some?
  {
    hide Encode16.PackCA;
    PrimeRegister(rd);
    PrimeRegister(rs2);
    SameOperation(n, op, rd, rs1, rs2, imm);
  }

  lemma MemOperands(op: COp, reg: Reg, base: Reg, imm: int)
    requires (op == C_LW || op == C_LD || op == C_SW || op == C_SD) && Encode16.EncodeMem(op, reg, base, imm).Some? && imm < TWO32
    ensures Prime(reg) && Prime(base) && imm >= 0
    ensures if op == C_LW || op == C_SW then imm % 4 == 0 && imm <= 124 else imm % 8 == 0 && imm <= 248
  {
    hide Encode16.BuildTags, Encode16.PackWordMem, Encode16.PackDoubleMem, Encode16.RegP, Prime, U32;
    SmallOffset(imm);
    PrimeRegister(reg);
    PrimeRegister(base);
  }

  lemma CompleteLoad(cfg: Config, n: Entry, op: COp, rd: Reg, rs1: Reg, rs2: Reg, imm: int)
    requires (op == C_LW || op == C_LD) && Denotes(n, op, rd, rs1, rs2, imm) && Encode16.ForWidth(op, cfg.xlen) && imm < TWO32
    requires Encode16.EncodeMem(op, rd, rs1, imm).Some?
    ensures MapLoad(cfg.xlen, n).Some?
  {
    hide Encode16.EncodeMem, Prime;
    MemOperands(op, rd, rs1, imm);
    SameOperation(n, op, rd, rs1, rs2, imm);
  }

  lemma CompleteStore(cfg: Config, n: Entry, op: COp, rd: Reg, rs1: Reg, rs2: Reg, imm: int)
    requires (op == C_SW || op == C_SD) && Denotes(n, op, rd, rs1, rs2, imm) && imm < TWO32
    requires Encode16.EncodeMem(op, rs2, rs1, imm).Some?
    ensures MapStore(n).Some?
  {
    hide Encode16.EncodeMem, Prime;
    MemOperands(op, rs2, rs1, imm);
    SameOperation(n, op, rd, rs1, rs2, imm);
  }

  lemma SpStoreOperands(op: COp, rs1: Reg, rs2: Reg, imm: int)
    requires CFmt(op) == FmtCSS && Encode16.EncodeCSS(op, rs1, rs2, imm).Some? && imm < TWO32
    ensures op == C_SWSP || op == C_SDSP
    ensures imm >= 0 && if op == C_SWSP then imm % 4 == 0 && imm <= 252 else imm % 8 == 0 && imm <= 504
  {
    hide Encode16.BuildTags, Encode16.PackSwsp, Encode16.PackSdsp, U32;
    SmallOffset(imm);
  }

  lemma CompleteSpStore(cfg: Config, n: Entry, op: COp, rd: Reg, rs1: Reg, rs2: Reg, imm: int)
    requires CFmt(op) == FmtCSS && Denotes(n, op, rd, rs1, rs2, imm) && imm < TWO32 && rs2 != 0
    requires Encode16.EncodeCSS(op, rs1, rs2, imm).Some?
    ensures MapSpStore(n).Some?
  {
    hide Encode16.EncodeCSS;
    SpStoreOperands(op, rs1, rs2, imm);
    SameOperation(n, op, rd, rs1, rs2, imm);
  }

  lemma BranchOperands(op: COp, rs1: Reg, imm: int)
    requires Encode16.EncodeCB(op, rs1, imm).Some?
    ensures Prime(rs1) && imm % 2 == 0 && -256 <= imm <= 254
  {
    hide Encode16.BuildTags, Encode16.PackCB, Encode16.RegP, Prime;
    PrimeRegister(rs1);
  }

  lemma CompleteBranch(cfg: Config, n: Entry, op: COp, rd: Reg, rs1: Reg, rs2: Reg, imm: int)
    requires (op == C_BEQZ || op == C_BNEZ) && Denotes(n, op, rd, rs1, rs2, imm) && Encode16.EncodeCB(op, rs1, imm).Some?
    ensures MapBranch(n).Some?
  {
    hide Encode16.EncodeCB, Prime;
    BranchOperands(op, rs1, imm);
    SameOperation(n, op, rd, rs1, rs2, imm);
  }

  lemma JumpOperands(op: COp, imm: int)
    requires Encode16.EncodeCJ(op, imm).Some?
    ensures imm % 2 == 0 && -2048 <= imm <= 2046
  {
    hide Encode16.BuildTags, Encode16.PackCJ;
  }

  lemma CompleteJump(cfg: Config, n: Entry, op: COp, rd: Reg, rs1: Reg, rs2: Reg, imm: int)
    requires (op == C_J || op == C_JAL) && Denotes(n, op, rd, rs1, rs2, imm) && Encode16.EncodeCJ(op, imm).Some?
    requires Encode16.ForWidth(op, cfg.xlen)
    ensures MapJump(cfg.xlen, n).Some?
  {
    hide Encode16.EncodeCJ;
    JumpOperands(op, imm);
    SameOperation(n, op, rd, rs1, rs2, imm);
  }

  /** If any compressed operation the rules aim at denotes the instruction and is accepted by
      its encoder, some rule compresses the instruction. */
  lemma RulesComplete(cfg: Config, n: Entry, op: COp, rd: Reg, rs1: Reg, rs2: Reg, imm: int)
    requires Denotes(n, op, rd, rs1, rs2, imm) && Aimed(op, rs2, imm)
    requires Encode16.CEncode(cfg, op, CFmt(op), rd, rs1, rs2, imm).Some?
    ensures TryMap(cfg.xlen, n).Some?
  {
    hide Encode16.EncodeCI, Encode16.EncodeCR, Encode16.EncodeCA, Encode16.EncodeCSS, Encode16.EncodeCB, Encode16.EncodeCJ,
      Encode16.EncodeMem, TryMap, Denotes;
    hide MapAddiSelf, MapLi, MapNop, MapSlli, MapShiftPrime, MapAndiPrime, MapMv, MapAdd, MapJr, MapJalr, MapEbreak, MapCaAlu,
      MapCawAlu, MapLoad, MapStore, MapSpLoad, MapSpStore, MapBranch, MapJump;
    match CFmt(op)
    case FmtCI =>
      if op == C_LWSP || op == C_LDSP { CompleteSpLoad(cfg, n, op, rd, rs1, rs2, imm); } else { CompleteImm(cfg, n, op, rd, rs1, rs2, imm); }
      FirstRule(cfg.xlen, n);
    case FmtCR =>
      CompleteCR(cfg, n, op, rd, rs1, rs2, imm);
      FirstRule(cfg.xlen, n);
    case FmtCA =>
      CompleteCA(cfg, n, op, rd, rs1, rs2, imm);
      FirstRule(cfg.xlen, n);
    case FmtCL =>
      CompleteLoad(cfg, n, op, rd, rs1, rs2, imm);
      FirstRule(cfg.xlen, n);
    case FmtCS =>
      CompleteStore(cfg, n, op, rd, rs1, rs2, imm);
      FirstRule(cfg.xlen, n);
    case FmtCSS =>
      CompleteSpStore(cfg, n, op, rd, rs1, rs2, imm);
      FirstRule(cfg.xlen, n);
    case FmtCB =>
      CompleteBranch(cfg, n, op, rd, rs1, rs2, imm);
      FirstRule(cfg.xlen, n);
    case _ =>
      CompleteJump(cfg, n, op, rd, rs1, rs2, imm);
      FirstRule(cfg.xlen, n);
  }

  // ------------------------------------------------- what the rules choose, exactly

  predicate NeverElse(r: Option<Choice>) {
    r.Some? ==> Aimed(r.value.op, r.value.rs2, r.value.imm)
  }

  lemma AimedImm(xlen: Xlen, n: Entry)
    ensures NeverElse(MapAddiSelf(n)) && NeverElse(MapLi(n)) && NeverElse(MapNop(n)) && NeverElse(MapAndiPrime(n))
    ensures NeverElse(MapSlli(xlen, n)) && NeverElse(MapShiftPrime(xlen, n))
  {}

  lemma AimedReg(xlen: Xlen, n: Entry)
    ensures NeverElse(MapMv(n)) && NeverElse(MapAdd(n)) && NeverElse(MapJr(n)) && NeverElse(MapJalr(n)) && NeverElse(MapEbreak(n))
    ensures NeverElse(MapCaAlu(n)) && NeverElse(MapCawAlu(xlen, n)) && NeverElse(MapBranch(n)) && NeverElse(MapJump(xlen, n))
  {
    hide Prime;
  }

  lemma AimedMem(xlen: Xlen, n: Entry)
    ensures NeverElse(MapLoad(xlen, n)) && NeverElse(MapStore(n)) && NeverElse(MapSpLoad(xlen, n)) && NeverElse(MapSpStore(n))
  {
    hide Prime;
  }

  /** The rules choose nothing but what they aim at. */
  lemma RulesAimed(xlen: Xlen, n: Entry)
    ensures NeverElse(TryMap(xlen, n))
  {
    hide MapAddiSelf, MapLi, MapNop, MapSlli, MapShiftPrime, MapAndiPrime, MapMv, MapAdd, MapJr, MapJalr, MapEbreak, MapCaAlu,
      MapCawAlu, MapLoad, MapStore, MapSpLoad, MapSpStore, MapBranch, MapJump, NeverElse;
    AimedImm(xlen, n);
    AimedReg(xlen, n);
    AimedMem(xlen, n);
  }

  /** Some compressed operation that is aimed at and accepted stands for the instruction. */
  ghost predicate Compressible(cfg: Config, i: Insn) {
    exists op, rd, rs1, rs2, imm ::
      Decode16.Meaning(op, rd, rs1, rs2, imm) == i && Aimed(op, rs2, imm) &&
      Encode16.CEncode(cfg, op, CFmt(op), rd, rs1, rs2, imm).Some?
  }

  /** The rules do not look at the width for a doubleword store. */
  function RuleWidth(cfg: Config, n: Entry): Config {
    if n.op == Base(SD) then cfg.(xlen := RV64) else cfg
  }

  lemma StoresOnly(xlen: Xlen, n: Entry)
    requires n.op == Base(SD)
    ensures MapAddiSelf(n).None? && MapLi(n).None? && MapNop(n).None? && MapSlli(xlen, n).None? && MapShiftPrime(xlen, n).None?
    ensures MapAndiPrime(n).None? && MapMv(n).None? && MapAdd(n).None? && MapJr(n).None? && MapJalr(n).None? && MapEbreak(n).None?
    ensures MapCaAlu(n).None? && MapCawAlu(xlen, n).None? && MapLoad(xlen, n).None? && MapSpLoad(xlen, n).None?
    ensures MapBranch(n).None? && MapJump(xlen, n).None?
  {
    hide Prime;
  }

  lemma StoreRules(xlen: Xlen, n: Entry)
    requires n.op == Base(SD)
    ensures TryMap(xlen, n) == OrElse(MapStore(n), MapSpStore(n))
  {
    hide MapAddiSelf, MapLi, MapNop, MapSlli, MapShiftPrime, MapAndiPrime, MapMv, MapAdd, MapJr, MapJalr, MapEbreak, MapCaAlu,
      MapCawAlu, MapLoad, MapStore, MapSpLoad, MapSpStore, MapBranch, MapJump;
    StoresOnly(xlen, n);
  }

  lemma AnyWidth(cfg: Config, n: Entry)
    ensures TryMap(RuleWidth(cfg, n).xlen, n) == TryMap(cfg.xlen, n)
  {
    hide TryMap, MapStore, MapSpStore;
    if n.op == Base(SD) {
      StoreRules(cfg.xlen, n);
      StoreRules(RuleWidth(cfg, n).xlen, n);
    }
  }

  /** Some rule applies exactly if the instruction is compressible. */
  lemma RulesExact(cfg: Config, n: Entry)
    requires cfg.hasC && n.op.Base?
    ensures TryMap(cfg.xlen, n).Some? <==> Compressible(RuleWidth(cfg, n), BaseMeaning(n))
  {
    hide TryMap, BaseMeaning, Decode16.Meaning, Encode16.CEncode, Aimed, CFmt;
    var c := RuleWidth(cfg, n);
    AnyWidth(cfg, n);
    if TryMap(cfg.xlen, n).Some? {
      var ch := TryMap(c.xlen, n).value;
      RulesKeepMeaning(c.xlen, n);
      RulesAccepted(c, n);
      RulesAimed(c.xlen, n);
      assert Encode16.CEncode(c, ch.op, CFmt(ch.op), ch.rd, ch.rs1, ch.rs2, ch.imm).Some?;
    }
    if Compressible(c, BaseMeaning(n)) {
      var op, rd, rs1, rs2, imm :| Decode16.Meaning(op, rd, rs1, rs2, imm) == BaseMeaning(n) && Aimed(op, rs2, imm) &&
        Encode16.CEncode(c, op, CFmt(op), rd, rs1, rs2, imm).Some?;
      RulesComplete(c, n, op, rd, rs1, rs2, imm);
    }
  }

  /** Planning attaches a choice to exactly these entries: with C and automatic compression on,
      instructions of the text section, uncompressed as written, with no relocation or that of a
      branch or jump, that are compressible. */
  lemma PlannedExactly(cfg: Config, nodes: seq<Entry>, i: nat)
    requires i < |nodes| && nodes[i].choice.None? && (nodes[i].kind == KInstr ==> WfInstr(nodes[i]))
    ensures var e := nodes[i];
            Layout.Plan(cfg, nodes)[i].choice.Some? <==>
            (&& cfg.hasC && cfg.autoC && e.kind == KInstr && e.sect == Text && e.op.Base?
             && (e.reloc == RelocNone || e.reloc == Boff || e.reloc == Jtgt)
             && Compressible(RuleWidth(cfg, e), BaseMeaning(e)))
  {
    hide TryMap, BaseMeaning, LabelFits, Compressible, RuleWidth, CFmt, BaseFmt, IsCFmt;
    var e := nodes[i];
    FormatKinds(e.op);
    if cfg.hasC && e.op.Base? { RulesExact(cfg, e); }
  }

  lemma FormatKinds(op: Op)
    ensures IsCFmt(FmtOf(op)) <==> op.Comp?
  {}

  /** In particular to every such entry that an aimed-at accepted operation denotes. */
  lemma PlannedIfPossible(cfg: Config, nodes: seq<Entry>, i: nat, op: COp, rd: Reg, rs1: Reg, rs2: Reg, imm: int)
    requires i < |nodes| && Denotes(nodes[i], op, rd, rs1, rs2, imm) && Aimed(op, rs2, imm) && cfg.autoC
    requires nodes[i].kind == KInstr && nodes[i].sect == Text && WfInstr(nodes[i]) && nodes[i].choice.None?
    requires nodes[i].reloc == RelocNone || nodes[i].reloc == Boff || nodes[i].reloc == Jtgt
    requires Encode16.CEncode(cfg, op, CFmt(op), rd, rs1, rs2, imm).Some?
    ensures Layout.Plan(cfg, nodes)[i].choice.Some?
  {
    hide TryMap, BaseMeaning, LabelFits, CFmt, BaseFmt, IsCFmt, Encode16.EncodeCI, Encode16.EncodeCR, Encode16.EncodeCA, Encode16.EncodeCSS,
      Encode16.EncodeCB, Encode16.EncodeCJ, Encode16.EncodeMem, Aimed;
    FormatKinds(nodes[i].op);
    RulesComplete(cfg, nodes[i], op, rd, rs1, rs2, imm);
  }
}
