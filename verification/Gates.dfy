/** When an instruction can be emitted at all: the extensions and widths its operation needs, the
    operands its form takes, and the label it names. The lists are those of the manual (chapters
    2, 5, 7 and 16), written out; nothing here calls the tests of the encoders. */
module Gates {
  import opened Isa
  import opened Bits
  import opened Ir
  import opened Symtab
  import opened CRules
  import opened Compress
  import opened Layout
  import opened Emit
  import opened Survive
  import opened Agree
  import opened Disasm
  import opened Whole
  import opened Programs
  import opened Bytes
  import opened Out
  import Hilo
  import Conform16
  import P1 = Pass1
  import Encode16
  import Encode32
  import Decode16
  import Decode32

  // ------------------------------------------------- base operations

  /** Operations of the M extension. */
  predicate IsM(op: BaseOp) {
    op in {MUL, MULH, MULHSU, MULHU, DIV, DIVU, REM, REMU, MULW, DIVW, DIVUW, REMW, REMUW}
  }

  /** Operations that RV64 adds. */
  predicate Only64(op: BaseOp) {
    op in {ADDW, SUBW, SLLW, SRLW, SRAW, ADDIW, SLLIW, SRLIW, SRAIW, LWU, LD, SD, MULW, DIVW, DIVUW, REMW, REMUW}
  }

  /** The target has the operation. */
  predicate Has(cfg: Config, op: BaseOp) {
    (IsM(op) ==> cfg.hasM) && (Only64(op) ==> cfg.xlen == RV64)
  }

  lemma RequiresExact(cfg: Config, op: BaseOp)
    ensures Encode32.RequireForOp(cfg, op) <==> Has(cfg, op)
  {}

  /** A word of OP or OP-32 with funct7 1. */
  predicate MulWord(w: bv32) {
    (w & 0x7F == 0x33 || w & 0x7F == 0x3B) && w >> 25 == 1
  }

  lemma RegOpM(f3: bv32, f7: bv32)
    requires f3 <= 7
    ensures Decode32.RegOp(f3, f7).Some? ==> (IsM(Decode32.RegOp(f3, f7).value) <==> f7 == 1)
    ensures Decode32.RegWOp(f3, f7).Some? ==> (IsM(Decode32.RegWOp(f3, f7).value) <==> f7 == 1)
  {}

  lemma NotM(xlen: Xlen, f3: bv32, a: bool, b: bool, f7: bv32)
    requires f3 <= 7
    ensures Decode32.ImmOp(f3).Some? ==> !IsM(Decode32.ImmOp(f3).value)
    ensures Decode32.ShiftOp(f3, a, b).Some? ==> !IsM(Decode32.ShiftOp(f3, a, b).value)
    ensures Decode32.ShiftWOp(f3, f7).Some? ==> !IsM(Decode32.ShiftWOp(f3, f7).value)
    ensures Decode32.LoadOp(xlen, f3).Some? ==> !IsM(Decode32.LoadOp(xlen, f3).value)
    ensures Decode32.StoreOp(xlen, f3).Some? ==> !IsM(Decode32.StoreOp(xlen, f3).value)
    ensures Decode32.BranchOp(f3).Some? ==> !IsM(Decode32.BranchOp(f3).value)
  {}

  lemma Small3(w: bv32)
    ensures Decode32.Funct3(w) <= 7
  {}

  /** What a word denotes is an M operation exactly if the word looks like one. */
  lemma DecodedM(xlen: Xlen, w: bv32)
    ensures var i := Decode32.Decode(xlen, w); i.Some? ==> (IsM(i.value.op) <==> MulWord(w))
  {
    hide Val, Signed, Decode32.ImmI, Decode32.ImmS, Decode32.ImmB, Decode32.ImmJ, Decode32.ImmU, Decode32.Rd, Decode32.Rs1, Decode32.Rs2,
      Decode32.RegOp, Decode32.RegWOp, Decode32.ImmOp, Decode32.ShiftOp, Decode32.ShiftWOp, Decode32.LoadOp, Decode32.StoreOp,
      Decode32.BranchOp, Decode32.Funct3;
    var f3, f7 := Decode32.Funct3(w), Decode32.Funct7(w);
    Small3(w);
    RegOpM(f3, f7);
    NotM(xlen, f3, f7 == 0, f7 == 0x20, f7);
    NotM(xlen, f3, w >> 26 == 0, w >> 26 == 0x10, f7);
  }

  // ------------------------------------------------- labels

  /** The label is defined, at a counter that is not negative as a 32-bit number. */
  predicate Resolves(syms: Symbols, name: string) { name in syms && syms[name] >= 0 }

  /** A label resolves exactly if it is defined. To a branch or jump it is the 32-bit number that
      is its distance modulo 2^32; the two halves are a multiple of 4096 and a signed 12-bit number
      that add up to the distance modulo 2^32. */
  lemma ResolveExact(syms: Symbols, name: string, addr: int)
    ensures forall reloc :: ResolveLabel(syms, name, reloc, addr).Some? <==> Resolves(syms, name)
    ensures Resolves(syms, name) ==>
              var off := I32(syms[name]) - addr;
              var b, j := ResolveLabel(syms, name, Boff, addr).value, ResolveLabel(syms, name, Jtgt, addr).value;
              var hi, lo := ResolveLabel(syms, name, Hi20, addr).value, ResolveLabel(syms, name, Lo12, addr).value;
              && b == j && -TWO31 <= b < TWO31 && (b - off) % TWO32 == 0
              && hi % 4096 == 0 && -TWO31 <= hi < TWO31 && -2048 <= lo < 2048 && (hi + lo - off) % TWO32 == 0
  {
    if Resolves(syms, name) {
      var off := I32(syms[name]) - addr;
      Hilo.ResolvedWide(syms, name, addr);
      Hilo.Halves(off);
      Hilo.KeepsModulo(off);
      Hilo.KeepsModulo(Hilo.High(off));
      PageTruncated(Hilo.High(off));
      assert ResolveLabel(syms, name, Boff, addr).value == I32(off);
      hide ResolveLabel, Hilo.High, I32;
    }
  }

  lemma PageTruncated(n: int)
    requires n % 4096 == 0
    ensures I32(n) % 4096 == 0 && forall m :: -TWO31 <= I32(m) < TWO31
  {}

  // ------------------------------------------------- compressed operations

  /** The target has the compressed operation: C is on, and the operation it stands for exists;
      C.JAL is for RV32. */
  predicate HasC(cfg: Config, op: COp) {
    cfg.hasC && (Only64(Decode16.Meaning(op, 0, 0, 0, 0).op) ==> cfg.xlen == RV64) && (op == C_JAL ==> cfg.xlen == RV32)
  }

  /** A signed number of six bits. */
  predicate Six(n: int) { -0x20 <= n < 0x20 }

  /** A register of the short fields. */
  predicate Short(r: Reg) { r in {8, 9, 10, 11, 12, 13, 14, 15} }

  /** One of the first n multiples of k. */
  predicate Scaled(offset: int, k: int, n: int)
    requires k > 0
  {
    offset >= 0 && offset % k == 0 && offset / k < n
  }

  /** The operands the form takes (chapter 16); the offsets of CL, CS and CSS count as 32-bit
      numbers, but may not be negative. */
  predicate Takes(xlen: Xlen, op: COp, rd: Reg, rs1: Reg, rs2: Reg, imm: int) {
    match op
    case C_ADD => rd != 0 && rs1 == rd && rs2 != 0
    case C_MV => rd != 0 && rs1 == 0 && rs2 != 0
    case C_JR | C_JALR => rs1 != 0 && rs2 == 0
    case C_EBREAK => rd == 0 && rs1 == 0 && rs2 == 0
    case C_SUB | C_XOR | C_OR | C_AND | C_SUBW | C_ADDW => Short(rd) && rs1 == rd && Short(rs2)
    case C_ADDI => if rd == 0 then imm == 0 else Six(imm)
    case C_ADDIW => rd != 0 && Six(imm)
    case C_LI => rd != 0 && imm != 0 && Six(imm)
    case C_LUI => rd != 0 && rd != 2 && imm != 0 && Six(imm)
    case C_SLLI => rd != 0 && Scaled(imm, 1, if xlen == RV64 then 64 else 32)
    case C_SRLI | C_SRAI => Short(rd) && Scaled(imm, 1, if xlen == RV64 then 64 else 32)
    case C_ANDI => Short(rd) && Six(imm)
    case C_LWSP => rd != 0 && rs1 == 2 && Scaled(imm, 4, 64)
    case C_LDSP => rd != 0 && rs1 == 2 && Scaled(imm, 8, 64)
    case C_LW => Short(rd) && Short(rs1) && imm >= 0 && Scaled(imm % TWO32, 4, 32)
    case C_LD => Short(rd) && Short(rs1) && imm >= 0 && Scaled(imm % TWO32, 8, 32)
    case C_SW => Short(rs2) && Short(rs1) && imm >= 0 && Scaled(imm % TWO32, 4, 32)
    case C_SD => Short(rs2) && Short(rs1) && imm >= 0 && Scaled(imm % TWO32, 8, 32)
    case C_SWSP => rs1 == 2 && imm >= 0 && Scaled(imm % TWO32, 4, 64)
    case C_SDSP => rs1 == 2 && imm >= 0 && Scaled(imm % TWO32, 8, 64)
    case C_BEQZ | C_BNEZ => Short(rs1) && Scaled(imm + 256, 2, 256)
    case C_J | C_JAL => Scaled(imm + 2048, 2, 2048)
  }

  lemma WidthExact(cfg: Config, op: COp)
    ensures Encode16.RequireC(cfg, op) <==> HasC(cfg, op)
  {}

  lemma ShortExact(r: Reg)
    ensures Encode16.RegP(r).Some? <==> Short(r)
  {}

  lemma TakesCI(cfg: Config, op: COp, rd: Reg, rs1: Reg, rs2: Reg, imm: int)
    requires CFmt(op) == FmtCI && HasC(cfg, op)
    ensures Encode16.EncodeCI(cfg.xlen, op, rd, rs1, imm).Some? <==> Takes(cfg.xlen, op, rd, rs1, rs2, imm)
  {
    hide Low, Encode16.BuildTags, Encode16.PackCI, Encode16.PackCIPrime, Encode16.PackLwsp, Encode16.PackLdsp, Encode16.RegP, Short, Word;
    ShortExact(rd);
  }

  lemma TakesCR(cfg: Config, op: COp, rd: Reg, rs1: Reg, rs2: Reg, imm: int)
    requires CFmt(op) == FmtCR || CFmt(op) == FmtCA
    ensures CFmt(op) == FmtCR ==> (Encode16.EncodeCR(op, rd, rs1, rs2).Some? <==> Takes(cfg.xlen, op, rd, rs1, rs2, imm))
    ensures CFmt(op) == FmtCA ==> (Encode16.EncodeCA(op, rd, rs1, rs2).Some? <==> Takes(cfg.xlen, op, rd, rs1, rs2, imm))
  {
    hide Encode16.PackCR, Encode16.PackCA, Encode16.RegP, Short;
    ShortExact(rd);
    ShortExact(rs1);
    ShortExact(rs2);
  }

  lemma TakesMem(op: COp, rd: Reg, rs1: Reg, rs2: Reg, imm: int, xlen: Xlen)
    requires CFmt(op) == FmtCL || CFmt(op) == FmtCS
    ensures Encode16.EncodeMem(op, if CFmt(op) == FmtCL then rd else rs2, rs1, imm).Some? <==> Takes(xlen, op, rd, rs1, rs2, imm)
  {
    hide Encode16.BuildTags, Encode16.PackWordMem, Encode16.PackDoubleMem, Encode16.RegP, Short, Word;
    ShortExact(rd);
    ShortExact(rs1);
    ShortExact(rs2);
  }

  lemma TakesCSS(op: COp, rd: Reg, rs1: Reg, rs2: Reg, imm: int, xlen: Xlen)
    requires CFmt(op) == FmtCSS
    ensures Encode16.EncodeCSS(op, rs1, rs2, imm).Some? <==> Takes(xlen, op, rd, rs1, rs2, imm)
  {
    hide Encode16.BuildTags, Encode16.PackSwsp, Encode16.PackSdsp, Word;
  }

  lemma TakesTransfer(op: COp, rd: Reg, rs1: Reg, rs2: Reg, imm: int, xlen: Xlen)
    requires CFmt(op) == FmtCB || CFmt(op) == FmtCJ
    ensures (if CFmt(op) == FmtCB then Encode16.EncodeCB(op, rs1, imm).Some? else Encode16.EncodeCJ(op, imm).Some?) <==>
            Takes(xlen, op, rd, rs1, rs2, imm)
  {
    hide Encode16.BuildTags, Encode16.PackCB, Encode16.PackCJ, Encode16.RegP, Short, Low;
    ShortExact(rs1);
  }

  lemma DispatchMem(cfg: Config, op: COp, rd: Reg, rs1: Reg, rs2: Reg, imm: int)
    requires CFmt(op) == FmtCL || CFmt(op) == FmtCS
    ensures Encode16.CEncode(cfg, op, CFmt(op), rd, rs1, rs2, imm).Some? <==>
            Encode16.RequireC(cfg, op) && Encode16.EncodeMem(op, if CFmt(op) == FmtCL then rd else rs2, rs1, imm).Some?
  {
    hide Encode16.EncodeMem, Encode16.RequireC;
  }

  /** The encoder of a compressed operation accepts exactly the operands its form takes, with C on
      and on the widths that have it. */
  lemma CompressedExact(cfg: Config, op: COp, rd: Reg, rs1: Reg, rs2: Reg, imm: int)
    ensures Encode16.CEncode(cfg, op, CFmt(op), rd, rs1, rs2, imm).Some? <==> HasC(cfg, op) && Takes(cfg.xlen, op, rd, rs1, rs2, imm)
  {
    hide Encode16.CEncode, Encode16.EncodeCI, Encode16.EncodeCR, Encode16.EncodeCA, Encode16.EncodeCSS, Encode16.EncodeCB, Encode16.EncodeCJ,
      Encode16.EncodeMem, Encode16.RequireC, HasC, Takes, CFmt;
    WidthExact(cfg, op);
    FormatsOfC(op);
    match CFmt(op)
    case FmtCI =>
      DispatchCI(cfg, op, rd, rs1, rs2, imm);
      if HasC(cfg, op) { TakesCI(cfg, op, rd, rs1, rs2, imm); }
    case FmtCR =>
      DispatchCR(cfg, op, rd, rs1, rs2, imm);
      TakesCR(cfg, op, rd, rs1, rs2, imm);
    case FmtCA =>
      DispatchCA(cfg, op, rd, rs1, rs2, imm);
      TakesCR(cfg, op, rd, rs1, rs2, imm);
    case FmtCL =>
      DispatchMem(cfg, op, rd, rs1, rs2, imm);
      TakesMem(op, rd, rs1, rs2, imm, cfg.xlen);
    case FmtCS =>
      DispatchMem(cfg, op, rd, rs1, rs2, imm);
      TakesMem(op, rd, rs1, rs2, imm, cfg.xlen);
    case FmtCSS =>
      DispatchCSS(cfg, op, rd, rs1, rs2, imm);
      TakesCSS(op, rd, rs1, rs2, imm, cfg.xlen);
    case _ =>
      DispatchTransfer(cfg, op, rd, rs1, rs2, imm);
      TakesTransfer(op, rd, rs1, rs2, imm, cfg.xlen);
  }

  lemma FormatsOfC(op: COp)
    ensures IsCFmt(CFmt(op))
  {}

  // ------------------------------------------------- one instruction

  /** The instruction can be emitted at an address: its label is defined, the target has the
      operation, and its form takes the operands, with the label's value for the immediate. */
  predicate Fits(cfg: Config, syms: Symbols, op: Op, rd: Reg, rs1: Reg, rs2: Reg, imm: int, target: Option<string>, reloc: Reloc, addr: int)
  {
    && (target.Some? ==> Resolves(syms, target.value) && reloc != RelocNone)
    && Immediate(syms, target, reloc, imm, addr).Some?
    && var v := Immediate(syms, target, reloc, imm, addr).value;
       match op
       case Base(op) => Has(cfg, op) && Decode32.Representable(cfg.xlen, op, v)
       case Comp(op) => HasC(cfg, op) && Takes(cfg.xlen, op, rd, rs1, rs2, v)
  }

  predicate EntryFits(cfg: Config, syms: Symbols, e: Entry) {
    Fits(cfg, syms, e.op, e.rd, e.rs1, e.rs2, e.imm, e.target, e.reloc, e.addr)
  }

  lemma ImmediateExact(syms: Symbols, target: Option<string>, reloc: Reloc, imm: int, addr: int)
    ensures Immediate(syms, target, reloc, imm, addr).Some? <==> (target.Some? ==> Resolves(syms, target.value) && reloc != RelocNone)
    ensures target.None? ==> Immediate(syms, target, reloc, imm, addr) == Some(imm)
    ensures target.Some? && reloc != RelocNone ==> Immediate(syms, target, reloc, imm, addr) == ResolveLabel(syms, target.value, reloc, addr)
  {
    hide ResolveLabel, Resolves;
    if target.Some? { ResolveExact(syms, target.value, addr); }
  }

  /** An entry without a compressed choice is emitted exactly if it fits. */
  lemma PlainFits(cfg: Config, syms: Symbols, e: Entry)
    requires WfInstr(e) && e.choice.None?
    ensures NodeCode(cfg, syms, e).Fail? <==> !EntryFits(cfg, syms, e)
  {
    hide Immediate, LabelFits, Encode16.CEncode, Encode32.Encode, Encode16.RequireC, Encode32.RequireForOp, Has, HasC, Takes, Resolves, IsCFmt,
      CFmt, BaseFmt, Decode32.Representable;
    CFormats();
    SameImmediate(syms, e);
    ImmediateExact(syms, e.target, e.reloc, e.imm, e.addr);
    var v := Immediate(syms, e.target, e.reloc, e.imm, e.addr);
    match e.op
    case Base(op) =>
      RequiresExact(cfg, op);
      if v.Some? && Has(cfg, op) { Decode32.EncodeExact(cfg, op, e.rd, e.rs1, e.rs2, v.value); }
    case Comp(op) =>
      WidthExact(cfg, op);
      if v.Some? { CompressedExact(cfg, op, e.rd, e.rs1, e.rs2, v.value); }
  }

  lemma SameImmediate(syms: Symbols, e: Entry)
    ensures Immediate(syms, e.target, e.reloc, if e.target.Some? then 0 else e.imm, e.addr) == Immediate(syms, e.target, e.reloc, e.imm, e.addr)
  {
    hide ResolveLabel;
  }

  lemma TransferRange(cfg: Config, op: BaseOp, cop: COp, imm: int)
    requires PcRelative(cop) && RangeOk(cop, imm) && (BaseFmt(op).FmtB? || BaseFmt(op).FmtJ?)
    requires BaseFmt(op).FmtB? <==> CFmt(cop).FmtCB?
    ensures Decode32.Representable(cfg.xlen, op, imm)
  {}

  lemma TransferKind(xlen: Xlen, e: Entry)
    requires TryMap(xlen, e).Some? && e.op.Base? && PcRelative(TryMap(xlen, e).value.op)
    ensures BaseFmt(e.op.base).FmtB? <==> CFmt(TryMap(xlen, e).value.op).FmtCB?
  {
    hide TryMap, BaseMeaning;
    RulesKeepMeaning(xlen, e);
    SameOp(e.op.base, e.rd, e.rs1, e.rs2, e.imm);
    assert BaseMeaning(e).op == e.op.base by { BaseOpOf(e); }
  }

  lemma BaseOpOf(e: Entry)
    requires e.op.Base?
    ensures BaseMeaning(e).op == e.op.base
  {
    hide Decode32.Meaning;
    SameOp(e.op.base, e.rd, e.rs1, e.rs2, e.imm);
  }

  /** A compressed choice that is emitted could have been emitted uncompressed. */
  lemma ChoiceFits(cfg: Config, syms: Symbols, e: Entry)
    requires WfInstr(e) && Derived(cfg, e) && ChoiceResolved(syms, e) && e.choice.Some? && !NodeCode(cfg, syms, e).Fail?
    ensures EntryFits(cfg, syms, e)
  {
    hide NodeCode, CodeOf, LabelFits, TryMap, Encode16.CEncode, Has, Decode32.Representable, Resolves, ChoiceMeaning, Intended, BaseFmt, CFmt,
      Immediate, Encode32.RequireForOp, Packs, IsCFmt, RangeOk, Disp;
    ChoiceIntended(cfg, syms, e);
    RulesModest(cfg, e);
    RequiresExact(cfg, e.op.base);
    ImmediateExact(syms, e.target, e.reloc, e.imm, e.addr);
    if cfg.xlen == RV32 && e.op == Base(SD) { NeverDouble(cfg, syms, e); }
    if e.target.Some? {
      LabelledChoice(cfg, syms, e);
      TransferKind(cfg.xlen, e);
      TransferRange(cfg, e.op.base, e.choice.value.op, e.choice.value.imm);
    }
  }

  lemma NeverDouble(cfg: Config, syms: Symbols, e: Entry)
    requires WfInstr(e) && Derived(cfg, e) && ChoiceResolved(syms, e) && e.choice.Some? && cfg.xlen == RV32 && e.op == Base(SD)
    ensures NodeCode(cfg, syms, e).Fail?
  {
    hide TryMap, LabelFits, NodeCode, ChoiceResolved;
    if !NodeCode(cfg, syms, e).Fail? {
      ChoiceCode(cfg, syms, e);
      hide Encode16.CEncode;
      DoubleStoreWidth(cfg, e);
      RulesAccepted(cfg, e);
    }
  }

  lemma DoubleStoreWidth(cfg: Config, e: Entry)
    requires cfg.xlen == RV32 && e.op == Base(SD) && TryMap(cfg.xlen, e).Some?
    ensures var op := TryMap(cfg.xlen, e).value.op; (op == C_SD || op == C_SDSP) && !PcRelative(op) && !Encode16.ForWidth(op, cfg.xlen)
  {}

  /** A labelled entry's choice is a transfer whose displacement is the label's. */
  lemma LabelledChoice(cfg: Config, syms: Symbols, e: Entry)
    requires WfInstr(e) && Derived(cfg, e) && ChoiceResolved(syms, e) && e.choice.Some? && e.target.Some?
    ensures var ch := e.choice.value;
            && PcRelative(ch.op) && (BaseFmt(e.op.base).FmtB? || BaseFmt(e.op.base).FmtJ?) && RangeOk(ch.op, ch.imm)
            && Immediate(syms, e.target, e.reloc, e.imm, e.addr) == Some(ch.imm) && ch.op == TryMap(cfg.xlen, e).value.op
  {
    hide TryMap, RangeOk, Disp, ChoiceMeaning, BaseMeaning, I32, U32, IsCFmt, CFmt;
    RulesKeepMeaning(cfg.xlen, e);
    TransferRules(cfg.xlen, e);
    SameDisplacement(syms[e.target.value], e.addr);
  }

  // ------------------------------------------------- whole runs

  /** Whether or not relaxation converged, what a surviving choice says agrees with its address. */
  lemma {:induction false} RelaxResolved(cfg: Config, syms: Symbols, nodes: seq<Entry>, iters: nat)
    requires cfg.hasC && cfg.autoC && iters > 0
    ensures var r := Relax(cfg, syms, nodes, Text, iters).0;
            forall i :: 0 <= i < |r| && r[i].sect == Text ==> ChoiceResolved(syms, r[i])
    decreases iters
  {
    hide Assign, ValidateOne, ChoiceResolved, Changed;
    var laid := Assign(nodes, Text, 0);
    var checked := Validate(cfg, syms, laid, Text);
    forall i | 0 <= i < |checked| && checked[i].sect == Text ensures ChoiceResolved(syms, checked[i]) {
      ValidateShape(cfg, syms, laid, Text, i);
      ValidatedResolved(syms, laid[i]);
    }
    if Changed(cfg, syms, laid, Text) {
      hide Validate;
      assert Relax(cfg, syms, nodes, Text, iters) == Relax(cfg, syms, checked, Text, iters - 1);
      if iters > 1 { RelaxResolved(cfg, syms, checked, iters - 1); }
    }
  }

  lemma FinalResolved(cfg: Config, items: seq<P1.Item>, i: nat)
    requires P1.AllProper(items) && i < |Final(cfg, items)|
    ensures Kept(cfg, Final(cfg, items)[i]) && ChoiceResolved(P1.After(items).syms, Final(cfg, items)[i])
  {
    hide P1.After, Plan, Assign, Relax, ChoiceResolved, Kept;
    var s := P1.After(items);
    PassOneKept(cfg, items);
    PrepareKeeps(cfg, s.syms, s.nodes);
    var e := Final(cfg, items)[i];
    assert Kept(cfg, e);
    if e.choice.None? || e.sect == Data || !(cfg.hasC && cfg.autoC) {
      assert e.choice.None? || e.sect == Data by { NoChoiceOff(cfg, e); }
      NoChoice(cfg, s.syms, e);
    } else {
      var p := Plan(cfg, Assign(s.nodes, Data, 0));
      RelaxResolved(cfg, s.syms, p, 8);
      assert Final(cfg, items) == Relax(cfg, s.syms, p, Text, 8).0;
    }
  }

  lemma NoChoiceOff(cfg: Config, e: Entry)
    requires Kept(cfg, e)
    ensures e.choice.Some? ==> cfg.hasC && cfg.autoC
  {
    hide WfInstr, TryMap;
  }

  /** In the layout that is emitted an instruction fails exactly if it does not fit. */
  lemma EntryFails(cfg: Config, syms: Symbols, e: Entry)
    requires e.kind == KInstr && Kept(cfg, e) && ChoiceResolved(syms, e)
    ensures WfInstr(e) && (NodeCode(cfg, syms, e).Fail? <==> !EntryFits(cfg, syms, e))
  {
    hide NodeCode, EntryFits, Derived, WfInstr, ChoiceResolved;
    if e.choice.None? {
      PlainFits(cfg, syms, e);
    } else {
      if NodeCode(cfg, syms, e).Fail? {
        ChoiceEmits(cfg, syms, e);
        NoDoubleHere(cfg, syms, e);
      } else {
        ChoiceFits(cfg, syms, e);
      }
    }
  }

  lemma NoDoubleHere(cfg: Config, syms: Symbols, e: Entry)
    requires cfg.xlen == RV32 && e.op == Base(SD)
    ensures !EntryFits(cfg, syms, e)
  {
    hide Decode32.Representable, Immediate, Resolves;
  }

  /** What an item demands: an instruction must fit at its address, a datum be in the data section. */
  predicate ItemFits(cfg: Config, items: seq<P1.Item>, k: nat)
    requires P1.AllProper(items) && k < |items| && Emits(items[k])
  {
    ItemIsEntry(cfg, items, k);
    var i, syms := items[k], P1.After(items).syms;
    if i.Instr? then
      var addr := Final(cfg, items)[PlaceOf(items, k)].addr;
      Fits(cfg, syms, i.op, i.rd, i.rs1, i.rs2, i.imm, i.target, if i.target.Some? then i.reloc else RelocNone, addr)
    else P1.SectionAt(items, k) == Data
  }

  lemma BecomesFits(cfg: Config, syms: Symbols, i: P1.Item, sect: Section, e: Entry)
    requires P1.Proper(i) && Emits(i) && Becomes(i, sect, e)
    ensures i.Instr? ==> e.kind == KInstr
    ensures i.Instr? ==>
              (EntryFits(cfg, syms, e) <==>
               Fits(cfg, syms, i.op, i.rd, i.rs1, i.rs2, i.imm, i.target, if i.target.Some? then i.reloc else RelocNone, e.addr))
    ensures !i.Instr? ==> e.kind == KData && e.sect == sect && e.size in {1, 2, 4, 8}
  {
    hide Fits;
  }

  lemma ChunkExact(cfg: Config, syms: Symbols, e: Entry)
    requires e.kind == KInstr ==> WfInstr(e)
    ensures e.kind == KInstr ==> (Chunk(cfg, syms, e).Some? <==> !NodeCode(cfg, syms, e).Fail?)
    ensures e.kind == KData ==> (Chunk(cfg, syms, e).Some? <==> e.sect == Data && e.size in {1, 2, 4, 8})
    ensures e.kind == KAlign ==> Chunk(cfg, syms, e).Some?
  {
    hide NodeCode, WfInstr, LeBytes, WordBytes, HalfBytes;
  }

  /** An item's entry can be emitted exactly if the item's demands are met. */
  lemma ItemEmits(cfg: Config, items: seq<P1.Item>, k: nat)
    requires P1.AllProper(items) && k < |items| && Emits(items[k])
    ensures PlaceOf(items, k) < |Final(cfg, items)|
    ensures var e := Final(cfg, items)[PlaceOf(items, k)];
            (e.kind == KInstr ==> WfInstr(e)) && (Chunk(cfg, P1.After(items).syms, e).Some? <==> ItemFits(cfg, items, k))
  {
    hide P1.After, Final, Fits, EntryFits, Chunk, WfInstr, ChoiceResolved, Derived, Becomes, P1.Proper, P1.AllProper, NodeCode;
    ItemIsEntry(cfg, items, k);
    var e, syms := Final(cfg, items)[PlaceOf(items, k)], P1.After(items).syms;
    FinalResolved(cfg, items, PlaceOf(items, k));
    BecomesFits(cfg, syms, items[k], P1.SectionAt(items, k), e);
    if e.kind == KInstr { EntryFails(cfg, syms, e); }
    ChunkExact(cfg, syms, e);
  }

  predicate AllFit(cfg: Config, items: seq<P1.Item>)
    requires P1.AllProper(items)
  {
    forall k :: 0 <= k < |items| && Emits(items[k]) ==> ItemFits(cfg, items, k)
  }

  /** A run succeeds exactly if data comes before text and every item's demands are met. */
  lemma SucceedsExactly(cfg: Config, fmt: OutFormat, items: seq<P1.Item>)
    requires P1.AllProper(items)
    ensures Assemble(cfg, fmt, items).1 <==> DataFirst(P1.After(items).nodes) && AllFit(cfg, items)
  {
    hide P1.After, Final, ItemFits, Chunk, WfInstr, P1.AllProper, Emits, DataFirst;
    var syms, p := P1.After(items).syms, Final(cfg, items);
    EmitAllExact(cfg, syms, p, Start(fmt));
    SameOrder(cfg, items);
    if AllEmittable(cfg, syms, p) {
      forall k | 0 <= k < |items| && Emits(items[k]) ensures ItemFits(cfg, items, k) {
        ItemEmits(cfg, items, k);
        assert p[PlaceOf(items, k)] in p;
      }
    }
    if AllFit(cfg, items) {
      forall e | e in p ensures Chunk(cfg, syms, e).Some? {
        var n :| 0 <= n < |p| && p[n] == e;
        if e.kind == KAlign {
          ChunkExact(cfg, syms, e);
        } else {
          var k := EveryEntryHasItem(cfg, items, n);
          ItemEmits(cfg, items, k);
        }
      }
    }
  }

  lemma SameOrder(cfg: Config, items: seq<P1.Item>)
    requires P1.AllProper(items)
    ensures DataFirst(P1.After(items).nodes) <==> DataFirst(Final(cfg, items))
  {
    hide P1.After, Final, SameEntry;
    var a, p := P1.After(items).nodes, Final(cfg, items);
    forall i | 0 <= i < |a| ensures a[i].sect == p[i].sect {
      FinalEntry(cfg, items, i);
      SameSect(a[i], p[i]);
    }
  }

  lemma SameSect(a: Entry, b: Entry)
    requires SameEntry(a, b)
    ensures a.sect == b.sect
  {}

  /** A run in which an instruction names a label that no item defines fails, whatever its
      relocation. */
  lemma UndefinedFails(cfg: Config, fmt: OutFormat, items: seq<P1.Item>, k: nat)
    requires P1.AllProper(items) && k < |items| && items[k].Instr? && items[k].target.Some?
    requires forall m :: 0 <= m < |items| ==> items[m] != P1.Label(items[k].target.value)
    ensures !Assemble(cfg, fmt, items).1
  {
    hide P1.After, Final, P1.AllProper, Assemble, Immediate, HasC, Has, Takes, Decode32.Representable;
    SucceedsExactly(cfg, fmt, items);
    P1.NotDefined(items, items[k].target.value);
    assert !ItemFits(cfg, items, k);
  }

  /** In a successful run every instruction's operation is one the target has, and its label is
      defined by an item. */
  lemma SuccessMeans(cfg: Config, fmt: OutFormat, items: seq<P1.Item>, k: nat)
    requires P1.AllProper(items) && Assemble(cfg, fmt, items).1 && k < |items| && items[k].Instr?
    ensures items[k].op.Base? ==> Has(cfg, items[k].op.base)
    ensures items[k].op.Comp? ==> HasC(cfg, items[k].op.comp)
    ensures items[k].target.Some? ==> exists m :: 0 <= m < |items| && items[m] == P1.Label(items[k].target.value)
  {
    hide P1.After, Final, P1.AllProper, Assemble, Immediate, HasC, Has, Takes, Decode32.Representable, Resolves;
    SucceedsExactly(cfg, fmt, items);
    assert ItemFits(cfg, items, k);
    if items[k].target.Some? && forall m :: 0 <= m < |items| ==> items[m] != P1.Label(items[k].target.value) {
      UndefinedFails(cfg, fmt, items, k);
    }
  }

  /** An uncompressed instruction without a label is emitted in 32 bits or 16 whenever the target
      has its operation and its form takes the immediate, and only then. */
  lemma UnlabelledFits(cfg: Config, items: seq<P1.Item>, k: nat)
    requires P1.AllProper(items) && k < |items| && items[k].Instr? && items[k].op.Base? && items[k].target.None?
    ensures ItemFits(cfg, items, k) <==> Has(cfg, items[k].op.base) && Decode32.Representable(cfg.xlen, items[k].op.base, items[k].imm)
  {
    hide P1.After, Final, P1.AllProper, Has, Decode32.Representable;
  }

  /** Every word emitted for an M operation has the M extension, and every word that denotes an
      operation of RV64 is emitted for RV64. */
  lemma WordsAllowed(cfg: Config, syms: Symbols, e: Entry)
    requires WfInstr(e) && e.choice.None? && NodeCode(cfg, syms, e).Full?
    ensures var w := NodeCode(cfg, syms, e).w;
            && (MulWord(w) ==> cfg.hasM)
            && Decode32.Decode(cfg.xlen, w).Some? && (Only64(Decode32.Decode(cfg.xlen, w).value.op) ==> cfg.xlen == RV64)
  {
    hide NodeCode, Immediate, Decode32.Decode, Encode32.Encode, IsM, Only64, MulWord, Decode32.Meaning, BaseFmt, Decode32.Representable,
      WfInstr, Encode32.RequireForOp;
    PlainCode(cfg, syms, e);
    var w := NodeCode(cfg, syms, e).w;
    var op, v := e.op.base, Immediate(syms, e.target, e.reloc, e.imm, e.addr).value;
    RequiresExact(cfg, op);
    Decode32.EncodeExact(cfg, op, e.rd, e.rs1, e.rs2, v);
    SameOp(op, e.rd, e.rs1, e.rs2, v);
    DecodedM(cfg.xlen, w);
  }

  // ------------------------------------------------- how runs fail

  /** The one failure that raises no error flag: a compressed form the target does not have, be it
      written or chosen for a doubleword store on RV32. */
  predicate Silent(cfg: Config, e: Entry) {
    (e.choice.None? && e.op.Comp? && !HasC(cfg, e.op.comp)) || (e.choice.Some? && cfg.xlen == RV32 && e.op == Base(SD))
  }

  lemma SilentExact(cfg: Config, syms: Symbols, e: Entry)
    requires WfInstr(e) && Derived(cfg, e)
    ensures NodeCode(cfg, syms, e) == Fail(false) <==> Silent(cfg, e)
  {
    hide LabelFits, TryMap, Encode16.CEncode, Encode32.Encode, Encode32.RequireForOp, Encode16.RequireC, HasC, Immediate, IsCFmt, CFmt, BaseFmt,
      ChoiceMeaning, BaseMeaning;
    CFormats();
    if e.choice.Some? {
      WidthExact(cfg, e.choice.value.op);
      RulesAccepted(cfg, e);
      RulesKeepMeaning(cfg.xlen, e);
      ChoiceWidth(cfg, e);
    } else if e.op.Comp? {
      WidthExact(cfg, e.op.comp);
    }
  }

  lemma ChoiceWidth(cfg: Config, e: Entry)
    requires Derived(cfg, e) && e.choice.Some?
    ensures Encode16.RequireC(cfg, e.choice.value.op) <==> !(cfg.xlen == RV32 && e.op == Base(SD))
  {
    hide TryMap, Encode16.CEncode, Encode16.ForWidth;
    RulesAccepted(cfg, e);
    if cfg.xlen == RV32 && e.op == Base(SD) { DoubleStoreWidth(cfg, e); }
  }

  lemma EntryReports(cfg: Config, syms: Symbols, e: Entry, s: State)
    requires (e.kind == KInstr ==> WfInstr(e)) && (e.kind == KData ==> e.size in {1, 2, 4, 8})
    requires !s.hadError && Open(s.sink)
    ensures var r := EmitEntry(cfg, syms, true, e, s);
            && (r.1 ==> !r.0.hadError && Open(r.0.sink))
            && (!r.1 ==> r.0.hadError || (e.kind == KInstr && NodeCode(cfg, syms, e) == Fail(false)))
  {
    hide NodeCode, WfInstr, LeBytes, WordBytes, HalfBytes;
  }

  lemma {:induction false} EmitFromReports(cfg: Config, syms: Symbols, nodes: seq<Entry>, s: State)
    requires Wf(nodes) && (forall e :: e in nodes && e.kind == KData ==> e.size in {1, 2, 4, 8}) && !s.hadError && Open(s.sink)
    ensures var r := EmitFrom(cfg, syms, true, nodes, s);
            !r.1 ==> r.0.hadError || exists e :: e in nodes && e.kind == KInstr && NodeCode(cfg, syms, e) == Fail(false)
    decreases |nodes|
  {
    hide EmitEntry, NodeCode, WfInstr;
    if nodes != [] {
      var e := nodes[0];
      assert e in nodes && forall x :: x in nodes[1..] ==> x in nodes;
      var (s1, ok) := if e.sect != s.sect then EmitSection(s, e.sect) else (s, true);
      if ok {
        EntryReports(cfg, syms, e, s1);
        if EmitEntry(cfg, syms, true, e, s1).1 { EmitFromReports(cfg, syms, nodes[1..], EmitEntry(cfg, syms, true, e, s1).0); }
      }
    }
  }

  lemma DatumSizes(cfg: Config, items: seq<P1.Item>)
    requires P1.AllProper(items)
    ensures forall e :: e in Final(cfg, items) && e.kind == KData ==> e.size in {1, 2, 4, 8}
  {
    hide P1.After, Final, SameEntry, P1.Raw;
    P1.AfterRaw(items);
    var a, p := P1.After(items).nodes, Final(cfg, items);
    forall e | e in p && e.kind == KData ensures e.size in {1, 2, 4, 8} {
      var n :| 0 <= n < |p| && p[n] == e;
      assert P1.Raw(a[n]);
      FinalEntry(cfg, items, n);
      DatumSize(a[n], p[n]);
    }
  }

  lemma DatumSize(a: Entry, b: Entry)
    requires SameEntry(a, b) && P1.Raw(a) && b.kind == KData
    ensures b.size in {1, 2, 4, 8}
  {}

  /** A failing run raises the error flag unless some instruction fails silently. */
  lemma FailureReported(cfg: Config, fmt: OutFormat, items: seq<P1.Item>)
    requires P1.AllProper(items) && !Assemble(cfg, fmt, items).1 && !Assemble(cfg, fmt, items).0.hadError
    ensures exists e :: e in Final(cfg, items) && e.kind == KInstr && Silent(cfg, e)
  {
    hide P1.After, Final, EmitFrom, NodeCode, Silent, WfInstr, Derived, ChoiceResolved;
    var syms, p := P1.After(items).syms, Final(cfg, items);
    DatumSizes(cfg, items);
    EmitFromReports(cfg, syms, p, if p == [] then Start(fmt) else EmitSection(Start(fmt), p[0].sect).0);
    var e :| e in p && e.kind == KInstr && NodeCode(cfg, syms, e) == Fail(false);
    var n :| 0 <= n < |p| && p[n] == e;
    FinalResolved(cfg, items, n);
    SilentExact(cfg, syms, e);
  }

  /** Without an output file nothing is written, and the run succeeds only if there is nothing to
      write; otherwise it raises the error flag. */
  lemma {:induction false} NoFile(cfg: Config, syms: Symbols, nodes: seq<Entry>, s: State)
    requires Wf(nodes) && !s.hadError
    ensures var r := EmitFrom(cfg, syms, false, nodes, s);
            && r.0.sink == s.sink.(cur := r.0.sink.cur)
            && (r.1 ==> forall e :: e in nodes ==> e.kind == KAlign && e.size <= 0)
            && (!r.1 ==> r.0.hadError)
    decreases |nodes|
  {
    hide NodeCode, WfInstr;
    if nodes != [] {
      var e := nodes[0];
      assert e in nodes && forall x :: x in nodes[1..] ==> x in nodes;
      assert forall x :: x in nodes ==> x == e || x in nodes[1..];
      var (s1, ok) := if e.sect != s.sect then EmitSection(s, e.sect) else (s, true);
      if ok && EmitEntry(cfg, syms, false, e, s1).1 { NoFile(cfg, syms, nodes[1..], s1); }
    }
  }
}
