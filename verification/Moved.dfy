/** Programs of plain 32-bit instructions, which always assemble, and two of them that
    compression changes although every instruction stays the same: one reads the program
    counter, the other branches by a number. */
module Moved {
  import opened Isa
  import opened Bits
  import opened Ir
  import opened Symtab
  import opened Bytes
  import opened Out
  import opened CRules
  import opened Layout
  import opened Emit
  import opened Survive
  import opened Agree
  import opened Whole
  import opened Programs
  import opened Straight
  import opened Branches
  import opened Machine
  import Conform16
  import Encode32
  import Decode32
  import P1 = Pass1

  /** A base instruction without a label that its encoder accepts. */
  predicate PlainItem(cfg: Config, i: P1.Item) {
    && i.Instr? && i.op.Base? && i.target.None? && i.reloc == RelocNone
    && Encode32.RequireForOp(cfg, i.op.base) && Decode32.Representable(cfg.xlen, i.op.base, i.imm)
  }

  predicate PlainItems(cfg: Config, items: seq<P1.Item>) {
    forall i :: i in items ==> PlainItem(cfg, i)
  }

  /** The entry pass 1 makes of it. */
  function NodeOf(i: P1.Item, addr: int): Entry
    requires i.Instr?
  {
    NewInstr(i.op, FmtOf(i.op), i.rd, i.rs1, i.rs2, i.imm, i.target, i.reloc, Text, addr, 4)
  }

  lemma BaseSize(op: Op)
    ensures op.Base? ==> P1.InstrSize(op) == 4
  {}

  lemma StepPlain(cfg: Config, s: P1.State, i: P1.Item)
    requires PlainItem(cfg, i) && s.sect == Text
    ensures P1.Proper(i) && Adds(i, 0) == 4
    ensures P1.Step(s, i) == s.(nodes := s.nodes + [NodeOf(i, s.pcText)], pcText := U32(s.pcText + 4))
  {
    hide FmtOf, P1.InstrSize, U32, Encode32.RequireForOp, Decode32.Representable;
    BaseSize(i.op);
  }

  lemma PlainProper(cfg: Config, items: seq<P1.Item>)
    requires PlainItems(cfg, items)
    ensures P1.AllProper(items)
  {
    forall i | i in items ensures P1.Proper(i) {
      StepPlain(cfg, P1.INIT, i);
    }
  }

  /** Pass 1 makes one text entry of each, four bytes apart. */
  lemma {:induction false} PassOnePlain(cfg: Config, items: seq<P1.Item>)
    requires PlainItems(cfg, items) && 4 * |items| < TWO31
    ensures P1.AllProper(items) && Len(items, Text) == 4 * |items| && Len(items, Data) == 0
    ensures var s := P1.After(items);
            && s.sect == Text && s.pcText == 4 * |items| && |s.nodes| == |items|
            && forall k :: 0 <= k < |items| ==> items[k].Instr? && s.nodes[k] == NodeOf(items[k], 4 * k)
    decreases |items|
  {
    hide P1.Step, NodeOf, PlainItem, P1.Proper, Adds, P1.After, Len;
    PlainProper(cfg, items);
    if items == [] {
      EmptyPass();
    } else {
      var n := |items| - 1;
      assert items[n] in items && forall i :: i in items[..n] ==> i in items;
      P1.AfterPrefix(items, n);
      assert items[..n + 1] == items;
      PassOnePlain(cfg, items[..n]);
      var t := P1.After(items[..n]);
      StepPlain(cfg, t, items[n]);
      IsInstr(cfg, items[n]);
      StepAdds(items[n], Len(items[..n], Text));
      P1.SectionIs(items, n);
      LenStep(items, n, Text);
      LenStep(items, n, Data);
      assert forall k :: 0 <= k < n ==> items[..n][k] == items[k];
    }
  }

  lemma EmptyPass()
    ensures P1.AllProper([]) && P1.After([]) == P1.INIT && Len([], Text) == 0 && Len([], Data) == 0
  {}

  lemma IsInstr(cfg: Config, i: P1.Item)
    requires PlainItem(cfg, i)
    ensures i.Instr?
  {}

  lemma StepAdds(i: P1.Item, at: int)
    requires P1.Proper(i) && i.Instr?
    ensures Adds(i, at) == Adds(i, 0)
  {}

  lemma PlainEncodes(cfg: Config, syms: Symbols, i: P1.Item, addr: int)
    requires PlainItem(cfg, i)
    ensures P1.Raw(NodeOf(i, addr)) && InText(NodeOf(i, addr)) && !NodeCode(cfg, syms, NodeOf(i, addr)).Fail?
  {
    hide Encode32.Encode, Decode32.Representable, BaseFmt, IsCFmt, Encode32.RequireForOp;
    CFormats();
    Decode32.EncodeExact(cfg, i.op.base, i.rd, i.rs1, i.rs2, i.imm);
  }

  lemma EntryEmits(cfg: Config, syms: Symbols, e: Entry, p: Entry)
    requires P1.Raw(e) && InText(e) && e.target.None? && SameEntry(e, p) && Kept(cfg, p) && p.choice == ChoiceOf(cfg, e)
    requires !NodeCode(cfg, syms, e).Fail?
    ensures p.sect == Text && Chunk(cfg, syms, p).Some?
  {
    hide NodeCode, ChoiceOf, P1.Raw, Derived, LabelFits, FmtOf, IsCFmt, HalfBytes, WordBytes;
    FailsAlike(cfg, syms, e, p);
  }

  lemma NodeTarget(cfg: Config, items: seq<P1.Item>, e: Entry)
    requires PlainItems(cfg, items) && 4 * |items| < TWO31 && P1.AllProper(items) && e in P1.After(items).nodes
    ensures exists k :: 0 <= k < |items| && PlainItem(cfg, items[k]) && e == NodeOf(items[k], 4 * k)
    ensures e.target.None?
  {
    hide PlainItem, P1.After;
    PassOnePlain(cfg, items);
    var k :| 0 <= k < |items| && P1.After(items).nodes[k] == e;
    assert items[k] in items && PlainItem(cfg, items[k]) && e == NodeOf(items[k], 4 * k);
    NoTarget(cfg, items[k], 4 * k);
  }

  lemma NoTarget(cfg: Config, i: P1.Item, addr: int)
    requires PlainItem(cfg, i)
    ensures NodeOf(i, addr).target.None?
  {}

  lemma NoLabels(cfg: Config, items: seq<P1.Item>)
    requires PlainItems(cfg, items) && 4 * |items| < TWO31
    ensures P1.AllProper(items) && Unlabelled(P1.After(items).nodes)
  {
    hide PlainItem, P1.After, NodeOf;
    PlainProper(cfg, items);
    forall e | e in P1.After(items).nodes ensures e.target.None? { NodeTarget(cfg, items, e); }
  }

  /** Such a program assembles, compressed or not. */
  lemma PlainAssembles(cfg: Config, fmt: OutFormat, items: seq<P1.Item>)
    requires PlainItems(cfg, items) && 4 * |items| < TWO31
    ensures Good(cfg, fmt, items)
  {
    hide P1.After, Final, Unlabelled, PlainItem, NodeOf, Chunk, WfInstr, EmitAll, Kept, SameEntry, ChoiceOf, P1.Raw, Converged, NodeCode;
    NoLabels(cfg, items);
    PassOnePlain(cfg, items);
    var syms, p := P1.After(items).syms, Final(cfg, items);
    forall k | 0 <= k < |p| ensures p[k].sect == Text && Chunk(cfg, syms, p[k]).Some? {
      assert items[k] in items;
      FinalAt(cfg, items, k);
      PlainEncodes(cfg, syms, items[k], 4 * k);
      NoTarget(cfg, items[k], 4 * k);
      EntryEmits(cfg, syms, NodeOf(items[k], 4 * k), p[k]);
    }
    EmitAllExact(cfg, syms, p, Start(fmt));
    SameSuccess(cfg, fmt, items);
  }

  // ------------------------------------------------- a program counter that is read

  /** addi r, r, 1 */
  function Bump(r: Reg): P1.Item { P1.Instr(Base(ADDI), r, r, 0, 1, None, RelocNone) }

  // addi x9, x9, 1 / auipc x11, 0
  const BUMP9 := Bump(9)
  const HERE := P1.Instr(Base(AUIPC), 11, 0, 0, 0, None, RelocNone)
  const READS := [BUMP9, HERE]

  function Both(xlen: Xlen): Config { Config(xlen, false, true, true) }

  lemma ReadsPlain(xlen: Xlen)
    ensures PlainItems(Both(xlen), READS) && PlainItems(Off(Both(xlen)), READS)
  {}

  /** The first rule applies to an increment. */
  lemma BumpRule(xlen: Xlen, n: Entry)
    requires n.op == Base(ADDI) && n.rd == n.rs1 && n.rd != 0 && n.imm == 1
    ensures TryMap(xlen, n) == Pick(C_ADDI, n.rd, n.rd, 0, 1)
  {
    hide MapLi, MapNop, MapSlli, MapShiftPrime, MapAndiPrime, MapMv, MapAdd, MapJr, MapJalr, MapEbreak, MapCaAlu, MapCawAlu, MapLoad,
      MapStore, MapSpLoad, MapSpStore, MapBranch, MapJump;
  }

  lemma BumpChosen(xlen: Xlen, r: Reg, addr: int)
    requires r != 0
    ensures var e := NodeOf(Bump(r), addr); Chosen(Both(xlen), e) && FormRight(Both(xlen), e) && Plain(e) == Insn(ADDI, r, r, 0, 1)
  {
    hide TryMap;
    BumpRule(xlen, NodeOf(Bump(r), addr));
  }

  lemma HereNotChosen(xlen: Xlen)
    ensures var e := NodeOf(HERE, 4); !Chosen(Both(xlen), e) && FormRight(Both(xlen), e) && Plain(e) == Insn(AUIPC, 11, 0, 0, 0)
  {}

  lemma TwoCode(cfg: Config, a: seq<Entry>)
    requires |a| == 2 && forall e :: e in a ==> InText(e)
    ensures SourceCode(cfg, a) == [Placed(Plain(a[0]), SizeIn(cfg, a[0])), Placed(Plain(a[1]), SizeIn(cfg, a[1]))]
  {
    hide Plain, SizeIn, InText;
    assert a[1..] == [a[1]] && a[1..][1..] == [];
    CodeStep(cfg, a);
    CodeStep(cfg, a[1..]);
    NoCode(cfg);
  }

  lemma NodeInText(i: P1.Item, addr: int)
    requires i.Instr?
    ensures InText(NodeOf(i, addr))
  {}

  /** What an AUIPC after one other instruction writes. */
  lemma SecondReads(core: Core, xlen: Xlen, base: int, code: seq<Placed>, s: Machine.State)
    requires |code| == 2 && Sequential(code[0].insn.op) && code[1].insn == Insn(AUIPC, 11, 0, 0, 0)
    ensures Get(Exec(core, xlen, base, code, s, 2).regs, 11) == (base + s.pc + code[0].size) % Modulus(xlen)
  {
    hide Step, Sequential, Modulus;
    var t := Step(core, xlen, base, code[0].insn, code[0].size, s);
    StepsOn(core, xlen, base, code[0].insn, code[0].size, s);
    StepAuipc(core, xlen, base, code[1].insn, code[1].size, t);
    assert code[1..][0] == code[1];
  }

  lemma ReadsNodes(xlen: Xlen)
    ensures P1.AllProper(READS) && P1.After(READS).nodes == [NodeOf(BUMP9, 0), NodeOf(HERE, 4)]
  {
    hide P1.After, NodeOf, P1.AllProper;
    ReadsPlain(xlen);
    PassOnePlain(Both(xlen), READS);
    assert P1.After(READS).nodes[0] == NodeOf(READS[0], 0) && P1.After(READS).nodes[1] == NodeOf(READS[1], 4);
  }

  lemma ReadsStraight(xlen: Xlen)
    ensures var a := [NodeOf(BUMP9, 0), NodeOf(HERE, 4)];
            && StraightLine(Both(xlen), a) && !AuipcFirst(Both(xlen), a)
            && SizeIn(Both(xlen), a[0]) == 2 && SizeIn(Off(Both(xlen)), a[0]) == 4
            && Plain(a[0]) == Insn(ADDI, 9, 9, 0, 1) && Plain(a[1]) == Insn(AUIPC, 11, 0, 0, 0)
  {
    hide Chosen, FormRight, Plain, Sequential, UsesPc;
    var a := [NodeOf(BUMP9, 0), NodeOf(HERE, 4)];
    BumpChosen(xlen, 9, 0);
    HereNotChosen(xlen);
    ChosenInText(Both(xlen), a[0]);
    KindsHere();
    TwoRight(Both(xlen), a);
    assert UsesPc(a[1]) by { PcUse(a[1]); }
  }

  lemma KindsHere()
    ensures Sequential(ADDI) && Sequential(AUIPC)
  {}

  lemma TwoRight(cfg: Config, a: seq<Entry>)
    requires |a| == 2 && forall i :: 0 <= i < 2 ==> a[i].target.None? && FormRight(cfg, a[i]) && Sequential(Plain(a[i]).op)
    ensures StraightLine(cfg, a)
  {
    hide FormRight, Sequential, Plain;
  }

  /** The text reads the same in both forms, and yet x11 ends up two bytes apart: without the
      condition on AUIPC straight-line text does not execute alike. */
  lemma AuipcTells(core: Core, base: int, xlen: Xlen, fmt: OutFormat, s: Machine.State)
    requires s.pc == 0
    ensures var cfg := Both(xlen);
            && Good(cfg, fmt, READS) && Good(Off(cfg), fmt, READS) && StraightLine(cfg, P1.After(READS).nodes)
            && AllEmittable(cfg, P1.After(READS).syms, Final(cfg, READS))
            && AllEmittable(Off(cfg), P1.After(READS).syms, Final(Off(cfg), READS))
            && var x, y := Run(core, xlen, base, TextOf(cfg, READS), s, 2), Run(core, xlen, base, TextOf(Off(cfg), READS), s, 2);
               && x.Some? && Get(x.value.regs, 11) == (base + 2) % Modulus(xlen)
               && y.Some? && Get(y.value.regs, 11) == (base + 4) % Modulus(xlen)
  {
    hide P1.After, Final, READS, NodeOf, StraightLine, AuipcFirst, SourceCode, TextOf, Run, Exec, Loaded, Modulus, Get, Plain, SizeIn,
      AllEmittable, Good, FormsRight, Unlabelled, AllSequential, P1.RawAll, P1.AllProper, PlainItems;
    var cfg, a := Both(xlen), [NodeOf(BUMP9, 0), NodeOf(HERE, 4)];
    ReadsPlain(xlen);
    ShortReads();
    PlainAssembles(cfg, fmt, READS);
    PlainAssembles(Off(cfg), fmt, READS);
    ReadsNodes(xlen);
    ReadsStraight(xlen);
    P1.AfterRaw(READS);
    StraightForms(cfg, a);
    RunsToEnd(core, base, cfg, fmt, READS, s);
    RunsToEnd(core, base, Off(cfg), fmt, READS, s);
    NodeInText(BUMP9, 0);
    NodeInText(HERE, 4);
    TwoCode(cfg, a);
    TwoCode(Off(cfg), a);
    SecondReads(core, xlen, base, SourceCode(cfg, a), s);
    SecondReads(core, xlen, base, SourceCode(Off(cfg), a), s);
  }

  lemma ShortReads()
    ensures |READS| == 2
  {}

  lemma RunsToEnd(core: Core, base: int, cfg: Config, fmt: OutFormat, items: seq<P1.Item>, s: Machine.State)
    requires Good(cfg, fmt, items) && Unlabelled(P1.After(items).nodes) && FormsRight(cfg, P1.After(items).nodes) && s.pc == 0
    requires forall e :: e in P1.After(items).nodes && InText(e) ==> Sequential(Plain(e).op)
    ensures AllEmittable(cfg, P1.After(items).syms, Final(cfg, items))
    ensures var c := SourceCode(cfg, P1.After(items).nodes);
            Run(core, cfg.xlen, base, TextOf(cfg, items), s, |c|) == Some(Exec(core, cfg.xlen, base, c, s, |c|))
  {
    hide P1.After, Final, SourceCode, TextOf, Run, Exec, Loaded, Good, FormsRight, Unlabelled, AllSequential, AllEmittable, Plain, Sequential;
    TextLoaded(cfg, fmt, items);
    assert P1.AllProper(items) by { GoodProper(cfg, fmt, items); }
    CodeSequential(cfg, P1.After(items).nodes);
    var c := SourceCode(cfg, P1.After(items).nodes);
    RunIsExec(core, cfg.xlen, base, TextOf(cfg, items), c, s, |c|);
  }

  // ------------------------------------------------- a branch by a number

  // bnez x8, 4 / addi x9, x9, 1 / addi x10, x10, 1
  const SKIP := P1.Instr(Base(BNE), 0, 8, 0, 4, None, RelocNone)
  const BUMP10 := Bump(10)
  const SKIPS := [SKIP, BUMP9, BUMP10]

  lemma SkipsPlain(xlen: Xlen)
    ensures PlainItems(Both(xlen), SKIPS) && PlainItems(Off(Both(xlen)), SKIPS) && |SKIPS| == 3
  {}

  lemma SkipsNodes(xlen: Xlen)
    ensures P1.AllProper(SKIPS) && P1.After(SKIPS).nodes == [NodeOf(SKIP, 0), NodeOf(BUMP9, 4), NodeOf(BUMP10, 8)]
  {
    hide P1.After, NodeOf, P1.AllProper, PlainItems;
    SkipsPlain(xlen);
    PassOnePlain(Both(xlen), SKIPS);
    var n := P1.After(SKIPS).nodes;
    assert n[0] == NodeOf(SKIPS[0], 0) && n[1] == NodeOf(SKIPS[1], 4) && n[2] == NodeOf(SKIPS[2], 8);
  }

  lemma NotRegisterRules(xlen: Xlen, n: Entry)
    requires n.op == Base(BNE)
    ensures MapAddiSelf(n).None? && MapLi(n).None? && MapNop(n).None? && MapSlli(xlen, n).None? && MapShiftPrime(xlen, n).None?
    ensures MapAndiPrime(n).None? && MapMv(n).None? && MapAdd(n).None? && MapJr(n).None? && MapJalr(n).None? && MapEbreak(n).None?
  {
    hide Prime;
  }

  lemma NotMemoryRules(xlen: Xlen, n: Entry)
    requires n.op == Base(BNE)
    ensures MapCaAlu(n).None? && MapCawAlu(xlen, n).None? && MapLoad(xlen, n).None? && MapStore(n).None?
    ensures MapSpLoad(xlen, n).None? && MapSpStore(n).None?
  {
    hide Prime;
  }

  lemma BranchRule(xlen: Xlen, n: Entry)
    requires n.op == Base(BNE) && MapBranch(n).Some?
    ensures TryMap(xlen, n) == MapBranch(n)
  {
    hide MapAddiSelf, MapLi, MapNop, MapSlli, MapShiftPrime, MapAndiPrime, MapMv, MapAdd, MapJr, MapJalr, MapEbreak, MapCaAlu,
      MapCawAlu, MapLoad, MapStore, MapSpLoad, MapSpStore, MapBranch, MapJump;
    NotRegisterRules(xlen, n);
    NotMemoryRules(xlen, n);
  }

  lemma FourConforms()
    ensures Conform16.Conforms(C_BNEZ, 0, 4)
  {}

  lemma SkipRule(n: Entry)
    requires n.op == Base(BNE) && n.rs1 == 8 && n.rs2 == 0 && n.imm == 4
    ensures MapBranch(n) == Some(Choice(C_BNEZ, FmtCB, 0, 8, 0, 4, n.target, n.reloc))
  {}

  lemma SkipEntry()
    ensures var e := NodeOf(SKIP, 0);
            && InText(e) && IsBranchByFour(e) && e.canCompress && e.forced == SizeAuto && e.reloc == RelocNone
            && Plain(e) == Insn(BNE, 0, 8, 0, 4)
  {}

  predicate IsBranchByFour(n: Entry) { n.op == Base(BNE) && n.rs1 == 8 && n.rs2 == 0 && n.imm == 4 }

  lemma SkipChosen(xlen: Xlen)
    ensures var e := NodeOf(SKIP, 0); Chosen(Both(xlen), e) && FormRight(Both(xlen), e) && Plain(e) == Insn(BNE, 0, 8, 0, 4)
  {
    hide TryMap, MapBranch, Conform16.Conforms, NodeOf, Plain;
    var e := NodeOf(SKIP, 0);
    SkipEntry();
    SkipRule(e);
    BranchRule(xlen, e);
    FourConforms();
  }

  lemma ThreeCode(cfg: Config, a: seq<Entry>)
    requires |a| == 3 && forall e :: e in a ==> InText(e)
    ensures SourceCode(cfg, a) == [Placed(Plain(a[0]), SizeIn(cfg, a[0])), Placed(Plain(a[1]), SizeIn(cfg, a[1])),
                                   Placed(Plain(a[2]), SizeIn(cfg, a[2]))]
  {
    hide Plain, SizeIn, InText, SourceCode;
    CodeStep(cfg, a);
    TwoCode(cfg, a[1..]);
  }

  lemma SkipsRight(xlen: Xlen)
    ensures var a := [NodeOf(SKIP, 0), NodeOf(BUMP9, 4), NodeOf(BUMP10, 8)];
            && FormsRight(Both(xlen), a) && FormsRight(Off(Both(xlen)), a)
            && (forall e :: e in a ==> InText(e) && SizeIn(Both(xlen), e) == 2 && SizeIn(Off(Both(xlen)), e) == 4)
            && Plain(a[0]) == Insn(BNE, 0, 8, 0, 4) && Plain(a[1]) == Insn(ADDI, 9, 9, 0, 1) && Plain(a[2]) == Insn(ADDI, 10, 10, 0, 1)
  {
    hide Chosen, FormRight, Plain, NodeOf, PlainItem, InText, FormsRight;
    SkipChosen(xlen);
    BumpChosen(xlen, 9, 4);
    BumpChosen(xlen, 10, 8);
    var cfg, a := Both(xlen), [NodeOf(SKIP, 0), NodeOf(BUMP9, 4), NodeOf(BUMP10, 8)];
    SkipsPlain(xlen);
    assert SKIP == SKIPS[0] && BUMP9 == SKIPS[1] && BUMP10 == SKIPS[2];
    NodeForm(cfg, SKIP, 0);
    NodeForm(cfg, BUMP9, 4);
    NodeForm(cfg, BUMP10, 8);
    AllRight(cfg, a);
    AllRight(Off(cfg), a);
  }

  lemma AllRight(cfg: Config, a: seq<Entry>)
    requires forall i :: 0 <= i < |a| ==> FormRight(cfg, a[i])
    ensures FormsRight(cfg, a)
  {
    hide FormRight;
  }

  lemma NodeForm(cfg: Config, i: P1.Item, addr: int)
    requires PlainItem(cfg, i)
    ensures InText(NodeOf(i, addr)) && !Chosen(Off(cfg), NodeOf(i, addr)) && P1.InstrSize(NodeOf(i, addr).op) == 4
    ensures FormRight(cfg, NodeOf(i, addr)) ==> FormRight(Off(cfg), NodeOf(i, addr))
  {
    hide TryMap, Conform16.Conforms;
    BaseSize(i.op);
  }

  /** The first two steps of a branch that is taken to offset 4 of straight code. */
  lemma TakenSteps(core: Core, xlen: Xlen, base: int, b: seq<Byte>, code: seq<Placed>, s: Machine.State, k: nat)
    requires Loaded(xlen, b, 0, code) && s.pc == 0 && |code| == 3 && code[0].insn == Insn(BNE, 0, 8, 0, 4)
    requires core.taken(BNE, Get(s.regs, 8), Get(s.regs, 0)) && k < 3 && (k == 1 || k == 2)
    requires if k == 1 then code[0].size == 4 else code[0].size + code[1].size == 4
    requires code[k].insn.op == ADDI && code[k].insn.rs1 == code[k].insn.rd && code[k].insn.imm == 1
    ensures var x, r := Run(core, xlen, base, b, s, 2), code[k].insn.rd;
            x.Some? && x.value.regs == Set(xlen, s.regs, r, core.alu(ADDI, Get(s.regs, r), 1)) && x.value.mem == s.mem
  {
    hide Fetch, Modulus, Set, Get, Loaded;
    LoadedAt(xlen, b, 0, code, 0);
    LoadedAt(xlen, b, 0, code, k);
    assert Span(code, k) == 4 by { assert Span(code[1..], 0) == 0 && (k == 2 ==> Span(code[1..], 1) == code[1].size); }
    var t := Step(core, xlen, base, code[0].insn, code[0].size, s);
    TakenBranch(core, xlen, base, code[0].size, s);
    hide Step;
    var u := Step(core, xlen, base, code[k].insn, code[k].size, t);
    assert Run(core, xlen, base, b, u, 0) == Some(u) && Run(core, xlen, base, b, t, 1) == Some(u);
    StepEffect(core, xlen, base, code[k].insn, code[k].size, t);
  }

  lemma TakenBranch(core: Core, xlen: Xlen, base: int, len: int, s: Machine.State)
    requires s.pc == 0 && core.taken(BNE, Get(s.regs, 8), Get(s.regs, 0))
    ensures Step(core, xlen, base, Insn(BNE, 0, 8, 0, 4), len, s) == s.(pc := 4)
  {}

  /** The branch leads to the next instruction and is itself compressed, so it leads past it. */
  predicate BranchLost(cfg: Config, a: seq<Entry>) {
    var c, d := SourceCode(cfg, a), SourceCode(Off(cfg), a);
    |Instrs(a)| == |c| == |d| == 3 && Span(d, 0) + 4 == Span(d, 1) && Span(c, 0) + 4 != Span(c, 1) && !NoneChosen(cfg, Instrs(a), 0, 1)
  }

  lemma FirstSpan(code: seq<Placed>)
    requires code != []
    ensures Span(code, 0) == 0 && Span(code, 1) == code[0].size
  {
    assert Span(code[1..], 0) == 0;
  }

  lemma SkipsLost(xlen: Xlen)
    ensures BranchLost(Both(xlen), [NodeOf(SKIP, 0), NodeOf(BUMP9, 4), NodeOf(BUMP10, 8)])
  {
    hide NodeOf, Chosen, FormRight, Plain, Instrs, SourceCode, InText, SizeIn, Span;
    var cfg, a := Both(xlen), [NodeOf(SKIP, 0), NodeOf(BUMP9, 4), NodeOf(BUMP10, 8)];
    SkipsRight(xlen);
    SkipChosen(xlen);
    ThreeCode(cfg, a);
    ThreeCode(Off(cfg), a);
    InstrsLength(cfg, a);
    InstrsStep(a);
    assert Chosen(cfg, Instrs(a)[0]);
    FirstSpan(SourceCode(Off(cfg), a));
    DestinationKept(cfg, a, 0, 1, 4);
  }

  /** The two texts read the same, and the branch, when it is taken, goes to the first increment
      in one and to the second in the other: branches by a number are not straight-line code. */
  lemma BranchTells(core: Core, base: int, xlen: Xlen, fmt: OutFormat, s: Machine.State)
    requires s.pc == 0 && core.taken(BNE, Get(s.regs, 8), Get(s.regs, 0))
    ensures var cfg := Both(xlen);
            && Good(cfg, fmt, SKIPS) && Good(Off(cfg), fmt, SKIPS)
            && Unlabelled(P1.After(SKIPS).nodes) && FormsRight(cfg, P1.After(SKIPS).nodes) && BranchLost(cfg, P1.After(SKIPS).nodes)
            && AllEmittable(cfg, P1.After(SKIPS).syms, Final(cfg, SKIPS))
            && AllEmittable(Off(cfg), P1.After(SKIPS).syms, Final(Off(cfg), SKIPS))
            && var x, y := Run(core, xlen, base, TextOf(cfg, SKIPS), s, 2), Run(core, xlen, base, TextOf(Off(cfg), SKIPS), s, 2);
               && x.Some? && x.value.regs == Set(xlen, s.regs, 10, core.alu(ADDI, Get(s.regs, 10), 1))
               && y.Some? && y.value.regs == Set(xlen, s.regs, 9, core.alu(ADDI, Get(s.regs, 9), 1))
  {
    hide P1.After, Final, SKIPS, NodeOf, SourceCode, TextOf, Run, Loaded, Modulus, Get, Set, Plain, SizeIn, AllEmittable, Good, FormsRight,
      Unlabelled, P1.AllProper, PlainItems, Span, InText, BranchLost;
    var cfg, a := Both(xlen), [NodeOf(SKIP, 0), NodeOf(BUMP9, 4), NodeOf(BUMP10, 8)];
    SkipsPlain(xlen);
    PlainAssembles(cfg, fmt, SKIPS);
    PlainAssembles(Off(cfg), fmt, SKIPS);
    NoLabels(cfg, SKIPS);
    SkipsNodes(xlen);
    SkipsRight(xlen);
    SkipsLost(xlen);
    TextLoaded(cfg, fmt, SKIPS);
    TextLoaded(Off(cfg), fmt, SKIPS);
    ThreeCode(cfg, a);
    ThreeCode(Off(cfg), a);
    TakenSteps(core, xlen, base, TextOf(cfg, SKIPS), SourceCode(cfg, a), s, 2);
    TakenSteps(core, xlen, base, TextOf(Off(cfg), SKIPS), SourceCode(Off(cfg), a), s, 1);
  }
}
