/** The meaning of a source program, item by item, and the proof that the emitted bytes carry
    it out: a labelled branch goes on at its label's item. */
module Source {
  import opened Isa
  import opened Bits
  import opened Ir
  import opened Symtab
  import opened Bytes
  import opened Out
  import opened Compress
  import opened Layout
  import opened Emit
  import opened Survive
  import opened Agree
  import opened Disasm
  import opened Whole
  import opened Programs
  import opened Straight
  import opened Lockstep
  import M = Machine
  import Conform16
  import Decode16
  import Decode32
  import P1 = Pass1

  // ------------------------------------------------- what the source means

  /** Where a program stands, as its author sees it: before which item, with what registers
      and memory. */
  datatype Point = Point(at: nat, regs: M.Registers, mem: M.Memory)

  /** The item is an instruction of the text section. */
  predicate IsCode(items: seq<P1.Item>, k: nat)
    requires P1.AllProper(items) && k < |items|
  {
    P1.AfterPrefix(items, k);
    items[k].Instr? && P1.SectionAt(items, k) == Text
  }

  /** The next instruction from item m on. */
  function NextCode(items: seq<P1.Item>, m: nat): (r: Option<nat>)
    requires P1.AllProper(items) && m <= |items|
    ensures r.Some? ==> m <= r.value < |items| && IsCode(items, r.value)
    decreases |items| - m
  {
    if m == |items| then None else if IsCode(items, m) then Some(m) else NextCode(items, m + 1)
  }

  /** The first definition of a label, from item m on. */
  function LabelItem(items: seq<P1.Item>, name: string, m: nat): (r: Option<nat>)
    requires m <= |items|
    ensures r.Some? ==> m <= r.value < |items| && items[r.value] == P1.Label(name) && forall j :: m <= j < r.value ==> items[j] != P1.Label(name)
    decreases |items| - m
  {
    if m == |items| then None else if items[m] == P1.Label(name) then Some(m) else LabelItem(items, name, m + 1)
  }

  /** The offset of item m in the finished text, which AUIPC, links and JALR deal in. */
  function Loc(cfg: Config, items: seq<P1.Item>, m: nat): int
    requires P1.AllProper(items) && m <= |items|
  {
    LabelOffset(cfg, items, m, Text)
  }

  /** The first item from m on that stands at an offset. */
  function ItemAt(cfg: Config, items: seq<P1.Item>, pc: int, m: nat): (r: Option<nat>)
    requires P1.AllProper(items) && m <= |items|
    ensures r.Some? ==> r.value <= |items| && Loc(cfg, items, r.value) == pc
    decreases |items| - m
  {
    if Loc(cfg, items, m) == pc then Some(m) else if m == |items| then None else ItemAt(cfg, items, pc, m + 1)
  }

  /** The instruction an item spells, its label apart. */
  function ItemInsn(i: P1.Item): Insn
    requires i.Instr?
  {
    match i.op
    case Base(op) => Decode32.Meaning(op, i.rd, i.rs1, i.rs2, i.imm)
    case Comp(op) => Decode16.Meaning(op, i.rd, i.rs1, i.rs2, i.imm)
  }

  /** Execute the next instruction. A taken transfer to a label goes on at the label's first
      definition; one by a number or a register goes on at the item that stands there. None if
      there is no next instruction or no such item. */
  function Execute(core: M.Core, cfg: Config, base: int, items: seq<P1.Item>, p: Point): Option<Point>
    requires P1.AllProper(items) && p.at <= |items|
  {
    var next := NextCode(items, p.at);
    if next.None? then None
    else
      var k := next.value;
      var i := items[k];
      var s := M.State(Loc(cfg, items, k), p.regs, p.mem);
      var r := M.Step(core, cfg.xlen, base, ItemInsn(i), Loc(cfg, items, k + 1) - Loc(cfg, items, k), s);
      var to :=
        if i.target.None? then ItemAt(cfg, items, r.pc, 0)
        else if Departs(core, ItemInsn(i), s) then LabelItem(items, i.target.value, 0)
        else Some(k + 1);
      if to.None? then None else Some(Point(to.value, r.regs, r.mem))
  }

  lemma ExecuteStays(core: M.Core, cfg: Config, base: int, items: seq<P1.Item>, p: Point)
    requires P1.AllProper(items) && p.at <= |items|
    ensures Execute(core, cfg, base, items, p).Some? ==> Execute(core, cfg, base, items, p).value.at <= |items|
  {
    hide P1.AllProper, Loc, M.Step, ItemInsn, IsCode;
  }

  /** n instructions. */
  function ExecuteAll(core: M.Core, cfg: Config, base: int, items: seq<P1.Item>, p: Point, n: nat): Option<Point>
    requires P1.AllProper(items) && p.at <= |items|
    decreases n
  {
    if n == 0 then Some(p)
    else
      ExecuteStays(core, cfg, base, items, p);
      var q := Execute(core, cfg, base, items, p);
      if q.None? then None else ExecuteAll(core, cfg, base, items, q.value, n - 1)
  }

  // ------------------------------------------------- where items stand

  /** The entry of an instruction item in the final list. */
  function EntryOf(cfg: Config, items: seq<P1.Item>, k: nat): Entry
    requires P1.AllProper(items) && k < |items| && items[k].Instr?
  {
    ItemIsEntry(cfg, items, k);
    Final(cfg, items)[PlaceOf(items, k)]
  }

  lemma {:induction false} TotalAppend(p: seq<Entry>, e: Entry, sect: Section)
    ensures Total(p + [e], sect) == Total(p, sect) + (if e.sect == sect then e.size else 0)
    decreases |p|
  {
    if p == [] {
      assert p + [e] == [e] && [e][1..] == [];
    } else {
      assert (p + [e])[1..] == p[1..] + [e];
      TotalAppend(p[1..], e, sect);
    }
  }

  /** How many entries item k leaves. */
  lemma PlaceNext(items: seq<P1.Item>, k: nat)
    requires P1.AllProper(items) && k < |items|
    ensures P1.AllProper(items[..k + 1]) && P1.AllProper(items[..k])
    ensures var a, n := P1.After(items).nodes, |P1.After(items[..k]).nodes|;
            var n' := |P1.After(items[..k + 1]).nodes|;
            && n <= n' <= n + 1 && n' <= |a|
            && (n' == n + 1 ==> a[n].sect == P1.SectionAt(items, k) && (a[n].kind == KInstr <==> items[k].Instr?))
            && (items[k].Instr? ==> n' == n + 1)
  {
    hide P1.After, P1.Step, P1.AllProper, P1.Proper;
    P1.AfterPrefix(items, k);
    P1.AfterGrows(items, k + 1);
    P1.SectionIs(items, k);
    StepLeaves(P1.After(items[..k]), items[k]);
  }

  lemma StepLeaves(s: P1.State, i: P1.Item)
    requires P1.Proper(i)
    ensures var r := P1.Step(s, i).nodes;
            && s.nodes <= r && |r| <= |s.nodes| + 1
            && (|r| > |s.nodes| ==> r[|s.nodes|].sect == s.sect && (r[|s.nodes|].kind == KInstr <==> i.Instr?))
            && (i.Instr? ==> |r| == |s.nodes| + 1)
  {
    hide Align.AlignPad, IsCFmt, FmtOf, LabelFits;
  }

  /** Item k takes the bytes of its instruction, and no other item takes any. */
  lemma LocNext(cfg: Config, fmt: OutFormat, items: seq<P1.Item>, k: nat)
    requires Good(cfg, fmt, items) && k < |items|
    ensures Loc(cfg, items, k + 1) == Loc(cfg, items, k) + (if IsCode(items, k) then EntryOf(cfg, items, k).size else 0)
  {
    hide P1.After, P1.AllProper, Final, Total, AllEmittable, Checked, LaidOut, DataFirst, SectBytes;
    GoodProper(cfg, fmt, items);
    GoodRun(cfg, fmt, items);
    PlaceNext(items, k);
    P1.AfterGrows(items, k + 1);
    P1.AfterGrows(items, k);
    var p, n := Final(cfg, items), |P1.After(items[..k]).nodes|;
    var n' := |P1.After(items[..k + 1]).nodes|;
    if n' == n + 1 {
      assert p[..n'] == p[..n] + [p[n]] && p[n] in p;
      TotalAppend(p[..n], p[n], Text);
      FinalEntry(cfg, items, n);
    }
  }

  /** What an emitted text entry shows at its address. */
  lemma FetchEntry(cfg: Config, syms: Symbols, p: seq<Entry>, i: nat)
    requires Wf(p) && AllEmittable(cfg, syms, p) && DataSizes(p) && i < |p| && p[i].kind == KInstr && p[i].sect == Text
    requires Kept(cfg, p[i]) && ChoiceResolved(syms, p[i])
    requires Settled(p, Text, 0) && Total(p, Text) < TWO31
    ensures var e := p[i];
            && e.addr == Total(p[..i], Text) && Immediate(syms, e.target, e.reloc, e.imm, e.addr).Some?
            && 0 <= e.addr < TWO31 && e.size >= 2
            && (Faithful(syms, e) ==> M.Fetch(cfg.xlen, SectBytes(cfg, syms, p, Text), e.addr) == Some((Intended(syms, e), e.size)))
  {
    hide Settled, Total, Kept, ChoiceResolved, SectBytes, Intended, Faithful, Immediate, Read, Chunk, WfInstr, CodeInsn, NodeCode, Packed;
    var e, b := p[i], SectBytes(cfg, syms, p, Text);
    LayoutAgrees(cfg, syms, p, Text, i);
    SettledPacked(p, Text, 0);
    PackedAt(p, Text, 0, i);
    BytesTotal(cfg, syms, p, Text, 0);
    SomeBytes(cfg, syms, e);
    Rejoin(b, e.addr, e.size);
    ShowsOne(cfg, syms, e, b, e.addr, b[e.addr + e.size..]);
    assert !NodeCode(cfg, syms, e).Fail? by { CodeThere(cfg, syms, e); }
    assert Kept(cfg, e);
    assert WfInstr(e) && Derived(cfg, e) by { KeptInstr(cfg, e); }
    CodeDenotes(cfg, syms, e);
  }

  lemma KeptInstr(cfg: Config, e: Entry)
    requires Kept(cfg, e) && e.kind == KInstr
    ensures WfInstr(e) && Derived(cfg, e)
  {}

  lemma CodeThere(cfg: Config, syms: Symbols, e: Entry)
    requires e.kind == KInstr && WfInstr(e) && Chunk(cfg, syms, e).Some?
    ensures !NodeCode(cfg, syms, e).Fail?
  {
    hide WfInstr, NodeCode, WordBytes, HalfBytes;
  }

  /** Every text instruction is emitted in a layout that agrees with the manual. */
  predicate AllFaithful(cfg: Config, items: seq<P1.Item>)
    requires P1.AllProper(items)
  {
    forall e :: e in Final(cfg, items) && InText(e) ==>
      Immediate(P1.After(items).syms, e.target, e.reloc, e.imm, e.addr).Some? && Faithful(P1.After(items).syms, e)
  }

  /** The bytes at an instruction item's place. */
  lemma ItemFetched(cfg: Config, fmt: OutFormat, items: seq<P1.Item>, k: nat)
    requires Good(cfg, fmt, items) && AllFaithful(cfg, items) && k < |items| && IsCode(items, k)
    ensures AllEmittable(cfg, P1.After(items).syms, Final(cfg, items))
    ensures var syms, e := P1.After(items).syms, EntryOf(cfg, items, k);
            && e.addr == Loc(cfg, items, k) && Loc(cfg, items, k + 1) == e.addr + e.size && 0 <= e.addr < TWO31
            && Becomes(items[k], Text, e) && e.kind == KInstr && WfInstr(e)
            && Immediate(syms, e.target, e.reloc, e.imm, e.addr).Some?
            && M.Fetch(cfg.xlen, TextOf(cfg, items), e.addr) == Some((Intended(syms, e), e.size))
  {
    hide P1.After, P1.AllProper, Final, Total, AllEmittable, Kept, ChoiceResolved, DataFirst, SectBytes, Intended, Faithful, Immediate,
      Settled, WfInstr, M.Fetch, Checked, TextIsCode;
    GoodProper(cfg, fmt, items);
    GoodRun(cfg, fmt, items);
    LocNext(cfg, fmt, items, k);
    ItemIsEntry(cfg, items, k);
    P1.AfterGrows(items, k);
    P1.AfterPrefix(items, k);
    var p, n := Final(cfg, items), PlaceOf(items, k);
    assert p[n] in p;
    FinalKept(cfg, items, n);
    FetchEntry(cfg, P1.After(items).syms, p, n);
    assert WfInstr(p[n]) by { KeptInstr(cfg, p[n]); }
  }

  lemma FinalKept(cfg: Config, items: seq<P1.Item>, n: nat)
    requires P1.AllProper(items) && LaidOut(cfg, items) && n < |Final(cfg, items)|
    ensures Kept(cfg, Final(cfg, items)[n]) && ChoiceResolved(P1.After(items).syms, Final(cfg, items)[n])
  {
    hide Kept, ChoiceResolved, Settled, SameEntry, P1.After;
  }

  // ------------------------------------------------- one instruction

  /** The label of a transfer is defined in the text and nothing has slipped before it. */
  predicate LabelGood(cfg: Config, items: seq<P1.Item>, i: P1.Item)
    requires P1.AllProper(items) && i.Instr?
  {
    i.target.Some? ==>
      var m := LabelItem(items, i.target.value, 0);
      && (i.reloc == Boff || i.reloc == Jtgt)
      && m.Some? && DefinedAt(items, m.value, i.target.value, Text) && Slack(cfg, items, m.value, Text) == 0
  }

  /** All labels used in the text are like that. */
  predicate Linked(cfg: Config, items: seq<P1.Item>)
    requires P1.AllProper(items)
  {
    forall k :: 0 <= k < |items| && IsCode(items, k) ==> LabelGood(cfg, items, items[k])
  }

  lemma SpeltAs(syms: Symbols, i: P1.Item, e: Entry)
    requires P1.Proper(i) && i.Instr? && Becomes(i, Text, e) && i.target.None?
    requires Immediate(syms, e.target, e.reloc, e.imm, e.addr).Some?
    ensures Intended(syms, e) == ItemInsn(i)
  {
    hide LabelFits, Decode16.Meaning, Decode32.Meaning;
  }

  lemma LabelledFormat(i: P1.Item)
    requires P1.Proper(i) && i.Instr? && i.target.Some? && (i.reloc == Boff || i.reloc == Jtgt)
    ensures BaseFmt(ItemInsn(i).op).FmtB? || BaseFmt(ItemInsn(i).op).FmtJ?
  {
    match i.op
    case Base(op) => SameOp(op, i.rd, i.rs1, i.rs2, i.imm);
    case Comp(op) => TransferOps(op, i.rd, i.rs1, i.rs2, i.imm); CompTransfer(op);
  }

  lemma CompTransfer(op: COp)
    ensures PcRelative(op) <==> CFmt(op).FmtCB? || CFmt(op).FmtCJ?
    ensures IsCFmt(CFmt(op))
  {}

  lemma TransferImmediate(syms: Symbols, e: Entry, name: string)
    requires WfInstr(e) && Transfer(e, name) && name in syms && 0 <= syms[name] < TWO31 && 0 <= e.addr < TWO31
    ensures Immediate(syms, e.target, e.reloc, e.imm, e.addr) == Some(syms[name] - e.addr)
  {
    hide WfInstr, Intended;
    TransferOffset(syms, e, name);
  }

  lemma LabelledInsn(syms: Symbols, i: P1.Item, e: Entry, name: string)
    requires P1.Proper(i) && i.Instr? && Becomes(i, Text, e) && e.kind == KInstr && WfInstr(e)
    requires i.target == Some(name) && (i.reloc == Boff || i.reloc == Jtgt)
    requires name in syms && 0 <= syms[name] < TWO31 && 0 <= e.addr < TWO31
    requires Immediate(syms, e.target, e.reloc, e.imm, e.addr).Some?
    ensures Intended(syms, e) == ItemInsn(i).(imm := syms[name] - e.addr)
  {
    hide Decode16.Meaning, Decode32.Meaning, LabelFits, FmtOf, ResolveLabel, P1.Proper, WfInstr;
    hide Immediate;
    TransferImmediate(syms, e, name);
    match i.op
    case Base(op) => BaseLabel(op, i); OtherBaseOffset(op, e.rd, e.rs1, e.rs2, e.imm, syms[name] - e.addr);
    case Comp(op) => CompLabel(op, i); OtherOffset(op, e.rd, e.rs1, e.rs2, e.imm, syms[name] - e.addr);
  }

  lemma BaseLabel(op: BaseOp, i: P1.Item)
    requires P1.Proper(i) && i.Instr? && i.op == Base(op) && i.target.Some? && (i.reloc == Boff || i.reloc == Jtgt)
    ensures BaseFmt(op).FmtB? || BaseFmt(op).FmtJ?
  {}

  lemma CompLabel(op: COp, i: P1.Item)
    requires P1.Proper(i) && i.Instr? && i.op == Comp(op) && i.target.Some? && (i.reloc == Boff || i.reloc == Jtgt)
    ensures PcRelative(op)
  {
    CompTransfer(op);
  }

  /** The machine stands where the program stands. */
  predicate Carries(cfg: Config, items: seq<P1.Item>, p: Point, s: M.State)
    requires P1.AllProper(items)
  {
    p.at <= |items| && s == M.State(Loc(cfg, items, p.at), p.regs, p.mem)
  }

  lemma {:induction false} NextStands(cfg: Config, fmt: OutFormat, items: seq<P1.Item>, m: nat)
    requires Good(cfg, fmt, items) && m <= |items|
    ensures var k := NextCode(items, m); Loc(cfg, items, m) == Loc(cfg, items, if k.Some? then k.value else |items|)
    decreases |items| - m
  {
    hide P1.AllProper, Loc, Good, IsCode, EntryOf;
    GoodProper(cfg, fmt, items);
    if m < |items| && !IsCode(items, m) {
      LocNext(cfg, fmt, items, m);
      NextStands(cfg, fmt, items, m + 1);
    }
  }

  lemma EndStands(cfg: Config, fmt: OutFormat, items: seq<P1.Item>)
    requires Good(cfg, fmt, items)
    ensures AllEmittable(cfg, P1.After(items).syms, Final(cfg, items)) && Loc(cfg, items, |items|) == |TextOf(cfg, items)|
  {
    hide P1.After, P1.AllProper, Final, Total, AllEmittable, Kept, ChoiceResolved, DataFirst, SectBytes, Settled, Checked, TextIsCode;
    GoodProper(cfg, fmt, items);
    GoodRun(cfg, fmt, items);
    BytesTotal(cfg, P1.After(items).syms, Final(cfg, items), Text, 0);
    assert items[..|items|] == items && Final(cfg, items)[..|Final(cfg, items)|] == Final(cfg, items);
    P1.AfterGrows(items, |items|);
  }

  /** A transfer by another displacement. */
  lemma OtherDisplacement(core: M.Core, xlen: Xlen, base: int, i: Insn, imm: int, len: int, s: M.State)
    requires BaseFmt(i.op).FmtB? || BaseFmt(i.op).FmtJ?
    ensures var r, t := M.Step(core, xlen, base, i, len, s), M.Step(core, xlen, base, i.(imm := imm), len, s);
            && t == M.State(if Departs(core, i, s) then s.pc + imm else s.pc + len, r.regs, r.mem)
  {
    hide M.Step, M.Set, M.Get, M.Modulus, BaseFmt;
    JalFormat(i.op);
    StepPc(core, xlen, base, i.(imm := imm), len, s);
    if BaseFmt(i.op).FmtB? {
      StepBranches(core, xlen, base, i, len, s);
      StepBranches(core, xlen, base, i.(imm := imm), len, s);
    } else {
      StepLinks(core, xlen, base, i, len, s);
      StepLinks(core, xlen, base, i.(imm := imm), len, s);
    }
  }

  /** A good label's value is where its item stands. */
  lemma LabelStands(cfg: Config, fmt: OutFormat, items: seq<P1.Item>, i: P1.Item) returns (m: nat)
    requires Good(cfg, fmt, items) && i.Instr? && i.target.Some? && LabelGood(cfg, items, i)
    ensures (i.reloc == Boff || i.reloc == Jtgt) && LabelItem(items, i.target.value, 0) == Some(m)
    ensures var syms := P1.After(items).syms;
            i.target.value in syms && 0 <= syms[i.target.value] < TWO31 && syms[i.target.value] == Loc(cfg, items, m)
  {
    hide P1.After, P1.AllProper, Final, Slack, LabelOffset, LaidOut, Len, DefinedAt, Converged, Assemble;
    m := LabelItem(items, i.target.value, 0).value;
    FinalLaidOut(cfg, items);
    LabelValue(cfg, items, m, i.target.value, Text);
  }

  /** A labelled transfer, executed from the bytes, goes on at its label's item. */
  lemma LabelReached(core: M.Core, cfg: Config, fmt: OutFormat, base: int, items: seq<P1.Item>, k: nat, s: M.State)
    requires Good(cfg, fmt, items) && AllFaithful(cfg, items) && Linked(cfg, items) && k < |items| && IsCode(items, k)
    requires items[k].target.Some? && s.pc == Loc(cfg, items, k)
    ensures var i, e, syms := items[k], EntryOf(cfg, items, k), P1.After(items).syms;
            && Immediate(syms, e.target, e.reloc, e.imm, e.addr).Some?
            && var m := LabelItem(items, i.target.value, 0);
               var r := M.Step(core, cfg.xlen, base, ItemInsn(i), e.size, s);
               && m.Some?
               && M.Step(core, cfg.xlen, base, Intended(syms, e), e.size, s) ==
                  M.State(Loc(cfg, items, if Departs(core, ItemInsn(i), s) then m.value else k + 1), r.regs, r.mem)
  {
    hide P1.After, P1.AllProper, Final, AllEmittable, AllFaithful, Loc, TextOf, Intended, Immediate, M.Step, M.Fetch, EntryOf, ItemInsn,
      Departs, Good, P1.Proper, WfInstr, Becomes, BaseFmt, LabelGood;
    GoodProper(cfg, fmt, items);
    P1.AfterPrefix(items, k);
    ItemFetched(cfg, fmt, items, k);
    var i, e, syms := items[k], EntryOf(cfg, items, k), P1.After(items).syms;
    assert LabelGood(cfg, items, i);
    var m := LabelStands(cfg, fmt, items, i);
    LabelledFormat(i);
    LabelledInsn(syms, i, e, i.target.value);
    OtherDisplacement(core, cfg.xlen, base, ItemInsn(i), syms[i.target.value] - e.addr, e.size, s);
  }

  /** One instruction of the program is one instruction of the machine. */
  lemma StepCarries(core: M.Core, cfg: Config, fmt: OutFormat, base: int, items: seq<P1.Item>, p: Point, s: M.State) returns (i: Insn, len: int)
    requires Good(cfg, fmt, items) && AllFaithful(cfg, items) && Linked(cfg, items) && Carries(cfg, items, p, s)
    requires Execute(core, cfg, base, items, p).Some?
    ensures AllEmittable(cfg, P1.After(items).syms, Final(cfg, items))
    ensures M.Fetch(cfg.xlen, TextOf(cfg, items), s.pc) == Some((i, len))
    ensures Carries(cfg, items, Execute(core, cfg, base, items, p).value, M.Step(core, cfg.xlen, base, i, len, s))
  {
    hide P1.After, P1.AllProper, Final, AllEmittable, AllFaithful, Linked, Loc, TextOf, Intended, Immediate, M.Step, M.Fetch, EntryOf,
      ItemInsn, Departs, P1.Proper, WfInstr, Becomes, Good;
    GoodProper(cfg, fmt, items);
    ExecuteStays(core, cfg, base, items, p);
    var k := NextCode(items, p.at).value;
    NextStands(cfg, fmt, items, p.at);
    ItemFetched(cfg, fmt, items, k);
    var e, syms := EntryOf(cfg, items, k), P1.After(items).syms;
    i, len := Intended(syms, e), e.size;
    if items[k].target.None? {
      P1.AfterPrefix(items, k);
      SpeltAs(syms, items[k], e);
    } else {
      LabelReached(core, cfg, fmt, base, items, k, s);
    }
  }

  /** As long as the source says what comes next, the machine does it: after n instructions it
      stands at the offset of the item where the program stands, with the program's registers
      and memory. */
  lemma {:induction false} RunCarries(core: M.Core, cfg: Config, fmt: OutFormat, base: int, items: seq<P1.Item>, p: Point, s: M.State, n: nat)
    requires Good(cfg, fmt, items) && AllFaithful(cfg, items) && Linked(cfg, items) && Carries(cfg, items, p, s)
    requires ExecuteAll(core, cfg, base, items, p, n).Some?
    ensures AllEmittable(cfg, P1.After(items).syms, Final(cfg, items))
    ensures var r := M.Run(core, cfg.xlen, base, TextOf(cfg, items), s, n);
            r.Some? && Carries(cfg, items, ExecuteAll(core, cfg, base, items, p, n).value, r.value)
    decreases n
  {
    hide P1.After, P1.AllProper, Final, AllEmittable, AllFaithful, Linked, TextOf, M.Step, M.Fetch, Execute, Good, Carries;
    GoodEmits(cfg, fmt, items);
    assert p.at <= |items| by { CarriesAt(cfg, items, p, s); }
    if n > 0 {
      ExecuteStays(core, cfg, base, items, p);
      var i, len := StepCarries(core, cfg, fmt, base, items, p, s);
      RunCarries(core, cfg, fmt, base, items, Execute(core, cfg, base, items, p).value, M.Step(core, cfg.xlen, base, i, len, s), n - 1);
    }
  }

  lemma CarriesAt(cfg: Config, items: seq<P1.Item>, p: Point, s: M.State)
    requires P1.AllProper(items) && Carries(cfg, items, p, s)
    ensures p.at <= |items|
  {}

  lemma GoodEmits(cfg: Config, fmt: OutFormat, items: seq<P1.Item>)
    requires Good(cfg, fmt, items)
    ensures P1.AllProper(items) && AllEmittable(cfg, P1.After(items).syms, Final(cfg, items))
  {
    hide P1.After, Final, AllEmittable, Good, SectBytes, LaidOut, DataFirst, TextIsCode, Checked;
    GoodProper(cfg, fmt, items);
    GoodRun(cfg, fmt, items);
  }

  /** Where the source ends, the machine fetches nothing. */
  lemma EndCarries(cfg: Config, fmt: OutFormat, items: seq<P1.Item>, p: Point, s: M.State)
    requires Good(cfg, fmt, items) && Carries(cfg, items, p, s) && NextCode(items, p.at).None?
    ensures AllEmittable(cfg, P1.After(items).syms, Final(cfg, items))
    ensures M.Fetch(cfg.xlen, TextOf(cfg, items), s.pc) == None
  {
    hide P1.After, P1.AllProper, Final, AllEmittable, TextOf, Good, Loc, IsCode, Read;
    GoodProper(cfg, fmt, items);
    NextStands(cfg, fmt, items, p.at);
    EndStands(cfg, fmt, items);
  }

  lemma StartCarries(cfg: Config, items: seq<P1.Item>, regs: M.Registers, mem: M.Memory)
    requires P1.AllProper(items)
    ensures Carries(cfg, items, Point(0, regs, mem), M.State(0, regs, mem))
  {
    NothingBefore(items);
    P1.AfterGrows(items, 0);
    hide P1.After;
    assert Total(Final(cfg, items)[..0], Text) == 0;
  }

  lemma NothingBefore(items: seq<P1.Item>)
    requires P1.AllProper(items)
    ensures P1.AllProper(items[..0]) && P1.After(items[..0]).nodes == []
  {}

  /** The emitted text carries out the source program: labels defined in the text with nothing
      slipped before them, layouts that agree with the manual. From the first byte the machine
      follows the source for as many instructions as the source defines, and stops where it ends. */
  lemma TextCarriesOut(core: M.Core, cfg: Config, fmt: OutFormat, base: int, items: seq<P1.Item>, regs: M.Registers, mem: M.Memory, n: nat)
    requires Good(cfg, fmt, items) && AllFaithful(cfg, items) && Linked(cfg, items)
    requires ExecuteAll(core, cfg, base, items, Point(0, regs, mem), n).Some?
    ensures AllEmittable(cfg, P1.After(items).syms, Final(cfg, items))
    ensures var q := ExecuteAll(core, cfg, base, items, Point(0, regs, mem), n).value;
            var r := M.Run(core, cfg.xlen, base, TextOf(cfg, items), M.State(0, regs, mem), n);
            && r.Some? && Carries(cfg, items, q, r.value)
            && (NextCode(items, q.at).None? ==> M.Fetch(cfg.xlen, TextOf(cfg, items), r.value.pc) == None)
  {
    hide P1.After, P1.AllProper, Final, AllEmittable, AllFaithful, Linked, TextOf, M.Run, M.Fetch, Execute, ExecuteAll, Good, Carries, NextCode;
    GoodProper(cfg, fmt, items);
    StartCarries(cfg, items, regs, mem);
    RunCarries(core, cfg, fmt, base, items, Point(0, regs, mem), M.State(0, regs, mem), n);
    var q := ExecuteAll(core, cfg, base, items, Point(0, regs, mem), n).value;
    var r := M.Run(core, cfg.xlen, base, TextOf(cfg, items), M.State(0, regs, mem), n).value;
    CarriesAt(cfg, items, q, r);
    if NextCode(items, q.at).None? { EndCarries(cfg, fmt, items, q, r); }
  }

  // ------------------------------------------------- a condition on the source alone

  /** Uncompressed instructions, and labels of branches and jumps only, defined in the text. */
  predicate PlainSource(items: seq<P1.Item>)
    requires P1.AllProper(items)
  {
    forall k :: 0 <= k < |items| && IsCode(items, k) ==> items[k].op.Base? && TextLabel(items, items[k])
  }

  predicate TextLabel(items: seq<P1.Item>, i: P1.Item)
    requires P1.AllProper(items) && i.Instr?
  {
    i.target.Some? ==>
      var m := LabelItem(items, i.target.value, 0);
      && (i.reloc == Boff || i.reloc == Jtgt)
      && m.Some? && P1.AllProper(items[..m.value]) && P1.SectionAt(items, m.value) == Text
  }

  lemma {:induction false} PaddingGrows(items: seq<P1.Item>, m: nat, sect: Section)
    requires P1.AllProper(items) && m <= |items|
    ensures P1.AllProper(items[..m]) && 0 <= Padding(items[..m], sect) <= Padding(items, sect)
    decreases |items|
  {
    hide P1.After, P1.AllProper, P1.Proper, Pads, Adds, Len;
    assert items[..|items|] == items;
    LenNotNegative(items, sect);
    if m < |items| {
      var n := |items| - 1;
      P1.AfterPrefix(items, n);
      PaddingGrows(items[..n], m, sect);
      assert items[..n][..m] == items[..m];
      LenNotNegative(items[..n], sect);
      PadsNotNegative(items[n], Len(items[..n], sect));
    }
  }

  lemma PlainLinked(cfg: Config, items: seq<P1.Item>)
    requires P1.AllProper(items) && PlainSource(items) && !(cfg.hasC && cfg.autoC) && Padding(items, Text) == 0
    ensures Linked(cfg, items)
  {
    hide P1.After, P1.AllProper, Padding, Slack;
    forall k | 0 <= k < |items| && IsCode(items, k) ensures LabelGood(cfg, items, items[k]) {
      assert TextLabel(items, items[k]);
      if items[k].target.Some? {
        var m := LabelItem(items, items[k].target.value, 0).value;
        PaddingGrows(items, m, Text);
        NoSlack(cfg, items, m, Text);
      }
    }
  }

  lemma PlainFaithful(cfg: Config, fmt: OutFormat, items: seq<P1.Item>)
    requires Good(cfg, fmt, items) && PlainSource(items) && !(cfg.hasC && cfg.autoC)
    ensures AllFaithful(cfg, items)
  {
    hide P1.After, P1.AllProper, Final, Immediate, AllEmittable, Settled, Checked, Conform16.Conforms, SectBytes, Good, IsCode;
    GoodProper(cfg, fmt, items);
    var syms, p := P1.After(items).syms, Final(cfg, items);
    forall e | e in p && InText(e) ensures Immediate(syms, e.target, e.reloc, e.imm, e.addr).Some? && Faithful(syms, e) {
      var n :| 0 <= n < |p| && p[n] == e;
      var k := EveryEntryHasItem(cfg, items, n);
      PlainEntry(cfg, fmt, items, k);
    }
  }

  /** The entry of an uncompressed instruction has no choice and an uncompressed operation. */
  lemma PlainEntry(cfg: Config, fmt: OutFormat, items: seq<P1.Item>, k: nat)
    requires Good(cfg, fmt, items) && PlainSource(items) && !(cfg.hasC && cfg.autoC) && k < |items| && Emits(items[k])
    requires PlaceOf(items, k) < |Final(cfg, items)| && InText(Final(cfg, items)[PlaceOf(items, k)])
    ensures var syms, e := P1.After(items).syms, Final(cfg, items)[PlaceOf(items, k)];
            Immediate(syms, e.target, e.reloc, e.imm, e.addr).Some? && Faithful(syms, e)
  {
    hide P1.After, P1.AllProper, Final, Immediate, Settled, Checked, Conform16.Conforms, SectBytes, ChoiceResolved, TextIsCode, DataFirst, Total;
    GoodProper(cfg, fmt, items);
    GoodRun(cfg, fmt, items);
    ItemIsEntry(cfg, items, k);
    P1.AfterPrefix(items, k);
    var p, n := Final(cfg, items), PlaceOf(items, k);
    BecomesCode(items[k], P1.SectionAt(items, k), p[n]);
    assert IsCode(items, k);
    FinalKept(cfg, items, n);
    FetchEntry(cfg, P1.After(items).syms, p, n);
    Uncompressed(cfg, p[n]);
  }

  lemma BecomesCode(i: P1.Item, sect: Section, e: Entry)
    requires P1.Proper(i) && Emits(i) && Becomes(i, sect, e) && InText(e)
    ensures i.Instr? && sect == Text && e.op == i.op
  {
    hide LabelFits;
  }

  lemma Uncompressed(cfg: Config, e: Entry)
    requires Kept(cfg, e) && !(cfg.hasC && cfg.autoC)
    ensures e.choice.None?
  {
    hide WfInstr;
  }

  /** Without compression and padding the emitted text carries out every source program whose
      labels are in the text. */
  lemma PlainCarriesOut(core: M.Core, cfg: Config, fmt: OutFormat, base: int, items: seq<P1.Item>, regs: M.Registers, mem: M.Memory, n: nat)
    requires P1.AllProper(items) && Assemble(cfg, fmt, items).1 && Len(items, Text) < TWO31 && Len(items, Data) < TWO31
    requires PlainSource(items) && !(cfg.hasC && cfg.autoC) && Padding(items, Text) == 0
    requires ExecuteAll(core, cfg, base, items, Point(0, regs, mem), n).Some?
    ensures AllEmittable(cfg, P1.After(items).syms, Final(cfg, items))
    ensures var q := ExecuteAll(core, cfg, base, items, Point(0, regs, mem), n).value;
            var r := M.Run(core, cfg.xlen, base, TextOf(cfg, items), M.State(0, regs, mem), n);
            && r.Some? && Carries(cfg, items, q, r.value)
            && (NextCode(items, q.at).None? ==> M.Fetch(cfg.xlen, TextOf(cfg, items), r.value.pc) == None)
  {
    hide P1.After, P1.AllProper, Final, AllEmittable, AllFaithful, Linked, PlainSource, TextOf, M.Run, M.Fetch, ExecuteAll, Carries, NextCode,
      Assemble, Len, Padding;
    PlainLinked(cfg, items);
    PlainFaithful(cfg, fmt, items);
    TextCarriesOut(core, cfg, fmt, base, items, regs, mem, n);
  }
}
