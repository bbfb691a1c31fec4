/** What a successful assembly means for a reader of its sections. */
module Programs {
  import opened Isa
  import opened Bits
  import opened Ir
  import opened Align
  import opened Symtab
  import opened Bytes
  import opened Out
  import CRules
  import opened Compress
  import opened Layout
  import opened Emit
  import opened Survive
  import opened Agree
  import opened Disasm
  import opened Whole
  import Encode16
  import Encode32
  import Decode16
  import Decode32
  import P1 = Pass1

  /** A successful run whose relaxation converged, with sections below 2 GiB. */
  predicate Good(cfg: Config, fmt: OutFormat, items: seq<P1.Item>) {
    && P1.AllProper(items)
    && Assemble(cfg, fmt, items).1
    && Converged(cfg, P1.After(items).syms, P1.After(items).nodes)
    && Len(items, Text) < TWO31 && Len(items, Data) < TWO31
  }

  lemma GoodProper(cfg: Config, fmt: OutFormat, items: seq<P1.Item>)
    requires Good(cfg, fmt, items)
    ensures P1.AllProper(items)
  {
    hide P1.After, Final, Len, Converged, Assemble;
  }

  /** The text bytes of the run. */
  function TextOf(cfg: Config, items: seq<P1.Item>): seq<Byte>
    requires P1.AllProper(items) && AllEmittable(cfg, P1.After(items).syms, Final(cfg, items))
  {
    SectBytes(cfg, P1.After(items).syms, Final(cfg, items), Text)
  }

  function DataOf(cfg: Config, items: seq<P1.Item>): seq<Byte>
    requires P1.AllProper(items) && AllEmittable(cfg, P1.After(items).syms, Final(cfg, items))
  {
    SectBytes(cfg, P1.After(items).syms, Final(cfg, items), Data)
  }

  lemma PaddingIsEmpty(cfg: Config, items: seq<P1.Item>, i: nat)
    requires P1.AllProper(items) && LaidOut(cfg, items) && i < |Final(cfg, items)| && Final(cfg, items)[i].kind == KAlign
    ensures Final(cfg, items)[i].size == 0
  {
    var a, p := P1.After(items).nodes, Final(cfg, items);
    P1.AfterRaw(items);
    assert SameEntry(a[i], p[i]) && P1.Raw(a[i]) && Kept(cfg, p[i]);
    hide Final, P1.After, Settled, Kept;
    var at := SettledAt(p, p[i].sect, 0, i);
    LaidSize(cfg, a[i], p[i], at);
    PlainPadding(cfg, p[i]);
  }

  lemma GoodRun(cfg: Config, fmt: OutFormat, items: seq<P1.Item>)
    requires Good(cfg, fmt, items)
    ensures LaidOut(cfg, items) && AllEmittable(cfg, P1.After(items).syms, Final(cfg, items)) && DataFirst(Final(cfg, items))
    ensures TextIsCode(Final(cfg, items)) && Checked(cfg, P1.After(items).syms, Final(cfg, items))
    ensures Total(Final(cfg, items), Text) < TWO31 && Total(Final(cfg, items), Data) < TWO31
    ensures var sink := Assemble(cfg, fmt, items).0.sink;
            && (fmt == Elf ==> sink.text == TextOf(cfg, items) && sink.data == DataOf(cfg, items))
            && (fmt == Raw ==> sink.raw == Some(DataOf(cfg, items) + TextOf(cfg, items)))
  {
    hide Final, P1.After, Settled, Kept, ChoiceResolved, EmitAll, DataFirst, SectBytes;
    var syms, p := P1.After(items).syms, Final(cfg, items);
    FinalLaidOut(cfg, items);
    FinalFits(cfg, items, Text);
    FinalFits(cfg, items, Data);
    EmitAllWrites(cfg, syms, p, Start(fmt));
    assert KeptAll(cfg, p) && forall i :: 0 <= i < |p| ==> ChoiceResolved(syms, p[i]);
    forall e | e in p && e.sect == Text ensures Kept(cfg, e) && ChoiceResolved(syms, e) {
      var i :| 0 <= i < |p| && p[i] == e;
    }
    forall e | e in p && e.sect == Text && e.kind != KInstr ensures e.kind == KAlign && e.size == 0 {
      var i :| 0 <= i < |p| && p[i] == e;
      if e.kind == KAlign { PaddingIsEmpty(cfg, items, i); }
    }
  }

  /** Disassembling the emitted text visits exactly the instructions at their addresses and
      reads back the program, and every datum reads back at its address. */
  lemma ProgramReadsBack(cfg: Config, fmt: OutFormat, items: seq<P1.Item>)
    requires Good(cfg, fmt, items)
    ensures AllEmittable(cfg, P1.After(items).syms, Final(cfg, items))
    ensures Lists(P1.After(items).syms, Final(cfg, items), Read(cfg.xlen, TextOf(cfg, items), 0))
    ensures forall i :: 0 <= i < |Final(cfg, items)| && Final(cfg, items)[i].kind == KData ==>
              var e, b := Final(cfg, items)[i], DataOf(cfg, items);
              && e.sect == Data && e.size in {1, 2, 4, 8} && 0 <= e.addr && e.addr + e.size <= |b|
              && FromLe(b[e.addr..e.addr + e.size]) == e.imm % Pow256(e.size)
  {
    hide Final, P1.After, AllEmittable, SectBytes, Lists, TextIsCode, Checked, Total, Settled, DataSizes, FromLe, Pow256;
    var syms, p := P1.After(items).syms, Final(cfg, items);
    GoodRun(cfg, fmt, items);
    TextReadsBack(cfg, syms, p);
    forall i | 0 <= i < |p| && p[i].kind == KData
      ensures var e, b := p[i], DataOf(cfg, items);
              && e.sect == Data && e.size in {1, 2, 4, 8} && 0 <= e.addr && e.addr + e.size <= |b|
              && FromLe(b[e.addr..e.addr + e.size]) == e.imm % Pow256(e.size)
    {
      DataReadsBack(cfg, syms, p, i);
    }
  }

  // ------------------------------------------------- compression rejects nothing

  /** In the layout pass 2 emits, converged or not, an entry whose compressed choice cannot be
      emitted could not have been emitted uncompressed either. */
  lemma CompressionNeverRejects(cfg: Config, items: seq<P1.Item>, i: nat)
    requires P1.AllProper(items) && i < |Final(cfg, items)| && Final(cfg, items)[i].choice.Some?
    ensures var syms, e := P1.After(items).syms, Final(cfg, items)[i];
            && e.kind == KInstr && WfInstr(e) && WfInstr(e.(choice := None))
            && (NodeCode(cfg, syms, e).Fail? ==> cfg.xlen == RV32 && e.op == Base(SD) && NodeCode(cfg, syms, e.(choice := None)).Fail?)
  {
    var syms, p := P1.After(items).syms, Final(cfg, items);
    PassOneKept(cfg, items);
    PrepareKeeps(cfg, syms, P1.After(items).nodes);
    assert Kept(cfg, p[i]);
    hide P1.After, Final, Prepare;
    ChosenIsInstr(cfg, p[i]);
    ChoiceEmits(cfg, syms, p[i]);
  }

  /** A compressed operation without a label is emitted if its encoder accepts. */
  lemma HalfEmits(cfg: Config, syms: Symbols, ch: Choice, addr: int)
    requires IsCFmt(ch.fmt) && Encode16.CEncode(cfg, ch.op, ch.fmt, ch.rd, ch.rs1, ch.rs2, ch.imm).Some?
    ensures CodeOf(cfg, syms, Comp(ch.op), ch.fmt, ch.rd, ch.rs1, ch.rs2, ch.imm, None, RelocNone, addr).Half?
  {
    hide Encode16.CEncode, Encode16.RequireC, IsCFmt;
    EncodesRequires(cfg, ch);
  }

  /** On RV32 a doubleword store has no 32-bit form. */
  lemma NoDoubleStore(cfg: Config, syms: Symbols, e: Entry)
    requires WfInstr(e) && e.choice.None? && cfg.xlen == RV32 && e.op == Base(SD)
    ensures NodeCode(cfg, syms, e).Fail?
  {
    hide Encode32.Encode, Immediate, LabelFits;
  }

  lemma ChoiceNode(cfg: Config, syms: Symbols, e: Entry)
    requires WfInstr(e) && Derived(cfg, e) && e.choice.Some?
    ensures IsCFmt(e.choice.value.fmt) && WfInstr(e.(choice := None))
    ensures var ch := e.choice.value;
            NodeCode(cfg, syms, e) == CodeOf(cfg, syms, Comp(ch.op), ch.fmt, ch.rd, ch.rs1, ch.rs2, ch.imm, None, RelocNone, e.addr)
  {
    hide CRules.TryMap, ChoiceMeaning, BaseMeaning, CodeOf, LabelFits, RangeOk, IsCFmt, CFmt, FmtOf;
    RulesKeepMeaning(cfg.xlen, e);
    CFormats();
  }

  lemma ChoiceEmits(cfg: Config, syms: Symbols, e: Entry)
    requires WfInstr(e) && Derived(cfg, e) && e.choice.Some?
    ensures WfInstr(e.(choice := None))
    ensures NodeCode(cfg, syms, e).Fail? ==> cfg.xlen == RV32 && e.op == Base(SD) && NodeCode(cfg, syms, e.(choice := None)).Fail?
  {
    hide NodeCode, CodeOf, Encode16.CEncode, Derived, WfInstr, IsCFmt;
    SurvivorEncodes(cfg, e);
    ChoiceNode(cfg, syms, e);
    var ch := e.choice.value;
    if Encode16.CEncode(cfg, ch.op, ch.fmt, ch.rd, ch.rs1, ch.rs2, ch.imm).Some? {
      HalfEmits(cfg, syms, ch, e.addr);
    } else {
      NoDoubleStore(cfg, syms, e.(choice := None));
    }
  }

  lemma EncodesRequires(cfg: Config, ch: Choice)
    requires Encode16.CEncode(cfg, ch.op, ch.fmt, ch.rd, ch.rs1, ch.rs2, ch.imm).Some?
    ensures Encode16.RequireC(cfg, ch.op)
  {
    hide Encode16.EncodeCI, Encode16.EncodeCR, Encode16.EncodeCA, Encode16.EncodeCSS, Encode16.EncodeCB, Encode16.EncodeCJ, Encode16.EncodeMem;
  }

  /** Range validation of a compressed branch or jump to a label keeps it exactly when the label
      is defined and the 16-bit encoder accepts the displacement from the entry's address. */
  lemma ValidationExact(cfg: Config, syms: Symbols, e: Entry, name: string)
    requires Derived(cfg, e) && e.choice.Some? && PcRelative(e.choice.value.op) && e.choice.value.target == Some(name) && name != ""
    ensures var ch, d := e.choice.value, ResolveLabel(syms, name, Boff, e.addr);
            ValidateOne(syms, e).choice.Some? <==>
            d.Some? && Encode16.CEncode(cfg, ch.op, ch.fmt, ch.rd, ch.rs1, ch.rs2, d.value).Some?
  {
    hide CRules.TryMap, Encode16.CEncode, Disp, U32, I32, RangeOk, ChoiceMeaning, BaseMeaning, Encode16.ForWidth;
    RulesAccepted(cfg, e);
    RulesKeepMeaning(cfg.xlen, e);
    var ch, t := e.choice.value, CRules.TryMap(cfg.xlen, e).value;
    NotAStore(cfg, e);
    if Lookup(syms, name) >= 0 {
      SameDisplacement(syms[name], e.addr);
      var d := Disp(e.addr, U32(syms[name]));
      if RangeOk(ch.op, d) { BranchOtherOffset(cfg, t.op, t.rd, t.rs1, t.rs2, t.imm, d); }
      if Encode16.CEncode(cfg, ch.op, ch.fmt, ch.rd, ch.rs1, ch.rs2, d).Some? { TransferInRange(cfg, ch.op, ch.rd, ch.rs1, ch.rs2, d); }
    }
  }

  lemma NotAStore(cfg: Config, e: Entry)
    requires CRules.TryMap(cfg.xlen, e).Some? && PcRelative(CRules.TryMap(cfg.xlen, e).value.op)
    ensures e.op != Base(SD)
  {
    hide CRules.TryMap;
    TransferRules(cfg.xlen, e);
  }

  // ------------------------------------------------- item by item

  /** What an unlabelled entry stands for, wherever it is placed. */
  function Plain(e: Entry): Insn {
    match e.op
    case Base(op) => Decode32.Meaning(op, e.rd, e.rs1, e.rs2, e.imm)
    case Comp(op) => Decode16.Meaning(op, e.rd, e.rs1, e.rs2, e.imm)
  }

  /** The entry an item becomes, before layout. */
  predicate Becomes(i: P1.Item, sect: Section, e: Entry)
    requires P1.Proper(i)
  {
    match i
    case Instr(op, rd, rs1, rs2, imm, target, reloc) =>
      e.kind == KInstr && e.op == op && e.rd == rd && e.rs1 == rs1 && e.rs2 == rs2 && e.imm == imm && e.target == target &&
      e.reloc == reloc && e.sect == sect
    case Value(v, n) => P1.InRange(v, n) ==> e.kind == KData && e.imm == v && e.size == n && e.sect == sect
    case Char(c) => e.kind == KData && e.imm == c && e.size == 1 && e.sect == sect
    case _ => true
  }

  /** The item leaves an entry that is emitted. */
  predicate Emits(i: P1.Item) {
    i.Instr? || i.Char? || (i.Value? && P1.InRange(i.value, i.size))
  }

  lemma StepBecomes(s: P1.State, i: P1.Item)
    requires P1.Proper(i) && Emits(i)
    ensures |P1.Step(s, i).nodes| == |s.nodes| + 1 && Becomes(i, s.sect, P1.Step(s, i).nodes[|s.nodes|])
  {
    hide AlignPad, IsCFmt, FmtOf;
  }

  lemma SameStays(i: P1.Item, sect: Section, a: Entry, b: Entry)
    requires P1.Proper(i) && Emits(i) && Becomes(i, sect, a) && SameEntry(a, b)
    ensures Becomes(i, sect, b)
  {
    hide LabelFits;
  }

  /** The place of an item's entry in the final list. */
  function PlaceOf(items: seq<P1.Item>, m: nat): nat
    requires P1.AllProper(items) && m < |items|
  {
    P1.AfterPrefix(items, m);
    |P1.After(items[..m]).nodes|
  }

  /** Each instruction and datum of the source has its own entry, in order, in the section it
      was written in, with its operands or value unchanged by both passes. */
  lemma ItemIsEntry(cfg: Config, items: seq<P1.Item>, m: nat)
    requires P1.AllProper(items) && m < |items| && Emits(items[m])
    ensures P1.AllProper(items[..m]) && P1.Proper(items[m]) && PlaceOf(items, m) < |Final(cfg, items)|
    ensures Becomes(items[m], P1.SectionAt(items, m), Final(cfg, items)[PlaceOf(items, m)])
  {
    hide P1.Step, P1.After, P1.Proper, Becomes, SameProgram, Prepare;
    P1.AfterPrefix(items, m);
    P1.AfterGrows(items, m + 1);
    var s := P1.After(items);
    StepBecomes(P1.After(items[..m]), items[m]);
    var k := PlaceOf(items, m);
    PrepareSame(cfg, s.syms, s.nodes);
    FinalEntry(cfg, items, k);
    P1.SectionIs(items, m);
    SameStays(items[m], P1.SectionAt(items, m), s.nodes[k], Final(cfg, items)[k]);
  }

  /** The entries stand in the order of the source. */
  lemma PlacesAscend(items: seq<P1.Item>, m: nat, m': nat)
    requires P1.AllProper(items) && m < m' < |items| && Emits(items[m])
    ensures PlaceOf(items, m) < PlaceOf(items, m')
  {
    hide P1.Step, P1.After, P1.Proper;
    P1.AfterPrefix(items, m);
    P1.AfterPrefix(items, m');
    StepBecomes(P1.After(items[..m]), items[m]);
    P1.AfterGrows(items[..m'], m + 1);
    assert items[..m'][..m + 1] == items[..m + 1];
  }

  lemma StepAddsOne(s: P1.State, i: P1.Item, k: nat)
    requires P1.Proper(i) && |s.nodes| <= k < |P1.Step(s, i).nodes| && P1.Step(s, i).nodes[k].kind != KAlign
    ensures k == |s.nodes| && Emits(i)
  {
    hide AlignPad, IsCFmt, FmtOf;
  }

  /** Every instruction or datum among pass 1's entries comes from an item. */
  lemma {:induction false} EntryHasItem(items: seq<P1.Item>, k: nat) returns (m: nat)
    requires P1.AllProper(items) && k < |P1.After(items).nodes| && P1.After(items).nodes[k].kind != KAlign
    ensures m < |items| && Emits(items[m]) && PlaceOf(items, m) == k
    decreases |items|
  {
    hide P1.Step, P1.Proper;
    var n := |items| - 1;
    P1.AfterPrefix(items, n);
    P1.AfterGrows(items, n);
    assert items[..n + 1] == items;
    if k < |P1.After(items[..n]).nodes| {
      m := EntryHasItem(items[..n], k);
      assert items[..n][..m] == items[..m];
    } else {
      StepAddsOne(P1.After(items[..n]), items[n], k);
      m := n;
    }
  }

  /** Every instruction or datum pass 2 emits is the entry of an item. */
  lemma EveryEntryHasItem(cfg: Config, items: seq<P1.Item>, k: nat) returns (m: nat)
    requires P1.AllProper(items) && k < |Final(cfg, items)| && Final(cfg, items)[k].kind != KAlign
    ensures m < |items| && Emits(items[m]) && PlaceOf(items, m) == k
  {
    hide P1.After, Prepare, PlaceOf;
    FinalEntry(cfg, items, k);
    m := EntryHasItem(items, k);
  }

  lemma FinalEntry(cfg: Config, items: seq<P1.Item>, k: nat)
    requires P1.AllProper(items) && k < |Final(cfg, items)|
    ensures SameEntry(P1.After(items).nodes[k], Final(cfg, items)[k])
  {
    hide P1.After, Prepare;
    PrepareSame(cfg, P1.After(items).syms, P1.After(items).nodes);
  }

  /** In a good run, the bytes of its section at the place of each source instruction read as
      that instruction, exactly when the layout used agrees with the manual. */
  lemma InstructionReadsBack(cfg: Config, fmt: OutFormat, items: seq<P1.Item>, m: nat)
    requires P1.AllProper(items) && Good(cfg, fmt, items) && m < |items| && items[m].Instr?
    ensures AllEmittable(cfg, P1.After(items).syms, Final(cfg, items)) && PlaceOf(items, m) < |Final(cfg, items)|
    ensures var syms, e := P1.After(items).syms, Final(cfg, items)[PlaceOf(items, m)];
            && P1.Proper(items[m]) && P1.AllProper(items[..m]) && Becomes(items[m], P1.SectionAt(items, m), e) && e.addr >= 0
            && Immediate(syms, e.target, e.reloc, e.imm, e.addr).Some?
            && (InsnAt(cfg.xlen, SectBytes(cfg, syms, Final(cfg, items), e.sect), e.addr) == Some(Intended(syms, e)) <==> Faithful(syms, e))
            && (items[m].target.None? ==> Intended(syms, e) == Plain(e))
  {
    hide P1.After, Final, Good, LaidOut, DataFirst, TextIsCode, Checked, TextOf, DataOf, Becomes, SectBytes, Total, Settled, InsnAt;
    ItemIsEntry(cfg, items, m);
    GoodRun(cfg, fmt, items);
    var k := PlaceOf(items, m);
    ReadEntry(cfg, items, k, items[m], P1.SectionAt(items, m));
  }

  lemma ReadEntry(cfg: Config, items: seq<P1.Item>, k: nat, i: P1.Item, sect: Section)
    requires P1.AllProper(items) && k < |Final(cfg, items)| && P1.Proper(i) && i.Instr? && Becomes(i, sect, Final(cfg, items)[k])
    requires LaidOut(cfg, items) && AllEmittable(cfg, P1.After(items).syms, Final(cfg, items))
    requires Total(Final(cfg, items), Text) < TWO31 && Total(Final(cfg, items), Data) < TWO31
    ensures var syms, e := P1.After(items).syms, Final(cfg, items)[k];
            && e.addr >= 0 && Immediate(syms, e.target, e.reloc, e.imm, e.addr).Some?
            && (InsnAt(cfg.xlen, SectBytes(cfg, syms, Final(cfg, items), e.sect), e.addr) == Some(Intended(syms, e)) <==> Faithful(syms, e))
            && (i.target.None? ==> Intended(syms, e) == Plain(e))
  {
    hide P1.After, Final, SectBytes, Total, Settled, InsnAt, Kept, ChoiceResolved, Faithful, LabelFits;
    assert KeptAll(cfg, Final(cfg, items));
    EntryReadsBack(cfg, P1.After(items).syms, Final(cfg, items), k);
  }

  /** In a good run, the data bytes at the place of each source datum are its value modulo
      256^size. */
  lemma DatumReadsBack(cfg: Config, fmt: OutFormat, items: seq<P1.Item>, m: nat)
    requires P1.AllProper(items) && Good(cfg, fmt, items) && m < |items| && Emits(items[m]) && !items[m].Instr?
    ensures AllEmittable(cfg, P1.After(items).syms, Final(cfg, items)) && PlaceOf(items, m) < |Final(cfg, items)|
    ensures var e, b := Final(cfg, items)[PlaceOf(items, m)], DataOf(cfg, items);
            var n := if items[m].Char? then 1 else items[m].size;
            && 0 <= e.addr && 0 <= n && e.addr + n <= |b|
            && FromLe(b[e.addr..e.addr + n]) == (if items[m].Char? then items[m].code else items[m].value) % Pow256(n)
  {
    hide P1.After, Final, Good, DataOf, AllEmittable, FromLe, Pow256, Lists;
    ItemIsEntry(cfg, items, m);
    ProgramReadsBack(cfg, fmt, items);
    var e := Final(cfg, items)[PlaceOf(items, m)];
    assert e.kind == KData;
  }
}
