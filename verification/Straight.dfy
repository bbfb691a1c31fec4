/** Text without labels, assembled with and without automatic compression: when the two read as
    the same instructions, and when executing them gives the same registers and memory. */
module Straight {
  import opened Isa
  import opened Bits
  import opened Ir
  import opened Symtab
  import opened Bytes
  import opened Out
  import opened CRules
  import opened Compress
  import opened Layout
  import opened Emit
  import opened Survive
  import opened Agree
  import opened Conform16
  import opened Disasm
  import opened Whole
  import opened Programs
  import Machine
  import Encode16
  import Encode32
  import Decode16
  import Decode32
  import P1 = Pass1

  // ------------------------------------------------- what the source says

  function Off(cfg: Config): Config { cfg.(autoC := false) }

  predicate InText(e: Entry) { e.sect == Text && e.kind == KInstr }

  /** The compressed form planning gives an entry pass 1 left. */
  function ChoiceOf(cfg: Config, e: Entry): Option<Choice> {
    if CanAttempt(cfg, e) then TryMap(cfg.xlen, e) else None
  }

  predicate Chosen(cfg: Config, e: Entry) { ChoiceOf(cfg, e).Some? }

  predicate Unlabelled(nodes: seq<Entry>) {
    forall e :: e in nodes && InText(e) ==> e.target.None?
  }

  /** The entry is emitted in a layout that agrees with the manual. */
  predicate FormRight(cfg: Config, e: Entry) {
    var ch := ChoiceOf(cfg, e);
    if ch.Some? then Conforms(ch.value.op, ch.value.rs2, ch.value.imm) else e.op.Comp? ==> Conforms(e.op.comp, e.rs2, e.imm)
  }

  predicate ChoicesRight(cfg: Config, nodes: seq<Entry>) {
    forall e :: e in nodes && InText(e) && Chosen(cfg, e) ==> FormRight(cfg, e)
  }

  /** Straight-line text: no labels, no branches or jumps, right layouts. */
  predicate StraightLine(cfg: Config, nodes: seq<Entry>) {
    forall e :: e in nodes && InText(e) ==> e.target.None? && FormRight(cfg, e) && Machine.Sequential(Plain(e).op)
  }

  // ------------------------------------------------- relaxation has nothing to do

  lemma PlannedAt(cfg: Config, nodes: seq<Entry>, i: nat)
    requires P1.RawAll(nodes) && i < |nodes|
    ensures var a := Assign(nodes, Data, 0); PlanOne(cfg, a[i]) == a[i].(choice := ChoiceOf(cfg, nodes[i]))
  {
    hide TryMap, Assign, WfInstr;
    var a, e := Assign(nodes, Data, 0), nodes[i];
    AssignStatic(nodes, Data, 0, i);
    assert P1.Raw(e);
    RulesIgnoreLayout(cfg.xlen, e, a[i].addr, a[i].size, e.choice);
  }

  lemma NotTentative(cfg: Config, e: Entry, p: Entry)
    requires P1.Raw(e) && (InText(e) ==> e.target.None?) && p.choice == ChoiceOf(cfg, e)
    ensures !Tentative(p)
  {
    hide TryMap, ChoiceMeaning, BaseMeaning;
    RulesKeepMeaning(cfg.xlen, e);
  }

  lemma RelaxAtOnce(cfg: Config, syms: Symbols, nodes: seq<Entry>, iters: nat)
    requires iters > 0 && forall i :: 0 <= i < |nodes| ==> !Tentative(nodes[i])
    ensures Relax(cfg, syms, nodes, Text, iters) == (Assign(nodes, Text, 0), true)
  {
    hide Assign, Validate, Tentative;
    var laid := Assign(nodes, Text, 0);
    forall i | 0 <= i < |laid| ensures Validate(cfg, syms, laid, Text)[i] == laid[i] {
      AssignTentative(nodes, Text, i);
      ValidateTentative(cfg, syms, laid, Text, i);
    }
    assert Validate(cfg, syms, laid, Text) == laid;
  }

  lemma PlannedChoice(cfg: Config, nodes: seq<Entry>, i: nat)
    requires P1.RawAll(nodes) && i < |nodes|
    ensures Planned(cfg, nodes)[i] == Assign(nodes, Data, 0)[i].(choice := ChoiceOf(cfg, nodes[i]))
  {
    hide TryMap, Assign, WfInstr, PlanOne;
    PlannedAt(cfg, nodes, i);
  }

  lemma PlanOff(cfg: Config, nodes: seq<Entry>)
    requires !(cfg.hasC && cfg.autoC)
    ensures Plan(cfg, nodes) == nodes
  {}

  lemma PreparedAtOnce(cfg: Config, syms: Symbols, nodes: seq<Entry>)
    requires P1.RawAll(nodes) && Unlabelled(nodes)
    ensures Converged(cfg, syms, nodes) && Prepare(cfg, syms, nodes) == Assign(Planned(cfg, nodes), Text, 0)
  {
    hide Assign, Plan, Relax, Tentative, ChoiceOf, P1.Raw;
    if cfg.hasC && cfg.autoC {
      forall i | 0 <= i < |nodes| ensures !Tentative(Planned(cfg, nodes)[i]) {
        assert P1.Raw(nodes[i]) && nodes[i] in nodes;
        PlannedChoice(cfg, nodes, i);
        NotTentative(cfg, nodes[i], Planned(cfg, nodes)[i]);
      }
      RelaxAtOnce(cfg, syms, Planned(cfg, nodes), 8);
    } else {
      PlanOff(cfg, Assign(nodes, Data, 0));
    }
  }

  /** The layout converges in one round and keeps every choice of the rules. */
  lemma FinalAt(cfg: Config, items: seq<P1.Item>, i: nat)
    requires P1.AllProper(items) && Unlabelled(P1.After(items).nodes) && i < |Final(cfg, items)|
    ensures var e, p := P1.After(items).nodes[i], Final(cfg, items)[i];
            && Converged(cfg, P1.After(items).syms, P1.After(items).nodes)
            && P1.Raw(e) && SameEntry(e, p) && Kept(cfg, p) && p.choice == ChoiceOf(cfg, e)
            && (e.sect == Data ==> p == Assign(P1.After(items).nodes, Data, 0)[i])
  {
    hide P1.After, Prepare, Assign, Planned, ChoiceOf, P1.Raw, Settled, Unlabelled;
    var s := P1.After(items);
    P1.AfterRaw(items);
    assert P1.Raw(s.nodes[i]);
    PreparedAtOnce(cfg, s.syms, s.nodes);
    PlannedChoice(cfg, s.nodes, i);
    FinalEntry(cfg, items, i);
    AssignStatic(Planned(cfg, s.nodes), Text, 0, i);
    FinalLaidOut(cfg, items);
    assert KeptAll(cfg, Final(cfg, items));
    hide SameEntry, Kept, Converged;
    AssignStatic(s.nodes, Data, 0, i);
    if s.nodes[i].sect == Data {
      AssignOther(Planned(cfg, s.nodes), Text, 0, i);
      DataUnchosen(cfg, s.nodes[i], Assign(s.nodes, Data, 0)[i]);
    }
  }

  lemma DataUnchosen(cfg: Config, e: Entry, a: Entry)
    requires P1.Raw(e) && e.sect == Data && a == e.(addr := a.addr, size := a.size)
    ensures a.(choice := ChoiceOf(cfg, e)) == a
  {}

  // ------------------------------------------------- one entry, in either form

  /** Without a label, the code does not depend on the address, nor on the compression option. */
  lemma SameCode(cfg: Config, syms: Symbols, e: Entry, p: Entry)
    requires WfInstr(e) && e.target.None? && e.choice.None? && SameEntry(e, p) && p.choice.None? && WfInstr(p)
    ensures NodeCode(cfg, syms, p) == NodeCode(cfg, syms, e) && NodeCode(Off(cfg), syms, e) == NodeCode(cfg, syms, e)
  {
    hide LabelFits, Encode16.EncodeCI, Encode16.EncodeCR, Encode16.EncodeCA, Encode16.EncodeCSS, Encode16.EncodeCB, Encode16.EncodeCJ,
      Encode16.EncodeMem, Encode32.Encode;
  }

  /** An instruction the rules compress has an uncompressed form unless it is a doubleword store
      on RV32, which has neither. */
  lemma BaseEmits(cfg: Config, syms: Symbols, e: Entry)
    requires P1.Raw(e) && InText(e) && e.target.None? && Chosen(cfg, e)
    ensures e.op.Base? && (NodeCode(cfg, syms, e).Fail? <==> cfg.xlen == RV32 && e.op == Base(SD))
  {
    hide TryMap, LabelFits, Decode32.Representable, Encode32.Encode, BaseFmt, IsCFmt;
    RulesModest(cfg, e);
    CFormats();
    if cfg.xlen == RV32 && e.op == Base(SD) {
      NoDoubleStore(cfg, syms, e);
    } else {
      Decode32.EncodeExact(cfg, e.op.base, e.rd, e.rs1, e.rs2, e.imm);
    }
  }

  lemma DoubleStore(cfg: Config, e: Entry)
    requires cfg.xlen == RV32 && e.op == Base(SD) && TryMap(cfg.xlen, e).Some?
    ensures !Encode16.ForWidth(TryMap(cfg.xlen, e).value.op, cfg.xlen)
  {}

  lemma HalfFails(cfg: Config, syms: Symbols, e: Entry, p: Entry)
    requires P1.Raw(e) && Chosen(cfg, e) && SameEntry(e, p) && Kept(cfg, p) && p.choice == ChoiceOf(cfg, e)
    requires cfg.xlen == RV32 && e.op == Base(SD)
    ensures NodeCode(cfg, syms, p).Fail?
  {
    hide TryMap, LabelFits, Encode16.CEncode, Derived, FmtOf;
    RulesKeepMeaning(cfg.xlen, e);
    CFormats();
    DoubleStore(cfg, e);
  }

  /** The compressed form fails exactly where the uncompressed one does. */
  lemma FailsAlike(cfg: Config, syms: Symbols, e: Entry, p: Entry)
    requires P1.Raw(e) && InText(e) && e.target.None? && SameEntry(e, p) && Kept(cfg, p) && p.choice == ChoiceOf(cfg, e)
    ensures NodeCode(cfg, syms, p).Fail? <==> NodeCode(cfg, syms, e).Fail?
  {
    hide ChoiceOf, NodeCode, LabelFits, Derived, FmtOf, IsCFmt;
    if Chosen(cfg, e) {
      BaseEmits(cfg, syms, e);
      if cfg.xlen == RV32 && e.op == Base(SD) { HalfFails(cfg, syms, e, p); } else { ChoiceEmits(cfg, syms, p); }
    } else {
      SameCode(cfg, syms, e, p);
    }
  }

  /** What is emitted for an unlabelled entry reads as the entry exactly when its layout is right. */
  lemma Denotes(cfg: Config, syms: Symbols, e: Entry, p: Entry)
    requires P1.Raw(e) && InText(e) && e.target.None? && SameEntry(e, p) && Kept(cfg, p) && p.choice == ChoiceOf(cfg, e)
    requires !NodeCode(cfg, syms, p).Fail?
    ensures CodeInsn(cfg.xlen, NodeCode(cfg, syms, p)) == Some(Plain(e)) <==> FormRight(cfg, e)
  {
    hide ChoiceOf, NodeCode, LabelFits, Derived, FmtOf, IsCFmt, Conforms, CodeInsn, Decode16.Meaning, Decode32.Meaning;
    NothingToResolve(cfg, syms, e, p);
    CodeDenotes(cfg, syms, p);
  }

  lemma NothingToResolve(cfg: Config, syms: Symbols, e: Entry, p: Entry)
    requires InText(e) && e.target.None? && p.choice == ChoiceOf(cfg, e)
    ensures ChoiceResolved(syms, p)
  {
    hide TryMap, ChoiceMeaning, BaseMeaning;
    RulesKeepMeaning(cfg.xlen, e);
  }

  /** How p, in the final list, carries the entry e of pass 1. */
  predicate Laid(cfg: Config, e: Entry, p: Entry) {
    && P1.Raw(e) && SameEntry(e, p) && Kept(cfg, p) && p.choice == ChoiceOf(cfg, e)
    && (InText(e) ==> e.target.None? && p.size == SizeIn(cfg, e))
    && (e.sect == Text && e.kind == KAlign ==> p.size == 0)
  }

  /** The bytes of a text instruction. */
  function SizeIn(cfg: Config, e: Entry): int {
    P1.InstrSize(e.op) - (if Chosen(cfg, e) then 2 else 0)
  }

  predicate AllLaid(cfg: Config, a: seq<Entry>, p: seq<Entry>) {
    |a| == |p| && forall i :: 0 <= i < |a| ==> Laid(cfg, a[i], p[i])
  }

  lemma FinalLaid(cfg: Config, items: seq<P1.Item>)
    requires P1.AllProper(items) && Unlabelled(P1.After(items).nodes)
    ensures AllLaid(cfg, P1.After(items).nodes, Final(cfg, items))
  {
    hide P1.After, Final, ChoiceOf, P1.Raw, Settled, SameEntry, Kept, Derived, Converged;
    var a, p := P1.After(items).nodes, Final(cfg, items);
    forall i | 0 <= i < |a| ensures Laid(cfg, a[i], p[i]) {
      FinalAt(cfg, items, i);
      FinalLaidOut(cfg, items);
      var at := SettledAt(p, p[i].sect, 0, i) by { assert SameEntry(a[i], p[i]); }
      LaidSize(cfg, a[i], p[i], at);
      Sizes(cfg, a[i], p[i]);
    }
  }

  lemma Sizes(cfg: Config, e: Entry, p: Entry)
    requires P1.Raw(e) && SameEntry(e, p) && Kept(cfg, p) && p.choice == ChoiceOf(cfg, e)
    requires p.size == FullSize(e) - (if p.choice.Some? then 2 else 0)
    ensures InText(e) ==> p.size == SizeIn(cfg, e)
    ensures e.kind == KAlign ==> p.size == 0
  {
    hide TryMap, LabelFits;
  }

  // ------------------------------------------------- both runs succeed or both fail

  lemma OffEncode(cfg: Config, op: COp, fmt: Fmt, rd: Reg, rs1: Reg, rs2: Reg, imm: int)
    requires IsCFmt(fmt)
    ensures Encode16.CEncode(Off(cfg), op, fmt, rd, rs1, rs2, imm) == Encode16.CEncode(cfg, op, fmt, rd, rs1, rs2, imm)
  {
    hide Encode16.EncodeCI, Encode16.EncodeCR, Encode16.EncodeCA, Encode16.EncodeCSS, Encode16.EncodeCB, Encode16.EncodeCJ,
      Encode16.EncodeMem, Encode16.ForWidth;
  }

  lemma OffRequires(cfg: Config, op: BaseOp, cop: COp)
    ensures Encode32.RequireForOp(Off(cfg), op) <==> Encode32.RequireForOp(cfg, op)
    ensures Encode16.RequireC(Off(cfg), cop) <==> Encode16.RequireC(cfg, cop)
  {
    hide Encode16.ForWidth;
  }

  lemma OffCodeOf(cfg: Config, syms: Symbols, op: Op, fmt: Fmt, rd: Reg, rs1: Reg, rs2: Reg, imm: int,
                  target: Option<string>, reloc: Reloc, addr: int)
    requires !IsCFmt(fmt) ==> op.Base?
    ensures CodeOf(Off(cfg), syms, op, fmt, rd, rs1, rs2, imm, target, reloc, addr) ==
            CodeOf(cfg, syms, op, fmt, rd, rs1, rs2, imm, target, reloc, addr)
  {
    hide IsCFmt, Immediate, Encode16.CEncode, Encode32.Encode, Encode16.RequireC, Encode32.RequireForOp;
    if op.Comp? { OffRequires(cfg, ADD, op.comp); } else { OffRequires(cfg, op.base, C_ADD); }
    var value := Immediate(syms, target, reloc, imm, addr);
    if IsCFmt(fmt) && op.Comp? && value.Some? { OffEncode(cfg, op.comp, fmt, rd, rs1, rs2, value.value); }
  }

  lemma OffCode(cfg: Config, syms: Symbols, p: Entry)
    requires WfInstr(p)
    ensures NodeCode(Off(cfg), syms, p) == NodeCode(cfg, syms, p)
  {
    hide LabelFits, CodeOf, IsCFmt, CFmt, BaseFmt;
    CFormats();
    if p.choice.Some? {
      var ch := p.choice.value;
      var target := if PcRelative(ch.op) then None else ch.target;
      var reloc := if PcRelative(ch.op) then RelocNone else ch.reloc;
      OffCodeOf(cfg, syms, Comp(ch.op), ch.fmt, ch.rd, ch.rs1, ch.rs2, if target.Some? then 0 else ch.imm, target, reloc, p.addr);
    } else {
      OffCodeOf(cfg, syms, p.op, p.fmt, p.rd, p.rs1, p.rs2, if p.target.Some? then 0 else p.imm, p.target, p.reloc, p.addr);
    }
  }

  predicate LaidTwice(cfg: Config, e: Entry, p: Entry, q: Entry) {
    Laid(cfg, e, p) && Laid(Off(cfg), e, q) && (e.sect == Data ==> p == q)
  }

  lemma ChunkAlike(cfg: Config, syms: Symbols, e: Entry, p: Entry, q: Entry)
    requires LaidTwice(cfg, e, p, q)
    ensures (p.kind == KInstr ==> WfInstr(p)) && (q.kind == KInstr ==> WfInstr(q)) && p.sect == q.sect == e.sect
    ensures Chunk(cfg, syms, p).Some? <==> Chunk(Off(cfg), syms, q).Some?
    ensures e.sect == Data ==> Chunk(cfg, syms, p) == Chunk(Off(cfg), syms, q)
  {
    hide NodeCode, ChoiceOf, WfInstr, Derived, FmtOf, IsCFmt, SizeIn, LeBytes, WordBytes, HalfBytes;
    if e.kind == KInstr {
      OffCode(cfg, syms, p);
      OffCode(cfg, syms, e);
      if e.sect == Text {
        FailsAlike(cfg, syms, e, p);
        FailsAlike(Off(cfg), syms, e, q);
      }
    }
  }

  predicate AllLaidTwice(cfg: Config, a: seq<Entry>, p: seq<Entry>, q: seq<Entry>) {
    |a| == |p| == |q| && forall i :: 0 <= i < |a| ==> LaidTwice(cfg, a[i], p[i], q[i])
  }

  lemma FinalTwice(cfg: Config, items: seq<P1.Item>)
    requires P1.AllProper(items) && Unlabelled(P1.After(items).nodes)
    ensures AllLaidTwice(cfg, P1.After(items).nodes, Final(cfg, items), Final(Off(cfg), items))
  {
    hide P1.After, Final, Laid, ChoiceOf, P1.Raw, SameEntry, Kept, Converged, Assign, Unlabelled;
    var a, p, q := P1.After(items).nodes, Final(cfg, items), Final(Off(cfg), items);
    FinalLaid(cfg, items);
    FinalLaid(Off(cfg), items);
    forall i | 0 <= i < |a| ensures LaidTwice(cfg, a[i], p[i], q[i]) {
      FinalAt(cfg, items, i);
      FinalAt(Off(cfg), items, i);
    }
  }

  lemma EmittableAlike(cfg: Config, syms: Symbols, a: seq<Entry>, p: seq<Entry>, q: seq<Entry>)
    requires AllLaidTwice(cfg, a, p, q) && Wf(p) && Wf(q)
    ensures AllEmittable(cfg, syms, p) <==> AllEmittable(Off(cfg), syms, q)
    ensures DataFirst(p) <==> DataFirst(q)
  {
    hide LaidTwice, Chunk, WfInstr;
    forall i | 0 <= i < |a|
      ensures p[i].sect == q[i].sect && (Chunk(cfg, syms, p[i]).Some? <==> Chunk(Off(cfg), syms, q[i]).Some?)
    {
      assert LaidTwice(cfg, a[i], p[i], q[i]);
      ChunkAlike(cfg, syms, a[i], p[i], q[i]);
    }
    if AllEmittable(cfg, syms, p) {
      forall x | x in q ensures Chunk(Off(cfg), syms, x).Some? { var i :| 0 <= i < |q| && q[i] == x; assert p[i] in p; }
    }
    if AllEmittable(Off(cfg), syms, q) {
      forall x | x in p ensures Chunk(cfg, syms, x).Some? { var i :| 0 <= i < |p| && p[i] == x; assert q[i] in q; }
    }
  }

  /** For text without labels the run with automatic compression converges, and succeeds exactly
      when the run without it does. */
  lemma SameSuccess(cfg: Config, fmt: OutFormat, items: seq<P1.Item>)
    requires P1.AllProper(items) && Unlabelled(P1.After(items).nodes)
    ensures Assemble(cfg, fmt, items).1 <==> Assemble(Off(cfg), fmt, items).1
    ensures Converged(cfg, P1.After(items).syms, P1.After(items).nodes)
  {
    hide P1.After, Final, AllLaidTwice, Unlabelled, AllEmittable, DataFirst, EmitAll, P1.RawAll, Converged;
    var s := P1.After(items);
    P1.AfterRaw(items);
    PreparedAtOnce(cfg, s.syms, s.nodes);
    FinalTwice(cfg, items);
    EmittableAlike(cfg, s.syms, s.nodes, Final(cfg, items), Final(Off(cfg), items));
    EmitAllExact(cfg, s.syms, Final(cfg, items), Start(fmt));
    EmitAllExact(Off(cfg), s.syms, Final(Off(cfg), items), Start(fmt));
  }

  lemma LaidTwiceTail(cfg: Config, a: seq<Entry>, p: seq<Entry>, q: seq<Entry>)
    requires AllLaidTwice(cfg, a, p, q) && a != []
    ensures AllLaidTwice(cfg, a[1..], p[1..], q[1..]) && LaidTwice(cfg, a[0], p[0], q[0])
  {
    hide LaidTwice;
    assert forall i :: 0 <= i < |a[1..]| ==> a[1..][i] == a[i + 1] && p[1..][i] == p[i + 1] && q[1..][i] == q[i + 1];
  }

  /** The data bytes are the same. */
  lemma {:induction false} SameData(cfg: Config, syms: Symbols, a: seq<Entry>, p: seq<Entry>, q: seq<Entry>)
    requires AllLaidTwice(cfg, a, p, q) && Wf(p) && Wf(q) && AllEmittable(cfg, syms, p) && AllEmittable(Off(cfg), syms, q)
    ensures SectBytes(cfg, syms, p, Data) == SectBytes(Off(cfg), syms, q, Data)
    decreases |a|
  {
    hide LaidTwice, Chunk, WfInstr, AllLaidTwice;
    assert |a| == |p| == |q| by { CountsAgree(cfg, a, p, q); }
    if a != [] {
      LaidTwiceTail(cfg, a, p, q);
      ChunkAlike(cfg, syms, a[0], p[0], q[0]);
      PartsEmittable(cfg, syms, p, 1);
      PartsEmittable(Off(cfg), syms, q, 1);
      FirstEmittable(cfg, syms, p);
      FirstEmittable(Off(cfg), syms, q);
      SameData(cfg, syms, a[1..], p[1..], q[1..]);
    }
  }

  lemma CountsAgree(cfg: Config, a: seq<Entry>, p: seq<Entry>, q: seq<Entry>)
    requires AllLaidTwice(cfg, a, p, q)
    ensures |a| == |p| == |q|
  {}

  // ------------------------------------------------- what the bytes show

  /** What a reader finds at an offset, and the bytes it steps over. */
  datatype Slot = Slot(insn: Option<Insn>, size: int)

  /** From at on the bytes show these slots and nothing else. */
  predicate Shows(xlen: Xlen, b: seq<Byte>, at: nat, slots: seq<Slot>)
    decreases |slots|
  {
    if slots == [] then at == |b|
    else
      var n := slots[0].size;
      && at + 2 <= |b| && n == (if b[at] % 4 == 3 then 4 else 2) && at + n <= |b|
      && Read(xlen, b, at) == [Line(at, slots[0].insn)] + Read(xlen, b, at + n)
      && Shows(xlen, b, at + n, slots[1..])
  }

  /** What is emitted for the text instructions. */
  function Slots(cfg: Config, syms: Symbols, p: seq<Entry>): seq<Slot>
    requires Wf(p)
  {
    if p == [] then []
    else (if InText(p[0]) then [Slot(CodeInsn(cfg.xlen, NodeCode(cfg, syms, p[0])), p[0].size)] else []) + Slots(cfg, syms, p[1..])
  }

  lemma CodeLength(c: Code, b: seq<Byte>, at: nat)
    requires SelfDelimiting(c) && at + (if c.Half? then 2 else 4) <= |b|
    requires c.Half? ==> b[at..at + 2] == HalfBytes(c.h)
    requires c.Full? ==> b[at..at + 4] == WordBytes(c.w)
    ensures (if b[at] % 4 == 3 then 4 else 2) == if c.Half? then 2 else 4
  {
    hide HalfBytes, WordBytes, HalfOfValue, FromLe, Word;
    match c
    case Half(h) => ReadsHalf(h); assert b[at] == b[at..at + 2][0];
    case Full(w) => ReadsWord(w); assert b[at] == b[at..at + 4][0];
  }

  lemma ShowsOne(cfg: Config, syms: Symbols, p: Entry, b: seq<Byte>, at: nat, rest: seq<Byte>)
    requires p.kind == KInstr && Kept(cfg, p) && ChoiceResolved(syms, p) && Chunk(cfg, syms, p).Some?
    requires at <= |b| && b[at..] == Chunk(cfg, syms, p).value + rest
    ensures var n := |Chunk(cfg, syms, p).value|;
            && 2 <= n && at + n <= |b| && b[at + n..] == rest && n == (if b[at] % 4 == 3 then 4 else 2)
            && Read(cfg.xlen, b, at) == [Line(at, CodeInsn(cfg.xlen, NodeCode(cfg, syms, p)))] + Read(cfg.xlen, b, at + n)
  {
    hide NodeCode, Intended, Faithful, Immediate, WordBytes, HalfBytes, Derived, ChoiceResolved, WfInstr, Read, CodeInsn;
    ReadOne(cfg, syms, p, b, at, rest);
    CodeDenotes(cfg, syms, p);
    WordSize();
    Cut(b, at, Chunk(cfg, syms, p).value, rest);
    CodeLength(NodeCode(cfg, syms, p), b, at);
  }

  lemma NoSlot(cfg: Config, syms: Symbols, p: seq<Entry>)
    requires p != [] && Wf(p) && Wf(p[1..]) && !InText(p[0])
    ensures Slots(cfg, syms, p) == Slots(cfg, syms, p[1..])
  {
    hide NodeCode, CodeInsn, WfInstr, Wf;
    assert [] + Slots(cfg, syms, p[1..]) == Slots(cfg, syms, p[1..]);
  }

  lemma {:induction false} BytesShow(cfg: Config, syms: Symbols, p: seq<Entry>, b: seq<Byte>, pc: nat)
    requires Wf(p) && AllEmittable(cfg, syms, p) && TextIsCode(p) && Checked(cfg, syms, p) && DataSizes(p)
    requires Settled(p, Text, pc) && pc + Total(p, Text) < TWO32
    requires pc <= |b| && b[pc..] == SectBytes(cfg, syms, p, Text)
    ensures Shows(cfg.xlen, b, pc, Slots(cfg, syms, p))
    decreases |p|
  {
    hide Chunk, AssignOne, NextPc, Kept, ChoiceResolved, Read, WfInstr, CodeInsn, NodeCode;
    if p != [] {
      var e, rest := p[0], SectBytes(cfg, syms, p[1..], Text);
      assert e in p && forall x :: x in p[1..] ==> x in p;
      if e.sect == Text {
        TotalNotNegative(p[1..], Text, NextPc(e, pc));
        if e.kind == KInstr {
          SizeOfChunk(cfg, syms, e, pc);
          StepPacked(e, pc);
          ShowsOne(cfg, syms, e, b, pc, rest);
          BytesShow(cfg, syms, p[1..], b, pc + e.size);
          assert Slots(cfg, syms, p)[1..] == Slots(cfg, syms, p[1..]);
        } else {
          EmptyPadding(cfg, syms, e, pc);
          assert [] + rest == rest;
          NoSlot(cfg, syms, p);
          BytesShow(cfg, syms, p[1..], b, pc);
        }
      } else {
        assert [] + rest == rest;
        NoSlot(cfg, syms, p);
        BytesShow(cfg, syms, p[1..], b, pc);
      }
    }
  }

  function Heads(slots: seq<Slot>): seq<Option<Insn>> {
    if slots == [] then [] else [slots[0].insn] + Heads(slots[1..])
  }

  lemma HeadsFirst(s: Slot, t: seq<Slot>)
    ensures Heads([s] + t) == [s.insn] + Heads(t)
  {
    assert ([s] + t)[1..] == t;
  }

  /** The instructions of a listing, without their offsets. */
  function Insns(lines: seq<Line>): seq<Option<Insn>> {
    if lines == [] then [] else [lines[0].insn] + Insns(lines[1..])
  }

  lemma {:induction false} ListingOf(xlen: Xlen, b: seq<Byte>, at: nat, slots: seq<Slot>)
    requires Shows(xlen, b, at, slots)
    ensures Insns(Read(xlen, b, at)) == Heads(slots)
    decreases |slots|
  {
    hide Read;
    if slots == [] {
      ReadEnd(xlen, b, at);
    } else {
      ListingOf(xlen, b, at + slots[0].size, slots[1..]);
      assert Read(xlen, b, at)[1..] == Read(xlen, b, at + slots[0].size);
    }
  }

  lemma TextShows(cfg: Config, fmt: OutFormat, items: seq<P1.Item>)
    requires Good(cfg, fmt, items)
    ensures AllEmittable(cfg, P1.After(items).syms, Final(cfg, items))
    ensures Shows(cfg.xlen, TextOf(cfg, items), 0, Slots(cfg, P1.After(items).syms, Final(cfg, items)))
  {
    hide P1.After, Final, AllEmittable, SectBytes, Shows, Slots, TextIsCode, Checked, Settled, Total;
    GoodRun(cfg, fmt, items);
    var b := TextOf(cfg, items);
    assert b[0..] == b;
    BytesShow(cfg, P1.After(items).syms, Final(cfg, items), b, 0);
  }

  // ------------------------------------------------- the same instructions

  /** The two forms of one instruction read alike exactly when the chosen layout is right. */
  lemma ReadAlike(cfg: Config, syms: Symbols, e: Entry, p: Entry, q: Entry)
    requires LaidTwice(cfg, e, p, q) && InText(e)
    requires !NodeCode(cfg, syms, p).Fail? && !NodeCode(Off(cfg), syms, q).Fail?
    ensures CodeInsn(cfg.xlen, NodeCode(cfg, syms, p)) == CodeInsn(cfg.xlen, NodeCode(Off(cfg), syms, q)) <==>
            (Chosen(cfg, e) ==> FormRight(cfg, e))
  {
    hide NodeCode, CodeInsn, TryMap, Kept, SameEntry, P1.Raw;
    Denotes(cfg, syms, e, p);
    Denotes(Off(cfg), syms, e, q);
    if Chosen(cfg, e) {
      ChosenBase(cfg, e);
    } else {
      OnlyForm(cfg, syms, e, p, q);
    }
  }

  lemma ChosenBase(cfg: Config, e: Entry)
    requires P1.Raw(e) && Chosen(cfg, e)
    ensures e.op.Base?
  {
    hide TryMap, BaseMeaning, ChoiceMeaning;
    RulesKeepMeaning(cfg.xlen, e);
  }

  lemma OnlyForm(cfg: Config, syms: Symbols, e: Entry, p: Entry, q: Entry)
    requires LaidTwice(cfg, e, p, q) && InText(e) && !Chosen(cfg, e)
    ensures NodeCode(cfg, syms, p) == NodeCode(Off(cfg), syms, q)
  {
    hide NodeCode, TryMap, Derived, LabelFits, FmtOf, IsCFmt;
    SameCode(cfg, syms, e, p);
    SameCode(Off(cfg), syms, e, q);
  }

  lemma HeadsStep(cfg: Config, syms: Symbols, p: seq<Entry>)
    requires p != [] && Wf(p) && Wf(p[1..]) && (p[0].kind == KInstr ==> WfInstr(p[0]))
    ensures InText(p[0]) ==>
              Heads(Slots(cfg, syms, p)) == [CodeInsn(cfg.xlen, NodeCode(cfg, syms, p[0]))] + Heads(Slots(cfg, syms, p[1..]))
    ensures !InText(p[0]) ==> Heads(Slots(cfg, syms, p)) == Heads(Slots(cfg, syms, p[1..]))
  {
    hide NodeCode, CodeInsn, WfInstr, Wf;
    if InText(p[0]) {
      HeadsFirst(Slot(CodeInsn(cfg.xlen, NodeCode(cfg, syms, p[0])), p[0].size), Slots(cfg, syms, p[1..]));
    } else {
      NoSlot(cfg, syms, p);
    }
  }

  lemma ChoicesStep(cfg: Config, a: seq<Entry>)
    requires a != []
    ensures ChoicesRight(cfg, a) <==> (InText(a[0]) && Chosen(cfg, a[0]) ==> FormRight(cfg, a[0])) && ChoicesRight(cfg, a[1..])
  {
    hide Chosen, FormRight;
    assert forall e :: e in a <==> e == a[0] || e in a[1..];
  }

  lemma ConsEqual(x: Option<Insn>, s: seq<Option<Insn>>, y: Option<Insn>, t: seq<Option<Insn>>)
    ensures [x] + s == [y] + t <==> x == y && s == t
  {
    assert ([x] + s)[1..] == s && ([y] + t)[1..] == t && ([x] + s)[0] == x && ([y] + t)[0] == y;
  }

  lemma {:induction false} SlotsAlike(cfg: Config, syms: Symbols, a: seq<Entry>, p: seq<Entry>, q: seq<Entry>)
    requires AllLaidTwice(cfg, a, p, q) && Wf(p) && Wf(q) && AllEmittable(cfg, syms, p) && AllEmittable(Off(cfg), syms, q)
    ensures Heads(Slots(cfg, syms, p)) == Heads(Slots(Off(cfg), syms, q)) <==> ChoicesRight(cfg, a)
    decreases |a|
  {
    hide LaidTwice, Chunk, WfInstr, AllLaidTwice, NodeCode, CodeInsn, Chosen, FormRight, AllEmittable, Wf, Slots, Heads, ChoicesRight;
    assert |a| == |p| == |q| by { CountsAgree(cfg, a, p, q); }
    if a == [] {
      NoChoicesWrong(cfg);
      NoHeads(cfg, syms);
    } else {
      LaidTwiceTail(cfg, a, p, q);
      PartsEmittable(cfg, syms, p, 1);
      PartsEmittable(Off(cfg), syms, q, 1);
      SlotsAlike(cfg, syms, a[1..], p[1..], q[1..]);
      ChoicesStep(cfg, a);
      FirstEmittable(cfg, syms, p);
      FirstEmittable(Off(cfg), syms, q);
      FirstAlike(cfg, syms, a[0], p[0], q[0]);
      HeadsStep(cfg, syms, p);
      HeadsStep(Off(cfg), syms, q);
      if InText(a[0]) {
        ConsEqual(CodeInsn(cfg.xlen, NodeCode(cfg, syms, p[0])), Heads(Slots(cfg, syms, p[1..])),
                  CodeInsn(cfg.xlen, NodeCode(Off(cfg), syms, q[0])), Heads(Slots(Off(cfg), syms, q[1..])));
      }
    }
  }

  lemma NoChoicesWrong(cfg: Config)
    ensures ChoicesRight(cfg, [])
  {}

  lemma NoHeads(cfg: Config, syms: Symbols)
    ensures Heads(Slots(cfg, syms, [])) == Heads(Slots(Off(cfg), syms, [])) == []
  {}

  lemma FirstAlike(cfg: Config, syms: Symbols, e: Entry, p: Entry, q: Entry)
    requires LaidTwice(cfg, e, p, q)
    requires (p.kind == KInstr ==> WfInstr(p)) && (q.kind == KInstr ==> WfInstr(q))
    requires Chunk(cfg, syms, p).Some? && Chunk(Off(cfg), syms, q).Some?
    ensures InText(p) <==> InText(e)
    ensures InText(q) <==> InText(e)
    ensures InText(e) ==>
              (CodeInsn(cfg.xlen, NodeCode(cfg, syms, p)) == CodeInsn(cfg.xlen, NodeCode(Off(cfg), syms, q)) <==>
               (Chosen(cfg, e) ==> FormRight(cfg, e)))
  {
    hide NodeCode, CodeInsn, ChoiceOf, WfInstr, Derived, LabelFits, FmtOf, IsCFmt, FormRight, SizeIn, HalfBytes, WordBytes;
    if InText(e) { ReadAlike(cfg, syms, e, p, q); }
  }

  /** Compression changes no instruction: for text without labels the compressed run succeeds
      exactly when the plain one does, the data bytes are the same, and the two texts read as
      the same instructions in the same order if and only if every choice agrees with the manual. */
  lemma CompressionKeepsInstructions(cfg: Config, fmt: OutFormat, items: seq<P1.Item>)
    requires P1.AllProper(items) && Unlabelled(P1.After(items).nodes) && Len(items, Text) < TWO31 && Len(items, Data) < TWO31
    ensures Good(cfg, fmt, items) <==> Good(Off(cfg), fmt, items)
    ensures Good(cfg, fmt, items) ==>
              && AllEmittable(cfg, P1.After(items).syms, Final(cfg, items))
              && AllEmittable(Off(cfg), P1.After(items).syms, Final(Off(cfg), items))
              && DataOf(cfg, items) == DataOf(Off(cfg), items)
              && (Insns(Read(cfg.xlen, TextOf(cfg, items), 0)) == Insns(Read(cfg.xlen, TextOf(Off(cfg), items), 0)) <==>
                  ChoicesRight(cfg, P1.After(items).nodes))
  {
    hide P1.After, Final, AllEmittable, SectBytes, Shows, Slots, Heads, Insns, Read, ChoicesRight, AllLaidTwice, Unlabelled, Assemble;
    var s, p, q := P1.After(items), Final(cfg, items), Final(Off(cfg), items);
    SameSuccess(cfg, fmt, items);
    SameSuccess(Off(cfg), fmt, items);
    if Good(cfg, fmt, items) {
      TextShows(cfg, fmt, items);
      TextShows(Off(cfg), fmt, items);
      FinalTwice(cfg, items);
      SameData(cfg, s.syms, s.nodes, p, q);
      SlotsAlike(cfg, s.syms, s.nodes, p, q);
      ListingOf(cfg.xlen, TextOf(cfg, items), 0, Slots(cfg, s.syms, p));
      ListingOf(cfg.xlen, TextOf(Off(cfg), items), 0, Slots(Off(cfg), s.syms, q));
    }
  }

  // ------------------------------------------------- the same execution

  /** The source's instructions and the sizes they are assembled to. */
  function SourceCode(cfg: Config, a: seq<Entry>): seq<Machine.Placed> {
    if a == [] then []
    else (if InText(a[0]) then [Machine.Placed(Plain(a[0]), SizeIn(cfg, a[0]))] else []) + SourceCode(cfg, a[1..])
  }

  predicate FormsRight(cfg: Config, a: seq<Entry>) {
    forall e :: e in a && InText(e) ==> FormRight(cfg, e)
  }

  lemma CodeStep(cfg: Config, a: seq<Entry>)
    requires a != []
    ensures !InText(a[0]) ==> SourceCode(cfg, a) == SourceCode(cfg, a[1..])
    ensures InText(a[0]) ==> SourceCode(cfg, a) != [] && SourceCode(cfg, a)[0] == Machine.Placed(Plain(a[0]), SizeIn(cfg, a[0])) &&
                             SourceCode(cfg, a)[1..] == SourceCode(cfg, a[1..])
  {
    hide Plain, SizeIn;
    assert [] + SourceCode(cfg, a[1..]) == SourceCode(cfg, a[1..]);
  }

  lemma SlotStep(cfg: Config, syms: Symbols, e: Entry, p: seq<Entry>)
    requires p != [] && Wf(p) && Wf(p[1..]) && Laid(cfg, e, p[0]) && FormRight(cfg, e) && InText(e)
    requires Chunk(cfg, syms, p[0]).Some?
    ensures Slots(cfg, syms, p) != [] && Slots(cfg, syms, p)[0] == Slot(Some(Plain(e)), SizeIn(cfg, e))
    ensures Slots(cfg, syms, p)[1..] == Slots(cfg, syms, p[1..])
  {
    hide NodeCode, CodeInsn, ChoiceOf, FormRight, WfInstr, Derived, P1.Raw, FmtOf, IsCFmt, HalfBytes, WordBytes, SizeIn;
    Denotes(cfg, syms, e, p[0]);
  }

  lemma FetchFirst(xlen: Xlen, b: seq<Byte>, at: nat, i: Insn, n: int, rest: seq<Slot>)
    requires Shows(xlen, b, at, [Slot(Some(i), n)] + rest)
    ensures Machine.Fetch(xlen, b, at) == Some((i, n)) && 2 <= n && at + n <= |b| && Shows(xlen, b, at + n, rest)
  {
    hide Read;
    assert ([Slot(Some(i), n)] + rest)[1..] == rest;
  }

  /** The emitted bytes are the source's instructions as code for the machine. */
  lemma {:induction false} LoadedFrom(cfg: Config, syms: Symbols, a: seq<Entry>, p: seq<Entry>, b: seq<Byte>, at: nat)
    requires AllLaid(cfg, a, p) && FormsRight(cfg, a) && Wf(p) && AllEmittable(cfg, syms, p)
    requires Shows(cfg.xlen, b, at, Slots(cfg, syms, p))
    ensures Machine.Loaded(cfg.xlen, b, at, SourceCode(cfg, a)) && at + Machine.Span(SourceCode(cfg, a), |SourceCode(cfg, a)|) == |b|
    decreases |a|
  {
    hide Shows, Slots, SourceCode, Laid, FormRight, Plain, SizeIn, WfInstr, Chunk, Machine.Fetch, Wf, AllEmittable;
    if a == [] {
      NothingLoaded(cfg, syms, b, at);
    } else {
      assert Laid(cfg, a[0], p[0]) && a[0] in a && forall x :: x in a[1..] ==> x in a;
      assert forall i :: 0 <= i < |a[1..]| ==> a[1..][i] == a[i + 1] && p[1..][i] == p[i + 1];
      PartsEmittable(cfg, syms, p, 1);
      FirstEmittable(cfg, syms, p);
      CodeStep(cfg, a);
      if InText(a[0]) {
        SlotStep(cfg, syms, a[0], p);
        var s := Slots(cfg, syms, p);
        assert s == [s[0]] + s[1..];
        FetchFirst(cfg.xlen, b, at, Plain(a[0]), SizeIn(cfg, a[0]), s[1..]);
        LoadedFrom(cfg, syms, a[1..], p[1..], b, at + SizeIn(cfg, a[0]));
      } else {
        OtherNoSlot(cfg, syms, a[0], p);
        LoadedFrom(cfg, syms, a[1..], p[1..], b, at);
      }
    }
  }

  lemma NothingLoaded(cfg: Config, syms: Symbols, b: seq<Byte>, at: nat)
    requires Shows(cfg.xlen, b, at, Slots(cfg, syms, []))
    ensures SourceCode(cfg, []) == [] && at == |b|
  {}

  lemma OtherNoSlot(cfg: Config, syms: Symbols, e: Entry, p: seq<Entry>)
    requires p != [] && Wf(p) && Wf(p[1..]) && Laid(cfg, e, p[0]) && !InText(e)
    ensures Slots(cfg, syms, p) == Slots(cfg, syms, p[1..])
  {
    hide Slots, P1.Raw, Kept, ChoiceOf, SizeIn;
    NoSlot(cfg, syms, p);
  }

  // ------------------------------------------------- where the counters differ

  predicate UsesPc(e: Entry) { InText(e) && Machine.ReadsPc(Plain(e)) }

  /** No compressed instruction comes before an AUIPC that writes a register. */
  predicate AuipcFirst(cfg: Config, a: seq<Entry>) {
    forall i, j :: 0 <= i < j < |a| && UsesPc(a[j]) ==> !Chosen(cfg, a[i])
  }

  predicate NoAuipc(a: seq<Entry>) { forall e :: e in a ==> !UsesPc(e) }

  function ChosenCount(cfg: Config, a: seq<Entry>): nat {
    if a == [] then 0 else (if Chosen(cfg, a[0]) then 1 else 0) + ChosenCount(cfg, a[1..])
  }

  lemma AuipcStep(cfg: Config, a: seq<Entry>)
    requires a != []
    ensures AuipcFirst(cfg, a) <==> AuipcFirst(cfg, a[1..]) && (Chosen(cfg, a[0]) ==> NoAuipc(a[1..]))
    ensures NoAuipc(a) <==> !UsesPc(a[0]) && NoAuipc(a[1..])
    ensures NoAuipc(a) ==> AuipcFirst(cfg, a)
  {
    hide UsesPc, Chosen;
    var t := a[1..];
    assert forall i :: 0 <= i < |t| ==> t[i] == a[i + 1];
    if AuipcFirst(cfg, t) && (Chosen(cfg, a[0]) ==> NoAuipc(t)) {
      forall i, j | 0 <= i < j < |a| && UsesPc(a[j]) ensures !Chosen(cfg, a[i]) {
        assert a[j] == t[j - 1] && t[j - 1] in t;
        if i > 0 { assert a[i] == t[i - 1]; }
      }
    }
    if AuipcFirst(cfg, a) {
      forall i, j | 0 <= i < j < |t| && UsesPc(t[j]) ensures !Chosen(cfg, t[i]) { assert UsesPc(a[j + 1]) && a[i + 1] == t[i]; }
      if Chosen(cfg, a[0]) {
        forall e | e in t ensures !UsesPc(e) { var j :| 0 <= j < |t| && t[j] == e; assert a[j + 1] == e; }
      }
    }
    assert forall e :: e in a <==> e == a[0] || e in t;
  }

  lemma ChosenInText(cfg: Config, e: Entry)
    ensures Chosen(cfg, e) ==> InText(e)
    ensures !Chosen(Off(cfg), e)
  {
    hide TryMap;
  }

  lemma SmallGap(xlen: Xlen, p: int, q: int)
    requires 0 <= q - p < TWO32
    ensures (p - q) % Machine.Modulus(xlen) == 0 <==> p == q
  {
    var m := Machine.Modulus(xlen);
    if p != q { DivModUnique(p - q, m, -1, p - q + m); }
  }

  lemma {:induction false} TwiceCode(cfg: Config, a: seq<Entry>)
    ensures |SourceCode(cfg, a)| == |SourceCode(Off(cfg), a)| && Machine.SameInsns(SourceCode(cfg, a), SourceCode(Off(cfg), a))
    decreases |a|
  {
    hide Plain, SizeIn;
    if a != [] { TwiceCode(cfg, a[1..]); }
  }

  /** The counters, q in the plain text and p in the compressed one, agree at every AUIPC exactly
      when no compressed instruction comes before one. */
  lemma {:induction false} CountersExact(cfg: Config, a: seq<Entry>, p: int, q: int)
    requires 0 <= q - p && q - p + 2 * ChosenCount(cfg, a) < TWO32
    ensures |SourceCode(cfg, a)| == |SourceCode(Off(cfg), a)|
    ensures Machine.CountersAgree(cfg.xlen, SourceCode(cfg, a), SourceCode(Off(cfg), a), p, q) <==> AuipcFirst(cfg, a) && (p != q ==> NoAuipc(a))
    decreases |a|
  {
    hide SourceCode, UsesPc, Chosen, AuipcFirst, NoAuipc, Plain, Machine.Modulus, Machine.ReadsPc;
    TwiceCode(cfg, a);
    if a == [] {
      NoCode(cfg);
    } else {
      AuipcStep(cfg, a);
      CodeStep(cfg, a);
      CodeStep(Off(cfg), a);
      ChosenInText(cfg, a[0]);
      TwiceCode(cfg, a[1..]);
      SmallGap(cfg.xlen, p, q);
      if InText(a[0]) {
        CountersExact(cfg, a[1..], p + SizeIn(cfg, a[0]), q + SizeIn(Off(cfg), a[0]));
        assert UsesPc(a[0]) <==> Machine.ReadsPc(Plain(a[0])) by { PcUse(a[0]); }
      } else {
        assert !UsesPc(a[0]) by { PcUse(a[0]); }
        CountersExact(cfg, a[1..], p, q);
      }
    }
  }

  lemma PcUse(e: Entry)
    ensures UsesPc(e) <==> InText(e) && Machine.ReadsPc(Plain(e))
  {}

  lemma NoCode(cfg: Config)
    ensures SourceCode(cfg, []) == [] && AuipcFirst(cfg, []) && NoAuipc([])
  {}

  lemma ChosenSize(cfg: Config, e: Entry)
    requires P1.Raw(e)
    ensures Chosen(cfg, e) ==> e.sect == Text && FullSize(e) >= 2
    ensures FullSize(e) >= 0
  {
    hide TryMap, WfInstr, FmtOf, IsCFmt;
  }

  lemma {:induction false} CountBound(cfg: Config, a: seq<Entry>)
    requires P1.RawAll(a)
    ensures 2 * ChosenCount(cfg, a) <= FullTotal(a, Text)
    decreases |a|
  {
    hide P1.Raw, Chosen, FullSize;
    if a != [] {
      assert P1.Raw(a[0]);
      ChosenSize(cfg, a[0]);
      CountBound(cfg, a[1..]);
    }
  }

  lemma CountFits(cfg: Config, items: seq<P1.Item>)
    requires P1.AllProper(items) && Len(items, Text) < TWO31
    ensures 2 * ChosenCount(cfg, P1.After(items).nodes) < TWO31
  {
    hide P1.After, ChosenCount, FullTotal, P1.RawAll, Len, Padding, P1.Pc;
    P1.AfterRaw(items);
    CountBound(cfg, P1.After(items).nodes);
    CounterIsLength(items, Text);
    LenNotNegative(items, Text);
  }

  lemma {:induction false} CodeSequential(cfg: Config, a: seq<Entry>)
    requires forall e :: e in a && InText(e) ==> Machine.Sequential(Plain(e).op)
    ensures Machine.AllSequential(SourceCode(cfg, a))
    decreases |a|
  {
    hide Machine.Sequential, Plain, SizeIn, SourceCode, InText;
    if a == [] {
      NoCode(cfg);
    } else {
      assert a[0] in a && forall e :: e in a[1..] ==> e in a;
      CodeSequential(cfg, a[1..]);
      CodeStep(cfg, a);
      var c := SourceCode(cfg, a);
      if InText(a[0]) { assert forall i :: 0 < i < |c| ==> c[i] == c[1..][i - 1]; }
    }
  }

  lemma OffForm(cfg: Config, e: Entry)
    requires P1.Raw(e) && FormRight(cfg, e)
    ensures FormRight(Off(cfg), e)
  {
    hide TryMap, Conforms;
    if Chosen(cfg, e) { ChosenBase(cfg, e); }
  }

  lemma StraightForms(cfg: Config, a: seq<Entry>)
    requires P1.RawAll(a) && StraightLine(cfg, a)
    ensures Unlabelled(a) && FormsRight(cfg, a) && FormsRight(Off(cfg), a)
    ensures forall e :: e in a && InText(e) ==> Machine.Sequential(Plain(e).op)
  {
    hide FormRight, P1.Raw, Machine.Sequential, Plain;
    forall e | e in a && InText(e) ensures FormRight(Off(cfg), e) {
      var i :| 0 <= i < |a| && a[i] == e;
      assert P1.Raw(a[i]);
      OffForm(cfg, e);
    }
  }

  /** In a good run the emitted text is the source's instructions as code for the machine. */
  lemma TextLoaded(cfg: Config, fmt: OutFormat, items: seq<P1.Item>)
    requires Good(cfg, fmt, items) && Unlabelled(P1.After(items).nodes) && FormsRight(cfg, P1.After(items).nodes)
    ensures AllEmittable(cfg, P1.After(items).syms, Final(cfg, items))
    ensures var b, c := TextOf(cfg, items), SourceCode(cfg, P1.After(items).nodes);
            Machine.Loaded(cfg.xlen, b, 0, c) && Machine.Span(c, |c|) == |b|
  {
    hide P1.After, Final, AllEmittable, SectBytes, Shows, Slots, Unlabelled, FormsRight, AllLaid, SourceCode, Machine.Loaded, Machine.Span;
    TextShows(cfg, fmt, items);
    FinalLaid(cfg, items);
    LoadedFrom(cfg, P1.After(items).syms, P1.After(items).nodes, Final(cfg, items), TextOf(cfg, items), 0);
  }

  /** After k instructions of either text the registers and memory are the same. */
  predicate Together(core: Machine.Core, xlen: Xlen, base: int, b: seq<Byte>, c: seq<Byte>, s: Machine.State, k: nat) {
    var x, y := Machine.Run(core, xlen, base, b, s, k), Machine.Run(core, xlen, base, c, s, k);
    x.Some? && y.Some? && Machine.Same(x.value, y.value)
  }

  lemma TogetherIsSame(core: Machine.Core, xlen: Xlen, base: int, b: seq<Byte>, c: seq<Byte>, x: seq<Machine.Placed>,
                       y: seq<Machine.Placed>, s: Machine.State, k: nat)
    requires Machine.Loaded(xlen, b, s.pc, x) && Machine.Loaded(xlen, c, s.pc, y)
    requires Machine.AllSequential(x) && Machine.AllSequential(y) && k <= |x| == |y|
    ensures Together(core, xlen, base, b, c, s, k) <==> Machine.SameAfter(core, xlen, base, x, y, s, s, k)
  {
    hide Machine.Loaded, Machine.AllSequential, Machine.Run, Machine.Exec, Machine.Same;
    Machine.RunIsExec(core, xlen, base, b, x, s, k);
    Machine.RunIsExec(core, xlen, base, c, y, s, k);
  }

  /** Two codes with the same instructions, loaded in two texts, run alike all the way exactly
      when the program counters agree wherever one is read. */
  lemma RunsAgree(core: Machine.Core, xlen: Xlen, base: int, b: seq<Byte>, c: seq<Byte>, x: seq<Machine.Placed>,
                  y: seq<Machine.Placed>, s: Machine.State)
    requires Machine.Loaded(xlen, b, s.pc, x) && Machine.Loaded(xlen, c, s.pc, y)
    requires Machine.AllSequential(x) && Machine.AllSequential(y) && Machine.SameInsns(x, y)
    ensures (forall k :: 0 <= k <= |x| ==> Together(core, xlen, base, b, c, s, k)) <==> Machine.CountersAgree(xlen, x, y, s.pc, s.pc)
  {
    hide Machine.Loaded, Machine.AllSequential, Together, Machine.SameAfter, Machine.AgreeAlong, Machine.CountersAgree;
    Machine.AgreeExactly(core, xlen, base, x, y, s, s);
    Machine.AgreeEach(core, xlen, base, x, y, s, s);
    forall k | 0 <= k <= |x|
      ensures Together(core, xlen, base, b, c, s, k) <==> Machine.SameAfter(core, xlen, base, x, y, s, s, k)
    {
      TogetherIsSame(core, xlen, base, b, c, x, y, s, k);
    }
  }

  /** Straight-line text executes alike with and without automatic compression: wherever the
      plain run succeeds so does the compressed one, both texts run from their first byte to their
      end, and after every instruction the registers and memory are the same if and only if no
      compressed instruction comes before an AUIPC that writes a register. */
  lemma ExecutionAgrees(core: Machine.Core, base: int, cfg: Config, fmt: OutFormat, items: seq<P1.Item>, s: Machine.State)
    requires Good(Off(cfg), fmt, items) && StraightLine(cfg, P1.After(items).nodes) && s.pc == 0
    ensures Good(cfg, fmt, items)
    ensures AllEmittable(cfg, P1.After(items).syms, Final(cfg, items))
    ensures AllEmittable(Off(cfg), P1.After(items).syms, Final(Off(cfg), items))
    ensures var b, c, n := TextOf(cfg, items), TextOf(Off(cfg), items), |SourceCode(cfg, P1.After(items).nodes)|;
            && (forall k :: 0 <= k <= n ==> Machine.Run(core, cfg.xlen, base, b, s, k).Some?)
            && (forall k :: 0 <= k <= n ==> Machine.Run(core, cfg.xlen, base, c, s, k).Some?)
            && Machine.Run(core, cfg.xlen, base, b, s, n).value.pc == |b|
            && Machine.Run(core, cfg.xlen, base, c, s, n).value.pc == |c|
            && ((forall k :: 0 <= k <= n ==> Together(core, cfg.xlen, base, b, c, s, k)) <==> AuipcFirst(cfg, P1.After(items).nodes))
  {
    hide P1.After, Final, AllEmittable, SectBytes, Unlabelled, FormsRight, StraightLine, SourceCode, AuipcFirst, Together, Machine.Run,
      Machine.Exec, Machine.Loaded, Machine.Span, Machine.AllSequential, Machine.SameInsns, Machine.CountersAgree, P1.RawAll, NoAuipc,
      Assemble, ChosenCount;
    var a := P1.After(items).nodes;
    P1.AfterRaw(items);
    StraightForms(cfg, a);
    SameSuccess(cfg, fmt, items);
    TextLoaded(cfg, fmt, items);
    TextLoaded(Off(cfg), fmt, items);
    var b, c, x, y := TextOf(cfg, items), TextOf(Off(cfg), items), SourceCode(cfg, a), SourceCode(Off(cfg), a);
    TwiceCode(cfg, a);
    CodeSequential(cfg, a);
    CodeSequential(Off(cfg), a);
    CountFits(cfg, items);
    CountersExact(cfg, a, 0, 0);
    RunsAgree(core, cfg.xlen, base, b, c, x, y, s);
    forall k | 0 <= k <= |x| ensures Machine.Run(core, cfg.xlen, base, b, s, k).Some? {
      Machine.RunIsExec(core, cfg.xlen, base, b, x, s, k);
    }
    forall k | 0 <= k <= |x| ensures Machine.Run(core, cfg.xlen, base, c, s, k).Some? {
      Machine.RunIsExec(core, cfg.xlen, base, c, y, s, k);
    }
    Machine.RunIsExec(core, cfg.xlen, base, b, x, s, |x|);
    Machine.RunIsExec(core, cfg.xlen, base, c, y, s, |x|);
  }
}
