/** A concrete program whose branch misses its label: padding is counted by pass 1 and
    forgotten by pass 2. */
module Slipped {
  import opened Isa
  import opened Bits
  import opened Ir
  import opened Align
  import opened Symtab
  import opened Bytes
  import opened Out
  import opened Layout
  import opened Emit
  import opened Whole
  import opened Agree
  import Encode32
  import Decode32
  import P1 = Pass1

  const CFG := Config(RV32, false, false, false)

  // nop / .align 3 / a: j a
  const NOP := P1.Instr(Base(ADDI), 0, 0, 0, 0, None, RelocNone)
  const JUMP := P1.Instr(Base(JAL), 0, 0, 0, 0, Some("a"), Jtgt)
  const ITEMS := [NOP, P1.AlignTo(3), P1.Label("a"), JUMP]

  const FIRST := NewInstr(Base(ADDI), FmtI, 0, 0, 0, 0, None, RelocNone, Text, 0, 4)
  const PAD := NewAlign(Text, 4, 8)
  const THIRD := NewInstr(Base(JAL), FmtJ, 0, 0, 0, 0, Some("a"), Jtgt, Text, 8, 4)

  const P := [FIRST, PAD.(size := 0), THIRD.(addr := 4)]

  lemma ProperItems()
    ensures P1.AllProper(ITEMS) && P1.AllProper(ITEMS[..1]) && P1.AllProper(ITEMS[..2]) && P1.AllProper(ITEMS[..3])
  {}

  const S1 := P1.State([FIRST], 4, 0, Text, map[])
  const S2 := P1.State([FIRST, PAD], 8, 0, Text, map[])
  const S3 := P1.State([FIRST, PAD], 8, 0, Text, map["a" := 8])
  const S4 := P1.State([FIRST, PAD, THIRD], 12, 0, Text, map["a" := 8])

  lemma NopStep()
    ensures P1.Step(P1.INIT, NOP) == S1
  {}

  lemma LabelStep()
    ensures P1.Step(S2, P1.Label("a")) == S3
  {}

  lemma JumpStep()
    ensures P1.Step(S3, JUMP) == S4
  {}

  lemma AlignStep()
    ensures P1.Step(S1, P1.AlignTo(3)) == S2
  {
    hide AlignPad, Pow2;
    PowerTable();
    PaddingExact(4, 3);
  }

  lemma PassOne()
    ensures P1.AllProper(ITEMS) && P1.AllProper(ITEMS[..1]) && P1.AllProper(ITEMS[..2]) && P1.AllProper(ITEMS[..3])
    ensures P1.After(ITEMS[..1]) == S1 && P1.After(ITEMS[..2]) == S2 && P1.After(ITEMS[..3]) == S3 && P1.After(ITEMS) == S4
  {
    hide P1.Step, P1.Proper;
    ProperItems();
    assert ITEMS[..0] == [] && ITEMS[..4] == ITEMS && P1.After([]) == P1.INIT;
    P1.AfterPrefix(ITEMS, 0);
    P1.AfterPrefix(ITEMS, 1);
    P1.AfterPrefix(ITEMS, 2);
    P1.AfterPrefix(ITEMS, 3);
    NopStep();
    LabelStep();
    JumpStep();
    AlignStep();
  }

  lemma InText()
    ensures P1.AllProper(ITEMS) && P1.AllProper(ITEMS[..1]) && P1.AllProper(ITEMS[..2]) && P1.AllProper(ITEMS[..3])
    ensures P1.After(ITEMS[..1]).sect == P1.After(ITEMS[..2]).sect == P1.After(ITEMS[..3]).sect == Text
    ensures P1.After(ITEMS).nodes == [FIRST, PAD, THIRD]
  {
    hide P1.After, P1.AllProper;
    PassOne();
  }

  lemma LaidTail()
    ensures Assign([PAD, THIRD], Text, 4) == [PAD.(size := 0), THIRD.(addr := 4)]
  {
    hide AlignUp;
    assert [PAD, THIRD][1..] == [THIRD] && [THIRD][1..] == [];
    assert Assign([THIRD], Text, 4) == [THIRD.(addr := 4)];
  }

  lemma LaidAll(a: seq<Entry>)
    requires a == [FIRST, PAD, THIRD]
    ensures Assign(Assign(a, Data, 0), Text, 0) == P
  {
    NoData(a);
    LaidTail();
    assert a[1..] == [PAD, THIRD];
    assert NextPc(a[0], 0) == 4 && AssignOne(a[0], 0) == a[0];
    hide AssignOne, NextPc;
  }

  lemma Laid()
    ensures P1.AllProper(ITEMS) && Final(CFG, ITEMS) == P
  {
    hide P1.After, P1.AllProper, P, Assign;
    InText();
    LaidAll(P1.After(ITEMS).nodes);
  }

  lemma {:induction false} NoData(a: seq<Entry>)
    requires forall e :: e in a ==> e.sect == Text
    ensures Assign(a, Data, 0) == a
    decreases |a|
  {
    if a != [] { NoData(a[1..]); }
  }

  lemma BaseCode(cfg: Config, syms: Symbols, e: Entry, op: BaseOp, imm: int, w: bv32)
    requires WfInstr(e) && e.choice.None? && e.op == Base(op) && Encode32.RequireForOp(cfg, op)
    requires Immediate(syms, e.target, e.reloc, e.imm, e.addr) == Some(imm)
    requires Encode32.Encode(cfg.xlen, op, BaseFmt(op), e.rd, e.rs1, e.rs2, imm) == Some(w)
    ensures NodeCode(cfg, syms, e) == Full(w)
  {
    hide Encode32.Encode, Encode32.RequireForOp, LabelFits, BaseFmt, IsCFmt, ResolveLabel;
    CFormats();
  }

  lemma NopEmitted() returns (w: bv32)
    ensures WfInstr(P[0]) && NodeCode(CFG, S4.syms, P[0]) == Full(w)
  {
    hide Encode32.Encode, Decode32.Decode, Decode32.Meaning, NodeCode;
    w := Decode32.EncodeRepresentable(CFG, ADDI, 0, 0, 0, 0);
    BaseCode(CFG, S4.syms, P[0], ADDI, 0, w);
  }

  lemma JumpOffset()
    ensures Immediate(S4.syms, Some("a"), Jtgt, 0, 4) == Some(4)
  {}

  lemma WellFormed()
    ensures WfInstr(P[0]) && WfInstr(P[2])
  {}

  lemma JumpEmitted() returns (w: bv32)
    ensures WfInstr(P[2]) && NodeCode(CFG, S4.syms, P[2]) == Full(w)
  {
    hide Encode32.Encode, Decode32.Decode, Decode32.Meaning, NodeCode, Immediate, WfInstr;
    WellFormed();
    w := Decode32.EncodeRepresentable(CFG, JAL, 0, 0, 0, 4);
    JumpOffset();
    BaseCode(CFG, S4.syms, P[2], JAL, 4, w);
  }

  lemma Succeeds()
    ensures P1.AllProper(ITEMS) && Assemble(CFG, Elf, ITEMS).1
  {
    hide NodeCode, WordBytes, P1.After, Final;
    PassOne();
    Laid();
    var w := NopEmitted();
    var v := JumpEmitted();
    var s := Start(Elf).(seenText := true);
    var s1 := s.(sink := s.sink.(text := s.sink.text + WordBytes(w)));
    var s2 := s1.(sink := s1.sink.(text := s1.sink.text + WordBytes(v)));
    assert P[1..] == [P[1], P[2]] && P[1..][1..] == [P[2]] && [P[2]][1..] == [];
    assert EmitFrom(CFG, S4.syms, true, [], s2).1;
    assert EmitEntry(CFG, S4.syms, true, P[0], s) == (s1, true);
    assert EmitEntry(CFG, S4.syms, true, P[1], s1) == (s1, true);
    assert EmitEntry(CFG, S4.syms, true, P[2], s1) == (s2, true);
    assert Wf([P[2]]) && Wf([P[1], P[2]]) && Wf([]);
    assert EmitFrom(CFG, S4.syms, true, [P[2]], s1).1;
    assert EmitFrom(CFG, S4.syms, true, [P[1], P[2]], s1).1;
  }

  lemma LenPrefix(items: seq<P1.Item>, m: nat, at: int)
    requires P1.AllProper(items) && m < |items| && P1.AllProper(items[..m]) && P1.After(items[..m]).sect == Text
    requires Len(items[..m], Text) == at
    ensures P1.AllProper(items[..m + 1]) && P1.Proper(items[m]) && Len(items[..m + 1], Text) == at + Adds(items[m], at)
  {
    hide P1.After, Adds, P1.Proper;
    P1.AfterPrefix(items, m);
    P1.SectionIs(items[..m + 1], m);
    assert items[..m + 1][..m] == items[..m] && items[..m + 1][m] == items[m];
  }

  lemma AddsHere()
    ensures P1.AllProper(ITEMS) && Adds(NOP, 0) == 4 && Adds(P1.AlignTo(3), 4) == 4 && Adds(P1.Label("a"), 8) == 0 && Adds(JUMP, 8) == 4
  {
    assert Pow2(3) == 8;
  }

  lemma LenTwo(items: seq<P1.Item>)
    requires P1.AllProper(items) && |items| == 4 && P1.AllProper(items[..1]) && P1.After(items[..1]).sect == Text
    requires P1.Proper(items[0]) && Adds(items[0], 0) == 4 && P1.Proper(items[1]) && Adds(items[1], 4) == 4
    ensures P1.AllProper(items[..2]) && Len(items[..2], Text) == 8
  {
    assert P1.After([]) == P1.INIT && Len([], Text) == 0 && items[..0] == [];
    hide P1.After, Adds, P1.Proper, P1.AllProper, Len;
    LenPrefix(items, 0, 0);
    LenPrefix(items, 1, 4);
  }

  lemma LenFour(items: seq<P1.Item>)
    requires P1.AllProper(items) && |items| == 4 && P1.AllProper(items[..2]) && P1.AllProper(items[..3])
    requires P1.After(items[..2]).sect == P1.After(items[..3]).sect == Text && Len(items[..2], Text) == 8
    requires P1.Proper(items[2]) && Adds(items[2], 8) == 0 && P1.Proper(items[3]) && Adds(items[3], 8) == 4
    ensures Len(items, Text) == 12
  {
    hide P1.After, Adds, P1.Proper, P1.AllProper, Len;
    LenPrefix(items, 2, 8);
    LenPrefix(items, 3, 8);
    assert items[..4] == items;
  }

  lemma ShortText()
    ensures P1.AllProper(ITEMS) && Len(ITEMS, Text) == 12
  {
    hide P1.After, Adds, P1.Proper, P1.AllProper, Len, NOP, JUMP, ITEMS;
    InText();
    AddsHere();
    ItemsHere();
    LenTwo(ITEMS);
    LenFour(ITEMS);
  }

  lemma ItemsHere()
    ensures |ITEMS| == 4 && ITEMS[0] == NOP && ITEMS[1] == P1.AlignTo(3) && ITEMS[2] == P1.Label("a") && ITEMS[3] == JUMP
    ensures ITEMS[..0] == [] && ITEMS[..4] == ITEMS
  {}

  lemma TotalHere()
    ensures Total(P[..2], Text) == 4
  {
    assert P[..2] == [P[0], P[1]] && P[..2][1..] == [P[1]] && [P[1]][1..] == [];
    assert Total([P[1]], Text) == 0;
  }

  lemma LabelHere()
    ensures P1.AllProper(ITEMS) && DefinedAt(ITEMS, 2, "a", Text) && LabelOffset(CFG, ITEMS, 2, Text) == 4
  {
    hide P1.After, Final, Total;
    PassOne();
    Laid();
    TotalHere();
    P1.SectionIs(ITEMS, 2);
  }

  /** The jump stands at its own label, offset 4, and transfers to offset 8. */
  lemma JumpMissesItsLabel()
    ensures P1.AllProper(ITEMS) && Assemble(CFG, Elf, ITEMS).1
    ensures DefinedAt(ITEMS, 2, "a", Text) && LabelOffset(CFG, ITEMS, 2, Text) == 4
    ensures InsnAt(RV32, Assemble(CFG, Elf, ITEMS).0.sink.text, 4) == Some(Insn(JAL, 0, 0, 0, 4))
  {
    hide P1.After, Final, Assemble, Len, DefinedAt, LabelOffset, Immediate, InsnAt, Encode32.Encode;
    PassOne();
    Laid();
    Succeeds();
    ShortText();
    LabelHere();
    JumpOffset();
    BranchLands(CFG, Elf, ITEMS, 2, 2, "a", Text);
  }
}
