/** Pass 1: the grammar's actions (`assembler.y`, `pass1.c`, `pass.c`) over a list of parsed
    items, building the entry list and the symbol table. */
module Pass1 {
  import opened Isa
  import opened Ir
  import opened Align
  import opened Symtab
  import opened Layout
  import opened Survive
  import opened Agree
  import Bits

  /** One label definition, directive or instruction, as the parser hands it over. */
  datatype Item =
    | Label(name: string)
    | Switch(sect: Section)
    | Value(value: int, size: int)   // .byte .half .word .dword
    | Char(code: int)                // each character of .ascii and .asciiz
    | AlignTo(pow2: nat)
    | Space(count: nat)
    | Instr(op: Op, rd: Reg, rs1: Reg, rs2: Reg, imm: int, target: Option<string>, reloc: Reloc)

  /** What the lexer and the grammar guarantee; an alignment above 31 is an undefined shift. */
  predicate Proper(i: Item) {
    match i
    case Value(_, size) => size in {1, 2, 4, 8}
    case Char(code) => 0 <= code < 256
    case AlignTo(pow2) => pow2 <= 31
    case Instr(op, _, _, _, _, target, reloc) => LabelFits(op, target, reloc)
    case _ => true
  }

  /** The range test on .byte, .half and .word; a value outside is reported and dropped. */
  predicate InRange(value: int, size: int) {
    match size
    case 1 => -0x80 <= value < 0x80
    case 2 => -0x8000 <= value < 0x8000
    case 4 => -TWO31 <= value < TWO31
    case _ => true
  }

  datatype State = State(nodes: seq<Entry>, pcText: int, pcData: int, sect: Section, syms: Symbols)

  const INIT: State := State([], 0, 0, Text, map[])

  function Pc(s: State, sect: Section): int { if sect == Text then s.pcText else s.pcData }

  /** `pass_advance_pc`. */
  function Advance(s: State, n: int): State {
    if s.sect == Text then s.(pcText := U32(s.pcText + n)) else s.(pcData := U32(s.pcData + n))
  }

  function Add(s: State, e: Entry, n: int): State {
    Advance(s.(nodes := s.nodes + [e]), n)
  }

  function InstrSize(op: Op): int { if IsCFmt(FmtOf(op)) then 2 else 4 }

  function Step(s: State, i: Item): State
    requires Proper(i)
  {
    var pc := Pc(s, s.sect);
    match i
    case Label(l) => if l in s.syms then s else s.(syms := s.syms[l := I32(pc)])
    case Switch(sect) => s.(sect := sect)
    case Value(v, n) => if InRange(v, n) then Add(s, NewData(s.sect, pc, v, n), n) else s
    case Char(c) => Add(s, NewData(s.sect, pc, c, 1), 1)
    case AlignTo(pow2) =>
      // the entry records the address after alignment, not the padding
      var s' := Advance(s, AlignPad(pc, pow2));
      var after := Pc(s', s.sect);
      if after > 0 then s'.(nodes := s.nodes + [NewAlign(s.sect, pc, after)]) else s'
    case Space(count) =>
      if U32(count) == 0 then s else Add(s, NewAlign(s.sect, pc, U32(count)), U32(count))
    case Instr(op, rd, rs1, rs2, imm, target, reloc) =>
      Add(s, NewInstr(op, FmtOf(op), rd, rs1, rs2, imm, target, reloc, s.sect, pc, InstrSize(op)), InstrSize(op))
  }

  predicate AllProper(items: seq<Item>) {
    forall i :: i in items ==> Proper(i)
  }

  /** The state after a list of items. */
  function After(items: seq<Item>): State
    requires AllProper(items)
  {
    if items == [] then INIT else Step(After(items[..|items| - 1]), items[|items| - 1])
  }

  /** The section that item k falls in: the one the last directive before it selects, the text
      section if there is none. */
  function SectionAt(items: seq<Item>, k: nat): Section
    requires k <= |items|
  {
    if k == 0 then Text else if items[k - 1].Switch? then items[k - 1].sect else SectionAt(items, k - 1)
  }

  lemma AfterPrefix(items: seq<Item>, m: nat)
    requires AllProper(items) && m < |items|
    ensures AllProper(items[..m]) && AllProper(items[..m + 1]) && Proper(items[m])
    ensures After(items[..m + 1]) == Step(After(items[..m]), items[m])
  {
    assert items[..m + 1][..m] == items[..m] && items[..m + 1][m] == items[m];
    assert forall i :: i in items[..m] ==> i in items;
    assert forall i :: i in items[..m + 1] ==> i in items;
  }

  lemma StepSection(s: State, i: Item)
    requires Proper(i)
    ensures Step(s, i).sect == if i.Switch? then i.sect else s.sect
  {
    hide AlignPad, NewData, NewAlign, NewInstr;
  }

  lemma {:induction false} SectionPrefix(items: seq<Item>, m: nat, k: nat)
    requires k <= m <= |items|
    ensures SectionAt(items[..m], k) == SectionAt(items, k)
    decreases k
  {
    if k > 0 { SectionPrefix(items, m, k - 1); }
  }

  /** Pass 1 stands, before item k, in the section the directives select. */
  lemma {:induction false} SectionIs(items: seq<Item>, k: nat)
    requires AllProper(items) && k <= |items|
    ensures AllProper(items[..k]) && After(items[..k]).sect == SectionAt(items, k)
    decreases k
  {
    hide Step, Proper;
    if k > 0 {
      AfterPrefix(items, k - 1);
      SectionIs(items, k - 1);
      StepSection(After(items[..k - 1]), items[k - 1]);
    } else {
      assert items[..0] == [] && After([]) == INIT;
    }
  }

  // ------------------------------------------------- the imperative pass

  /** The globals of pass 1. */
  class Assembler {
    var pcText: int
    var pcData: int
    var sect: Section
    const ir: Buffer
    const symtab: Table

    ghost predicate Valid()
      reads this, ir, symtab, symtab.table
    {
      0 <= pcText < TWO32 && 0 <= pcData < TWO32 && symtab.Valid()
    }

    ghost function Repr(): set<object>
      reads this, symtab
    {
      {this, ir, symtab, symtab.table}
    }

    ghost function View(): State
      reads this, ir, symtab
    {
      State(ir.nodes, pcText, pcData, sect, symtab.M)
    }

    /** `pass1_initialize`. */
    constructor ()
      ensures Valid() && fresh(Repr()) && View() == INIT
    {
      pcText, pcData, sect := 0, 0, Text;
      ir := new Buffer();
      symtab := new Table();
    }

    /** `pass_current_pc`. */
    method CurrentPc() returns (pc: int)
      ensures pc == Pc(View(), sect)
    {
      if sect == Text { pc := pcText; } else { pc := pcData; }
    }

    /** `pass_advance_pc`. */
    method AdvancePc(n: int)
      requires Valid()
      modifies this`pcText, this`pcData
      ensures Valid() && View() == Advance(old(View()), n)
    {
      if sect == Text { pcText := U32(pcText + n); } else { pcData := U32(pcData + n); }
    }

    /** `pass_align_current_pc`: returns the new counter. */
    method AlignCurrentPc(pow2: nat) returns (pc: int)
      requires Valid() && pow2 <= 31
      modifies this`pcText, this`pcData
      ensures Valid() && View() == Advance(old(View()), AlignPad(Pc(old(View()), sect), pow2)) && pc == Pc(View(), sect)
    {
      hide AlignPad, Table.Valid;
      if sect == Text {
        pcText := U32(pcText + AlignPad(pcText, pow2));
        return pcText;
      } else {
        pcData := U32(pcData + AlignPad(pcData, pow2));
        return pcData;
      }
    }

    /** `pass1_emit_label`. */
    method EmitLabel(name: string)
      requires Valid()
      modifies Repr()
      ensures Valid() && fresh(Repr() - old(Repr()))
      ensures View() == Step(old(View()), Label(name))
    {
      var pc := CurrentPc();
      var ok := symtab.Insert(name, I32(pc));
    }

    /** `pass1_emit_data`. */
    method EmitData(value: int, size: int)
      requires Valid()
      modifies Repr()
      ensures Valid() && Repr() == old(Repr())
      ensures View() == Add(old(View()), NewData(old(sect), Pc(old(View()), old(sect)), value, size), size)
    {
      var pc := CurrentPc();
      ir.AppendData(sect, pc, value, size);
      AdvancePc(size);
    }

    /** `pass1_emit_space`. */
    method EmitSpace(count: nat)
      requires Valid()
      modifies Repr()
      ensures Valid() && Repr() == old(Repr())
      ensures View() == Step(old(View()), Space(count))
    {
      hide NewAlign, Table.Valid;
      var pc := CurrentPc();
      ir.AppendAlign(sect, pc, U32(count));
      AdvancePc(count);
      SpaceAdvance(old(View()), count);
    }

    /** The grammar's action for .align. */
    method EmitAlign(pow2: nat)
      requires Valid() && pow2 <= 31
      modifies Repr()
      ensures Valid() && Repr() == old(Repr())
      ensures View() == Step(old(View()), AlignTo(pow2))
    {
      hide AlignPad;
      var before := CurrentPc();
      var pad := AlignCurrentPc(pow2);
      if pad > 0 { ir.AppendAlign(sect, before, pad); }
    }

    /** `pass1_emit_instruction`. */
    method EmitInstruction(op: Op, fmt: Fmt, rd: Reg, rs1: Reg, rs2: Reg, imm: int, target: Option<string>, reloc: Reloc)
      requires Valid()
      modifies Repr()
      ensures Valid() && Repr() == old(Repr())
      ensures var n := if IsCFmt(fmt) then 2 else 4;
              View() == Add(old(View()), NewInstr(op, fmt, rd, rs1, rs2, imm, target, reloc, old(sect), Pc(old(View()), old(sect)), n), n)
    {
      var pc := CurrentPc();
      var size := 4;
      if IsCFmt(fmt) { size := 2; }
      ir.AppendInstr(op, fmt, rd, rs1, rs2, imm, target, reloc, sect, pc, size);
      AdvancePc(size);
    }

    /** The grammar's actions, item by item. */
    method Process(i: Item)
      requires Valid() && Proper(i)
      modifies Repr()
      ensures Valid() && fresh(Repr() - old(Repr()))
      ensures View() == Step(old(View()), i)
    {
      hide AlignPad, NewData, NewInstr, LabelFits;
      match i
      case Label(l) => EmitLabel(l);
      case Switch(s) => sect := s;
      case Value(v, n) => if InRange(v, n) { EmitData(v, n); }
      case Char(c) => EmitData(c, 1);
      case AlignTo(pow2) => EmitAlign(pow2);
      case Space(count) => EmitSpace(count);
      case Instr(op, rd, rs1, rs2, imm, target, reloc) => EmitInstruction(op, FmtOf(op), rd, rs1, rs2, imm, target, reloc);
    }

    /** All of pass 1. */
    method Run(items: seq<Item>)
      requires Valid() && AllProper(items) && View() == INIT
      modifies Repr()
      ensures Valid() && fresh(Repr() - old(Repr()))
      ensures View() == After(items)
    {
      hide Step, Proper;
      var n := 0;
      while n < |items|
        invariant 0 <= n <= |items| && Valid() && fresh(Repr() - old(Repr()))
        invariant AllProper(items[..n]) && View() == After(items[..n])
      {
        AfterPrefix(items, n);
        Process(items[n]);
        n := n + 1;
      }
      assert items[..n] == items;
    }
  }

  lemma SpaceAdvance(s: State, count: nat)
    requires 0 <= s.pcText < TWO32 && 0 <= s.pcData < TWO32
    ensures Advance(s, count) == Advance(s, U32(count)) && (U32(count) == 0 ==> Advance(s, count) == s)
  {
    AddTruncated(s.pcText, count);
    AddTruncated(s.pcData, count);
  }

  lemma AddTruncated(a: int, b: int)
    ensures U32(a + b) == U32(a + U32(b))
  {
    var q := b / TWO32;
    assert b % TWO32 == b - q * TWO32;
    Bits.DivModUnique(a + b, TWO32, (a + U32(b)) / TWO32 + q, (a + U32(b)) % TWO32);
  }

  // ------------------------------------------------- what pass 1 hands over

  /** Entries as pass 1 leaves them: no choice yet, no alignment recorded. */
  predicate Raw(e: Entry) {
    && e.choice.None?
    && (e.kind == KInstr ==> WfInstr(e))
    && (e.kind == KAlign ==> e.imm == 0)
    && (e.kind == KData ==> e.size in {1, 2, 4, 8})
  }

  predicate RawAll(nodes: seq<Entry>) {
    forall i :: 0 <= i < |nodes| ==> Raw(nodes[i])
  }

  lemma StepRaw(s: State, i: Item)
    requires Proper(i) && RawAll(s.nodes)
    ensures RawAll(Step(s, i).nodes)
    ensures s.nodes <= Step(s, i).nodes && |Step(s, i).nodes| <= |s.nodes| + 1
    ensures |Step(s, i).nodes| > |s.nodes| ==> Raw(Step(s, i).nodes[|s.nodes|]) && Step(s, i).nodes[|s.nodes|].sect == s.sect
  {
    hide AlignPad, LabelFits, FmtOf, IsCFmt;
    FormatFlags();
  }

  lemma FormatFlags()
    ensures forall op, a, b, c, imm, t, r, sect, pc, n {:trigger NewInstr(op, FmtOf(op), a, b, c, imm, t, r, sect, pc, n)} ::
              LabelFits(op, t, r) ==> WfInstr(NewInstr(op, FmtOf(op), a, b, c, imm, t, r, sect, pc, n))
  {
    hide FmtOf, IsCFmt;
  }

  lemma {:induction false} AfterRaw(items: seq<Item>)
    requires AllProper(items)
    ensures RawAll(After(items).nodes)
    decreases |items|
  {
    if items != [] {
      hide Step, Proper, Raw;
      var m := |items| - 1;
      AfterPrefix(items, m);
      assert items[..m + 1] == items;
      AfterRaw(items[..m]);
      StepRaw(After(items[..m]), items[m]);
    }
  }

  /** Later items only append. */
  lemma {:induction false} AfterGrows(items: seq<Item>, m: nat)
    requires AllProper(items) && m <= |items|
    ensures AllProper(items[..m]) && After(items[..m]).nodes <= After(items).nodes
    decreases |items|
  {
    hide After, Step, AllProper, Proper, RawAll, Raw;
    assert items[..|items|] == items;
    if m < |items| {
      var n := |items| - 1;
      AfterPrefix(items, n);
      assert items[..n + 1] == items;
      AfterGrows(items[..n], m);
      assert items[..n][..m] == items[..m];
      AfterRaw(items[..n]);
      StepRaw(After(items[..n]), items[n]);
    }
  }

  /** A label keeps its first definition: its value is the counter where it first appears. */
  lemma {:induction false} FirstDefinition(items: seq<Item>, p: nat, name: string)
    requires AllProper(items) && p < |items| && items[p] == Label(name)
    requires forall j :: 0 <= j < p ==> items[j] != Label(name)
    ensures AllProper(items[..p]) && name !in After(items[..p]).syms
    ensures name in After(items).syms && After(items).syms[name] == I32(Pc(After(items[..p]), SectionAt(items, p)))
    decreases |items|
  {
    var n := |items| - 1;
    AfterPrefix(items, n);
    SectionIs(items, p);
    assert items[..n + 1] == items;
    if p == n {
      hide AlignPad, Add, Advance;
      NotDefined(items[..p], name);
    } else {
      assert items[..n][..p] == items[..p] && items[..n][p] == items[p];
      SectionPrefix(items, n, p);
      FirstDefinition(items[..n], p, name);
      SymsGrow(After(items[..n]), items[n]);
      hide Step;
    }
  }

  lemma SymsGrow(s: State, i: Item)
    requires Proper(i)
    ensures forall l :: l in s.syms ==> l in Step(s, i).syms && Step(s, i).syms[l] == s.syms[l]
    ensures forall l :: l in Step(s, i).syms ==> l in s.syms || i == Label(l)
  {
    hide AlignPad, NewData, NewAlign, NewInstr;
  }

  lemma {:induction false} NotDefined(items: seq<Item>, name: string)
    requires AllProper(items) && forall j :: 0 <= j < |items| ==> items[j] != Label(name)
    ensures name !in After(items).syms
    decreases |items|
  {
    if items != [] {
      var n := |items| - 1;
      AfterPrefix(items, n);
      assert items[..n + 1] == items;
      NotDefined(items[..n], name);
      SymsGrow(After(items[..n]), items[n]);
      hide Step;
    }
  }
}
