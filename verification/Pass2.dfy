/** Pass 2 as it runs: the loops of `pass2.c` over the entry list, the sinks and the globals,
    each proved to compute the function that specifies it. */
module Pass2 {
  import opened Isa
  import opened Ir
  import opened Align
  import opened CRules
  import opened Compress
  import opened Symtab
  import opened Bytes
  import opened Out
  import opened Layout
  import opened Emit
  import opened Survive
  import opened Agree
  import Encode16
  import Encode32

  /** How many entries planning gave a choice. */
  function PlannedCount(cfg: Config, nodes: seq<Entry>): nat {
    if nodes == [] then 0
    else
      var last := nodes[|nodes| - 1];
      PlannedCount(cfg, nodes[..|nodes| - 1]) + (if CanAttempt(cfg, last) && TryMap(cfg.xlen, last).Some? then 1 else 0)
  }

  lemma NothingPlanned(cfg: Config, nodes: seq<Entry>)
    requires !cfg.hasC || !cfg.autoC
    ensures Plan(cfg, nodes) == nodes && PlannedCount(cfg, nodes) == 0
  {
    if nodes != [] { NothingPlanned(cfg, nodes[..|nodes| - 1]); }
  }

  lemma AssignHead(nodes: seq<Entry>, i: nat, sect: Section, pc: int)
    requires i < |nodes|
    ensures Assign(nodes[i..], sect, pc) ==
            if nodes[i].sect != sect then [nodes[i]] + Assign(nodes[i + 1..], sect, pc)
            else [AssignOne(nodes[i], pc)] + Assign(nodes[i + 1..], sect, NextPc(nodes[i], pc))
  {
    assert nodes[i..][1..] == nodes[i + 1..];
  }

  lemma CompCode(cfg: Config, syms: Symbols, op: COp, fmt: Fmt, rd: Reg, rs1: Reg, rs2: Reg, imm: int,
                 target: Option<string>, reloc: Reloc, addr: int)
    requires IsCFmt(fmt)
    ensures CodeOf(cfg, syms, Comp(op), fmt, rd, rs1, rs2, imm, target, reloc, addr) ==
            var value := Immediate(syms, target, reloc, imm, addr);
            if !Encode16.RequireC(cfg, op) then Fail(false)
            else if value.None? then Fail(true)
            else
              var h := Encode16.CEncode(cfg, op, fmt, rd, rs1, rs2, value.value);
              if h.None? then Fail(true) else Half(h.value)
  {
    hide Encode16.CEncode, Encode16.RequireC, Immediate, IsCFmt;
  }

  lemma PlainBaseCode(cfg: Config, syms: Symbols, op: BaseOp, fmt: Fmt, rd: Reg, rs1: Reg, rs2: Reg, imm: int,
                      target: Option<string>, reloc: Reloc, addr: int)
    requires !IsCFmt(fmt)
    ensures CodeOf(cfg, syms, Base(op), fmt, rd, rs1, rs2, imm, target, reloc, addr) ==
            var value := Immediate(syms, target, reloc, imm, addr);
            if !Encode32.RequireForOp(cfg, op) || value.None? then Fail(true)
            else
              var w := Encode32.Encode(cfg.xlen, op, fmt, rd, rs1, rs2, value.value);
              if w.None? then Fail(true) else Full(w.value)
  {
    hide Encode32.Encode, Encode32.RequireForOp, Immediate, IsCFmt;
  }

  class Pass {
    const cfg: Config
    const ir: Buffer
    const symtab: Table
    const out: Output
    const hasFile: bool
    var hadError: bool
    var outSection: Section
    var seenText: bool

    ghost predicate Valid()
      reads this, symtab, symtab.table, out, out.text, out.data, out.fp
    {
      && symtab.Valid() && out.Valid()
      && {this, ir, symtab, symtab.table} !! out.Repr()
    }

    ghost function View(): State
      requires Valid()
      reads this, symtab, symtab.table, out, out.text, out.data, out.fp, out.text.data, out.data.data
    {
      State(out.View(), outSection, seenText, hadError)
    }

    /** `pass2_initialize` and `pass2_set_output`; the flag records that a file is set. */
    constructor (cfg: Config, ir: Buffer, symtab: Table, out: Output, hasFile: bool)
      requires symtab.Valid() && out.Valid() && {ir as object, symtab, symtab.table} !! out.Repr()
      ensures Valid() && this.cfg == cfg && this.ir == ir && this.symtab == symtab && this.out == out && this.hasFile == hasFile
      ensures View() == State(out.View(), Text, false, false)
    {
      this.cfg, this.ir, this.symtab, this.out, this.hasFile := cfg, ir, symtab, out, hasFile;
      hadError, outSection, seenText := false, Text, false;
    }

    /** `pass2_assign_addresses`. */
    method AssignAddresses(sect: Section)
      modifies ir
      ensures ir.nodes == Assign(old(ir.nodes), sect, 0)
    {
      hide AssignOne, NextPc, Assign;
      var pc := 0;
      var i := 0;
      ghost var was := ir.nodes;
      ghost var done: seq<Entry> := [];
      assert was[0..] == was && done + Assign(was, sect, 0) == Assign(was, sect, 0);
      while i < |ir.nodes|
        invariant 0 <= i <= |was| == |ir.nodes| && |done| == i && ir.nodes == done + was[i..]
        invariant done + Assign(was[i..], sect, pc) == Assign(was, sect, 0)
      {
        AssignHead(was, i, sect, pc);
        var e := ir.nodes[i];
        assert e == was[i];
        if e.sect == sect {
          var placed, next := Place(e, pc);
          Extend(done, placed, was, i, Assign(was[i + 1..], sect, next));
          ir.nodes := ir.nodes[i := placed];
          pc := next;
          done := done + [placed];
        } else {
          Extend(done, e, was, i, Assign(was[i + 1..], sect, pc));
          done := done + [e];
        }
        i := i + 1;
      }
      AssignNothing(sect, pc);
      assert was[i..] == [] && done + [] == done;
    }

    /** One entry of the loop above. */
    static method Place(e: Entry, pc: int) returns (placed: Entry, next: int)
      ensures placed == AssignOne(e, pc) && next == NextPc(e, pc)
    {
      hide AlignUp, U32;
      placed := e;
      match e.kind
      case KAlign =>
        var align := U32(e.imm);
        if align > 1 {
          var aligned := AlignUp(pc, align);
          return e.(size := U32(aligned - pc), addr := aligned), aligned;
        }
        return e.(size := 0, addr := pc), pc;
      case KInstr =>
        placed := e.(size := SizeNow(e), addr := pc);
        next := U32(pc + placed.size);
      case KData =>
        placed := e.(addr := pc);
        next := U32(pc + placed.size);
    }

    static lemma Extend(done: seq<Entry>, e: Entry, was: seq<Entry>, i: nat, rest: seq<Entry>)
      requires |done| == i < |was|
      ensures (done + was[i..])[i := e] == (done + [e]) + was[i + 1..]
      ensures (done + [e]) + rest == done + ([e] + rest)
      ensures was[i] == e ==> done + was[i..] == (done + [e]) + was[i + 1..]
    {}

    static lemma AssignNothing(sect: Section, pc: int)
      ensures Assign([], sect, pc) == []
    {}

    /** `pass2_peek_label_addr`. */
    method PeekLabel(name: string) returns (found: bool, addr: int)
      requires symtab.Valid()
      ensures found <==> Lookup(symtab.M, name) >= 0
      ensures found ==> addr == U32(Lookup(symtab.M, name))
    {
      var a := symtab.Search(name);
      if a < 0 { return false, 0; }
      return true, U32(a);
    }

    /** One entry of the loop below. */
    method ValidateChoice(e: Entry) returns (checked: Entry, dropped: bool)
      requires symtab.Valid() && e.choice.Some?
      ensures checked == ValidateOne(symtab.M, e) && (dropped <==> checked.choice.None?)
    {
      hide U32, I32, Disp, RangeOk, Lookup;
      var ch := e.choice.value;
      if !PcRelative(ch.op) { return e, false; }
      var to := 0;
      var haveTarget := false;
      if ch.target.Some? && ch.target.value != "" {
        haveTarget, to := PeekLabel(ch.target.value);
      } else if ch.reloc == Boff || ch.reloc == Jtgt {
        to := U32(I32(e.addr) + I32(ch.imm));
        haveTarget := true;
      } else {
        return e, false;
      }
      if !haveTarget { return e.(choice := None), true; }
      var disp := Disp(e.addr, to);
      if !RangeOk(ch.op, disp) { return e.(choice := None), true; }
      return e.(choice := Some(ch.(imm := disp))), false;
    }

    /** `pass2_validate_compressed_ranges`. */
    method ValidateRanges(sect: Section) returns (changed: bool)
      requires symtab.Valid() && ir as object != symtab && ir as object != symtab.table
      modifies ir
      ensures ir.nodes == Validate(cfg, symtab.M, old(ir.nodes), sect)
      ensures changed == Changed(cfg, symtab.M, old(ir.nodes), sect)
    {
      hide ValidateOne;
      if !cfg.hasC || !cfg.autoC { return false; }
      changed := false;
      var i := 0;
      ghost var was := ir.nodes;
      ghost var goal := Validate(cfg, symtab.M, was, sect);
      while i < |ir.nodes|
        invariant 0 <= i <= |was| == |ir.nodes|
        invariant forall j :: 0 <= j < i ==> ir.nodes[j] == goal[j]
        invariant forall j :: i <= j < |was| ==> ir.nodes[j] == was[j]
        invariant changed <==> exists j :: 0 <= j < i && was[j].choice.Some? && goal[j].choice.None?
      {
        var e := ir.nodes[i];
        assert goal[i] == if e.sect == sect then ValidateOne(symtab.M, e) else e;
        if e.sect == sect && e.choice.Some? {
          var checked, dropped := ValidateChoice(e);
          ir.nodes := ir.nodes[i := checked];
          if dropped { changed := true; }
        } else {
          KeepsChoiceless(symtab.M, e);
        }
        i := i + 1;
      }
      assert ir.nodes == goal;
    }

    static lemma KeepsChoiceless(syms: Symbols, e: Entry)
      ensures e.choice.None? ==> ValidateOne(syms, e) == e
    {}

    /** `pass2_plan_choices`. */
    method PlanChoices() returns (count: nat)
      modifies ir
      ensures ir.nodes == Plan(cfg, old(ir.nodes)) && count == PlannedCount(cfg, old(ir.nodes))
    {
      hide TryMap, CanAttempt;
      count := 0;
      if !cfg.hasC || !cfg.autoC {
        NothingPlanned(cfg, ir.nodes);
        return;
      }
      var i := 0;
      ghost var was := ir.nodes;
      while i < |ir.nodes|
        invariant 0 <= i <= |was| == |ir.nodes| && count == PlannedCount(cfg, was[..i])
        invariant forall j :: 0 <= j < i ==> ir.nodes[j] == PlanOne(cfg, was[j])
        invariant forall j :: i <= j < |was| ==> ir.nodes[j] == was[j]
      {
        var e := ir.nodes[i];
        assert was[..i + 1][..i] == was[..i];
        if CanAttempt(cfg, e) {
          var ch := TryMap(cfg.xlen, e);
          if ch.Some? {
            ir.nodes := ir.nodes[i := e.(choice := ch)];
            count := count + 1;
          } else {
            ir.nodes := ir.nodes[i := e.(choice := None)];
          }
        }
        i := i + 1;
      }
      assert was[..i] == was;
    }

    /** `pass2_relayout_and_validate`. */
    method RelayoutAndValidate(sect: Section, maxIters: nat) returns (stable: bool)
      requires Valid()
      modifies ir
      ensures Valid() && View() == old(View())
      ensures (ir.nodes, stable) == Relax(cfg, symtab.M, old(ir.nodes), sect, if maxIters == 0 then 1 else maxIters)
    {
      hide Assign, Validate, Changed, Output.View, Output.Valid, Table.Valid;
      var rounds := if maxIters == 0 then 1 else maxIters;
      var i := 0;
      while i < rounds
        invariant 0 <= i <= rounds && Valid() && View() == old(View())
        invariant Relax(cfg, symtab.M, ir.nodes, sect, rounds - i) == Relax(cfg, symtab.M, old(ir.nodes), sect, rounds)
      {
        AssignAddresses(sect);
        var changed := ValidateRanges(sect);
        if !changed { return true; }
        i := i + 1;
      }
      return false;
    }

    /** `resolve_label`. */
    method Resolve(name: string, reloc: Reloc, addr: int) returns (value: int)
      requires Valid()
      modifies this`hadError
      ensures Valid()
      ensures match ResolveLabel(symtab.M, name, reloc, addr)
              case Some(v) => value == v && View() == old(View())
              case None => View() == old(View()).(hadError := true)
    {
      hide I32, Output.View, Output.Valid, Table.Valid;
      var target := symtab.Search(name);
      if target < 0 {
        hadError := true;
        return 0;
      }
      var t := I32(target);
      var offset := t - addr;
      match reloc {
        case Hi20 =>
          var hi := (offset + 0x800) / 4096;
          return I32(hi * 4096);
        case Lo12 =>
          var hi := (offset + 0x800) / 4096;
          var lo := offset - hi * 4096;
          return I32(lo);
        case Boff => return I32(offset);
        case Jtgt => return I32(offset);
        case RelocNone => return I32(t);
      }
    }

    /** The immediate of an instruction: its label resolved, if it has one. */
    method UseImmediate(imm: int, target: Option<string>, reloc: Reloc, addr: int) returns (ok: bool, value: int)
      requires Valid() && !hadError
      modifies this`hadError
      ensures Valid()
      ensures ok == Immediate(symtab.M, target, reloc, imm, addr).Some?
      ensures ok ==> value == Immediate(symtab.M, target, reloc, imm, addr).value && View() == old(View())
      ensures !ok ==> View() == old(View()).(hadError := true)
    {
      hide ResolveLabel;
      value := imm;
      if target.Some? && reloc != RelocNone {
        value := Resolve(target.value, reloc, addr);
        if hadError { return false, value; }
      } else if target.Some? {
        hadError := true;
        return false, value;
      }
      return true, value;
    }

    method PutHalf(h: bv16) returns (ok: bool)
      requires Valid()
      modifies out.Repr()
      ensures Valid() && fresh(out.Repr() - old(out.Repr())) && (View(), ok) == EmitCode(Half(h), old(View()))
    {
      hide HalfBytes;
      ok := out.WriteHalf(h);
    }

    method PutWord(w: bv32) returns (ok: bool)
      requires Valid()
      modifies out.Repr()
      ensures Valid() && fresh(out.Repr() - old(out.Repr())) && (View(), ok) == EmitCode(Full(w), old(View()))
    {
      hide WordBytes;
      ok := out.WriteWord(w);
    }

    /** `pass2_emit_instr` up to the write, compressed formats. */
    method EncodeCompressed(op: COp, fmt: Fmt, rd: Reg, rs1: Reg, rs2: Reg, imm: int, target: Option<string>, reloc: Reloc, addr: int)
      returns (c: Code)
      requires Valid() && IsCFmt(fmt) && !hadError
      modifies this`hadError
      ensures Valid() && c == CodeOf(cfg, symtab.M, Comp(op), fmt, rd, rs1, rs2, imm, target, reloc, addr)
      ensures View() == old(View()).(hadError := c == Fail(true))
    {
      hide CodeOf, Encode16.CEncode, Encode16.RequireC, Immediate, IsCFmt, Output.View, Output.Valid, Table.Valid;
      CompCode(cfg, symtab.M, op, fmt, rd, rs1, rs2, imm, target, reloc, addr);
      if !Encode16.RequireC(cfg, op) { return Fail(false); }
      var good, value := UseImmediate(imm, target, reloc, addr);
      if !good { return Fail(true); }
      var half := Encode16.CEncode(cfg, op, fmt, rd, rs1, rs2, value);
      if half.None? {
        hadError := true;
        return Fail(true);
      }
      return Half(half.value);
    }

    /** `pass2_emit_instr` up to the write, base formats. */
    method EncodeBase(op: BaseOp, fmt: Fmt, rd: Reg, rs1: Reg, rs2: Reg, imm: int, target: Option<string>, reloc: Reloc, addr: int)
      returns (c: Code)
      requires Valid() && !IsCFmt(fmt) && !hadError
      modifies this`hadError
      ensures Valid() && c == CodeOf(cfg, symtab.M, Base(op), fmt, rd, rs1, rs2, imm, target, reloc, addr)
      ensures View() == old(View()).(hadError := c == Fail(true))
    {
      hide CodeOf, Encode32.Encode, Encode32.RequireForOp, Immediate, IsCFmt, Output.View, Output.Valid, Table.Valid;
      PlainBaseCode(cfg, symtab.M, op, fmt, rd, rs1, rs2, imm, target, reloc, addr);
      if !Encode32.RequireForOp(cfg, op) {
        hadError := true;
        return Fail(true);
      }
      var good, value := UseImmediate(imm, target, reloc, addr);
      if !good { return Fail(true); }
      var word := Encode32.Encode(cfg.xlen, op, fmt, rd, rs1, rs2, value);
      if word.None? {
        hadError := true;
        return Fail(true);
      }
      return Full(word.value);
    }

    /** `pass2_emit_instr`. */
    method EmitInstr(op: Op, fmt: Fmt, rd: Reg, rs1: Reg, rs2: Reg, imm: int, target: Option<string>, reloc: Reloc, addr: int)
      returns (ok: bool)
      requires Valid() && (!IsCFmt(fmt) ==> op.Base?)
      modifies this, out.Repr()
      ensures Valid() && fresh(out.Repr() - old(out.Repr()))
      ensures (View(), ok) ==
              if old(hadError) then (old(View()), false)
              else if !hasFile then (old(View()).(hadError := true), false)
              else EmitCode(CodeOf(cfg, symtab.M, op, fmt, rd, rs1, rs2, imm, target, reloc, addr), old(View()))
    {
      hide IsCFmt, HalfBytes, WordBytes, SinkWrite, MarkRvc, Output.View, Output.Valid, Table.Valid;
      hide CodeOf;
      if hadError { return false; }
      if !hasFile {
        hadError := true;
        return false;
      }
      var c: Code;
      if !IsCFmt(fmt) {
        hide CodeOf;
        c := EncodeBase(op.base, fmt, rd, rs1, rs2, imm, target, reloc, addr);
      } else if op.Comp? {
        hide CodeOf;
        c := EncodeCompressed(op.comp, fmt, rd, rs1, rs2, imm, target, reloc, addr);
      } else {
        NotCompressed(op, fmt, rd, rs1, rs2, imm, target, reloc, addr);
        c := Fail(false);
      }
      match c
      case Half(h) => ok := PutHalf(h);
      case Full(w) => ok := PutWord(w);
      case Fail(_) => ok := false;
    }

    lemma NotCompressed(op: Op, fmt: Fmt, rd: Reg, rs1: Reg, rs2: Reg, imm: int, target: Option<string>, reloc: Reloc, addr: int)
      requires IsCFmt(fmt) && op.Base?
      ensures CodeOf(cfg, symtab.M, op, fmt, rd, rs1, rs2, imm, target, reloc, addr) == Fail(false)
    {
      hide IsCFmt;
    }

    /** `pass2_emit_node`, with `c_materialize`. */
    method EmitNode(e: Entry) returns (ok: bool)
      requires Valid() && e.kind == KInstr && WfInstr(e)
      modifies this, out.Repr()
      ensures Valid() && fresh(out.Repr() - old(out.Repr()))
      ensures (View(), ok) == EmitEntry(cfg, symtab.M, hasFile, e, old(View()))
    {
      hide CodeOf, EmitCode, IsCFmt, LabelFits, Output.View, Output.Valid, Table.Valid;
      CFormats();
      if e.choice.Some? {
        var ch := e.choice.value;
        var target, reloc := ch.target, ch.reloc;
        if ch.op == C_BEQZ || ch.op == C_BNEZ || ch.op == C_J || ch.op == C_JAL {
          target, reloc := None, RelocNone;
        }
        ok := EmitInstr(Comp(ch.op), ch.fmt, ch.rd, ch.rs1, ch.rs2, if target.Some? then 0 else ch.imm, target, reloc, e.addr);
      } else {
        ok := EmitInstr(e.op, e.fmt, e.rd, e.rs1, e.rs2, if e.target.Some? then 0 else e.imm, e.target, e.reloc, e.addr);
      }
    }

    /** `pass2_emit_section`. */
    method EmitSectionStart(sect: Section) returns (ok: bool)
      requires Valid()
      modifies this, out`cur
      ensures Valid() && out.Repr() == old(out.Repr())
      ensures (View(), ok) == EmitSection(old(View()), sect)
    {
      if seenText && sect == Data {
        hadError := true;
        return false;
      }
      if sect == Text { seenText := true; }
      outSection := sect;
      out.BeginSection(sect);
      return true;
    }

    /** `pass2_emit_data`. */
    method EmitData(e: Entry) returns (ok: bool)
      requires Valid() && e.kind == KData
      modifies this, out.Repr()
      ensures Valid() && fresh(out.Repr() - old(out.Repr()))
      ensures (View(), ok) == EmitEntry(cfg, symtab.M, hasFile, e, old(View()))
    {
      hide LeBytes, Output.View, Output.Valid, Table.Valid;
      if hadError { return false; }
      if !hasFile {
        hadError := true;
        return false;
      }
      if outSection != Data {
        hadError := true;
        return false;
      }
      ok := out.WriteValue(e.imm, e.size);
    }

    /** `pass2_emit_align`. */
    method EmitAlign(e: Entry) returns (ok: bool)
      requires Valid() && e.kind == KAlign && e.size >= 0
      modifies this, out.Repr()
      ensures Valid() && fresh(out.Repr() - old(out.Repr()))
      ensures (View(), ok) == EmitEntry(cfg, symtab.M, hasFile, e, old(View()))
    {
      if e.size == 0 { return true; }
      if hadError { return false; }
      if !hasFile {
        hadError := true;
        return false;
      }
      ok := out.SinkZeros(e.size);
    }
  
    /** The dispatch on the kind of an entry. */
    method EmitOne(e: Entry) returns (ok: bool)
      requires Valid() && (e.kind == KInstr ==> WfInstr(e)) && (e.kind == KAlign ==> e.size >= 0)
      modifies this, out.Repr()
      ensures Valid() && fresh(out.Repr() - old(out.Repr()))
      ensures (View(), ok) == EmitEntry(cfg, symtab.M, hasFile, e, old(View()))
    {
      hide EmitEntry, WfInstr;
      match e.kind
      case KAlign => ok := EmitAlign(e);
      case KData => ok := EmitData(e);
      case KInstr => ok := EmitNode(e);
    }

    /** The emission loop of `pass2_run`. */
    method EmitLoop() returns (ok: bool)
      requires Valid() && Wf(ir.nodes) && PadSizes(ir.nodes)
      modifies this, out.Repr()
      ensures Valid() && fresh(out.Repr() - old(out.Repr())) && ir.nodes == old(ir.nodes)
      ensures (View(), ok) == EmitFrom(cfg, symtab.M, hasFile, ir.nodes, old(View()))
    {
      hide EmitEntry, EmitSection, EmitFrom, WfInstr, Output.View, Output.Valid, Table.Valid;
      var i := 0;
      ghost var nodes := ir.nodes;
      ghost var start := View();
      assert nodes[0..] == nodes;
      while i < |ir.nodes|
        invariant 0 <= i <= |nodes| && ir.nodes == nodes && Wf(nodes[i..]) && PadSizes(nodes)
        invariant Valid() && fresh(out.Repr() - old(out.Repr()))
        invariant EmitFrom(cfg, symtab.M, hasFile, nodes[i..], View()) == EmitFrom(cfg, symtab.M, hasFile, nodes, start)
      {
        var e := ir.nodes[i];
        EmitHead(cfg, symtab.M, hasFile, nodes, i, View());
        if e.sect != outSection {
          var ok1 := EmitSectionStart(e.sect);
          if !ok1 { return false; }
        }
        ok := EmitOne(e);
        if !ok { return false; }
        i := i + 1;
      }
      assert nodes[i..] == [];
      EmitEnd(cfg, symtab.M, hasFile, View());
      return !hadError;
    }

    /** `pass2_run`. */
    method Run() returns (ok: bool)
      requires Valid() && KeptAll(cfg, ir.nodes)
      modifies this, ir, out.Repr()
      ensures Valid() && fresh(out.Repr() - old(out.Repr()))
      ensures old(hadError) ==> !ok && View() == old(View()) && ir.nodes == old(ir.nodes)
      ensures !old(hadError) && !hasFile ==> !ok && View() == old(View()).(hadError := true) && ir.nodes == old(ir.nodes)
      ensures !old(hadError) && hasFile ==>
              && ir.nodes == Prepare(cfg, symtab.M, old(ir.nodes)) && Wf(ir.nodes)
              && (View(), ok) == EmitAll(cfg, symtab.M, true, ir.nodes, old(View()))
    {
      if hadError { return false; }
      if !hasFile {
        hadError := true;
        return false;
      }
      ok := Go();
    }

    method Go() returns (ok: bool)
      requires Valid() && KeptAll(cfg, ir.nodes) && hasFile
      modifies this, ir, out.Repr()
      ensures Valid() && fresh(out.Repr() - old(out.Repr()))
      ensures ir.nodes == Prepare(cfg, symtab.M, old(ir.nodes)) && Wf(ir.nodes)
      ensures (View(), ok) == EmitAll(cfg, symtab.M, true, ir.nodes, old(View()))
    {
      hide Assign, Plan, Relax, Validate, KeptAll, Wf, EmitFrom, EmitSection, PadSizes, Output.View, Output.Valid, Table.Valid;
      PrepareKeeps(cfg, symtab.M, ir.nodes);
      PreparePads(cfg, symtab.M, ir.nodes);
      Arrange();
      if |ir.nodes| > 0 {
        var ok1 := EmitSectionStart(ir.nodes[0].sect);
        if !ok1 { return false; }
      }
      ok := EmitLoop();
    }

    /** The layout part of `pass2_run`. */
    method Arrange()
      requires Valid()
      modifies ir
      ensures Valid() && View() == old(View()) && ir.nodes == Prepare(cfg, symtab.M, old(ir.nodes))
    {
      hide Assign, Plan, Relax, Output.View, Output.Valid, Table.Valid;
      AssignAddresses(Data);
      if cfg.hasC && cfg.autoC {
        var planned := PlanChoices();
        var stable := RelayoutAndValidate(Text, 8);
      } else {
        AssignAddresses(Text);
      }
    }
  }

  /** Padding sizes are `uint32_t`. */
  predicate PadSizes(nodes: seq<Entry>) {
    forall i :: 0 <= i < |nodes| && nodes[i].kind == KAlign ==> nodes[i].size >= 0
  }

  lemma {:induction false} AssignPads(nodes: seq<Entry>, sect: Section, pc: int, i: nat)
    requires i < |nodes| && nodes[i].kind == KAlign && (nodes[i].sect == sect || nodes[i].size >= 0)
    ensures Assign(nodes, sect, pc)[i].kind == KAlign && Assign(nodes, sect, pc)[i].size >= 0
    decreases |nodes|
  {
    hide NextPc, AlignUp;
    if i > 0 {
      hide AssignOne;
      AssignPads(nodes[1..], sect, if nodes[0].sect != sect then pc else NextPc(nodes[0], pc), i - 1);
    }
  }

  lemma ReAssignPads(nodes: seq<Entry>, sect: Section)
    requires OtherPads(nodes, sect)
    ensures PadSizes(Assign(nodes, sect, 0))
  {
    var r := Assign(nodes, sect, 0);
    forall i | 0 <= i < |r| && r[i].kind == KAlign ensures r[i].size >= 0 {
      AssignStatic(nodes, sect, 0, i);
      hide Assign;
      AssignPads(nodes, sect, 0, i);
    }
  }

  lemma ValidatePads(cfg: Config, syms: Symbols, nodes: seq<Entry>, sect: Section)
    requires PadSizes(nodes)
    ensures PadSizes(Validate(cfg, syms, nodes, sect))
  {
    var r := Validate(cfg, syms, nodes, sect);
    forall i | 0 <= i < |r| && r[i].kind == KAlign ensures r[i].size >= 0 {
      ValidateShape(cfg, syms, nodes, sect, i);
      hide Validate;
    }
  }

  predicate OtherPads(nodes: seq<Entry>, sect: Section) {
    forall i :: 0 <= i < |nodes| && nodes[i].kind == KAlign && nodes[i].sect != sect ==> nodes[i].size >= 0
  }

  lemma {:induction false} RelaxPads(cfg: Config, syms: Symbols, nodes: seq<Entry>, sect: Section, iters: nat)
    requires iters > 0 && OtherPads(nodes, sect)
    ensures PadSizes(Relax(cfg, syms, nodes, sect, iters).0)
    decreases iters
  {
    hide Assign, Validate, Changed;
    ReAssignPads(nodes, sect);
    var laid := Assign(nodes, sect, 0);
    ValidatePads(cfg, syms, laid, sect);
    if Changed(cfg, syms, laid, sect) && iters > 1 {
      RelaxPads(cfg, syms, Validate(cfg, syms, laid, sect), sect, iters - 1);
    }
  }

  lemma PlanPads(cfg: Config, nodes: seq<Entry>)
    requires OtherPads(nodes, Text)
    ensures OtherPads(Plan(cfg, nodes), Text)
  {}

  lemma DataPads(nodes: seq<Entry>)
    ensures OtherPads(Assign(nodes, Data, 0), Text)
  {
    var r := Assign(nodes, Data, 0);
    forall i | 0 <= i < |r| && r[i].kind == KAlign && r[i].sect != Text ensures r[i].size >= 0 {
      AssignStatic(nodes, Data, 0, i);
      hide Assign;
      AssignPads(nodes, Data, 0, i);
    }
  }

  lemma PreparePads(cfg: Config, syms: Symbols, nodes: seq<Entry>)
    ensures PadSizes(Prepare(cfg, syms, nodes))
  {
    hide Assign, Plan, Relax, PadSizes, OtherPads;
    var a := Assign(nodes, Data, 0);
    DataPads(nodes);
    if cfg.hasC && cfg.autoC {
      PlanPads(cfg, a);
      RelaxPads(cfg, syms, Plan(cfg, a), Text, 8);
    } else {
      ReAssignPads(a, Text);
    }
  }

  lemma EmitHead(cfg: Config, syms: Symbols, hasFile: bool, nodes: seq<Entry>, i: nat, s: State)
    requires i < |nodes| && Wf(nodes[i..])
    ensures Wf(nodes[i + 1..]) && (nodes[i].kind == KInstr ==> WfInstr(nodes[i]))
    ensures EmitFrom(cfg, syms, hasFile, nodes[i..], s) ==
            var (s1, ok1) := if nodes[i].sect != s.sect then EmitSection(s, nodes[i].sect) else (s, true);
            if !ok1 then (s1, false)
            else
              var (s2, ok2) := EmitEntry(cfg, syms, hasFile, nodes[i], s1);
              if !ok2 then (s2, false) else EmitFrom(cfg, syms, hasFile, nodes[i + 1..], s2)
  {
    hide WfInstr, EmitEntry, EmitSection;
    assert nodes[i] in nodes[i..] && nodes[i..][1..] == nodes[i + 1..] && forall e :: e in nodes[i..][1..] ==> e in nodes[i..];
  }

  lemma EmitEnd(cfg: Config, syms: Symbols, hasFile: bool, s: State)
    ensures EmitFrom(cfg, syms, hasFile, [], s) == (s, !s.hadError)
  {}
}
