/** Address assignment, choice planning, range validation and relaxation (`pass2.c`), as
    functions of the entry list, and what relaxation guarantees. */
module Layout {
  import opened Isa
  import opened Ir
  import opened CRules
  import opened Compress
  import opened Align
  import Bits
  import opened Symtab

  type Symbols = map<string, int>

  /** `pass2_node_size_now`. */
  function SizeNow(e: Entry): int {
    if IsExplicitC(e) then 2
    else if e.forced == Size2 then 2
    else if e.forced == Size4 then 4
    else if e.choice.Some? then 2
    else 4
  }

  /** One entry of `pass2_assign_addresses`, reached with the counter at pc. */
  function AssignOne(e: Entry, pc: int): Entry {
    match e.kind
    case KData => e.(addr := pc)
    case KAlign =>
      var align := U32(e.imm);
      if align > 1 then e.(size := U32(AlignUp(pc, align) - pc), addr := AlignUp(pc, align))
      else e.(size := 0, addr := pc)
    case KInstr => e.(size := SizeNow(e), addr := pc)
  }

  /** The counter after that entry. */
  function NextPc(e: Entry, pc: int): int {
    match e.kind
    case KData => U32(pc + e.size)
    case KAlign => if U32(e.imm) > 1 then AlignUp(pc, U32(e.imm)) else pc
    case KInstr => U32(pc + SizeNow(e))
  }

  /** `pass2_assign_addresses`: entries of other sections are left alone. */
  function Assign(nodes: seq<Entry>, sect: Section, pc: int): (r: seq<Entry>)
    ensures |r| == |nodes|
  {
    if nodes == [] then []
    else if nodes[0].sect != sect then [nodes[0]] + Assign(nodes[1..], sect, pc)
    else [AssignOne(nodes[0], pc)] + Assign(nodes[1..], sect, NextPc(nodes[0], pc))
  }

  /** `pass2_choice_range_ok`. */
  predicate RangeOk(op: COp, disp: int) {
    match op
    case C_BEQZ | C_BNEZ => disp % 2 == 0 && -256 <= disp <= 254
    case C_J | C_JAL => disp % 2 == 0 && -2048 <= disp <= 2046
    case _ => true
  }

  /** `pass2_compute_disp`: a difference of `int32_t` values. */
  function Disp(from: int, to: int): int { I32(I32(to) - I32(from)) }

  /** One entry of `pass2_validate_compressed_ranges`. */
  function ValidateOne(syms: Symbols, e: Entry): Entry {
    if e.choice.None? || !PcRelative(e.choice.value.op) then e
    else
      var ch := e.choice.value;
      var named := ch.target.Some? && ch.target.value != "";
      if !named && ch.reloc != Boff && ch.reloc != Jtgt then e
      else if named && Lookup(syms, ch.target.value) < 0 then e.(choice := None)
      else
        var to := if named then U32(Lookup(syms, ch.target.value)) else U32(I32(e.addr) + I32(ch.imm));
        var disp := Disp(e.addr, to);
        if !RangeOk(ch.op, disp) then e.(choice := None) else e.(choice := Some(ch.(imm := disp)))
  }

  function Validate(cfg: Config, syms: Symbols, nodes: seq<Entry>, sect: Section): (r: seq<Entry>)
    ensures |r| == |nodes|
  {
    if !cfg.hasC || !cfg.autoC then nodes
    else seq(|nodes|, i requires 0 <= i < |nodes| => if nodes[i].sect == sect then ValidateOne(syms, nodes[i]) else nodes[i])
  }

  /** Validation reports a change when it drops a choice. */
  predicate Changed(cfg: Config, syms: Symbols, nodes: seq<Entry>, sect: Section) {
    exists i :: 0 <= i < |nodes| && nodes[i].choice.Some? && Validate(cfg, syms, nodes, sect)[i].choice.None?
  }

  /** `pass2_relayout_and_validate`. */
  function Relax(cfg: Config, syms: Symbols, nodes: seq<Entry>, sect: Section, iters: nat): (r: (seq<Entry>, bool))
    ensures |r.0| == |nodes|
    decreases iters
  {
    if iters == 0 then (nodes, false)
    else
      var laid := Assign(nodes, sect, 0);
      var checked := Validate(cfg, syms, laid, sect);
      if !Changed(cfg, syms, laid, sect) then (checked, true) else Relax(cfg, syms, checked, sect, iters - 1)
  }

  /** `pass2_node_can_attempt`. */
  predicate CanAttempt(cfg: Config, e: Entry) {
    && cfg.hasC && cfg.autoC
    && e.kind == KInstr && !IsExplicitC(e) && e.forced != Size4 && e.canCompress
    && (e.reloc == RelocNone || e.reloc == Boff || e.reloc == Jtgt)
    && e.sect == Text
  }

  function PlanOne(cfg: Config, e: Entry): Entry {
    if !CanAttempt(cfg, e) then e else e.(choice := TryMap(cfg.xlen, e))
  }

  /** `pass2_plan_choices`. */
  function Plan(cfg: Config, nodes: seq<Entry>): (r: seq<Entry>)
    ensures |r| == |nodes|
  {
    seq(|nodes|, i requires 0 <= i < |nodes| => PlanOne(cfg, nodes[i]))
  }

  /** What planning hands to relaxation. */
  function Planned(cfg: Config, nodes: seq<Entry>): (r: seq<Entry>)
    ensures |r| == |nodes|
  {
    Plan(cfg, Assign(nodes, Data, 0))
  }

  // ------------------------------------------------- assignment is idempotent

  /** Every entry of the section already carries the address and size assignment gives it. */
  predicate Settled(nodes: seq<Entry>, sect: Section, pc: int) {
    nodes == [] ||
    if nodes[0].sect != sect then Settled(nodes[1..], sect, pc)
    else AssignOne(nodes[0], pc) == nodes[0] && Settled(nodes[1..], sect, NextPc(nodes[0], pc))
  }

  lemma AssignOneAgain(e: Entry, pc: int)
    ensures AssignOne(AssignOne(e, pc), pc) == AssignOne(e, pc)
    ensures NextPc(AssignOne(e, pc), pc) == NextPc(e, pc)
  {
    hide AlignUp, U32;
    match e.kind
    case KData =>
    case KAlign => hide SizeNow;
    case KInstr =>
  }

  lemma AssignOneStatic(e: Entry, pc: int)
    ensures var r := AssignOne(e, pc); r == e.(addr := r.addr, size := r.size)
  {
    hide AlignUp, U32, SizeNow;
  }

  lemma {:induction false} AssignSettles(nodes: seq<Entry>, sect: Section, pc: int)
    ensures Settled(Assign(nodes, sect, pc), sect, pc)
  {
    hide AssignOne, NextPc;
    if nodes != [] {
      AssignOneStatic(nodes[0], pc);
      var r := Assign(nodes, sect, pc);
      if nodes[0].sect != sect {
        AssignSettles(nodes[1..], sect, pc);
        assert r[1..] == Assign(nodes[1..], sect, pc);
      } else {
        AssignOneAgain(nodes[0], pc);
        AssignSettles(nodes[1..], sect, NextPc(nodes[0], pc));
        assert r[1..] == Assign(nodes[1..], sect, NextPc(nodes[0], pc));
      }
    }
  }

  /** Changing what a choice says, but not whether there is one, moves nothing. */
  predicate SameShape(a: Entry, b: Entry) {
    b == a.(choice := b.choice) && (a.choice.Some? <==> b.choice.Some?)
  }

  lemma SameShapeStays(a: Entry, b: Entry, pc: int)
    requires AssignOne(a, pc) == a && SameShape(a, b)
    ensures AssignOne(b, pc) == b && NextPc(b, pc) == NextPc(a, pc) && a.sect == b.sect
  {
    hide AlignUp, U32;
  }

  lemma {:induction false} SettledSameShape(a: seq<Entry>, b: seq<Entry>, sect: Section, pc: int)
    requires Settled(a, sect, pc) && |a| == |b| && forall i :: 0 <= i < |a| ==> SameShape(a[i], b[i])
    ensures Settled(b, sect, pc)
    decreases |a|
  {
    if a != [] {
      hide AssignOne, NextPc;
      assert SameShape(a[0], b[0]);
      if a[0].sect == sect { SameShapeStays(a[0], b[0], pc); }
      forall i | 0 <= i < |a[1..]| ensures SameShape(a[1..][i], b[1..][i]) { assert SameShape(a[i + 1], b[i + 1]); }
      hide SameShape;
      SettledSameShape(a[1..], b[1..], sect, if a[0].sect != sect then pc else NextPc(a[0], pc));
    }
  }

  lemma ValidateShape(cfg: Config, syms: Symbols, nodes: seq<Entry>, sect: Section, i: nat)
    requires i < |nodes|
    ensures var v := Validate(cfg, syms, nodes, sect)[i];
            v == nodes[i].(choice := v.choice) && (v.choice.Some? ==> nodes[i].choice.Some?)
  {
    hide ValidateOne;
    ValidateOneShape(syms, nodes[i]);
  }

  lemma ValidateOneShape(syms: Symbols, e: Entry)
    ensures var v := ValidateOne(syms, e);
            v == e.(choice := v.choice) && (v.choice.Some? ==> e.choice.Some?)
  {
    hide Disp, RangeOk, U32, I32, Lookup, PcRelative;
  }

  // ------------------------------------------------- relaxation ends

  /** The number of entries of the section with a compressed choice. */
  function Choices(nodes: seq<Entry>, sect: Section): nat {
    if nodes == [] then 0
    else (if nodes[0].sect == sect && nodes[0].choice.Some? then 1 else 0) + Choices(nodes[1..], sect)
  }

  predicate NoNewChoice(a: seq<Entry>, b: seq<Entry>) {
    |a| == |b| && forall i :: 0 <= i < |a| ==> b[i].sect == a[i].sect && (b[i].choice.Some? ==> a[i].choice.Some?)
  }

  lemma {:induction false} FewerChoices(a: seq<Entry>, b: seq<Entry>, sect: Section, k: int)
    requires NoNewChoice(a, b)
    requires 0 <= k < |a| ==> a[k].sect == sect && a[k].choice.Some? && b[k].choice.None?
    ensures Choices(b, sect) <= Choices(a, sect) - (if 0 <= k < |a| then 1 else 0)
  {
    if a != [] {
      assert forall i :: 0 <= i < |a[1..]| ==> a[1..][i] == a[i + 1] && b[1..][i] == b[i + 1];
      FewerChoices(a[1..], b[1..], sect, k - 1);
      if k == 0 { FewerChoices(a[1..], b[1..], sect, -1); }
    }
  }

  lemma {:induction false} AssignStatic(nodes: seq<Entry>, sect: Section, pc: int, i: nat)
    requires i < |nodes|
    ensures var r := Assign(nodes, sect, pc)[i];
            r == nodes[i].(addr := r.addr, size := r.size)
    decreases |nodes|
  {
    hide AssignOne, NextPc;
    AssignOneStatic(nodes[0], pc);
    if i > 0 {
      AssignStatic(nodes[1..], sect, if nodes[0].sect != sect then pc else NextPc(nodes[0], pc), i - 1);
    }
  }

  /** A round that reports a change strictly lowers the number of choices. */
  lemma RoundDropsChoice(cfg: Config, syms: Symbols, nodes: seq<Entry>, sect: Section)
    requires Changed(cfg, syms, Assign(nodes, sect, 0), sect)
    ensures Choices(Validate(cfg, syms, Assign(nodes, sect, 0), sect), sect) < Choices(nodes, sect)
  {
    var laid := Assign(nodes, sect, 0);
    var checked := Validate(cfg, syms, laid, sect);
    var k :| 0 <= k < |laid| && laid[k].choice.Some? && checked[k].choice.None?;
    forall i | 0 <= i < |nodes|
      ensures checked[i].sect == nodes[i].sect && (checked[i].choice.Some? ==> nodes[i].choice.Some?)
    {
      AssignStatic(nodes, sect, 0, i);
      ValidateShape(cfg, syms, laid, sect, i);
    }
    AssignStatic(nodes, sect, 0, k);
    FewerChoices(nodes, checked, sect, k);
  }

  /** The choices validation looks at, which alone it can drop: control transfers with a label
      or a relocation. */
  predicate Tentative(e: Entry) {
    && e.choice.Some? && PcRelative(e.choice.value.op)
    && ((e.choice.value.target.Some? && e.choice.value.target.value != "") || e.choice.value.reloc == Boff || e.choice.value.reloc == Jtgt)
  }

  /** The number of entries of the section with such a choice. */
  function Transfers(nodes: seq<Entry>, sect: Section): nat {
    if nodes == [] then 0
    else (if nodes[0].sect == sect && Tentative(nodes[0]) then 1 else 0) + Transfers(nodes[1..], sect)
  }

  predicate NoNewTransfer(a: seq<Entry>, b: seq<Entry>) {
    |a| == |b| && forall i :: 0 <= i < |a| ==> b[i].sect == a[i].sect && (Tentative(b[i]) ==> Tentative(a[i]))
  }

  lemma {:induction false} FewerTransfers(a: seq<Entry>, b: seq<Entry>, sect: Section, k: int)
    requires NoNewTransfer(a, b)
    requires 0 <= k < |a| ==> a[k].sect == sect && Tentative(a[k]) && !Tentative(b[k])
    ensures Transfers(b, sect) <= Transfers(a, sect) - (if 0 <= k < |a| then 1 else 0)
  {
    hide Tentative;
    if a != [] {
      assert forall i :: 0 <= i < |a[1..]| ==> a[1..][i] == a[i + 1] && b[1..][i] == b[i + 1];
      FewerTransfers(a[1..], b[1..], sect, k - 1);
      if k == 0 { FewerTransfers(a[1..], b[1..], sect, -1); }
    }
  }

  lemma ValidateOneTentative(syms: Symbols, e: Entry)
    ensures Tentative(ValidateOne(syms, e)) ==> Tentative(e)
    ensures !Tentative(e) ==> ValidateOne(syms, e) == e
  {
    hide Disp, RangeOk, U32, I32, Lookup, PcRelative;
  }

  /** Only such a choice can be dropped, and it stays dropped. */
  lemma ValidateTentative(cfg: Config, syms: Symbols, nodes: seq<Entry>, sect: Section, i: nat)
    requires i < |nodes|
    ensures var v := Validate(cfg, syms, nodes, sect)[i];
            && (Tentative(v) ==> Tentative(nodes[i]))
            && (v != nodes[i] ==> nodes[i].sect == sect && Tentative(nodes[i]))
  {
    hide ValidateOne, Tentative;
    ValidateOneTentative(syms, nodes[i]);
  }

  lemma AssignTentative(nodes: seq<Entry>, sect: Section, i: nat)
    requires i < |nodes|
    ensures var r := Assign(nodes, sect, 0)[i]; r.sect == nodes[i].sect && (Tentative(r) <==> Tentative(nodes[i]))
  {
    hide Assign;
    AssignStatic(nodes, sect, 0, i);
  }

  /** A round that reports a change strictly lowers the number of those choices. */
  lemma RoundDropsTransfer(cfg: Config, syms: Symbols, nodes: seq<Entry>, sect: Section)
    requires Changed(cfg, syms, Assign(nodes, sect, 0), sect)
    ensures Transfers(Validate(cfg, syms, Assign(nodes, sect, 0), sect), sect) < Transfers(nodes, sect)
  {
    hide Assign, Validate, Tentative, Transfers;
    var laid := Assign(nodes, sect, 0);
    var checked := Validate(cfg, syms, laid, sect);
    var k :| 0 <= k < |laid| && laid[k].choice.Some? && checked[k].choice.None?;
    forall i | 0 <= i < |nodes| ensures checked[i].sect == nodes[i].sect && (Tentative(checked[i]) ==> Tentative(nodes[i])) {
      AssignTentative(nodes, sect, i);
      ValidateTentative(cfg, syms, laid, sect, i);
      ValidateShape(cfg, syms, laid, sect, i);
    }
    AssignTentative(nodes, sect, k);
    ValidateTentative(cfg, syms, laid, sect, k);
    assert !Tentative(checked[k]) by { NoChoiceNotTentative(checked[k]); }
    FewerTransfers(nodes, checked, sect, k);
  }

  lemma NoChoiceNotTentative(e: Entry)
    requires e.choice.None?
    ensures !Tentative(e)
  {}

  /** Any iteration cap above the number of compressed control transfers validation can drop
      reaches the fixed point, however many other choices there are. */
  lemma {:induction false} RelaxConverges(cfg: Config, syms: Symbols, nodes: seq<Entry>, sect: Section, iters: nat)
    requires iters > Transfers(nodes, sect)
    ensures Relax(cfg, syms, nodes, sect, iters).1
    decreases iters
  {
    hide Assign, Validate, Changed, Transfers;
    var laid := Assign(nodes, sect, 0);
    if Changed(cfg, syms, laid, sect) {
      RoundDropsTransfer(cfg, syms, nodes, sect);
      RelaxConverges(cfg, syms, Validate(cfg, syms, laid, sect), sect, iters - 1);
    }
  }

  lemma {:induction false} TransfersAmongChoices(nodes: seq<Entry>, sect: Section)
    ensures Transfers(nodes, sect) <= Choices(nodes, sect)
  {
    if nodes != [] { TransfersAmongChoices(nodes[1..], sect); }
  }

  /** In particular, any iteration cap above the number of choices does. */
  lemma RelaxTerminates(cfg: Config, syms: Symbols, nodes: seq<Entry>, sect: Section, iters: nat)
    requires iters > Choices(nodes, sect)
    ensures Relax(cfg, syms, nodes, sect, iters).1
  {
    hide Relax, Choices, Transfers;
    TransfersAmongChoices(nodes, sect);
    RelaxConverges(cfg, syms, nodes, sect, iters);
  }

  /** A compressed control transfer to a named label agrees with the layout. */
  predicate ChoiceResolved(syms: Symbols, e: Entry) {
    e.choice.Some? && PcRelative(e.choice.value.op) && e.choice.value.target.Some? && e.choice.value.target.value != "" ==>
      var ch := e.choice.value;
      && Lookup(syms, ch.target.value) >= 0
      && ch.imm == Disp(e.addr, U32(syms[ch.target.value]))
      && RangeOk(ch.op, ch.imm)
  }

  lemma ValidatedResolved(syms: Symbols, e: Entry)
    ensures ChoiceResolved(syms, ValidateOne(syms, e))
  {
    hide Disp, U32, I32;
  }

  /** At the fixed point all addresses match the current sizes and every surviving
      compressed branch or jump to a label carries its in-range displacement. */
  lemma {:induction false} RelaxFixedPoint(cfg: Config, syms: Symbols, nodes: seq<Entry>, sect: Section, iters: nat)
    requires cfg.hasC && cfg.autoC && Relax(cfg, syms, nodes, sect, iters).1
    ensures var r := Relax(cfg, syms, nodes, sect, iters).0;
            Settled(r, sect, 0) && forall i :: 0 <= i < |r| && r[i].sect == sect ==> ChoiceResolved(syms, r[i])
    decreases iters
  {
    hide Assign, Settled, ChoiceResolved;
    var laid := Assign(nodes, sect, 0);
    var checked := Validate(cfg, syms, laid, sect);
    if Changed(cfg, syms, laid, sect) {
      RelaxFixedPoint(cfg, syms, checked, sect, iters - 1);
    } else {
      AssignSettles(nodes, sect, 0);
      forall i | 0 <= i < |laid| ensures SameShape(laid[i], checked[i]) {
        ValidateShape(cfg, syms, laid, sect, i);
      }
      SettledSameShape(laid, checked, sect, 0);
      forall i | 0 <= i < |checked| && checked[i].sect == sect ensures ChoiceResolved(syms, checked[i]) {
        ValidateShape(cfg, syms, laid, sect, i);
        ValidatedResolved(syms, laid[i]);
      }
    }
  }
}
