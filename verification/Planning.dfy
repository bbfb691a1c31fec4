/** Which source instructions come out compressed. */
module Planning {
  import opened Isa
  import opened Ir
  import opened Symtab
  import opened CRules
  import opened Compress
  import opened Complete
  import opened Bytes
  import opened Out
  import opened Layout
  import opened Emit
  import opened Survive
  import opened Agree
  import opened Disasm
  import opened Whole
  import opened Programs
  import opened Straight
  import opened Source
  import opened Gates
  import Encode16
  import Decode16
  import Decode32
  import P1 = Pass1

  /** A choice that validation never looks at stays through all rounds, and so does its size. */
  lemma {:induction false} RelaxLeaves(cfg: Config, syms: Symbols, nodes: seq<Entry>, iters: nat, i: nat)
    requires iters > 0 && i < |nodes| && nodes[i].sect == Text && nodes[i].kind == KInstr && !Tentative(nodes[i])
    ensures var e, r := nodes[i], Relax(cfg, syms, nodes, Text, iters).0[i];
            r == e.(addr := r.addr, size := SizeNow(e))
    decreases iters
  {
    hide Assign, Validate, Changed, Tentative, SizeNow, Settled;
    var laid := Assign(nodes, Text, 0);
    var checked := Validate(cfg, syms, laid, Text);
    AssignStatic(nodes, Text, 0, i);
    AssignSettles(nodes, Text, 0);
    var at := SettledAt(laid, Text, 0, i);
    SizeKept(nodes[i], laid[i], at);
    AssignTentative(nodes, Text, i);
    ValidateTentative(cfg, syms, laid, Text, i);
    if Changed(cfg, syms, laid, Text) {
      assert Relax(cfg, syms, nodes, Text, iters) == Relax(cfg, syms, checked, Text, iters - 1);
      if iters > 1 { RelaxLeaves(cfg, syms, checked, iters - 1, i); }
    }
  }

  lemma SizeKept(e: Entry, r: Entry, at: int)
    requires e.kind == KInstr && r == e.(addr := r.addr, size := r.size) && AssignOne(r, at) == r
    ensures r.size == SizeNow(e) == SizeNow(r)
  {}

  /** An unlabelled text instruction keeps in the emitted layout the choice planning gave it. */
  lemma UnlabelledKeeps(cfg: Config, syms: Symbols, nodes: seq<Entry>, i: nat)
    requires P1.RawAll(nodes) && i < |nodes| && InText(nodes[i]) && nodes[i].target.None?
    ensures var e, r := nodes[i], Prepare(cfg, syms, nodes)[i];
            r.choice == ChoiceOf(cfg, e) && r.size == SizeNow(r) && r == e.(addr := r.addr, size := r.size, choice := r.choice)
  {
    hide Assign, Plan, Relax, ChoiceOf, P1.Raw, SizeNow, Tentative, Settled;
    var a, e := Assign(nodes, Data, 0), nodes[i];
    assert P1.Raw(e);
    PlannedChoice(cfg, nodes, i);
    AssignStatic(nodes, Data, 0, i);
    if cfg.hasC && cfg.autoC {
      var p := Planned(cfg, nodes);
      NotTentative(cfg, e, p[i]);
      RelaxLeaves(cfg, syms, p, 8, i);
      SizeIgnores(p[i], Prepare(cfg, syms, nodes)[i]);
    } else {
      PlanOff(cfg, a);
      AssignStatic(a, Text, 0, i);
      AssignSettles(a, Text, 0);
      var at := SettledAt(Assign(a, Text, 0), Text, 0, i);
      SizeKept(a[i], Assign(a, Text, 0)[i], at);
    }
  }

  lemma SizeIgnores(e: Entry, r: Entry)
    requires r == e.(addr := r.addr, size := r.size)
    ensures SizeNow(e) == SizeNow(r)
  {}

  lemma SizeIs(e: Entry)
    requires e.kind == KInstr && WfInstr(e) && (e.choice.Some? ==> e.op.Base?)
    ensures SizeNow(e) == if e.op.Comp? || e.choice.Some? then 2 else 4
  {
    hide LabelFits;
    FormatKinds(e.op);
  }

  lemma ChoiceBase(cfg: Config, e: Entry)
    requires ChoiceOf(cfg, e).Some?
    ensures e.op.Base? && cfg.hasC && cfg.autoC
  {
    hide TryMap, BaseMeaning, ChoiceMeaning;
    RulesKeepMeaning(cfg.xlen, e);
  }

  /** In a successful run an unlabelled instruction of the text section takes two bytes exactly if
      it is written compressed or, with C and automatic compression on, some compressed operation
      the rules aim at stands for it and is accepted; four bytes otherwise. */
  lemma CompressedExactly(cfg: Config, fmt: OutFormat, items: seq<P1.Item>, k: nat)
    requires P1.AllProper(items) && Assemble(cfg, fmt, items).1 && k < |items| && IsCode(items, k) && items[k].target.None?
    ensures var e := EntryOf(cfg, items, k);
            && e.size in {2, 4}
            && (e.size == 2 <==> items[k].op.Comp? || (cfg.hasC && cfg.autoC && Compressible(cfg, ItemInsn(items[k]))))
  {
    hide P1.After, P1.AllProper, Prepare, Assemble, Compressible, SizeNow, ChoiceOf, P1.Raw, WfInstr, Becomes, P1.Proper, ItemInsn, Kept,
      ChoiceResolved, BaseMeaning, RuleWidth;
    var s, i, n := P1.After(items), items[k], PlaceOf(items, k);
    ItemIsEntry(cfg, items, k);
    ItemPlaced(items, k);
    P1.AfterRaw(items);
    P1.AfterPrefix(items, k);
    var a, e := s.nodes[n], Final(cfg, items)[n];
    assert P1.Raw(a) by { assert P1.RawAll(s.nodes); }
    BecomesPlain(i, a);
    UnlabelledKeeps(cfg, s.syms, s.nodes, n);
    assert e == Prepare(cfg, s.syms, s.nodes)[n];
    FinalResolved(cfg, items, n);
    assert WfInstr(e) by { KeptInstr(cfg, e); }
    if e.choice.Some? { ChoiceBase(cfg, a); }
    SizeIs(e);
    SuccessMeans(cfg, fmt, items, k);
    CodeExactly(cfg, i, a);
  }

  lemma ItemPlaced(items: seq<P1.Item>, k: nat)
    requires P1.AllProper(items) && k < |items| && items[k].Instr?
    ensures PlaceOf(items, k) < |P1.After(items).nodes|
    ensures P1.Proper(items[k]) && Becomes(items[k], P1.SectionAt(items, k), P1.After(items).nodes[PlaceOf(items, k)])
  {
    hide P1.After, P1.Step, P1.Proper, Becomes;
    P1.AfterPrefix(items, k);
    P1.AfterGrows(items, k + 1);
    P1.SectionIs(items, k);
    StepBecomes(P1.After(items[..k]), items[k]);
  }

  lemma BecomesPlain(i: P1.Item, a: Entry)
    requires P1.Proper(i) && i.Instr? && Becomes(i, Text, a)
    ensures InText(a) && a.target == i.target && a.op == i.op
  {
    hide LabelFits;
  }

  /** Planning, seen from the item. */
  lemma CodeExactly(cfg: Config, i: P1.Item, a: Entry)
    requires P1.Proper(i) && i.Instr? && i.target.None? && Becomes(i, Text, a) && P1.Raw(a)
    requires i.op.Base? ==> Has(cfg, i.op.base)
    ensures ChoiceOf(cfg, a).Some? <==> i.op.Base? && cfg.hasC && cfg.autoC && Compressible(cfg, ItemInsn(i))
  {
    hide TryMap, Compressible, Decode32.Meaning, Decode16.Meaning, IsM, IsCFmt;
    FormatKinds(a.op);
    if cfg.hasC && a.op.Base? {
      RulesExact(cfg, a);
      assert RuleWidth(cfg, a) == cfg;
    }
  }
}
