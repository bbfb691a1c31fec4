/** What pass 2 keeps of every entry while it lays out and relaxes: the choice an entry
    carries is always the one the rules gave it, up to a displacement in range, so every
    choice that survives can be encoded, even when the iteration cap was hit. */
module Survive {
  import opened Isa
  import opened Ir
  import opened CRules
  import opened Compress
  import opened Symtab
  import opened Layout
  import Encode16
  import Conform16

  /** The choice is the rules', with its displacement possibly filled in and in range. */
  predicate Derived(cfg: Config, e: Entry) {
    e.choice.Some? ==>
      && e.kind == KInstr && e.op.Base? && cfg.hasC && cfg.autoC && e.sect == Text
      && (e.reloc == RelocNone || e.reloc == Boff || e.reloc == Jtgt)
      && TryMap(cfg.xlen, e).Some?
      && var ch, t := e.choice.value, TryMap(cfg.xlen, e).value;
         && ch == t.(imm := ch.imm)
         && (ch.imm == t.imm || (PcRelative(ch.op) && ch.target.Some? && RangeOk(ch.op, ch.imm)))
  }

  /** The rules look at the operation and its operands only. */
  lemma RulesIgnoreLayout(xlen: Xlen, e: Entry, addr: int, size: int, choice: Option<Choice>)
    ensures TryMap(xlen, e.(addr := addr, size := size, choice := choice)) == TryMap(xlen, e)
  {}

  /** What an entry keeps through layout and relaxation. */
  predicate Kept(cfg: Config, e: Entry) {
    (e.kind == KInstr ==> WfInstr(e)) && Derived(cfg, e)
  }

  lemma AssignKeeps(cfg: Config, e: Entry, addr: int, size: int)
    requires Kept(cfg, e)
    ensures Kept(cfg, e.(addr := addr, size := size))
  {
    hide TryMap, LabelFits;
    RulesIgnoreLayout(cfg.xlen, e, addr, size, e.choice);
  }

  lemma ValidateKeeps(cfg: Config, syms: Symbols, e: Entry)
    requires Kept(cfg, e)
    ensures Kept(cfg, ValidateOne(syms, e))
  {
    hide TryMap, Disp, U32, I32, RangeOk, ChoiceMeaning, BaseMeaning, FmtOf;
    var v := ValidateOne(syms, e);
    ValidateOneShape(syms, e);
    RulesIgnoreLayout(cfg.xlen, e, e.addr, e.size, v.choice);
    RulesKeepMeaning(cfg.xlen, e);
  }

  lemma PlanKeeps(cfg: Config, e: Entry)
    requires Kept(cfg, e)
    ensures Kept(cfg, PlanOne(cfg, e))
  {
    if CanAttempt(cfg, e) {
      RulesKeepMeaning(cfg.xlen, e);
      RulesIgnoreLayout(cfg.xlen, e, e.addr, e.size, TryMap(cfg.xlen, e));
      hide TryMap, LabelFits, ChoiceMeaning, BaseMeaning;
    }
  }

  predicate KeptAll(cfg: Config, nodes: seq<Entry>) {
    forall i :: 0 <= i < |nodes| ==> Kept(cfg, nodes[i])
  }

  lemma AssignKeepsAll(cfg: Config, nodes: seq<Entry>, sect: Section)
    requires KeptAll(cfg, nodes)
    ensures KeptAll(cfg, Assign(nodes, sect, 0))
  {
    var r := Assign(nodes, sect, 0);
    forall i | 0 <= i < |r| ensures Kept(cfg, r[i]) {
      assert Kept(cfg, nodes[i]);
      AssignStatic(nodes, sect, 0, i);
      hide Kept;
      AssignKeeps(cfg, nodes[i], r[i].addr, r[i].size);
    }
  }

  lemma ValidateKeepsAll(cfg: Config, syms: Symbols, nodes: seq<Entry>, sect: Section)
    requires KeptAll(cfg, nodes)
    ensures KeptAll(cfg, Validate(cfg, syms, nodes, sect))
  {
    hide Kept, ValidateOne;
    var r := Validate(cfg, syms, nodes, sect);
    forall i | 0 <= i < |r| ensures Kept(cfg, r[i]) {
      assert Kept(cfg, nodes[i]);
      ValidateKeeps(cfg, syms, nodes[i]);
    }
  }

  lemma PlanKeepsAll(cfg: Config, nodes: seq<Entry>)
    requires KeptAll(cfg, nodes)
    ensures KeptAll(cfg, Plan(cfg, nodes))
  {
    hide Kept, PlanOne;
    var r := Plan(cfg, nodes);
    forall i | 0 <= i < |r| ensures Kept(cfg, r[i]) {
      assert Kept(cfg, nodes[i]);
      PlanKeeps(cfg, nodes[i]);
    }
  }

  lemma {:induction false} RelaxKeepsAll(cfg: Config, syms: Symbols, nodes: seq<Entry>, sect: Section, iters: nat)
    requires KeptAll(cfg, nodes)
    ensures KeptAll(cfg, Relax(cfg, syms, nodes, sect, iters).0)
    decreases iters
  {
    hide KeptAll, Assign, Validate, Changed;
    if iters > 0 {
      AssignKeepsAll(cfg, nodes, sect);
      var laid := Assign(nodes, sect, 0);
      ValidateKeepsAll(cfg, syms, laid, sect);
      if Changed(cfg, syms, laid, sect) {
        RelaxKeepsAll(cfg, syms, Validate(cfg, syms, laid, sect), sect, iters - 1);
      }
    }
  }

  lemma TransferInRange(cfg: Config, op: COp, rd: Reg, rs1: Reg, rs2: Reg, imm: int)
    requires PcRelative(op) && Encode16.CEncode(cfg, op, CFmt(op), rd, rs1, rs2, imm).Some?
    ensures RangeOk(op, imm)
  {
    hide Encode16.BuildTags, Encode16.PackCB, Encode16.PackCJ, Encode16.CInfoOf;
  }

  lemma BranchOtherOffset(cfg: Config, op: COp, rd: Reg, rs1: Reg, rs2: Reg, imm: int, imm': int)
    requires PcRelative(op) && Encode16.CEncode(cfg, op, CFmt(op), rd, rs1, rs2, imm).Some? && RangeOk(op, imm')
    ensures Encode16.CEncode(cfg, op, CFmt(op), rd, rs1, rs2, imm').Some?
  {
    hide Encode16.BuildTags, Encode16.PackCB, Encode16.PackCJ, Encode16.CInfoOf;
  }

  /** A surviving choice passes its 16-bit encoder unless it is a doubleword store on RV32,
      whose 32-bit form is refused as well. */
  lemma SurvivorEncodes(cfg: Config, e: Entry)
    requires Derived(cfg, e) && e.choice.Some?
    ensures var ch := e.choice.value;
            Encode16.CEncode(cfg, ch.op, ch.fmt, ch.rd, ch.rs1, ch.rs2, ch.imm).Some? || (cfg.xlen == RV32 && e.op == Base(SD))
  {
    hide TryMap, ChoiceMeaning, BaseMeaning, Encode16.CEncode, RangeOk;
    RulesAccepted(cfg, e);
    RulesKeepMeaning(cfg.xlen, e);
    var ch, t := e.choice.value, TryMap(cfg.xlen, e).value;
    if Encode16.CEncode(cfg, t.op, t.fmt, t.rd, t.rs1, t.rs2, t.imm).Some? && ch.imm != t.imm {
      BranchOtherOffset(cfg, t.op, t.rd, t.rs1, t.rs2, t.imm, ch.imm);
    }
  }
}
