/** What each directive and each instruction leaves in the entry list, at which counter, and what
    a datum reads back as. */
module Directives {
  import opened Isa
  import opened Bits
  import opened Ir
  import opened Align
  import opened Symtab
  import opened Bytes
  import opened Out
  import opened Layout
  import opened Emit
  import opened Survive
  import opened Agree
  import opened Whole
  import opened Programs
  import P1 = Pass1

  // ------------------------------------------------- values in range

  /** The value fits n bytes as a signed number; eight bytes hold any value the lexer reads. */
  predicate SignedFits(v: int, n: int) { n == 8 || (n >= 0 && -Pow256(n) <= 2 * v < Pow256(n)) }

  lemma RangeExact(v: int, n: nat)
    requires n in {1, 2, 4, 8}
    ensures P1.InRange(v, n) <==> SignedFits(v, n)
  {
    hide Pow256;
    PowTable();
  }

  /** The item leaves an instruction or a datum: every instruction, every character, and every
      value that fits. */
  predicate Leaves(i: P1.Item) {
    i.Instr? || i.Char? || (i.Value? && SignedFits(i.value, i.size))
  }

  lemma EmitsExact(i: P1.Item)
    requires P1.Proper(i)
    ensures Emits(i) <==> Leaves(i)
  {
    hide Pow256;
    if i.Value? { RangeExact(i.value, i.size); }
  }

  /** The bytes as a two's-complement number. */
  function SignedLe(b: seq<Byte>): int {
    if 2 * FromLe(b) >= Pow256(|b|) then FromLe(b) - Pow256(|b|) else FromLe(b)
  }

  lemma SignedBack(b: seq<Byte>, v: int)
    requires FromLe(b) == v % Pow256(|b|) && -Pow256(|b|) <= 2 * v < Pow256(|b|)
    ensures SignedLe(b) == v
  {
    hide FromLe, Pow256;
    var p := Pow256(|b|);
    if v >= 0 { DivModUnique(v, p, 0, v); } else { DivModUnique(v, p, -1, v + p); }
  }

  /** In a good run a .byte, .half or .word that fits reads back as its value, sign included. */
  lemma ValueReadsBack(cfg: Config, fmt: OutFormat, items: seq<P1.Item>, m: nat)
    requires P1.AllProper(items) && Good(cfg, fmt, items) && m < |items| && items[m].Value? && Leaves(items[m]) && items[m].size != 8
    ensures AllEmittable(cfg, P1.After(items).syms, Final(cfg, items)) && PlaceOf(items, m) < |Final(cfg, items)|
    ensures var e, b, n := Final(cfg, items)[PlaceOf(items, m)], DataOf(cfg, items), items[m].size;
            0 <= n && 0 <= e.addr && e.addr + n <= |b| && SignedLe(b[e.addr..e.addr + n]) == items[m].value
  {
    hide P1.After, Final, Good, DataOf, AllEmittable, FromLe, Pow256, P1.AllProper, Emits, SignedLe, PlaceOf;
    P1.AfterPrefix(items, m);
    EmitsExact(items[m]);
    DatumReadsBack(cfg, fmt, items, m);
    var e, b, n := Final(cfg, items)[PlaceOf(items, m)], DataOf(cfg, items), items[m].size;
    SignedBack(b[e.addr..e.addr + n], items[m].value);
  }

  // ------------------------------------------------- entries as pass 1 leaves them

  /** The entry for this item at this counter. */
  predicate Entered(i: P1.Item, sect: Section, at: int, e: Entry)
    requires P1.Proper(i)
  {
    && e.sect == sect && e.addr == at && e.choice.None?
    && match i
       case Instr(op, _, _, _, _, _, _) =>
         Becomes(i, sect, e) && e.size == (if op.Comp? then 2 else 4) && (e.canCompress <==> op.Base?) && (e.forced == Size2 <==> op.Comp?)
       case Value(v, n) => e.kind == KData && e.imm == v && e.size == n
       case Char(c) => e.kind == KData && e.imm == c && e.size == 1
       case AlignTo(pow2) => e.kind == KAlign && e.imm == 0 && e.size == at + ModPad(at, pow2)
       case Space(count) => e.kind == KAlign && e.imm == 0 && e.size == count % TWO32
       case _ => false
  }

  /** Whether the item leaves an entry at all: an alignment does unless the counter is then still
      zero, a space unless its count is a multiple of 2^32, a label or a section never. */
  predicate HasEntry(i: P1.Item, at: int)
    requires P1.Proper(i)
  {
    Leaves(i) || (i.AlignTo? && at + ModPad(at, i.pow2) > 0) || (i.Space? && i.count % TWO32 != 0)
  }

  lemma AlignEntry(s: P1.State, pow2: nat, at: int)
    requires pow2 <= 31 && at == P1.Pc(s, s.sect) && 0 <= at && at + ModPad(at, pow2) < TWO32
    ensures P1.Step(s, P1.AlignTo(pow2)).nodes ==
            s.nodes + (if at + ModPad(at, pow2) > 0 then [NewAlign(s.sect, at, at + ModPad(at, pow2))] else [])
  {
    hide ModPad, AlignPad;
    AlignAddsPadding(at, pow2);
    PaddingExact(at, pow2);
    var n := AlignPad(at, pow2);
    Moves(s, n, s.sect);
  }

  lemma FormSizes(op: Op)
    ensures P1.InstrSize(op) == (if op.Comp? then 2 else 4) && (IsCFmt(FmtOf(op)) <==> op.Comp?)
  {}

  lemma InstrEnters(s: P1.State, i: P1.Item)
    requires P1.Proper(i) && i.Instr?
    ensures var at, r := P1.Pc(s, s.sect), P1.Step(s, i).nodes;
            if HasEntry(i, at) then |r| == |s.nodes| + 1 && Entered(i, s.sect, at, r[|s.nodes|]) else r == s.nodes
  {
    hide ModPad, AlignPad, Pow256, IsCFmt, FmtOf, P1.InstrSize, P1.InRange;
    FormSizes(i.op);
  }

  lemma ValueEnters(s: P1.State, i: P1.Item)
    requires P1.Proper(i) && (i.Value? || i.Char? || i.Label? || i.Switch?)
    ensures var at, r := P1.Pc(s, s.sect), P1.Step(s, i).nodes;
            if HasEntry(i, at) then |r| == |s.nodes| + 1 && Entered(i, s.sect, at, r[|s.nodes|]) else r == s.nodes
  {
    hide ModPad, AlignPad, Pow256, P1.InRange, SignedFits;
    if i.Value? { RangeExact(i.value, i.size); }
  }

  lemma SpaceEnters(s: P1.State, i: P1.Item)
    requires P1.Proper(i) && i.Space?
    ensures var at, r := P1.Pc(s, s.sect), P1.Step(s, i).nodes;
            if HasEntry(i, at) then |r| == |s.nodes| + 1 && Entered(i, s.sect, at, r[|s.nodes|]) else r == s.nodes
  {
    hide ModPad, AlignPad;
    NotBelowZero(i.count);
  }

  lemma AlignEnters(s: P1.State, i: P1.Item)
    requires P1.Proper(i) && i.AlignTo? && 0 <= P1.Pc(s, s.sect) && P1.Pc(s, s.sect) + Adds(i, P1.Pc(s, s.sect)) < TWO32
    ensures var at, r := P1.Pc(s, s.sect), P1.Step(s, i).nodes;
            if HasEntry(i, at) then |r| == |s.nodes| + 1 && Entered(i, s.sect, at, r[|s.nodes|]) else r == s.nodes
  {
    hide ModPad, AlignPad, P1.Step;
    AlignEntry(s, i.pow2, P1.Pc(s, s.sect));
  }

  lemma StepEnters(s: P1.State, i: P1.Item)
    requires P1.Proper(i) && 0 <= P1.Pc(s, s.sect) && P1.Pc(s, s.sect) + Adds(i, P1.Pc(s, s.sect)) < TWO32
    ensures var at, r := P1.Pc(s, s.sect), P1.Step(s, i).nodes;
            if HasEntry(i, at) then |r| == |s.nodes| + 1 && Entered(i, s.sect, at, r[|s.nodes|]) else r == s.nodes
  {
    hide P1.Step, HasEntry, Entered, Adds, P1.Pc, P1.Proper;
    if i.Instr? { InstrEnters(s, i); } else if i.Space? { SpaceEnters(s, i); } else if i.AlignTo? { AlignEnters(s, i); } else { ValueEnters(s, i); }
  }

  lemma NotBelowZero(n: int)
    ensures U32(n) == n % TWO32
  {}

  /** Pass 1 leaves for each item the entry it should, at the section's length so far, and nothing
      for a label, a section directive or a value out of range. */
  lemma PassOneEntry(items: seq<P1.Item>, k: nat)
    requires P1.AllProper(items) && k < |items| && Len(items, P1.SectionAt(items, k)) < TWO32
    ensures P1.AllProper(items[..k]) && P1.AllProper(items[..k + 1]) && P1.Proper(items[k])
    ensures var sect, n := P1.SectionAt(items, k), |P1.After(items[..k]).nodes|;
            var at, nodes := Len(items[..k], sect), P1.After(items).nodes;
            if HasEntry(items[k], at) then n < |nodes| && Entered(items[k], sect, at, nodes[n]) && |P1.After(items[..k + 1]).nodes| == n + 1
            else |P1.After(items[..k + 1]).nodes| == n
  {
    hide P1.After, P1.Step, P1.AllProper, P1.Proper, Adds, Pads, Len, Padding, Entered, HasEntry, P1.Pc;
    var sect := P1.SectionAt(items, k);
    P1.AfterPrefix(items, k);
    P1.SectionIs(items, k);
    P1.SectionPrefix(items, k + 1, k);
    LenGrows(items, k + 1, sect);
    assert items[..k + 1][..k] == items[..k] && items[..k + 1][k] == items[k];
    LenStep(items[..k + 1], k, sect);
    LenNotNegative(items[..k], sect);
    PadsNotNegative(items[k], Len(items[..k], sect));
    CounterIsLength(items[..k], sect);
    StepEnters(P1.After(items[..k]), items[k]);
    P1.AfterGrows(items, k + 1);
  }
}
