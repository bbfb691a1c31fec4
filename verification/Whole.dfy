/** The whole assembler, from parsed items to section bytes: where labelled branches land. */
module Whole {
  import opened Isa
  import opened Bits
  import opened Ir
  import opened Align
  import opened Symtab
  import opened Bytes
  import opened Out
  import opened Layout
  import opened Emit
  import opened Survive
  import opened Agree
  import opened Disasm
  import Monotone
  import Decode32
  import P1 = Pass1

  // ------------------------------------------------- the assembler as a function

  lemma PassOneKept(cfg: Config, items: seq<P1.Item>)
    requires P1.AllProper(items)
    ensures KeptAll(cfg, P1.After(items).nodes)
  {
    P1.AfterRaw(items);
    var nodes := P1.After(items).nodes;
    forall i | 0 <= i < |nodes| ensures Kept(cfg, nodes[i]) {
      assert P1.Raw(nodes[i]);
      hide WfInstr;
    }
  }

  /** The laid-out entries. */
  function Final(cfg: Config, items: seq<P1.Item>): (p: seq<Entry>)
    requires P1.AllProper(items)
    ensures Wf(p) && |p| == |P1.After(items).nodes|
  {
    var s := P1.After(items);
    PassOneKept(cfg, items);
    PrepareKeeps(cfg, s.syms, s.nodes);
    Prepare(cfg, s.syms, s.nodes)
  }

  function Start(fmt: OutFormat): State {
    State(Sink(fmt, if fmt == Raw then Some([]) else None, Text, [], [], false), Text, false, false)
  }

  /** Both passes: the final state and whether pass 2 succeeded. */
  function Assemble(cfg: Config, fmt: OutFormat, items: seq<P1.Item>): (State, bool)
    requires P1.AllProper(items)
  {
    EmitAll(cfg, P1.After(items).syms, true, Final(cfg, items), Start(fmt))
  }

  // ------------------------------------------------- the same program, laid out

  /** b is a laid out: addresses, computed sizes and choices apart, the same entries. */
  predicate SameProgram(a: seq<Entry>, b: seq<Entry>) {
    |a| == |b| && forall i :: 0 <= i < |a| ==> SameEntry(a[i], b[i])
  }

  predicate SameEntry(a: Entry, b: Entry) {
    b == a.(choice := b.choice, addr := b.addr, size := b.size) && (a.kind == KData ==> b.size == a.size)
  }

  lemma SameTrans(a: seq<Entry>, b: seq<Entry>, c: seq<Entry>)
    requires SameProgram(a, b) && SameProgram(b, c)
    ensures SameProgram(a, c)
  {
    forall i | 0 <= i < |a| ensures SameEntry(a[i], c[i]) { assert SameEntry(a[i], b[i]) && SameEntry(b[i], c[i]); }
  }

  lemma AssignSame(nodes: seq<Entry>, sect: Section)
    ensures SameProgram(nodes, Assign(nodes, sect, 0))
  {
    var r := Assign(nodes, sect, 0);
    forall i | 0 <= i < |nodes| ensures SameEntry(nodes[i], r[i]) {
      AssignStatic(nodes, sect, 0, i);
      if nodes[i].kind == KData { Monotone.AssignKeepsData(nodes, sect, 0, i); }
      hide Assign;
    }
  }

  lemma ValidateSame(cfg: Config, syms: Symbols, nodes: seq<Entry>, sect: Section)
    ensures SameProgram(nodes, Validate(cfg, syms, nodes, sect))
  {
    var r := Validate(cfg, syms, nodes, sect);
    forall i | 0 <= i < |nodes| ensures SameEntry(nodes[i], r[i]) {
      ValidateShape(cfg, syms, nodes, sect, i);
      hide Validate;
    }
  }

  lemma PlanSame(cfg: Config, nodes: seq<Entry>)
    ensures SameProgram(nodes, Plan(cfg, nodes))
  {}

  lemma {:induction false} RelaxSame(cfg: Config, syms: Symbols, nodes: seq<Entry>, sect: Section, iters: nat)
    ensures SameProgram(nodes, Relax(cfg, syms, nodes, sect, iters).0)
    decreases iters
  {
    hide SameProgram, Assign, Validate, Changed;
    if iters == 0 {
      SameRefl(nodes);
    } else {
      var laid := Assign(nodes, sect, 0);
      var checked := Validate(cfg, syms, laid, sect);
      AssignSame(nodes, sect);
      ValidateSame(cfg, syms, laid, sect);
      SameTrans(nodes, laid, checked);
      if Changed(cfg, syms, laid, sect) {
        RelaxSame(cfg, syms, checked, sect, iters - 1);
        SameTrans(nodes, checked, Relax(cfg, syms, checked, sect, iters - 1).0);
      }
    }
  }

  lemma SameRefl(nodes: seq<Entry>)
    ensures SameProgram(nodes, nodes)
  {}

  lemma PrepareSame(cfg: Config, syms: Symbols, nodes: seq<Entry>)
    ensures SameProgram(nodes, Prepare(cfg, syms, nodes))
  {
    hide SameProgram, Assign, Plan, Relax;
    var a := Assign(nodes, Data, 0);
    AssignSame(nodes, Data);
    if cfg.hasC && cfg.autoC {
      PlanSame(cfg, a);
      RelaxSame(cfg, syms, Plan(cfg, a), Text, 8);
      SameTrans(nodes, a, Plan(cfg, a));
      SameTrans(nodes, Plan(cfg, a), Prepare(cfg, syms, nodes));
    } else {
      AssignSame(a, Text);
      SameTrans(nodes, a, Prepare(cfg, syms, nodes));
    }
  }

  /** What holds of the final layout of a program whose relaxation converged. */
  predicate LaidOut(cfg: Config, items: seq<P1.Item>)
    requires P1.AllProper(items)
  {
    var s, p := P1.After(items), Final(cfg, items);
    && SameProgram(s.nodes, p) && KeptAll(cfg, p) && DataSizes(p) && Settled(p, Data, 0) && Settled(p, Text, 0)
    && (forall i :: 0 <= i < |p| ==> ChoiceResolved(s.syms, p[i]))
  }

  lemma FinalLaidOut(cfg: Config, items: seq<P1.Item>)
    requires P1.AllProper(items) && Converged(cfg, P1.After(items).syms, P1.After(items).nodes)
    ensures LaidOut(cfg, items)
  {
    var s, p := P1.After(items), Final(cfg, items);
    PassOneKept(cfg, items);
    P1.AfterRaw(items);
    PrepareKeeps(cfg, s.syms, s.nodes);
    PrepareSettled(cfg, s.syms, s.nodes);
    PrepareSame(cfg, s.syms, s.nodes);
    SizesStay(s.nodes, p);
    forall i | 0 <= i < |p| ensures ChoiceResolved(s.syms, p[i]) {
      assert Kept(cfg, p[i]);
      hide ChoiceResolved, Prepare, P1.After, Settled;
      if p[i].choice.None? || p[i].sect == Data { NoChoice(cfg, s.syms, p[i]); }
    }
    hide P1.After, Prepare, Settled, SameProgram, KeptAll, DataSizes, ChoiceResolved;
  }

  lemma NoChoice(cfg: Config, syms: Symbols, e: Entry)
    requires Kept(cfg, e) && (e.choice.None? || e.sect == Data)
    ensures ChoiceResolved(syms, e)
  {}

  lemma SizesStay(a: seq<Entry>, b: seq<Entry>)
    requires SameProgram(a, b) && P1.RawAll(a)
    ensures DataSizes(b)
  {
    forall e | e in b && e.kind == KData ensures e.size >= 0 {
      var i :| 0 <= i < |b| && b[i] == e;
      assert SameEntry(a[i], b[i]) && P1.Raw(a[i]);
    }
  }

  // ------------------------------------------------- lengths in pass 1 and in pass 2

  /** By how much an item moves the counter at `at`, and how much of that is padding. */
  function Adds(i: P1.Item, at: int): int
    requires P1.Proper(i)
  {
    match i
    case Value(v, n) => if P1.InRange(v, n) then n else 0
    case Char(_) => 1
    case Instr(op, _, _, _, _, _, _) => P1.InstrSize(op)
    case _ => Pads(i, at)
  }

  function Pads(i: P1.Item, at: int): int
    requires P1.Proper(i)
  {
    match i
    case AlignTo(pow2) => ModPad(at, pow2)
    case Space(count) => U32(count)
    case _ => 0
  }

  /** The length of a section in pass 1, had the counter no upper limit. */
  function Len(items: seq<P1.Item>, sect: Section): int
    requires P1.AllProper(items)
  {
    if items == [] then 0
    else
      var n := |items| - 1;
      P1.AfterPrefix(items, n);
      Len(items[..n], sect) + (if P1.SectionAt(items, n) == sect then Adds(items[n], Len(items[..n], sect)) else 0)
  }

  /** The part of it that is padding. */
  function Padding(items: seq<P1.Item>, sect: Section): int
    requires P1.AllProper(items)
  {
    if items == [] then 0
    else
      var n := |items| - 1;
      P1.AfterPrefix(items, n);
      Padding(items[..n], sect) + (if P1.SectionAt(items, n) == sect then Pads(items[n], Len(items[..n], sect)) else 0)
  }

  /** The size of an entry before compression; pass 2 forgets padding. */
  function FullSize(e: Entry): int {
    match e.kind
    case KData => e.size
    case KAlign => 0
    case KInstr => P1.InstrSize(e.op)
  }

  function FullTotal(nodes: seq<Entry>, sect: Section): int {
    if nodes == [] then 0 else (if nodes[0].sect == sect then FullSize(nodes[0]) else 0) + FullTotal(nodes[1..], sect)
  }

  lemma {:induction false} FullAppend(nodes: seq<Entry>, e: Entry, sect: Section)
    ensures FullTotal(nodes + [e], sect) == FullTotal(nodes, sect) + (if e.sect == sect then FullSize(e) else 0)
    decreases |nodes|
  {
    hide FullSize;
    if nodes == [] {
      assert nodes + [e] == [e] && FullTotal([], sect) == 0;
    } else {
      assert (nodes + [e])[1..] == nodes[1..] + [e];
      FullAppend(nodes[1..], e, sect);
    }
  }

  lemma PadsNotNegative(i: P1.Item, at: int)
    requires P1.Proper(i) && at >= 0
    ensures 0 <= Pads(i, at) <= Adds(i, at)
  {
    hide ModPad;
    if i.AlignTo? { AlignAddsPadding(at, i.pow2); }
  }

  lemma {:induction false} LenNotNegative(items: seq<P1.Item>, sect: Section)
    requires P1.AllProper(items)
    ensures 0 <= Padding(items, sect) <= Len(items, sect)
    decreases |items|
  {
    if items != [] {
      var n := |items| - 1;
      P1.AfterPrefix(items, n);
      LenNotNegative(items[..n], sect);
      PadsNotNegative(items[n], Len(items[..n], sect));
      hide Pads, Adds, P1.Proper, P1.After;
    }
  }

  lemma LenStep(items: seq<P1.Item>, n: nat, sect: Section)
    requires P1.AllProper(items) && n + 1 == |items|
    ensures P1.AllProper(items[..n]) && P1.Proper(items[n])
    ensures Len(items, sect) == Len(items[..n], sect) + (if P1.SectionAt(items, n) == sect then Adds(items[n], Len(items[..n], sect)) else 0)
  {
    hide P1.After, Adds, P1.Proper;
    P1.AfterPrefix(items, n);
  }

  lemma PaddingStep(items: seq<P1.Item>, n: nat, sect: Section)
    requires P1.AllProper(items) && n + 1 == |items|
    ensures P1.AllProper(items[..n]) && P1.Proper(items[n])
    ensures Padding(items, sect) == Padding(items[..n], sect) + (if P1.SectionAt(items, n) == sect then Pads(items[n], Len(items[..n], sect)) else 0)
  {
    hide P1.After, Pads, P1.Proper, Len;
    P1.AfterPrefix(items, n);
  }

  lemma {:induction false} LenGrows(items: seq<P1.Item>, m: nat, sect: Section)
    requires P1.AllProper(items) && m <= |items|
    ensures P1.AllProper(items[..m]) && Len(items[..m], sect) <= Len(items, sect)
    decreases |items|
  {
    hide Pads, Adds, P1.Proper, P1.After, Len, Padding;
    assert items[..|items|] == items;
    if m < |items| {
      var n := |items| - 1;
      LenStep(items, n, sect);
      LenGrows(items[..n], m, sect);
      assert items[..n][..m] == items[..m];
      LenNotNegative(items[..n], sect);
      PadsNotNegative(items[n], Len(items[..n], sect));
    }
  }

  lemma Moves(s: P1.State, n: int, sect: Section)
    requires 0 <= P1.Pc(s, sect) && P1.Pc(s, sect) + n < TWO32 && n >= 0
    ensures P1.Pc(P1.Advance(s, n), sect) == P1.Pc(s, sect) + (if s.sect == sect then n else 0)
  {}

  lemma AlignMoves(s: P1.State, pow2: nat, sect: Section)
    requires pow2 <= 31 && 0 <= P1.Pc(s, sect) && s.sect == sect && P1.Pc(s, sect) + ModPad(P1.Pc(s, sect), pow2) < TWO32
    ensures P1.Pc(P1.Step(s, P1.AlignTo(pow2)), sect) == P1.Pc(s, sect) + ModPad(P1.Pc(s, sect), pow2)
  {
    hide AlignPad, ModPad, U32;
    AlignAddsPadding(P1.Pc(s, sect), pow2);
    PaddingExact(P1.Pc(s, sect), pow2);
    Moves(s, ModPad(P1.Pc(s, sect), pow2), sect);
  }

  lemma OtherStays(s: P1.State, i: P1.Item, sect: Section)
    requires P1.Proper(i) && s.sect != sect
    ensures P1.Pc(P1.Step(s, i), sect) == P1.Pc(s, sect)
  {
    hide AlignPad, NewData, NewAlign, NewInstr, P1.InstrSize, U32;
  }

  /** Below the 32-bit limit one step moves its section's counter by what the item adds. */
  lemma StepMoves(s: P1.State, i: P1.Item, sect: Section)
    requires P1.Proper(i) && 0 <= P1.Pc(s, sect) < TWO32
    requires s.sect == sect ==> P1.Pc(s, sect) + Adds(i, P1.Pc(s, sect)) < TWO32
    ensures P1.Pc(P1.Step(s, i), sect) == P1.Pc(s, sect) + (if s.sect == sect then Adds(i, P1.Pc(s, sect)) else 0)
  {
    if s.sect != sect {
      OtherStays(s, i, sect);
    } else if i.AlignTo? {
      AlignMoves(s, i.pow2, sect);
      hide P1.Step, ModPad;
    } else {
      hide AlignPad, ModPad, NewData, NewAlign, NewInstr, IsCFmt, FmtOf, U32, P1.Advance;
      var n := Adds(i, P1.Pc(s, sect));
      PadsNotNegative(i, P1.Pc(s, sect));
      Moves(s, n, sect);
      AdvanceIgnoresNodes(s, n, sect);
    }
  }

  lemma AdvanceIgnoresNodes(s: P1.State, n: int, sect: Section)
    ensures forall nodes :: P1.Pc(P1.Advance(s.(nodes := nodes), n), sect) == P1.Pc(P1.Advance(s, n), sect)
  {}

  /** What a step appends, before compression, is what it adds beyond padding. */
  lemma StepAppends(s: P1.State, i: P1.Item, sect: Section, at: int)
    requires P1.Proper(i)
    ensures FullTotal(P1.Step(s, i).nodes, sect) ==
            FullTotal(s.nodes, sect) + (if s.sect == sect then Adds(i, at) - Pads(i, at) else 0)
  {
    hide P1.Step, Adds, Pads, FullTotal, FullSize;
    var r := P1.Step(s, i).nodes;
    P1AppendsOne(s, i);
    if |r| > |s.nodes| {
      FullAppend(s.nodes, r[|s.nodes|], sect);
      NewSize(s, i, at);
      assert r == s.nodes + [r[|s.nodes|]];
    } else {
      NoNewSize(s, i, at);
      assert r == s.nodes;
    }
  }

  lemma P1AppendsOne(s: P1.State, i: P1.Item)
    requires P1.Proper(i)
    ensures s.nodes <= P1.Step(s, i).nodes && |P1.Step(s, i).nodes| <= |s.nodes| + 1
    ensures |P1.Step(s, i).nodes| > |s.nodes| ==> P1.Step(s, i).nodes[|s.nodes|].sect == s.sect
  {
    hide AlignPad, ModPad, IsCFmt, FmtOf;
  }

  lemma NewSize(s: P1.State, i: P1.Item, at: int)
    requires P1.Proper(i) && |P1.Step(s, i).nodes| > |s.nodes|
    ensures FullSize(P1.Step(s, i).nodes[|s.nodes|]) == Adds(i, at) - Pads(i, at)
  {
    hide AlignPad, ModPad, IsCFmt, FmtOf;
  }

  lemma NoNewSize(s: P1.State, i: P1.Item, at: int)
    requires P1.Proper(i) && |P1.Step(s, i).nodes| == |s.nodes|
    ensures Adds(i, at) == Pads(i, at)
  {
    hide AlignPad, ModPad, IsCFmt, FmtOf;
  }

  /** Pass 1's counter is the length, and the length is the entries plus the padding. */
  lemma {:induction false} CounterIsLength(items: seq<P1.Item>, sect: Section)
    requires P1.AllProper(items) && Len(items, sect) < TWO32
    ensures P1.Pc(P1.After(items), sect) == Len(items, sect)
    ensures Len(items, sect) == FullTotal(P1.After(items).nodes, sect) + Padding(items, sect)
    decreases |items|
  {
    hide P1.After, P1.Step, P1.Pc, Pads, Adds, P1.Proper, P1.AllProper, FullTotal, Len, Padding;
    if items == [] {
      NothingCounted(sect);
    } else {
      var n := |items| - 1;
      P1.AfterPrefix(items, n);
      P1.SectionIs(items, n);
      assert items[..n + 1] == items;
      LenGrows(items, n, sect);
      LenNotNegative(items[..n], sect);
      CounterIsLength(items[..n], sect);
      LenStep(items, n, sect);
      PaddingStep(items, n, sect);
      StepMoves(P1.After(items[..n]), items[n], sect);
      StepAppends(P1.After(items[..n]), items[n], sect, Len(items[..n], sect));
    }
  }

  lemma NothingCounted(sect: Section)
    ensures P1.AllProper([]) && P1.Pc(P1.After([]), sect) == 0 && Len([], sect) == 0 && Padding([], sect) == 0
    ensures FullTotal(P1.After([]).nodes, sect) == 0
  {}

  /** A laid-out entry takes its full size, less two bytes if it was compressed. */
  lemma LaidSize(cfg: Config, a: Entry, b: Entry, pc: int)
    requires P1.Raw(a) && SameEntry(a, b) && Kept(cfg, b) && AssignOne(b, pc) == b
    ensures b.size == FullSize(a) - (if b.choice.Some? then 2 else 0)
  {
    hide Align.AlignUp, LabelFits, Derived;
    if b.choice.Some? { ChosenIsInstr(cfg, b); }
  }

  lemma ChosenIsInstr(cfg: Config, e: Entry)
    requires Derived(cfg, e) && e.choice.Some?
    ensures e.kind == KInstr
  {}

  predicate RawTo(cfg: Config, a: seq<Entry>, b: seq<Entry>) {
    P1.RawAll(a) && SameProgram(a, b) && KeptAll(cfg, b)
  }

  lemma RawToTail(cfg: Config, a: seq<Entry>, b: seq<Entry>)
    requires RawTo(cfg, a, b) && a != []
    ensures RawTo(cfg, a[1..], b[1..]) && P1.Raw(a[0]) && SameEntry(a[0], b[0]) && Kept(cfg, b[0])
  {
    hide P1.Raw, SameEntry, Kept;
    assert forall i :: 0 <= i < |a[1..]| ==> a[1..][i] == a[i + 1] && b[1..][i] == b[i + 1];
  }

  lemma RawToPrefix(cfg: Config, a: seq<Entry>, b: seq<Entry>, k: nat)
    requires RawTo(cfg, a, b) && k <= |a|
    ensures RawTo(cfg, a[..k], b[..k])
  {
    hide P1.Raw, SameEntry, Kept;
  }

  lemma {:induction false} LaidTotal(cfg: Config, a: seq<Entry>, b: seq<Entry>, sect: Section, pc: int)
    requires RawTo(cfg, a, b) && Settled(b, sect, pc)
    ensures Total(b, sect) == FullTotal(a, sect) - 2 * Choices(b, sect)
    decreases |a|
  {
    if a != [] {
      RawToTail(cfg, a, b);
      hide AssignOne, NextPc, RawTo, P1.Raw, Kept, FullSize;
      if b[0].sect == sect { LaidSize(cfg, a[0], b[0], pc); }
      LaidTotal(cfg, a[1..], b[1..], sect, if b[0].sect != sect then pc else NextPc(b[0], pc));
    }
  }

  // ------------------------------------------------- labels and branches

  /** The label is first defined by item m, in section sect. */
  predicate DefinedAt(items: seq<P1.Item>, m: nat, name: string, sect: Section)
    requires P1.AllProper(items)
  {
    && m < |items| && items[m] == P1.Label(name) && (forall j :: 0 <= j < m ==> items[j] != P1.Label(name))
    && P1.AllProper(items[..m]) && P1.SectionAt(items, m) == sect
  }

  /** The offset, in the finished section, of what follows the label defined by item m. */
  function LabelOffset(cfg: Config, items: seq<P1.Item>, m: nat, sect: Section): int
    requires P1.AllProper(items) && m <= |items|
  {
    P1.AfterGrows(items, m);
    Total(Final(cfg, items)[..|P1.After(items[..m]).nodes|], sect)
  }

  /** What pass 1 counts before item m and pass 2 does not emit. */
  function Slack(cfg: Config, items: seq<P1.Item>, m: nat, sect: Section): int
    requires P1.AllProper(items) && m <= |items|
  {
    P1.AfterGrows(items, m);
    Padding(items[..m], sect) + 2 * Choices(Final(cfg, items)[..|P1.After(items[..m]).nodes|], sect)
  }

  /** The entries before item m, laid out, and the padding account for pass 1's counter. */
  lemma PrefixLength(cfg: Config, items: seq<P1.Item>, m: nat, sect: Section)
    requires P1.AllProper(items) && LaidOut(cfg, items) && m <= |items| && Len(items, sect) < TWO31
    ensures P1.AllProper(items[..m])
    ensures P1.Pc(P1.After(items[..m]), sect) == LabelOffset(cfg, items, m, sect) + Slack(cfg, items, m, sect)
    ensures 0 <= P1.Pc(P1.After(items[..m]), sect) < TWO31 && 0 <= Slack(cfg, items, m, sect)
  {
    hide P1.After, Settled, Total, Len, Choices, FullTotal, Padding, P1.RawAll, SameProgram, KeptAll, Final, P1.Pc;
    var a, p := P1.After(items).nodes, Final(cfg, items);
    P1.AfterGrows(items, m);
    P1.AfterRaw(items);
    var k := |P1.After(items[..m]).nodes|;
    RawToPrefix(cfg, a, p, k);
    if sect == Text { SettledPrefix(p, Text, 0, k); } else { SettledPrefix(p, Data, 0, k); }
    LaidTotal(cfg, a[..k], p[..k], sect, 0);
    assert a[..k] == P1.After(items[..m]).nodes;
    LenGrows(items, m, sect);
    LenNotNegative(items[..m], sect);
    CounterIsLength(items[..m], sect);
  }

  /** A label's value exceeds its final offset by the padding before it plus two for each
      compressed instruction before it. */
  lemma LabelValue(cfg: Config, items: seq<P1.Item>, m: nat, name: string, sect: Section)
    requires P1.AllProper(items) && LaidOut(cfg, items) && DefinedAt(items, m, name, sect) && Len(items, sect) < TWO31
    ensures var syms := P1.After(items).syms;
            name in syms && 0 <= syms[name] < TWO31 && syms[name] == LabelOffset(cfg, items, m, sect) + Slack(cfg, items, m, sect)
    ensures 0 <= Slack(cfg, items, m, sect)
  {
    hide P1.After, LaidOut, LabelOffset, Slack, Len, P1.Pc;
    PrefixLength(cfg, items, m, sect);
    P1.FirstDefinition(items, m, name);
  }

  lemma FinalFits(cfg: Config, items: seq<P1.Item>, sect: Section)
    requires P1.AllProper(items) && LaidOut(cfg, items) && Len(items, sect) < TWO31
    ensures Settled(Final(cfg, items), sect, 0) && 0 <= Total(Final(cfg, items), sect) < TWO31
  {
    hide P1.After, Settled, Total, Len, Choices, FullTotal, Padding, P1.RawAll, SameProgram, KeptAll, Final;
    var a, p := P1.After(items).nodes, Final(cfg, items);
    P1.AfterRaw(items);
    LaidTotal(cfg, a, p, sect, 0);
    CounterIsLength(items, sect);
    LenNotNegative(items, sect);
    TotalNotNegative(p, sect, 0);
  }

  /** A control transfer to a label. */
  predicate Transfer(e: Entry, name: string) {
    e.kind == KInstr && e.target == Some(name) && (e.reloc == Boff || e.reloc == Jtgt)
  }

  lemma TransferOffset(syms: Symbols, e: Entry, name: string)
    requires WfInstr(e) && Transfer(e, name) && name in syms && 0 <= syms[name] < TWO31 && 0 <= e.addr < TWO31
    ensures Immediate(syms, e.target, e.reloc, e.imm, e.addr) == Some(syms[name] - e.addr)
    ensures Intended(syms, e).imm == syms[name] - e.addr
  {
    assert Immediate(syms, e.target, e.reloc, e.imm, e.addr) == Some(syms[name] - e.addr);
    hide Immediate;
    match e.op
    case Base(op) => OtherBaseOffset(op, e.rd, e.rs1, e.rs2, 0, syms[name] - e.addr);
    case Comp(op) => OtherOffset(op, e.rd, e.rs1, e.rs2, 0, syms[name] - e.addr);
  }

  /** The instruction a reader finds at an offset of some bytes. */
  function InsnAt(xlen: Xlen, b: seq<Byte>, at: nat): Option<Insn>
  {
    var lines := Read(xlen, b, at);
    if lines == [] then None else lines[0].insn
  }

  /** Reading the emitted section at an instruction entry's address. */
  lemma EntryReadsBack(cfg: Config, syms: Symbols, p: seq<Entry>, i: nat)
    requires Wf(p) && AllEmittable(cfg, syms, p) && DataSizes(p) && i < |p| && p[i].kind == KInstr
    requires Kept(cfg, p[i]) && ChoiceResolved(syms, p[i])
    requires Settled(p, p[i].sect, 0) && Total(p, p[i].sect) < TWO31
    ensures var e := p[i];
            && 0 <= e.addr < TWO31 && Immediate(syms, e.target, e.reloc, e.imm, e.addr).Some?
            && (InsnAt(cfg.xlen, SectBytes(cfg, syms, p, e.sect), e.addr) == Some(Intended(syms, e)) <==> Faithful(syms, e))
  {
    hide Settled, Total, Kept, ChoiceResolved, SectBytes, Intended, Faithful, Immediate, Read, Chunk, WfInstr, CodeInsn, NodeCode;
    var e, b := p[i], SectBytes(cfg, syms, p, p[i].sect);
    LayoutAgrees(cfg, syms, p, e.sect, i);
    BytesTotal(cfg, syms, p, e.sect, 0);
    SomeBytes(cfg, syms, e);
    Rejoin(b, e.addr, e.size);
    ReadOne(cfg, syms, e, b, e.addr, b[e.addr + e.size..]);
  }

  lemma Rejoin(b: seq<Byte>, at: nat, n: nat)
    requires at + n <= |b|
    ensures b[at..] == b[at..at + n] + b[at + n..] && |b[at..at + n]| == n
  {}

  lemma SomeBytes(cfg: Config, syms: Symbols, e: Entry)
    requires e.kind == KInstr && WfInstr(e) && Chunk(cfg, syms, e).Some?
    ensures |Chunk(cfg, syms, e).value| > 0
  {
    hide NodeCode, WordBytes, HalfBytes, WfInstr;
    WordSize();
  }

  /** In every successful run whose relaxation converged, a branch or jump to a label of its
      own section, read from the emitted bytes at its offset, transfers to the label's final
      offset plus the slack; so it is right exactly when there is no slack. (A compressed
      one is read so exactly when its layout agrees with the manual.) */
  lemma BranchLands(cfg: Config, fmt: OutFormat, items: seq<P1.Item>, i: nat, m: nat, name: string, sect: Section)
    requires P1.AllProper(items) && Assemble(cfg, fmt, items).1
    requires Converged(cfg, P1.After(items).syms, P1.After(items).nodes) && Len(items, sect) < TWO31
    requires i < |Final(cfg, items)| && Transfer(Final(cfg, items)[i], name) && Final(cfg, items)[i].sect == sect
    requires DefinedAt(items, m, name, sect)
    ensures var syms, p := P1.After(items).syms, Final(cfg, items);
            var e, sink := p[i], Assemble(cfg, fmt, items).0.sink;
            && AllEmittable(cfg, syms, p) && e.addr >= 0
            && var b := SectBytes(cfg, syms, p, sect);
            && (fmt == Elf ==> b == if sect == Text then sink.text else sink.data)
            && (fmt == Raw ==> sink.raw == Some(SectBytes(cfg, syms, p, Data) + SectBytes(cfg, syms, p, Text)))
            && Immediate(syms, e.target, e.reloc, e.imm, e.addr).Some?
            && (InsnAt(cfg.xlen, b, e.addr) == Some(Intended(syms, e)) <==> Faithful(syms, e))
            && (e.op.Base? && e.choice.None? ==> Faithful(syms, e) && Intended(syms, e).op == e.op.base)
            && e.addr + Intended(syms, e).imm == LabelOffset(cfg, items, m, sect) + Slack(cfg, items, m, sect)
            && (e.addr + Intended(syms, e).imm == LabelOffset(cfg, items, m, sect) <==> Slack(cfg, items, m, sect) == 0)
  {
    var syms, p := P1.After(items).syms, Final(cfg, items);
    var e := p[i];
    FinalLaidOut(cfg, items);
    FinalFits(cfg, items, sect);
    LabelValue(cfg, items, m, name, sect);
    EmitAllWrites(cfg, syms, p, Start(fmt));
    assert Kept(cfg, p[i]) && ChoiceResolved(syms, p[i]);
    hide Final, P1.After, Len, DefinedAt, LaidOut, Converged, LabelOffset, Slack, EmitAll, ChoiceResolved;
    EntryReadsBack(cfg, syms, p, i);
    TransferOffset(syms, e, name);
    if e.op.Base? { BaseOpKept(syms, e); }
  }

  lemma BaseOpKept(syms: Symbols, e: Entry)
    requires e.op.Base? && Immediate(syms, e.target, e.reloc, e.imm, e.addr).Some?
    ensures Intended(syms, e).op == e.op.base
  {
    hide Decode32.Meaning;
    SameOp(e.op.base, e.rd, e.rs1, e.rs2, Immediate(syms, e.target, e.reloc, e.imm, e.addr).value);
  }

  /** The label's offset is where the next entry of its section starts, or the section's end. */
  lemma NextEntry(cfg: Config, items: seq<P1.Item>, m: nat, sect: Section, j: nat)
    requires P1.AllProper(items) && LaidOut(cfg, items) && Len(items, sect) < TWO31 && m <= |items|
    requires P1.AllProper(items[..m]) && |P1.After(items[..m]).nodes| <= j <= |Final(cfg, items)|
    requires forall q :: |P1.After(items[..m]).nodes| <= q < j ==> Final(cfg, items)[q].sect != sect
    ensures j < |Final(cfg, items)| && Final(cfg, items)[j].sect == sect ==> LabelOffset(cfg, items, m, sect) == Final(cfg, items)[j].addr
    ensures j == |Final(cfg, items)| ==> LabelOffset(cfg, items, m, sect) == Total(Final(cfg, items), sect)
  {
    hide Final, P1.After, Len, Settled;
    var a, p, k := P1.After(items).nodes, Final(cfg, items), |P1.After(items[..m]).nodes|;
    FinalFits(cfg, items, sect);
    P1.AfterGrows(items, m);
    P1.AfterRaw(items);
    SkipOther(p, sect, k, j);
    SettledPacked(p, sect, 0);
    if j < |p| && p[j].sect == sect {
      PackedAt(p, sect, 0, j);
      var at := SettledAt(p, sect, 0, j);
      assert SameEntry(a[j], p[j]) && P1.Raw(a[j]) && Kept(cfg, p[j]);
      hide Packed, Total, SameProgram, P1.RawAll, KeptAll;
      if p[j].kind == KAlign { LaidSize(cfg, a[j], p[j], at); PlainPadding(cfg, p[j]); }
    } else if j == |p| {
      assert p[..j] == p;
    }
  }

  lemma PlainPadding(cfg: Config, e: Entry)
    requires Kept(cfg, e) && e.kind == KAlign
    ensures e.choice.None?
  {}

  lemma {:induction false} SkipOther(p: seq<Entry>, sect: Section, k: nat, j: nat)
    requires k <= j <= |p| && forall q :: k <= q < j ==> p[q].sect != sect
    ensures Total(p[..j], sect) == Total(p[..k], sect)
    decreases k
  {
    if k > 0 {
      assert p[..j][1..] == p[1..][..j - 1] && p[..k][1..] == p[1..][..k - 1];
      SkipOther(p[1..], sect, k - 1, j - 1);
    } else {
      AllOther(p[..j], sect);
    }
  }

  lemma {:induction false} AllOther(p: seq<Entry>, sect: Section)
    requires forall q :: 0 <= q < |p| ==> p[q].sect != sect
    ensures Total(p, sect) == 0
    decreases |p|
  {
    if p != [] { AllOther(p[1..], sect); }
  }

  /** Without automatic compression and without padding before the label there is no slack. */
  lemma NoSlack(cfg: Config, items: seq<P1.Item>, m: nat, sect: Section)
    requires P1.AllProper(items) && m <= |items| && P1.AllProper(items[..m])
    requires !(cfg.hasC && cfg.autoC) && Padding(items[..m], sect) == 0
    ensures Slack(cfg, items, m, sect) == 0
  {
    PassOneKept(cfg, items);
    var s, p := P1.After(items), Final(cfg, items);
    PrepareKeeps(cfg, s.syms, s.nodes);
    P1.AfterGrows(items, m);
    assert forall i :: 0 <= i < |p| ==> Kept(cfg, p[i]);
    hide P1.After, Final, Prepare;
    NoChoices(p[..|P1.After(items[..m]).nodes|], sect);
  }

  lemma {:induction false} NoChoices(p: seq<Entry>, sect: Section)
    requires forall i :: 0 <= i < |p| ==> p[i].choice.None?
    ensures Choices(p, sect) == 0
    decreases |p|
  {
    if p != [] { NoChoices(p[1..], sect); }
  }
}
