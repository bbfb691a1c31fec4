/** A program on which eight rounds of relaxation are too few: each round drops exactly one
    of eight branches, so the eighth still changes the layout and none follows it. */
module Slow {
  import opened Isa
  import opened Ir
  import opened CRules
  import opened Compress
  import opened Symtab
  import opened Out
  import opened Layout
  import opened Emit
  import opened Survive
  import opened Agree
  import opened Whole
  import opened Straight
  import opened Moved
  import Encode32
  import Decode32
  import P1 = Pass1

  const CFG := Config(RV32, false, true, true)

  /** The k-th label. */
  function Name(k: nat): string { seq(k + 1, _ => 'a') }

  const UPPER := P1.Instr(Base(LUI), 1, 0, 0, 0, None, RelocNone)

  /** bnez x8, to the k-th label */
  function Back(k: nat): P1.Item { P1.Instr(Base(BNE), 0, 8, 0, 0, Some(Name(k)), Boff) }

  /** The instructions: 64 of lui, one addi, eight branches. */
  function InstrAt(i: nat): P1.Item {
    if i < 64 then UPPER else if i == 64 then Bump(9) else Back(i - 65)
  }

  /** The program up to its n-th instruction; the first eight carry a label each. */
  function Program(n: nat): seq<P1.Item> {
    if n == 0 then []
    else Program(n - 1) + (if n <= 8 then [P1.Label(Name(n - 1))] else []) + [InstrAt(n - 1)]
  }

  // ------------------------------------------------- pass 1

  lemma InstrProper(i: nat)
    ensures P1.Proper(InstrAt(i)) && InstrAt(i).Instr? && InstrAt(i).op.Base?
  {}

  lemma StepInstr(s: P1.State, i: nat)
    requires s.sect == Text
    ensures P1.Proper(InstrAt(i)) && InstrAt(i).Instr?
    ensures P1.Step(s, InstrAt(i)) == s.(nodes := s.nodes + [NodeOf(InstrAt(i), s.pcText)], pcText := U32(s.pcText + 4))
    ensures Adds(InstrAt(i), s.pcText) == 4
  {
    InstrProper(i);
    hide InstrAt, FmtOf, P1.InstrSize, U32;
    BaseSize(InstrAt(i).op);
  }

  lemma StepLabel(s: P1.State, k: nat)
    requires s.sect == Text && Name(k) !in s.syms && 0 <= s.pcText < TWO31
    ensures P1.Step(s, P1.Label(Name(k))) == s.(syms := s.syms[Name(k) := s.pcText])
  {
    hide Name;
  }

  lemma AfterOne(items: seq<P1.Item>, i: P1.Item)
    requires P1.AllProper(items) && P1.Proper(i)
    ensures P1.AllProper(items + [i]) && P1.After(items + [i]) == P1.Step(P1.After(items), i)
    ensures forall sect :: Len(items + [i], sect) ==
                           Len(items, sect) + (if P1.After(items).sect == sect then Adds(i, Len(items, sect)) else 0)
  {
    hide P1.Step, P1.Proper, Adds;
    assert (items + [i])[..|items|] == items;
    P1.SectionIs(items + [i], |items|);
  }

  lemma NamesDiffer(j: nat, k: nat)
    requires j != k
    ensures Name(j) != Name(k)
  {
    assert |Name(j)| == j + 1 && |Name(k)| == k + 1;
  }

  /** The first l labels, four bytes apart, and no other. */
  ghost predicate Labels(syms: Symbols, l: nat) {
    && (forall k :: 0 <= k < l ==> Name(k) in syms && syms[Name(k)] == 4 * k)
    && (forall k :: k >= l ==> Name(k) !in syms)
  }

  predicate Entries(nodes: seq<Entry>, n: nat) {
    |nodes| == n && forall i :: 0 <= i < n ==> InstrAt(i).Instr? && nodes[i] == NodeOf(InstrAt(i), 4 * i)
  }

  /** Pass 1 over items with l labels and n instructions. */
  ghost predicate Passed(items: seq<P1.Item>, l: nat, n: nat) {
    && P1.AllProper(items) && Len(items, Text) == 4 * n && Len(items, Data) == 0
    && var s := P1.After(items);
       s.sect == Text && s.pcText == 4 * n && Entries(s.nodes, n) && Labels(s.syms, l)
  }

  lemma PassLabel(items: seq<P1.Item>, n: nat)
    requires Passed(items, n, n) && n <= 73
    ensures Passed(items + [P1.Label(Name(n))], n + 1, n)
  {
    hide P1.Step, P1.After, P1.AllProper, P1.Proper, Len, Name, Adds, Entries;
    LabelProper(n);
    AfterOne(items, P1.Label(Name(n)));
    assert Name(n) !in P1.After(items).syms;
    StepLabel(P1.After(items), n);
    LabelsNext(P1.After(items).syms, n, 4 * n);
  }

  lemma PassInstr(items: seq<P1.Item>, l: nat, n: nat)
    requires Passed(items, l, n) && n <= 73
    ensures Passed(items + [InstrAt(n)], l, n + 1)
  {
    hide P1.Step, P1.After, P1.AllProper, P1.Proper, Len, Labels, Adds, InstrAt, NodeOf;
    StepInstr(P1.After(items), n);
    AfterOne(items, InstrAt(n));
    AddsFour(n, Len(items, Text));
    EntriesNext(P1.After(items).nodes, n);
  }

  lemma AddsFour(i: nat, at: int)
    ensures P1.Proper(InstrAt(i)) && Adds(InstrAt(i), at) == 4
  {
    InstrProper(i);
    hide InstrAt;
    BaseSize(InstrAt(i).op);
  }

  lemma EntriesNext(nodes: seq<Entry>, n: nat)
    requires Entries(nodes, n)
    ensures InstrAt(n).Instr? && Entries(nodes + [NodeOf(InstrAt(n), 4 * n)], n + 1)
  {
    InstrProper(n);
    hide InstrAt, NodeOf;
  }

  lemma {:induction false} PassOne(n: nat)
    requires n <= 73
    ensures Passed(Program(n), if n <= 8 then n else 8, n)
  {
    if n == 0 {
      NothingPassed();
    } else {
      PassOne(n - 1);
      hide Passed, InstrAt, Name, Program;
      var p := Program(n - 1);
      ProgramNext(n - 1);
      if n <= 8 {
        PassLabel(p, n - 1);
        PassInstr(p + [P1.Label(Name(n - 1))], n, n - 1);
      } else {
        PassInstr(p, 8, n - 1);
      }
    }
  }

  lemma ProgramNext(n: nat)
    ensures Program(n + 1) == (if n < 8 then Program(n) + [P1.Label(Name(n))] else Program(n)) + [InstrAt(n)]
  {
    hide InstrAt, Name;
    assert Program(n) + [] == Program(n);
  }

  lemma NothingPassed()
    ensures Passed(Program(0), 0, 0)
  {
    EmptyPass();
  }

  lemma LabelProper(k: nat)
    ensures P1.Proper(P1.Label(Name(k))) && forall at :: Adds(P1.Label(Name(k)), at) == 0
  {}

  lemma LabelsNext(syms: Symbols, n: nat, at: int)
    requires Labels(syms, n) && at == 4 * n
    ensures Labels(syms[Name(n) := at], n + 1)
  {
    hide Name;
    forall k: nat | k != n ensures Name(k) != Name(n) { NamesDiffer(k, n); }
  }

  // ------------------------------------------------- one round

  /** The compressed form of the k-th branch. */
  function BackChoice(k: nat, imm: int): Choice { Choice(C_BNEZ, FmtCB, 0, 8, 0, imm, Some(Name(k)), Boff) }

  /** After r rounds the addi and all but the first r branches are compressed. */
  predicate Compressed(r: nat, i: nat) { i == 64 || i >= 65 + r }

  predicate RoundEntry(e: Entry, r: nat, i: nat) {
    && InstrAt(i).Instr? && SameEntry(NodeOf(InstrAt(i), 4 * i), e) && (e.choice.Some? <==> Compressed(r, i))
    && (i == 64 ==> e.choice == Pick(C_ADDI, 9, 9, 0, 1))
    && (i >= 65 && e.choice.Some? ==> e.choice.value == BackChoice(i - 65, e.choice.value.imm))
  }

  predicate AfterRound(p: seq<Entry>, r: nat) {
    |p| == 73 && forall i :: 0 <= i < 73 ==> RoundEntry(p[i], r, i)
  }

  /** The address of the i-th instruction in the layout of the round after that. */
  function AddrOf(r: nat, i: nat): int {
    if i <= 64 then 4 * i else 258 + 2 * (i - 65) + 2 * (if r < i - 65 then r else i - 65)
  }

  function PcFrom(nodes: seq<Entry>, pc: int, i: nat): int
    requires i <= |nodes|
  {
    if i == 0 then pc else PcFrom(nodes[1..], NextPc(nodes[0], pc), i - 1)
  }

  lemma {:induction false} PcNext(nodes: seq<Entry>, pc: int, i: nat)
    requires i < |nodes|
    ensures PcFrom(nodes, pc, i + 1) == NextPc(nodes[i], PcFrom(nodes, pc, i))
    decreases i
  {
    hide NextPc;
    if i > 0 { PcNext(nodes[1..], NextPc(nodes[0], pc), i - 1); }
  }

  lemma {:induction false} AssignAt(nodes: seq<Entry>, pc: int, i: nat)
    requires i < |nodes| && forall j :: 0 <= j < |nodes| ==> nodes[j].sect == Text
    ensures Assign(nodes, Text, pc)[i] == AssignOne(nodes[i], PcFrom(nodes, pc, i))
    decreases i
  {
    hide AssignOne, NextPc;
    if i > 0 { AssignAt(nodes[1..], NextPc(nodes[0], pc), i - 1); }
  }

  lemma EntrySize(e: Entry, r: nat, i: nat)
    requires RoundEntry(e, r, i)
    ensures e.kind == KInstr && e.sect == Text && SizeNow(e) == if Compressed(r, i) then 2 else 4
  {
    InstrProper(i);
    hide InstrAt, FmtOf;
    NodeFlags(InstrAt(i), 4 * i);
  }

  lemma NodeFlags(i: P1.Item, addr: int)
    requires i.Instr? && i.op.Base?
    ensures NodeOf(i, addr).forced == SizeAuto && NodeOf(i, addr).canCompress && NodeOf(i, addr).choice.None?
    ensures NodeOf(i, addr).kind == KInstr && NodeOf(i, addr).sect == Text
  {}

  lemma {:induction false} PcIs(p: seq<Entry>, r: nat, i: nat)
    requires AfterRound(p, r) && r <= 8 && i <= 73
    ensures PcFrom(p, 0, i) == AddrOf(r, i)
    decreases i
  {
    hide RoundEntry, PcFrom, SizeNow;
    if i > 0 {
      PcIs(p, r, i - 1);
      PcNext(p, 0, i - 1);
      EntrySize(p[i - 1], r, i - 1);
    } else {
      assert PcFrom(p, 0, 0) == 0 by { NoPc(p); }
    }
  }

  lemma NoPc(p: seq<Entry>)
    ensures PcFrom(p, 0, 0) == 0
  {}

  lemma LaidEntry(p: seq<Entry>, r: nat, i: nat)
    requires AfterRound(p, r) && r <= 8 && i < 73
    ensures var e := Assign(p, Text, 0)[i];
            RoundEntry(e, r, i) && e == p[i].(addr := AddrOf(r, i), size := if Compressed(r, i) then 2 else 4)
  {
    hide RoundEntry, Assign, SizeNow;
    forall j | 0 <= j < 73 ensures p[j].sect == Text { EntrySize(p[j], r, j); }
    AssignAt(p, 0, i);
    PcIs(p, r, i);
    EntrySize(p[i], r, i);
    Relaid(p[i], r, i, AddrOf(r, i), if Compressed(r, i) then 2 else 4);
  }

  lemma Relaid(e: Entry, r: nat, i: nat, addr: int, size: int)
    requires RoundEntry(e, r, i)
    ensures RoundEntry(e.(addr := addr, size := size), r, i)
  {
    EntrySize(e, r, i);
    InstrProper(i);
    hide InstrAt;
    NodeFlags(InstrAt(i), 4 * i);
  }

  /** From branch k, in that layout, to its label: one step too far exactly for k == r. */
  lemma Distance(r: nat, k: nat)
    requires r <= k < 8
    ensures RangeOk(C_BNEZ, 4 * k - AddrOf(r, 65 + k)) <==> k > r
  {}

  lemma CheckedEntry(syms: Symbols, e: Entry, r: nat, i: nat)
    requires RoundEntry(e, r, i) && e.addr == AddrOf(r, i) && r < 8 && i < 73 && Labels(syms, 8)
    ensures RoundEntry(ValidateOne(syms, e), r + 1, i)
  {
    InstrProper(i);
    hide InstrAt, NodeOf, Name, U32, I32;
    if i >= 65 + r {
      var k := i - 65;
      assert Name(k) in syms && syms[Name(k)] == 4 * k;
      NameNotEmpty(k);
      Near(e.addr, 4 * k);
      Distance(r, k);
      hide RangeOk, Disp, AddrOf;
    }
  }

  lemma NameNotEmpty(k: nat)
    ensures Name(k) != ""
  {
    assert |Name(k)| == k + 1;
  }

  lemma Near(from: int, to: int)
    requires 0 <= from < TWO31 && 0 <= to < TWO31
    ensures Disp(from, to) == to - from && U32(to) == to
  {}

  /** A round drops the next branch and nothing else. */
  lemma OneRound(syms: Symbols, p: seq<Entry>, r: nat)
    requires AfterRound(p, r) && r < 8 && Labels(syms, 8)
    ensures var laid := Assign(p, Text, 0);
            && AfterRound(Validate(CFG, syms, laid, Text), r + 1) && Changed(CFG, syms, laid, Text)
            && Validate(CFG, syms, laid, Text)[72].size == 2
            && forall i :: 65 <= i < 73 ==> Validate(CFG, syms, laid, Text)[i].addr == AddrOf(r, i)
  {
    hide RoundEntry, Assign, ValidateOne, Labels;
    var laid := Assign(p, Text, 0);
    var next := Validate(CFG, syms, laid, Text);
    forall i | 0 <= i < 73 ensures RoundEntry(next[i], r + 1, i) && next[i].addr == AddrOf(r, i) {
      LaidEntry(p, r, i);
      ValidateShape(CFG, syms, laid, Text, i);
      EntrySize(laid[i], r, i);
      CheckedEntry(syms, laid[i], r, i);
    }
    LaidEntry(p, r, 65 + r);
    assert RoundEntry(next[65 + r], r + 1, 65 + r);
    ChoiceIs(laid[65 + r], r, 65 + r);
    ChoiceIs(next[65 + r], r + 1, 65 + r);
    LaidEntry(p, r, 72);
    ValidateShape(CFG, syms, laid, Text, 72);
  }

  lemma ChoiceIs(e: Entry, r: nat, i: nat)
    requires RoundEntry(e, r, i)
    ensures e.choice.Some? <==> Compressed(r, i)
  {}

  /** The remaining rounds are all used up, and the last still drops a branch. */
  lemma {:induction false} AllRounds(syms: Symbols, p: seq<Entry>, r: nat)
    requires AfterRound(p, r) && r < 8 && Labels(syms, 8)
    ensures var (q, ok) := Relax(CFG, syms, p, Text, 8 - r);
            !ok && AfterRound(q, 8) && q[72].size == 2 && forall i :: 65 <= i < 73 ==> q[i].addr == AddrOf(7, i)
    decreases 8 - r
  {
    hide RoundEntry, Assign, Validate, Changed, Labels, AddrOf;
    OneRound(syms, p, r);
    var next := Validate(CFG, syms, Assign(p, Text, 0), Text);
    if r < 7 { AllRounds(syms, next, r + 1); }
  }

  // ------------------------------------------------- planning

  lemma UpperUnchosen(n: Entry)
    requires n.op == Base(LUI)
    ensures MapAddiSelf(n).None? && MapLi(n).None? && MapNop(n).None? && MapSlli(RV32, n).None? && MapShiftPrime(RV32, n).None?
    ensures MapAndiPrime(n).None? && MapMv(n).None? && MapAdd(n).None? && MapJr(n).None? && MapJalr(n).None? && MapEbreak(n).None?
  {
    hide Prime;
  }

  lemma UpperUnstored(n: Entry)
    requires n.op == Base(LUI)
    ensures MapCaAlu(n).None? && MapCawAlu(RV32, n).None? && MapLoad(RV32, n).None? && MapStore(n).None?
    ensures MapSpLoad(RV32, n).None? && MapSpStore(n).None? && MapBranch(n).None? && MapJump(RV32, n).None?
  {
    hide Prime;
  }

  lemma UpperStays(n: Entry)
    requires n.op == Base(LUI)
    ensures TryMap(RV32, n).None?
  {
    hide MapAddiSelf, MapLi, MapNop, MapSlli, MapShiftPrime, MapAndiPrime, MapMv, MapAdd, MapJr, MapJalr, MapEbreak, MapCaAlu, MapCawAlu,
      MapLoad, MapStore, MapSpLoad, MapSpStore, MapBranch, MapJump;
    UpperUnchosen(n);
    UpperUnstored(n);
  }

  lemma BackRule(n: Entry, k: nat)
    requires n.op == Base(BNE) && n.rs1 == 8 && n.rs2 == 0 && n.imm == 0 && n.target == Some(Name(k)) && n.reloc == Boff
    ensures MapBranch(n) == Some(BackChoice(k, 0))
  {
    hide Name;
  }

  lemma BackNode(k: nat, addr: int)
    ensures var n := NodeOf(Back(k), addr);
            && n.op == Base(BNE) && n.rs1 == 8 && n.rs2 == 0 && n.imm == 0 && n.target == Some(Name(k)) && n.reloc == Boff
            && CanAttempt(CFG, n)
  {
    hide Name;
  }

  lemma PlannedChoiceIs(i: nat)
    requires i < 73
    ensures InstrAt(i).Instr?
    ensures ChoiceOf(CFG, NodeOf(InstrAt(i), 4 * i)) ==
            if i < 64 then None else if i == 64 then Pick(C_ADDI, 9, 9, 0, 1) else Some(BackChoice(i - 65, 0))
  {
    InstrProper(i);
    hide TryMap, MapBranch, Name;
    var n := NodeOf(InstrAt(i), 4 * i);
    if i < 64 {
      UpperStays(n);
    } else if i == 64 {
      BumpRule(RV32, n);
    } else {
      BackNode(i - 65, 4 * i);
      hide NodeOf, CanAttempt;
      BackRule(n, i - 65);
      BranchRule(RV32, n);
    }
  }

  lemma PlannedEntry(nodes: seq<Entry>, i: nat)
    requires Entries(nodes, 73) && P1.RawAll(nodes) && i < 73
    ensures RoundEntry(Planned(CFG, nodes)[i], 0, i)
  {
    hide Assign, TryMap, InstrAt, NodeOf, P1.RawAll, ChoiceOf, PlanOne, Name;
    PlannedAt(CFG, nodes, i);
    PlannedChoiceIs(i);
    AssignStatic(nodes, Data, 0, i);
    InstrProper(i);
    NodeFlags(InstrAt(i), 4 * i);
  }

  /** Where planning starts from, nothing is dropped yet. */
  lemma PlannedRound(nodes: seq<Entry>)
    requires Entries(nodes, 73) && P1.RawAll(nodes)
    ensures AfterRound(Planned(CFG, nodes), 0)
  {
    hide RoundEntry, Planned, Entries, P1.RawAll;
    assert |nodes| == 73 by { EntryCount(nodes, 73); }
    forall i | 0 <= i < 73 ensures RoundEntry(Planned(CFG, nodes)[i], 0, i) { PlannedEntry(nodes, i); }
  }

  lemma EntryCount(nodes: seq<Entry>, n: nat)
    requires Entries(nodes, n)
    ensures |nodes| == n
  {}

  // ------------------------------------------------- the run

  lemma Prepared()
    ensures P1.AllProper(Program(73)) && |Final(CFG, Program(73))| == 73
    ensures var s, p := P1.After(Program(73)), Final(CFG, Program(73));
            && Labels(s.syms, 8) && !Converged(CFG, s.syms, s.nodes) && AfterRound(p, 8) && p[72].size == 2 && KeptAll(CFG, p)
            && AfterRound(Planned(CFG, s.nodes), 0) && forall i :: 65 <= i < 73 ==> p[i].addr == AddrOf(7, i)
  {
    hide AddrOf, Program, P1.After, Entries, Labels, Plan, Assign, Relax, RoundEntry, P1.RawAll, Len, KeptAll, P1.AllProper;
    PassOne(73);
    var s := P1.After(Program(73));
    P1.AfterRaw(Program(73));
    PlannedRound(s.nodes);
    AllRounds(s.syms, Planned(CFG, s.nodes), 0);
    EntryCount(s.nodes, 73);
    PassOneKept(CFG, Program(73));
    PrepareKeeps(CFG, s.syms, s.nodes);
  }

  lemma UpperEmits(e: Entry, i: nat, syms: Symbols)
    requires RoundEntry(e, 8, i) && Kept(CFG, e) && i <= 64
    ensures e.sect == Text && Chunk(CFG, syms, e).Some?
  {
    hide TryMap, ChoiceOf, Kept, NodeCode, Chunk, PlainItem;
    PlannedChoiceIs(i);
    var n := NodeOf(InstrAt(i), 4 * i);
    PlainHere(i);
    PlainEncodes(CFG, syms, InstrAt(i), 4 * i);
    NoTarget(CFG, InstrAt(i), 4 * i);
    EntryEmits(CFG, syms, n, e);
  }

  lemma PlainHere(i: nat)
    requires i <= 64
    ensures PlainItem(CFG, InstrAt(i))
  {}

  /** A branch that is not compressed is emitted in four bytes if its displacement fits. */
  lemma BackEmits(e: Entry, i: nat, syms: Symbols)
    requires RoundEntry(e, 8, i) && Kept(CFG, e) && 65 <= i < 73 && Labels(syms, 8)
    requires e.addr % 2 == 0 && 0 <= e.addr < 1000
    ensures e.sect == Text && e.kind == KInstr && WfInstr(e) && NodeCode(CFG, syms, e).Full?
  {
    hide Encode32.Encode, Name, Decode32.Representable, BaseFmt, TryMap;
    var k := i - 65;
    assert Name(k) in syms && syms[Name(k)] == 4 * k;
    BackNode(k, 4 * i);
    BackFits(syms, k, e.addr);
    hide Immediate;
    BranchAny();
    CFormats();
    Decode32.EncodeExact(CFG, BNE, e.rd, e.rs1, e.rs2, 4 * k - e.addr);
    hide IsCFmt;
  }

  lemma BackFits(syms: Symbols, k: nat, addr: int)
    requires k < 8 && Labels(syms, 8) && addr % 2 == 0 && 0 <= addr < 1000
    ensures Immediate(syms, Some(Name(k)), Boff, 0, addr) == Some(4 * k - addr)
    ensures Decode32.Representable(RV32, BNE, 4 * k - addr)
  {
    hide Name;
    assert Name(k) in syms && syms[Name(k)] == 4 * k;
  }

  lemma BranchAny()
    ensures Encode32.RequireForOp(CFG, BNE) && BaseFmt(BNE) == FmtB
  {}

  lemma {:induction false} LateTransfers(p: seq<Entry>, i: nat)
    requires AfterRound(p, 0) && i <= 73
    ensures Transfers(p[i..], Text) <= if i <= 65 then 8 else 73 - i
    decreases 73 - i
  {
    hide RoundEntry, Tentative;
    if i < 73 {
      LateTransfers(p, i + 1);
      assert p[i..][0] == p[i] && p[i..][1..] == p[i + 1..];
      if i < 65 { EarlyNotTentative(p[i], i); }
    }
  }

  lemma EarlyNotTentative(e: Entry, i: nat)
    requires RoundEntry(e, 0, i) && i < 65
    ensures !Tentative(e)
  {
    hide InstrAt, NodeOf;
  }

  lemma FinalEmits(p: seq<Entry>, syms: Symbols, i: nat)
    requires AfterRound(p, 8) && KeptAll(CFG, p) && Labels(syms, 8) && i < 73
    requires forall i :: 65 <= i < 73 ==> p[i].addr == AddrOf(7, i)
    ensures p[i].sect == Text && (p[i].kind == KInstr ==> WfInstr(p[i])) && Chunk(CFG, syms, p[i]).Some?
    ensures i >= 65 ==> p[i].kind == KInstr && NodeCode(CFG, syms, p[i]).Full?
  {
    assert RoundEntry(p[i], 8, i) && Kept(CFG, p[i]);
    if i <= 64 {
      hide RoundEntry, NodeCode, KeptAll, Labels, WfInstr;
      UpperEmits(p[i], i, syms);
    } else {
      hide RoundEntry, NodeCode, Labels, KeptAll, WfInstr;
      BackEmits(p[i], i, syms);
    }
  }

  /** The program assembles although relaxation has not converged: with eight compressed
      branches, the fewest that can do it, the last branch is laid out in two bytes and
      emitted in four. */
  lemma EightTooFew()
    ensures P1.AllProper(Program(73)) && |Final(CFG, Program(73))| == 73 && Assemble(CFG, Elf, Program(73)).1
    ensures var s, p := P1.After(Program(73)), Final(CFG, Program(73));
            && Transfers(Planned(CFG, s.nodes), Text) == 8 && !Converged(CFG, s.syms, s.nodes) && !Settled(p, Text, 0)
            && p[72].kind == KInstr && p[72].size == 2 && NodeCode(CFG, s.syms, p[72]).Full?
  {
    hide Program, P1.After, Entries, Labels, Final, AfterRound, KeptAll, P1.AllProper, NodeCode, Chunk, WfInstr, Settled, EmitAll, Planned,
      Transfers, Converged, AddrOf;
    Prepared();
    var s, p := P1.After(Program(73)), Final(CFG, Program(73));
    forall i | 0 <= i < 73
      ensures p[i].sect == Text && (p[i].kind == KInstr ==> WfInstr(p[i])) && Chunk(CFG, s.syms, p[i]).Some?
    {
      FinalEmits(p, s.syms, i);
    }
    FinalEmits(p, s.syms, 72);
    EmitAllExact(CFG, s.syms, p, Start(Elf));
    LateTransfers(Planned(CFG, s.nodes), 0);
    assert Planned(CFG, s.nodes)[0..] == Planned(CFG, s.nodes);
    if Transfers(Planned(CFG, s.nodes), Text) < 8 { ConvergesIfFew(CFG, s.syms, s.nodes); }
    PassOneKept(CFG, Program(73));
    SettledExactly(CFG, s.syms, s.nodes);
    assert p == Prepare(CFG, s.syms, s.nodes) by { FinalIs(Program(73)); }
  }

  lemma FinalIs(items: seq<P1.Item>)
    requires P1.AllProper(items)
    ensures Final(CFG, items) == Prepare(CFG, P1.After(items).syms, P1.After(items).nodes)
  {
    hide P1.After, Prepare;
  }
}
