/** Branches and jumps by a number under automatic compression: compression does not adjust
    them, so each keeps its destination only if nothing on the way is compressed. */
module Branches {
  import opened Isa
  import opened Bits
  import opened Ir
  import opened Bytes
  import opened Out
  import opened Layout
  import opened Emit
  import opened Survive
  import opened Agree
  import opened Disasm
  import opened Whole
  import opened Programs
  import opened Straight
  import opened Lockstep
  import Compress
  import CRules
  import Machine
  import P1 = Pass1

  /** The text instructions of an entry list. */
  function Instrs(a: seq<Entry>): seq<Entry> {
    if a == [] then [] else (if InText(a[0]) then [a[0]] else []) + Instrs(a[1..])
  }

  lemma InstrsStep(a: seq<Entry>)
    requires a != []
    ensures !InText(a[0]) ==> Instrs(a) == Instrs(a[1..])
    ensures InText(a[0]) ==> Instrs(a) != [] && Instrs(a)[0] == a[0] && Instrs(a)[1..] == Instrs(a[1..])
  {
    hide InText;
    assert [] + Instrs(a[1..]) == Instrs(a[1..]);
  }

  lemma {:induction false} InstrsCode(cfg: Config, a: seq<Entry>, k: nat)
    requires k < |Instrs(a)|
    ensures |SourceCode(cfg, a)| == |Instrs(a)| && InText(Instrs(a)[k]) && Instrs(a)[k] in a
    ensures SourceCode(cfg, a)[k] == Machine.Placed(Plain(Instrs(a)[k]), SizeIn(cfg, Instrs(a)[k]))
    decreases |a|
  {
    hide SourceCode, Plain, SizeIn, InText;
    InstrsStep(a);
    CodeStep(cfg, a);
    if !InText(a[0]) {
      InstrsCode(cfg, a[1..], k);
    } else {
      InstrsLength(cfg, a[1..]);
      if k > 0 { InstrsCode(cfg, a[1..], k - 1); }
    }
  }

  lemma {:induction false} InstrsLength(cfg: Config, a: seq<Entry>)
    ensures |SourceCode(cfg, a)| == |Instrs(a)|
    decreases |a|
  {
    hide Plain, SizeIn, InText;
    if a != [] {
      InstrsStep(a);
      CodeStep(cfg, a);
      InstrsLength(cfg, a[1..]);
    }
  }

  // ------------------------------------------------- what is compressed on the way

  /** None of the instructions from i to j, or from j to i, the last one excluded, is compressed. */
  predicate NoneChosen(cfg: Config, es: seq<Entry>, i: nat, j: nat)
    requires i <= |es| && j <= |es|
  {
    forall k :: 0 <= k < |es| && (i <= k < j || j <= k < i) ==> !Chosen(cfg, es[k])
  }

  /** How many of the first k instructions are compressed. */
  function ChosenAmong(cfg: Config, es: seq<Entry>, k: nat): nat
    requires k <= |es|
  {
    if k == 0 then 0 else ChosenAmong(cfg, es, k - 1) + (if Chosen(cfg, es[k - 1]) then 1 else 0)
  }

  lemma {:induction false} NoneBetween(cfg: Config, es: seq<Entry>, i: nat, j: nat)
    requires i <= j <= |es|
    ensures ChosenAmong(cfg, es, i) <= ChosenAmong(cfg, es, j)
    ensures ChosenAmong(cfg, es, i) == ChosenAmong(cfg, es, j) <==> NoneChosen(cfg, es, i, j)
    decreases j
  {
    hide Chosen;
    if i < j { NoneBetween(cfg, es, i, j - 1); }
  }

  lemma NoneExact(cfg: Config, es: seq<Entry>, i: nat, j: nat)
    requires i <= |es| && j <= |es|
    ensures NoneChosen(cfg, es, i, j) <==> ChosenAmong(cfg, es, i) == ChosenAmong(cfg, es, j)
  {
    hide Chosen, ChosenAmong;
    if i <= j { NoneBetween(cfg, es, i, j); } else { NoneBetween(cfg, es, j, i); }
  }

  /** An instruction has moved by two bytes for each compressed one before it. */
  lemma {:induction false} ShiftIsChosen(cfg: Config, a: seq<Entry>, k: nat)
    requires k <= |Instrs(a)|
    ensures |SourceCode(cfg, a)| == |SourceCode(Off(cfg), a)| == |Instrs(a)|
    ensures Shift(SourceCode(cfg, a), SourceCode(Off(cfg), a), k) == 2 * ChosenAmong(cfg, Instrs(a), k)
    decreases k
  {
    hide SourceCode, Plain, Chosen, InText, Instrs;
    InstrsLength(cfg, a);
    InstrsLength(Off(cfg), a);
    if k > 0 {
      hide Machine.Span;
      ShiftIsChosen(cfg, a, k - 1);
      InstrsCode(cfg, a, k - 1);
      InstrsCode(Off(cfg), a, k - 1);
      ChosenInText(cfg, Instrs(a)[k - 1]);
      SpanNext(SourceCode(cfg, a), k - 1);
      SpanNext(SourceCode(Off(cfg), a), k - 1);
    }
  }

  /** A displacement that leads from one instruction to another in the plain text, forward or
      backward, leads from the same to the same in the compressed text exactly when no
      instruction on the way is compressed (the transfer itself counts when it goes forward). */
  lemma DestinationKept(cfg: Config, a: seq<Entry>, i: nat, j: nat, imm: int)
    requires i <= |Instrs(a)| && j <= |Instrs(a)|
    ensures |SourceCode(cfg, a)| == |SourceCode(Off(cfg), a)| == |Instrs(a)|
    ensures var c, d := SourceCode(cfg, a), SourceCode(Off(cfg), a);
            Machine.Span(d, i) + imm == Machine.Span(d, j) ==>
              (Machine.Span(c, i) + imm == Machine.Span(c, j) <==> NoneChosen(cfg, Instrs(a), i, j))
  {
    hide SourceCode, Instrs, Machine.Span, ChosenAmong, NoneChosen;
    ShiftIsChosen(cfg, a, i);
    ShiftIsChosen(cfg, a, j);
    NoneExact(cfg, Instrs(a), i, j);
  }

  // ------------------------------------------------- the two texts

  lemma {:induction false} CodeSized(cfg: Config, a: seq<Entry>)
    ensures Sized(SourceCode(cfg, a)) && forall k :: 0 <= k < |SourceCode(cfg, a)| ==> SourceCode(cfg, a)[k].size <= 4
    decreases |a|
  {
    hide Plain, SourceCode, InText;
    if a == [] {
      NoCode(cfg);
    } else {
      CodeSized(cfg, a[1..]);
      CodeStep(cfg, a);
      OneSized(cfg, a[0]);
      var c := SourceCode(cfg, a);
      if InText(a[0]) { assert forall k :: 0 < k < |c| ==> c[k] == c[1..][k - 1]; }
    }
  }

  lemma OneSized(cfg: Config, e: Entry)
    ensures InText(e) ==> 0 < SizeIn(cfg, e) <= 4
  {
    hide CRules.TryMap, Compress.BaseMeaning, Compress.ChoiceMeaning;
    Compress.RulesKeepMeaning(cfg.xlen, e);
  }

  lemma TextShort(cfg: Config, fmt: OutFormat, items: seq<P1.Item>)
    requires Good(cfg, fmt, items)
    ensures AllEmittable(cfg, P1.After(items).syms, Final(cfg, items)) && |TextOf(cfg, items)| < TWO31
  {
    hide P1.After, Final, AllEmittable, SectBytes, Total, Settled, TextIsCode, Checked, DataFirst, SameProgram, KeptAll;
    GoodRun(cfg, fmt, items);
    BytesTotal(cfg, P1.After(items).syms, Final(cfg, items), Text, 0);
  }

  lemma NotWider(cfg: Config, a: seq<Entry>)
    ensures |SourceCode(cfg, a)| == |SourceCode(Off(cfg), a)| == |Instrs(a)|
    ensures forall k :: 0 <= k < |Instrs(a)| ==> SourceCode(cfg, a)[k].size <= SourceCode(Off(cfg), a)[k].size
  {
    hide SourceCode, Plain, Chosen, Instrs, InText;
    InstrsLength(cfg, a);
    InstrsLength(Off(cfg), a);
    forall k | 0 <= k < |Instrs(a)| ensures SourceCode(cfg, a)[k].size <= SourceCode(Off(cfg), a)[k].size {
      InstrsCode(cfg, a, k);
      InstrsCode(Off(cfg), a, k);
      ChosenInText(cfg, Instrs(a)[k]);
    }
  }

  lemma OffForms(cfg: Config, items: seq<P1.Item>)
    requires P1.AllProper(items) && FormsRight(cfg, P1.After(items).nodes)
    ensures FormsRight(Off(cfg), P1.After(items).nodes)
  {
    hide P1.After, FormRight, P1.Raw;
    var a := P1.After(items).nodes;
    P1.AfterRaw(items);
    forall e | e in a && InText(e) ensures FormRight(Off(cfg), e) {
      var i :| 0 <= i < |a| && a[i] == e;
      assert P1.Raw(a[i]);
      OffForm(cfg, e);
    }
  }

  /** Both runs succeed, and both texts hold the source's instructions. */
  lemma BothHold(cfg: Config, fmt: OutFormat, items: seq<P1.Item>)
    requires Good(Off(cfg), fmt, items) && Unlabelled(P1.After(items).nodes) && FormsRight(cfg, P1.After(items).nodes)
    ensures Good(cfg, fmt, items)
    ensures AllEmittable(cfg, P1.After(items).syms, Final(cfg, items))
    ensures AllEmittable(Off(cfg), P1.After(items).syms, Final(Off(cfg), items))
    ensures var a := P1.After(items).nodes;
            && Holds(cfg.xlen, TextOf(cfg, items), SourceCode(cfg, a)) && Holds(cfg.xlen, TextOf(Off(cfg), items), SourceCode(Off(cfg), a))
            && Wider(SourceCode(cfg, a), SourceCode(Off(cfg), a))
  {
    hide P1.After, Final, AllEmittable, SectBytes, Unlabelled, FormsRight, SourceCode, Machine.Loaded, Machine.Span, Machine.SameInsns,
      Sized, Assemble, Instrs;
    var a := P1.After(items).nodes;
    SameSuccess(cfg, fmt, items);
    OffForms(cfg, items);
    TextLoaded(cfg, fmt, items);
    TextLoaded(Off(cfg), fmt, items);
    TextShort(Off(cfg), fmt, items);
    TwiceCode(cfg, a);
    NotWider(cfg, a);
    CodeSized(cfg, a);
    CodeSized(Off(cfg), a);
  }

  /** A branch that is taken, or a jump, by a number, in the emitted bytes: where the plain text
      goes to some instruction, the compressed text goes to that instruction exactly when nothing
      on the way is compressed. */
  lemma TransferLands(core: Machine.Core, base: int, cfg: Config, fmt: OutFormat, items: seq<P1.Item>, i: nat, j: nat,
                      s: Machine.State, t: Machine.State)
    requires Good(Off(cfg), fmt, items) && Unlabelled(P1.After(items).nodes) && FormsRight(cfg, P1.After(items).nodes)
    requires i < |Instrs(P1.After(items).nodes)| && j <= |Instrs(P1.After(items).nodes)|
    requires |SourceCode(cfg, P1.After(items).nodes)| == |SourceCode(Off(cfg), P1.After(items).nodes)| == |Instrs(P1.After(items).nodes)|
    requires var a := P1.After(items).nodes;
             var c, d, insn := SourceCode(cfg, a), SourceCode(Off(cfg), a), Plain(Instrs(a)[i]);
             && Departs(core, insn, s) && s.regs == t.regs && s.pc == Machine.Span(d, i) && t.pc == Machine.Span(c, i)
             && Machine.Span(d, i) + insn.imm == Machine.Span(d, j)
    ensures Good(cfg, fmt, items)
    ensures AllEmittable(cfg, P1.After(items).syms, Final(cfg, items))
    ensures AllEmittable(Off(cfg), P1.After(items).syms, Final(Off(cfg), items))
    ensures var a := P1.After(items).nodes;
            var c, d, insn := SourceCode(cfg, a), SourceCode(Off(cfg), a), Plain(Instrs(a)[i]);
            var m, n := SizeIn(cfg, Instrs(a)[i]), SizeIn(Off(cfg), Instrs(a)[i]);
            && Machine.Fetch(cfg.xlen, TextOf(cfg, items), t.pc) == Some((insn, m))
            && Machine.Fetch(cfg.xlen, TextOf(Off(cfg), items), s.pc) == Some((insn, n))
            && Machine.Step(core, cfg.xlen, base, insn, n, s).pc == Machine.Span(d, j)
            && (Machine.Step(core, cfg.xlen, base, insn, m, t).pc == Machine.Span(c, j) <==> NoneChosen(cfg, Instrs(a), i, j))
  {
    hide P1.After, Final, AllEmittable, SectBytes, Unlabelled, FormsRight, SourceCode, Machine.Span, Assemble, Instrs, Good, Holds, Wider,
      Plain, SizeIn, Machine.Fetch, Machine.Step, NoneChosen, InText, TextOf;
    GoodProper(Off(cfg), fmt, items);
    var a := P1.After(items).nodes;
    var c, d, insn := SourceCode(cfg, a), SourceCode(Off(cfg), a), Plain(Instrs(a)[i]);
    BothHold(cfg, fmt, items);
    InstrsCode(cfg, a, i);
    InstrsCode(Off(cfg), a, i);
    FetchAt(cfg.xlen, TextOf(cfg, items), c, t.pc, i);
    FetchAt(cfg.xlen, TextOf(Off(cfg), items), d, s.pc, i);
    StepPc(core, cfg.xlen, base, insn, SizeIn(cfg, Instrs(a)[i]), t);
    StepPc(core, cfg.xlen, base, insn, SizeIn(Off(cfg), Instrs(a)[i]), s);
    DestinationKept(cfg, a, i, j, insn.imm);
  }

  // ------------------------------------------------- whole runs

  /** Executed in s, instruction i of the source meets nothing compressed: before it if it reads
      the counter, up to its end if it links, on its way if it branches or jumps, and before its
      destination if that is an address. */
  predicate Undisturbed(core: Machine.Core, base: int, cfg: Config, a: seq<Entry>, i: nat, s: Machine.State)
    requires i < |Instrs(a)| == |SourceCode(Off(cfg), a)|
  {
    var es, d := Instrs(a), SourceCode(Off(cfg), a);
    var insn := Plain(es[i]);
    var j := IndexOf(d, Machine.Step(core, cfg.xlen, base, insn, d[i].size, s).pc);
    && j.Some?
    && (Machine.ReadsPc(insn) ==> NoneChosen(cfg, es, 0, i))
    && (Links(insn) ==> NoneChosen(cfg, es, 0, i + 1))
    && (insn.op == JALR ==> NoneChosen(cfg, es, 0, j.value))
    && (Departs(core, insn, s) ==> NoneChosen(cfg, es, i, j.value))
  }

  lemma ShiftNone(cfg: Config, a: seq<Entry>, i: nat, j: nat)
    requires i <= |Instrs(a)| && j <= |Instrs(a)|
    ensures |SourceCode(cfg, a)| == |SourceCode(Off(cfg), a)| == |Instrs(a)|
    ensures var c, d := SourceCode(cfg, a), SourceCode(Off(cfg), a);
            Shift(c, d, i) == Shift(c, d, j) <==> NoneChosen(cfg, Instrs(a), i, j)
  {
    hide SourceCode, Instrs, Machine.Span, NoneChosen, ChosenAmong, Shift;
    ShiftIsChosen(cfg, a, i);
    ShiftIsChosen(cfg, a, j);
    NoneExact(cfg, Instrs(a), i, j);
  }

  lemma NoShift(c: seq<Machine.Placed>, d: seq<Machine.Placed>)
    ensures Shift(c, d, 0) == 0
  {}

  lemma SteadyExact(core: Machine.Core, base: int, cfg: Config, a: seq<Entry>, i: nat, s: Machine.State)
    requires i < |Instrs(a)| == |SourceCode(Off(cfg), a)| == |SourceCode(cfg, a)|
    ensures Steady(core, cfg.xlen, base, SourceCode(cfg, a), SourceCode(Off(cfg), a), i, s) <==> Undisturbed(core, base, cfg, a, i, s)
  {
    hide SourceCode, Instrs, Machine.Span, NoneChosen, Shift, Machine.Step, IndexOf, Plain, SizeIn, InText, Links, Machine.ReadsPc, Departs;
    var c, d := SourceCode(cfg, a), SourceCode(Off(cfg), a);
    NoShift(c, d);
    InstrsCode(Off(cfg), a, i);
    var j := IndexOf(d, Machine.Step(core, cfg.xlen, base, d[i].insn, d[i].size, s).pc);
    ShiftNone(cfg, a, 0, i);
    ShiftNone(cfg, a, 0, i + 1);
    if j.Some? {
      ShiftNone(cfg, a, 0, j.value);
      ShiftNone(cfg, a, i, j.value);
    }
  }

  /** So is every instruction the plain text executes among the first n from s. */
  predicate UndisturbedRun(core: Machine.Core, base: int, cfg: Config, a: seq<Entry>, s: Machine.State, n: nat)
    requires |Instrs(a)| == |SourceCode(Off(cfg), a)|
    decreases n
  {
    var d := SourceCode(Off(cfg), a);
    var i := IndexOf(d, s.pc);
    n == 0 || i.None? || i.value == |d| ||
    (Undisturbed(core, base, cfg, a, i.value, s) &&
     UndisturbedRun(core, base, cfg, a, Machine.Step(core, cfg.xlen, base, d[i.value].insn, d[i.value].size, s), n - 1))
  }

  lemma {:induction false} RunExact(core: Machine.Core, base: int, cfg: Config, a: seq<Entry>, s: Machine.State, n: nat)
    requires |Instrs(a)| == |SourceCode(Off(cfg), a)| == |SourceCode(cfg, a)|
    ensures SteadyRun(core, cfg.xlen, base, SourceCode(cfg, a), SourceCode(Off(cfg), a), s, n) <==> UndisturbedRun(core, base, cfg, a, s, n)
    decreases n
  {
    hide SourceCode, Instrs, Steady, Undisturbed, Machine.Step, IndexOf;
    var d := SourceCode(Off(cfg), a);
    var i := IndexOf(d, s.pc);
    if n > 0 && i.Some? && i.value < |d| {
      SteadyExact(core, base, cfg, a, i.value, s);
      RunExact(core, base, cfg, a, Machine.Step(core, cfg.xlen, base, d[i.value].insn, d[i.value].size, s), n - 1);
    }
  }

  lemma StartInStep(c: seq<Machine.Placed>, d: seq<Machine.Placed>, s: Machine.State)
    requires Wider(c, d) && s.pc == 0
    ensures InStep(c, d, s, s)
  {
    hide IndexOf, Machine.SameInsns, Sized;
    assert Machine.Span(c, 0) == 0 && Machine.Span(d, 0) == 0;
    IndexExact(c, 0, 0);
    IndexExact(d, 0, 0);
  }

  /** Text without labels, branches and jumps and all: with and without compression it runs from
      its first byte in step (at the same source instruction, with the same registers and
      memory, or stopped alike) for n instructions exactly when nothing compressed disturbs an
      instruction that is executed. */
  lemma RunsInStepExactly(core: Machine.Core, base: int, cfg: Config, fmt: OutFormat, items: seq<P1.Item>, s: Machine.State, n: nat)
    requires Good(Off(cfg), fmt, items) && Unlabelled(P1.After(items).nodes) && FormsRight(cfg, P1.After(items).nodes) && s.pc == 0
    ensures Good(cfg, fmt, items)
    ensures AllEmittable(cfg, P1.After(items).syms, Final(cfg, items))
    ensures AllEmittable(Off(cfg), P1.After(items).syms, Final(Off(cfg), items))
    ensures var a, b, b' := P1.After(items).nodes, TextOf(cfg, items), TextOf(Off(cfg), items);
            && |Instrs(a)| == |SourceCode(Off(cfg), a)|
            && ((forall k :: 0 <= k <= n ==>
                   Lockstep.Together(core, cfg.xlen, base, b, b', SourceCode(cfg, a), SourceCode(Off(cfg), a), s, s, k)) <==>
                UndisturbedRun(core, base, cfg, a, s, n))
  {
    hide P1.After, Final, AllEmittable, SectBytes, Unlabelled, FormsRight, SourceCode, Assemble, Instrs, Good, Holds, Wider, InStep,
      Lockstep.Together, SteadyRun, UndisturbedRun, TextOf;
    GoodProper(Off(cfg), fmt, items);
    var a := P1.After(items).nodes;
    BothHold(cfg, fmt, items);
    NotWider(cfg, a);
    StartInStep(SourceCode(cfg, a), SourceCode(Off(cfg), a), s);
    RunsTogether(core, cfg.xlen, base, TextOf(cfg, items), TextOf(Off(cfg), items), SourceCode(cfg, a), SourceCode(Off(cfg), a), s, s, n);
    RunExact(core, base, cfg, a, s, n);
  }

  /** A condition on the source alone: no JALR, nothing compressed before an AUIPC or up to a
      jump that links, and every branch or jump leads, in the plain text, to an instruction with
      nothing compressed on the way. */
  predicate Unmoved(cfg: Config, a: seq<Entry>)
    requires |Instrs(a)| == |SourceCode(Off(cfg), a)|
  {
    forall i :: 0 <= i < |Instrs(a)| ==> StaysPut(cfg, a, i)
  }

  predicate StaysPut(cfg: Config, a: seq<Entry>, i: nat)
    requires i < |Instrs(a)| == |SourceCode(Off(cfg), a)|
  {
    var es, d := Instrs(a), SourceCode(Off(cfg), a);
    var insn := Plain(es[i]);
    var j := IndexOf(d, Machine.Span(d, i) + insn.imm);
    && insn.op != JALR
    && (Machine.ReadsPc(insn) ==> NoneChosen(cfg, es, 0, i))
    && (Links(insn) ==> NoneChosen(cfg, es, 0, i + 1))
    && (BaseFmt(insn.op).FmtB? || BaseFmt(insn.op).FmtJ? ==> j.Some? && NoneChosen(cfg, es, i, j.value))
  }

  lemma PutUndisturbed(core: Machine.Core, base: int, cfg: Config, a: seq<Entry>, i: nat, s: Machine.State)
    requires i < |Instrs(a)| == |SourceCode(Off(cfg), a)| && StaysPut(cfg, a, i) && s.pc == Machine.Span(SourceCode(Off(cfg), a), i)
    ensures Undisturbed(core, base, cfg, a, i, s)
  {
    hide SourceCode, Instrs, Machine.Span, NoneChosen, Machine.Step, IndexOf, Plain, SizeIn, InText, Links, Machine.ReadsPc, BaseFmt, Sized;
    var d := SourceCode(Off(cfg), a);
    InstrsCode(Off(cfg), a, i);
    StepPc(core, cfg.xlen, base, Plain(Instrs(a)[i]), d[i].size, s);
    SpanNext(d, i);
    CodeSized(Off(cfg), a);
    IndexExact(d, Machine.Span(d, i + 1), i + 1);
  }

  lemma {:induction false} UnmovedRun(core: Machine.Core, base: int, cfg: Config, a: seq<Entry>, s: Machine.State, n: nat)
    requires |Instrs(a)| == |SourceCode(Off(cfg), a)| && Unmoved(cfg, a)
    ensures UndisturbedRun(core, base, cfg, a, s, n)
    decreases n
  {
    hide SourceCode, Instrs, Undisturbed, Machine.Step, IndexOf, StaysPut;
    var d := SourceCode(Off(cfg), a);
    var i := IndexOf(d, s.pc);
    if n > 0 && i.Some? && i.value < |d| {
      assert StaysPut(cfg, a, i.value);
      PutUndisturbed(core, base, cfg, a, i.value, s);
      UnmovedRun(core, base, cfg, a, Machine.Step(core, cfg.xlen, base, d[i.value].insn, d[i.value].size, s), n - 1);
    }
  }

  /** Under that condition the two texts run in step for ever. */
  lemma RunsInStep(core: Machine.Core, base: int, cfg: Config, fmt: OutFormat, items: seq<P1.Item>, s: Machine.State, n: nat)
    requires Good(Off(cfg), fmt, items) && Unlabelled(P1.After(items).nodes) && FormsRight(cfg, P1.After(items).nodes) && s.pc == 0
    requires |Instrs(P1.After(items).nodes)| == |SourceCode(Off(cfg), P1.After(items).nodes)| && Unmoved(cfg, P1.After(items).nodes)
    ensures Good(cfg, fmt, items)
    ensures AllEmittable(cfg, P1.After(items).syms, Final(cfg, items))
    ensures AllEmittable(Off(cfg), P1.After(items).syms, Final(Off(cfg), items))
    ensures var a := P1.After(items).nodes;
            Lockstep.Together(core, cfg.xlen, base, TextOf(cfg, items), TextOf(Off(cfg), items), SourceCode(cfg, a), SourceCode(Off(cfg), a), s, s, n)
  {
    hide P1.After, Final, AllEmittable, SectBytes, Unlabelled, FormsRight, SourceCode, Assemble, Instrs, Good, Lockstep.Together,
      UndisturbedRun, TextOf, Unmoved;
    GoodProper(Off(cfg), fmt, items);
    UnmovedRun(core, base, cfg, P1.After(items).nodes, s, n);
    RunsInStepExactly(core, base, cfg, fmt, items, s, n);
  }
}
