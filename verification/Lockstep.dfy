/** The same instructions at two sizes, with branches and jumps: which transfers keep their
    destination, and when the two codes run in step. */
module Lockstep {
  import opened Isa
  import opened Bits
  import opened Bytes
  import opened Machine

  // ------------------------------------------------- where instructions stand

  /** Every instruction takes some bytes. */
  predicate Sized(code: seq<Placed>) {
    forall i :: 0 <= i < |code| ==> code[i].size > 0
  }

  lemma {:induction false} SpanNext(code: seq<Placed>, n: nat)
    requires n < |code|
    ensures Span(code, n + 1) == Span(code, n) + code[n].size
    decreases n
  {
    if n > 0 { SpanNext(code[1..], n - 1); }
  }

  lemma {:induction false} SpanGrows(code: seq<Placed>, i: nat, j: nat)
    requires Sized(code) && i <= j <= |code|
    ensures Span(code, i) <= Span(code, j) && (i < j ==> Span(code, i) < Span(code, j))
    decreases j
  {
    hide Span;
    if i < j {
      SpanGrows(code, i, j - 1);
      SpanNext(code, j - 1);
    }
  }

  /** The instruction from k on that stands at pc; the end of the code counts as one. */
  function Find(code: seq<Placed>, pc: int, k: nat): (r: Option<nat>)
    requires k <= |code|
    ensures r.Some? ==> k <= r.value <= |code| && Span(code, r.value) == pc
    decreases |code| - k
  {
    if Span(code, k) == pc then Some(k) else if k == |code| then None else Find(code, pc, k + 1)
  }

  lemma {:induction false} FindFrom(code: seq<Placed>, i: nat, k: nat)
    requires Sized(code) && k <= i <= |code|
    ensures Find(code, Span(code, i), k) == Some(i)
    decreases i - k
  {
    hide Span;
    SpanGrows(code, k, i);
    if k < i { FindFrom(code, i, k + 1); }
  }

  function IndexOf(code: seq<Placed>, pc: int): (r: Option<nat>)
    ensures r.Some? ==> r.value <= |code| && Span(code, r.value) == pc
  {
    Find(code, pc, 0)
  }

  lemma IndexExact(code: seq<Placed>, pc: int, i: nat)
    requires Sized(code) && i <= |code|
    ensures IndexOf(code, pc) == Some(i) <==> Span(code, i) == pc
  {
    hide Span, Find;
    FindFrom(code, i, 0);
  }

  // ------------------------------------------------- two sizes

  /** d is c with no instruction smaller, and takes less than 4 GiB. */
  predicate Wider(c: seq<Placed>, d: seq<Placed>) {
    && SameInsns(c, d) && Sized(c) && Sized(d) && Span(d, |d|) < TWO32
    && forall i :: 0 <= i < |c| ==> c[i].size <= d[i].size
  }

  /** How far the k-th instruction has moved. */
  function Shift(c: seq<Placed>, d: seq<Placed>, k: nat): int
    requires k <= |c| && k <= |d|
  {
    Span(d, k) - Span(c, k)
  }

  lemma {:induction false} ShiftGrows(c: seq<Placed>, d: seq<Placed>, i: nat, j: nat)
    requires Wider(c, d) && i <= j <= |c|
    ensures Shift(c, d, i) <= Shift(c, d, j)
    decreases j
  {
    hide Span, Sized;
    if i < j {
      ShiftGrows(c, d, i, j - 1);
      SpanNext(c, j - 1);
      SpanNext(d, j - 1);
    }
  }

  lemma ShiftSmall(c: seq<Placed>, d: seq<Placed>, k: nat)
    requires Wider(c, d) && k <= |c|
    ensures 0 <= Shift(c, d, k) < TWO32
  {
    assert Span(c, 0) == 0 && Span(d, 0) == 0;
    hide Span, SameInsns;
    ShiftGrows(c, d, 0, k);
    SpanGrows(c, 0, k);
    SpanGrows(d, k, |d|);
  }

  /** A transfer by a number that leads from instruction i to instruction j in one code does so
      in the other exactly when both have moved alike. */
  lemma DestinationMoves(c: seq<Placed>, d: seq<Placed>, i: nat, j: nat, imm: int)
    requires i <= |c| == |d| && j <= |c| && Span(d, i) + imm == Span(d, j)
    ensures Span(c, i) + imm == Span(c, j) <==> Shift(c, d, i) == Shift(c, d, j)
  {}

  // ------------------------------------------------- one step

  /** Both machines stand at the same instruction with the same registers and memory. */
  predicate InStep(c: seq<Placed>, d: seq<Placed>, s: State, t: State) {
    Same(s, t) && IndexOf(d, s.pc).Some? && IndexOf(c, t.pc) == IndexOf(d, s.pc)
  }

  /** The instruction stores the address of the next one. */
  predicate Links(i: Insn) { (i.op == JAL || i.op == JALR) && i.rd != 0 }

  /** Control goes elsewhere by the instruction's own displacement. */
  predicate Departs(core: Core, i: Insn, s: State) {
    BaseFmt(i.op).FmtJ? || (BaseFmt(i.op).FmtB? && core.taken(i.op, Get(s.regs, i.rs1), Get(s.regs, i.rs2)))
  }

  /** What instruction i of d, executed in s, must find so that c follows: what it reads of the
      counter has not moved, and its destination has moved as far as it has itself, or not at
      all if the destination is an address. */
  predicate Steady(core: Core, xlen: Xlen, base: int, c: seq<Placed>, d: seq<Placed>, i: nat, s: State)
    requires i < |d| == |c|
  {
    var insn := d[i].insn;
    var j := IndexOf(d, Step(core, xlen, base, insn, d[i].size, s).pc);
    && j.Some?
    && (ReadsPc(insn) ==> Shift(c, d, i) == 0)
    && (Links(insn) ==> Shift(c, d, i + 1) == 0)
    && (insn.op == JALR ==> Shift(c, d, j.value) == 0)
    && (Departs(core, insn, s) ==> Shift(c, d, i) == Shift(c, d, j.value))
  }

  lemma JalFormat(op: BaseOp)
    ensures BaseFmt(op).FmtJ? <==> op == JAL
    ensures BaseFmt(JALR) == FmtI
  {}

  /** Where a step leads. */
  lemma StepPc(core: Core, xlen: Xlen, base: int, i: Insn, len: int, s: State)
    ensures var pc := Step(core, xlen, base, i, len, s).pc;
            if Departs(core, i, s) then pc == s.pc + i.imm
            else if i.op == JALR then
              var a := (Get(s.regs, i.rs1) + i.imm) % Modulus(xlen);
              pc == a - a % 2 - base
            else pc == s.pc + len
  {
    hide Set, Get, Modulus, BaseFmt;
    JalFormat(i.op);
  }

  lemma StepLinks(core: Core, xlen: Xlen, base: int, i: Insn, len: int, s: State)
    requires i.op == JAL || i.op == JALR
    ensures var r := Step(core, xlen, base, i, len, s); r.mem == s.mem && r.regs == Set(xlen, s.regs, i.rd, base + s.pc + len)
  {
    hide Set, Get, Modulus, IsLoad, BaseFmt;
    JalFormat(i.op);
  }

  lemma StepBranches(core: Core, xlen: Xlen, base: int, i: Insn, len: int, s: State)
    requires BaseFmt(i.op).FmtB?
    ensures var r := Step(core, xlen, base, i, len, s); r.mem == s.mem && r.regs == s.regs
  {
    hide Set, Get, Modulus, IsLoad, BaseFmt;
  }

  /** From equal registers and memory a step leaves them equal exactly when the counters it
      reads or stores agree. */
  lemma StepState(core: Core, xlen: Xlen, base: int, i: Insn, m: int, n: int, s: State, t: State)
    requires Same(s, t)
    ensures Same(Step(core, xlen, base, i, m, s), Step(core, xlen, base, i, n, t)) <==>
            (ReadsPc(i) ==> (s.pc - t.pc) % Modulus(xlen) == 0) && (Links(i) ==> (s.pc + m - t.pc - n) % Modulus(xlen) == 0)
  {
    hide Step, Modulus, BaseFmt;
    JalFormat(i.op);
    if i.op == JAL || i.op == JALR {
      StepLinks(core, xlen, base, i, m, s);
      StepLinks(core, xlen, base, i, n, t);
      if i.rd != 0 {
        SetEqual(xlen, s.regs, i.rd, base + s.pc + m, base + t.pc + n);
      }
    } else if BaseFmt(i.op).FmtB? {
      StepBranches(core, xlen, base, i, m, s);
      StepBranches(core, xlen, base, i, n, t);
      UpperFormat();
    } else {
      StepSame(core, xlen, base, i, m, n, s, t);
    }
  }

  lemma SmallShift(xlen: Xlen, n: int)
    requires 0 <= n < TWO32
    ensures n % Modulus(xlen) == 0 <==> n == 0
  {}

  /** One step keeps both machines in step exactly when it is steady. */
  lemma StepInStep(core: Core, xlen: Xlen, base: int, c: seq<Placed>, d: seq<Placed>, i: nat, s: State, t: State)
    requires Wider(c, d) && InStep(c, d, s, t) && i < |d| && IndexOf(d, s.pc) == Some(i)
    ensures InStep(c, d, Step(core, xlen, base, d[i].insn, d[i].size, s), Step(core, xlen, base, c[i].insn, c[i].size, t)) <==>
            Steady(core, xlen, base, c, d, i, s)
  {
    hide Step, IndexOf, Span, Modulus, Same, ReadsPc, Links, Set, Get, Sized, BaseFmt;
    var insn := d[i].insn;
    assert c[i].insn == insn && |c| == |d|;
    var s', t' := Step(core, xlen, base, insn, d[i].size, s), Step(core, xlen, base, insn, c[i].size, t);
    StepState(core, xlen, base, insn, d[i].size, c[i].size, s, t);
    StepPc(core, xlen, base, insn, d[i].size, s);
    StepPc(core, xlen, base, insn, c[i].size, t);
    SpanNext(c, i);
    SpanNext(d, i);
    ShiftSmall(c, d, i);
    ShiftSmall(c, d, i + 1);
    SmallShift(xlen, Shift(c, d, i));
    SmallShift(xlen, Shift(c, d, i + 1));
    IndexExact(d, s.pc, i);
    IndexExact(c, t.pc, i);
    SameTransfers(core, insn, s, t);
    var j := IndexOf(d, s'.pc);
    IndexExact(d, s'.pc, i + 1);
    if j.Some? {
      IndexExact(c, t'.pc, j.value);
      IndexExact(d, s'.pc, j.value);
    }
  }

  lemma SameTransfers(core: Core, i: Insn, s: State, t: State)
    requires Same(s, t)
    ensures Departs(core, i, s) <==> Departs(core, i, t)
    ensures Get(s.regs, i.rs1) == Get(t.regs, i.rs1)
    ensures Departs(core, i, s) ==> i.op != JALR
  {
    hide Get, BaseFmt;
    JalFormat(i.op);
  }

  // ------------------------------------------------- whole runs

  /** Every instruction executed among the first n from s is steady. */
  predicate SteadyRun(core: Core, xlen: Xlen, base: int, c: seq<Placed>, d: seq<Placed>, s: State, n: nat)
    requires |c| == |d|
    decreases n
  {
    var i := IndexOf(d, s.pc);
    n == 0 || i.None? || i.value == |d| ||
    (Steady(core, xlen, base, c, d, i.value, s) &&
     SteadyRun(core, xlen, base, c, d, Step(core, xlen, base, d[i.value].insn, d[i.value].size, s), n - 1))
  }

  /** After k instructions of the texts b and b' the machines are in step, or both have stopped. */
  predicate Together(core: Core, xlen: Xlen, base: int, b: seq<Byte>, b': seq<Byte>, c: seq<Placed>, d: seq<Placed>, s: State, t: State, k: nat) {
    match (Run(core, xlen, base, b', s, k), Run(core, xlen, base, b, t, k))
    case (Some(x), Some(y)) => InStep(c, d, x, y)
    case (None, None) => true
    case _ => false
  }

  /** The text holds this code and nothing else. */
  predicate Holds(xlen: Xlen, b: seq<Byte>, code: seq<Placed>) {
    Loaded(xlen, b, 0, code) && Span(code, |code|) == |b|
  }

  lemma FetchAt(xlen: Xlen, b: seq<Byte>, code: seq<Placed>, pc: int, i: nat)
    requires Holds(xlen, b, code) && i <= |code| && pc == Span(code, i)
    ensures Fetch(xlen, b, pc) == if i < |code| then Some((code[i].insn, code[i].size)) else None
  {
    hide Loaded, Span;
    if i < |code| {
      LoadedAt(xlen, b, 0, code, i);
    } else {
      hide Disasm.Read;
    }
  }

  lemma RunStep(core: Core, xlen: Xlen, base: int, b: seq<Byte>, code: seq<Placed>, s: State, i: nat, k: nat)
    requires Holds(xlen, b, code) && i <= |code| && s.pc == Span(code, i) && k > 0
    ensures Run(core, xlen, base, b, s, k) ==
            if i < |code| then Run(core, xlen, base, b, Step(core, xlen, base, code[i].insn, code[i].size, s), k - 1) else None
  {
    hide Holds, Span, Step, Fetch;
    FetchAt(xlen, b, code, s.pc, i);
  }

  lemma NextTogether(core: Core, xlen: Xlen, base: int, b: seq<Byte>, b': seq<Byte>, c: seq<Placed>, d: seq<Placed>, s: State, t: State,
                     i: nat, k: nat)
    requires Holds(xlen, b, c) && Holds(xlen, b', d) && Wider(c, d) && InStep(c, d, s, t) && IndexOf(d, s.pc) == Some(i) && k > 0
    ensures i < |d| ==>
              (Together(core, xlen, base, b, b', c, d, s, t, k) <==>
               Together(core, xlen, base, b, b', c, d, Step(core, xlen, base, d[i].insn, d[i].size, s),
                        Step(core, xlen, base, c[i].insn, c[i].size, t), k - 1))
    ensures i == |d| ==> Together(core, xlen, base, b, b', c, d, s, t, k)
  {
    assert |c| == |d|;
    hide Holds, Step, Run, IndexOf, Wider;
    RunStep(core, xlen, base, b', d, s, i, k);
    RunStep(core, xlen, base, b, c, t, i, k);
  }

  lemma TogetherNow(core: Core, xlen: Xlen, base: int, b: seq<Byte>, b': seq<Byte>, c: seq<Placed>, d: seq<Placed>, s: State, t: State)
    ensures Together(core, xlen, base, b, b', c, d, s, t, 0) <==> InStep(c, d, s, t)
  {
    hide InStep;
  }

  /** Two texts that hold the same code at two sizes run together for n instructions exactly
      when every instruction executed is steady. */
  lemma {:induction false} RunsTogether(core: Core, xlen: Xlen, base: int, b: seq<Byte>, b': seq<Byte>, c: seq<Placed>, d: seq<Placed>,
                                        s: State, t: State, n: nat)
    requires Holds(xlen, b, c) && Holds(xlen, b', d) && Wider(c, d) && InStep(c, d, s, t)
    ensures (forall k :: 0 <= k <= n ==> Together(core, xlen, base, b, b', c, d, s, t, k)) <==> SteadyRun(core, xlen, base, c, d, s, n)
    decreases n
  {
    hide Holds, Step, Run, Span, Steady, Sized, Same, Together;
    var i := IndexOf(d, s.pc).value;
    assert |c| == |d| && IndexOf(d, s.pc) == Some(i) && (i < |d| ==> c[i].insn == d[i].insn);
    hide Wider, InStep, IndexOf;
    TogetherNow(core, xlen, base, b, b', c, d, s, t);
    if n > 0 && i == |d| {
      forall k | 0 < k <= n ensures Together(core, xlen, base, b, b', c, d, s, t, k) {
        NextTogether(core, xlen, base, b, b', c, d, s, t, i, k);
      }
    } else if n > 0 {
      var s', t' := Step(core, xlen, base, d[i].insn, d[i].size, s), Step(core, xlen, base, c[i].insn, c[i].size, t);
      StepInStep(core, xlen, base, c, d, i, s, t);
      NextTogether(core, xlen, base, b, b', c, d, s, t, i, 1);
      TogetherNow(core, xlen, base, b, b', c, d, s', t');
      if InStep(c, d, s', t') {
        RunsTogether(core, xlen, base, b, b', c, d, s', t', n - 1);
        forall k | 0 < k <= n
          ensures Together(core, xlen, base, b, b', c, d, s, t, k) <==> Together(core, xlen, base, b, b', c, d, s', t', k - 1)
        {
          NextTogether(core, xlen, base, b, b', c, d, s, t, i, k);
        }
        LaterSteps(core, xlen, base, b, b', c, d, s, t, s', t', n);
      }
    }
  }

  lemma LaterSteps(core: Core, xlen: Xlen, base: int, b: seq<Byte>, b': seq<Byte>, c: seq<Placed>, d: seq<Placed>, s: State, t: State,
                   s': State, t': State, n: nat)
    requires n > 0 && Together(core, xlen, base, b, b', c, d, s, t, 0)
    requires forall k :: 0 < k <= n ==>
               (Together(core, xlen, base, b, b', c, d, s, t, k) <==> Together(core, xlen, base, b, b', c, d, s', t', k - 1))
    ensures (forall k :: 0 <= k <= n ==> Together(core, xlen, base, b, b', c, d, s, t, k)) <==>
            (forall k :: 0 <= k <= n - 1 ==> Together(core, xlen, base, b, b', c, d, s', t', k))
  {
    hide Together;
    if forall k :: 0 <= k <= n ==> Together(core, xlen, base, b, b', c, d, s, t, k) {
      forall k | 0 <= k <= n - 1 ensures Together(core, xlen, base, b, b', c, d, s', t', k) {
        assert Together(core, xlen, base, b, b', c, d, s, t, k + 1);
      }
    }
  }
}
