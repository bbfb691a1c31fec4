/** A machine that fetches instructions from the bytes of a text section, decodes them as the
    disassembler does, and executes them on registers and memory (chapter 2 of the RISC-V
    Unprivileged ISA, 20191213). */
module Machine {
  import opened Isa
  import opened Bits
  import opened Bytes
  import opened Disasm

  /** Values by register number. */
  type Registers = map<int, int>
  type Memory = map<int, Byte>

  /** What the claims below do not depend on: the arithmetic, how loads and stores touch memory,
      when a branch is taken, and what the environment does on ECALL and EBREAK before it
      resumes at the next instruction. None of them sees the program counter. */
  datatype Core = Core(
    alu: (BaseOp, int, int) -> int,
    load: (BaseOp, Memory, int) -> int,
    store: (BaseOp, Memory, int, int) -> Memory,
    taken: (BaseOp, int, int) -> bool,
    call: (BaseOp, Registers, Memory) -> (Registers, Memory))

  /** The program counter is an offset into the text section. */
  datatype State = State(pc: int, regs: Registers, mem: Memory)

  function Modulus(xlen: Xlen): int { if xlen == RV64 then 0x1_0000_0000_0000_0000 else TWO32 }

  function Number(r: Reg): int { r as int }

  /** x0 reads as zero and ignores writes. */
  function Get(regs: Registers, r: Reg): int {
    if r != 0 && Number(r) in regs then regs[Number(r)] else 0
  }

  function Set(xlen: Xlen, regs: Registers, r: Reg, v: int): Registers {
    if r == 0 then regs else regs[Number(r) := v % Modulus(xlen)]
  }

  predicate IsLoad(op: BaseOp) { op in {LB, LH, LW, LD, LBU, LHU, LWU} }

  /** One instruction of len bytes; the text section is loaded at base. */
  function Step(core: Core, xlen: Xlen, base: int, i: Insn, len: int, s: State): State {
    var a, b := Get(s.regs, i.rs1), Get(s.regs, i.rs2);
    var next, address := s.pc + len, (a + i.imm) % Modulus(xlen);
    match BaseFmt(i.op)
    case FmtR => State(next, Set(xlen, s.regs, i.rd, core.alu(i.op, a, b)), s.mem)
    case FmtS => State(next, s.regs, core.store(i.op, s.mem, address, b))
    case FmtB => State(if core.taken(i.op, a, b) then s.pc + i.imm else next, s.regs, s.mem)
    case FmtJ => State(s.pc + i.imm, Set(xlen, s.regs, i.rd, base + next), s.mem)
    case FmtUI => State(next, Set(xlen, s.regs, i.rd, if i.op == AUIPC then base + s.pc + i.imm else i.imm), s.mem)
    case _ =>
      if i.op == JALR then State(address - address % 2 - base, Set(xlen, s.regs, i.rd, base + next), s.mem)
      else if i.op == ECALL || i.op == EBREAK then
        var (regs, mem) := core.call(i.op, s.regs, s.mem);
        State(next, regs, mem)
      else State(next, Set(xlen, s.regs, i.rd, if IsLoad(i.op) then core.load(i.op, s.mem, address) else core.alu(i.op, a, i.imm)), s.mem)
  }

  /** The instruction at an offset and its length, by the low bits of its first halfword. */
  function Fetch(xlen: Xlen, b: seq<Byte>, pc: int): Option<(Insn, int)> {
    if pc < 0 || pc + 2 > |b| then None
    else
      var line := Read(xlen, b, pc)[0];
      if line.insn.None? then None else Some((line.insn.value, if b[pc] % 4 == 3 then 4 else 2))
  }

  /** n instructions; None if one of them cannot be fetched. */
  function Run(core: Core, xlen: Xlen, base: int, b: seq<Byte>, s: State, n: nat): Option<State>
    decreases n
  {
    if n == 0 then Some(s)
    else
      match Fetch(xlen, b, s.pc)
      case None => None
      case Some((i, len)) => Run(core, xlen, base, b, Step(core, xlen, base, i, len, s), n - 1)
  }

  // ------------------------------------------------- code laid out in a text section

  /** An instruction and the bytes it takes. */
  datatype Placed = Placed(insn: Insn, size: int)

  /** Fetching from pc on finds this code. */
  predicate Loaded(xlen: Xlen, b: seq<Byte>, pc: int, code: seq<Placed>)
    decreases |code|
  {
    code == [] || (Fetch(xlen, b, pc) == Some((code[0].insn, code[0].size)) && Loaded(xlen, b, pc + code[0].size, code[1..]))
  }

  /** Neither a branch nor a jump. */
  predicate Sequential(op: BaseOp) {
    !BaseFmt(op).FmtB? && !BaseFmt(op).FmtJ? && op != JALR
  }

  predicate AllSequential(code: seq<Placed>) {
    forall i :: 0 <= i < |code| ==> Sequential(code[i].insn.op)
  }

  /** The bytes of the first n instructions. */
  function Span(code: seq<Placed>, n: nat): int
    requires n <= |code|
  {
    if n == 0 then 0 else code[0].size + Span(code[1..], n - 1)
  }

  /** The first n instructions, one after the other. */
  function Exec(core: Core, xlen: Xlen, base: int, code: seq<Placed>, s: State, n: nat): State
    requires n <= |code|
    decreases n
  {
    if n == 0 then s else Exec(core, xlen, base, code[1..], Step(core, xlen, base, code[0].insn, code[0].size, s), n - 1)
  }

  /** The k-th instruction is fetched where the sizes before it end. */
  lemma {:induction false} LoadedAt(xlen: Xlen, b: seq<Byte>, pc: int, code: seq<Placed>, k: nat)
    requires Loaded(xlen, b, pc, code) && k < |code|
    ensures Fetch(xlen, b, pc + Span(code, k)) == Some((code[k].insn, code[k].size))
    decreases k
  {
    hide Fetch;
    if k > 0 { LoadedAt(xlen, b, pc + code[0].size, code[1..], k - 1); }
  }

  lemma StepsOn(core: Core, xlen: Xlen, base: int, i: Insn, len: int, s: State)
    requires Sequential(i.op)
    ensures Step(core, xlen, base, i, len, s).pc == s.pc + len
  {
    hide Set, Get, BaseFmt;
  }

  /** Running sequential code executes it instruction by instruction. */
  lemma {:induction false} RunIsExec(core: Core, xlen: Xlen, base: int, b: seq<Byte>, code: seq<Placed>, s: State, n: nat)
    requires Loaded(xlen, b, s.pc, code) && AllSequential(code) && n <= |code|
    ensures Run(core, xlen, base, b, s, n) == Some(Exec(core, xlen, base, code, s, n))
    ensures Exec(core, xlen, base, code, s, n).pc == s.pc + Span(code, n)
    decreases n
  {
    hide Step, Fetch, Sequential;
    if n > 0 {
      assert Sequential(code[0].insn.op) && forall i :: 0 <= i < |code[1..]| ==> code[1..][i] == code[i + 1];
      StepsOn(core, xlen, base, code[0].insn, code[0].size, s);
      RunIsExec(core, xlen, base, b, code[1..], Step(core, xlen, base, code[0].insn, code[0].size, s), n - 1);
    }
  }

  // ------------------------------------------------- the same code at other sizes

  predicate Same(s: State, t: State) { s.regs == t.regs && s.mem == t.mem }

  predicate SameInsns(c: seq<Placed>, d: seq<Placed>) {
    |c| == |d| && forall i :: 0 <= i < |c| ==> c[i].insn == d[i].insn
  }

  /** The one non-control instruction that reads the program counter. */
  predicate ReadsPc(i: Insn) { i.op == AUIPC && i.rd != 0 }

  lemma ModEqual(x: int, y: int, m: int)
    requires m > 0
    ensures x % m == y % m <==> (x - y) % m == 0
  {
    if x % m == y % m {
      DivModUnique(x - y, m, x / m - y / m, 0);
    } else {
      var d := x % m - y % m;
      DivModUnique(x - y, m, if d > 0 then x / m - y / m else x / m - y / m - 1, if d > 0 then d else d + m);
    }
  }

  lemma SetEqual(xlen: Xlen, regs: Registers, r: Reg, v: int, w: int)
    requires r != 0
    ensures Set(xlen, regs, r, v) == Set(xlen, regs, r, w) <==> (v - w) % Modulus(xlen) == 0
  {
    hide Number;
    ModEqual(v, w, Modulus(xlen));
    var m, k := Modulus(xlen), Number(r);
    hide Modulus;
    if Set(xlen, regs, r, v) == Set(xlen, regs, r, w) {
      var x, y := v % m, w % m;
      assert regs[k := x][k] == x && regs[k := y][k] == y;
    }
  }

  /** What a sequential instruction other than AUIPC does to registers and memory. */
  function Effect(core: Core, xlen: Xlen, i: Insn, regs: Registers, mem: Memory): (Registers, Memory) {
    var a, b := Get(regs, i.rs1), Get(regs, i.rs2);
    var address := (a + i.imm) % Modulus(xlen);
    match BaseFmt(i.op)
    case FmtR => (Set(xlen, regs, i.rd, core.alu(i.op, a, b)), mem)
    case FmtS => (regs, core.store(i.op, mem, address, b))
    case FmtUI => (Set(xlen, regs, i.rd, i.imm), mem)
    case _ =>
      if i.op == ECALL || i.op == EBREAK then core.call(i.op, regs, mem)
      else (Set(xlen, regs, i.rd, if IsLoad(i.op) then core.load(i.op, mem, address) else core.alu(i.op, a, i.imm)), mem)
  }

  lemma StepEffect(core: Core, xlen: Xlen, base: int, i: Insn, len: int, s: State)
    requires Sequential(i.op) && i.op != AUIPC
    ensures var r := Step(core, xlen, base, i, len, s); (r.regs, r.mem) == Effect(core, xlen, i, s.regs, s.mem)
  {
    hide Set, Get, BaseFmt, Modulus, IsLoad;
  }

  lemma StepAuipc(core: Core, xlen: Xlen, base: int, i: Insn, len: int, s: State)
    requires i.op == AUIPC
    ensures var r := Step(core, xlen, base, i, len, s); r.mem == s.mem && r.regs == Set(xlen, s.regs, i.rd, base + s.pc + i.imm)
  {
    hide Set, Get, Modulus, IsLoad;
    UpperFormat();
  }

  /** From equal registers and memory, one sequential instruction leaves them equal exactly
      unless it reads a program counter that differs. */
  lemma StepSame(core: Core, xlen: Xlen, base: int, i: Insn, m: int, n: int, s: State, t: State)
    requires Sequential(i.op) && Same(s, t)
    ensures Same(Step(core, xlen, base, i, m, s), Step(core, xlen, base, i, n, t)) <==>
            (ReadsPc(i) ==> (s.pc - t.pc) % Modulus(xlen) == 0)
  {
    hide Modulus, Step, Effect, Sequential;
    if i.op == AUIPC {
      StepAuipc(core, xlen, base, i, m, s);
      StepAuipc(core, xlen, base, i, n, t);
      if i.rd != 0 {
        hide Set;
        SetEqual(xlen, s.regs, i.rd, base + s.pc + i.imm, base + t.pc + i.imm);
      }
    } else {
      StepEffect(core, xlen, base, i, m, s);
      StepEffect(core, xlen, base, i, n, t);
    }
  }

  lemma UpperFormat()
    ensures BaseFmt(AUIPC) == FmtUI
  {}

  /** After every instruction the registers and memory agree. */
  predicate AgreeAlong(core: Core, xlen: Xlen, base: int, c: seq<Placed>, d: seq<Placed>, s: State, t: State)
    requires |c| == |d|
    decreases |c|
  {
    Same(s, t) &&
    (c != [] ==> AgreeAlong(core, xlen, base, c[1..], d[1..], Step(core, xlen, base, c[0].insn, c[0].size, s),
                            Step(core, xlen, base, d[0].insn, d[0].size, t)))
  }

  /** Every instruction that reads the program counter stands at the same one (modulo the width). */
  predicate CountersAgree(xlen: Xlen, c: seq<Placed>, d: seq<Placed>, p: int, q: int)
    requires |c| == |d|
    decreases |c|
  {
    c != [] ==> (ReadsPc(c[0].insn) ==> (p - q) % Modulus(xlen) == 0) && CountersAgree(xlen, c[1..], d[1..], p + c[0].size, q + d[0].size)
  }

  lemma {:induction false} AgreeExactly(core: Core, xlen: Xlen, base: int, c: seq<Placed>, d: seq<Placed>, s: State, t: State)
    requires SameInsns(c, d) && AllSequential(c) && Same(s, t)
    ensures AgreeAlong(core, xlen, base, c, d, s, t) <==> CountersAgree(xlen, c, d, s.pc, t.pc)
    decreases |c|
  {
    hide Step, Sequential, Same, ReadsPc, Modulus;
    if c != [] {
      var i := c[0].insn;
      assert Sequential(i.op) && d[0].insn == i;
      var s', t' := Step(core, xlen, base, i, c[0].size, s), Step(core, xlen, base, i, d[0].size, t);
      StepSame(core, xlen, base, i, c[0].size, d[0].size, s, t);
      StepsOn(core, xlen, base, i, c[0].size, s);
      StepsOn(core, xlen, base, i, d[0].size, t);
      TailInsns(c, d);
      if Same(s', t') { AgreeExactly(core, xlen, base, c[1..], d[1..], s', t'); }
    }
  }

  lemma TailInsns(c: seq<Placed>, d: seq<Placed>)
    requires SameInsns(c, d) && AllSequential(c) && c != []
    ensures SameInsns(c[1..], d[1..]) && AllSequential(c[1..])
  {
    hide Sequential;
    assert forall i :: 0 <= i < |c[1..]| ==> c[1..][i] == c[i + 1] && d[1..][i] == d[i + 1];
  }

  predicate SameAfter(core: Core, xlen: Xlen, base: int, c: seq<Placed>, d: seq<Placed>, s: State, t: State, n: nat)
    requires n <= |c| == |d|
  {
    Same(Exec(core, xlen, base, c, s, n), Exec(core, xlen, base, d, t, n))
  }

  lemma SameLater(core: Core, xlen: Xlen, base: int, c: seq<Placed>, d: seq<Placed>, s: State, t: State, n: nat)
    requires n <= |c| == |d|
    ensures SameAfter(core, xlen, base, c, d, s, t, 0) <==> Same(s, t)
    ensures n > 0 ==> (SameAfter(core, xlen, base, c, d, s, t, n) <==>
                       SameAfter(core, xlen, base, c[1..], d[1..], Step(core, xlen, base, c[0].insn, c[0].size, s),
                                 Step(core, xlen, base, d[0].insn, d[0].size, t), n - 1))
  {
    hide Step, Same;
  }

  /** Agreement along the way is agreement after any number of instructions. */
  lemma {:induction false} AgreeEach(core: Core, xlen: Xlen, base: int, c: seq<Placed>, d: seq<Placed>, s: State, t: State)
    requires |c| == |d|
    ensures AgreeAlong(core, xlen, base, c, d, s, t) <==> forall n :: 0 <= n <= |c| ==> SameAfter(core, xlen, base, c, d, s, t, n)
    decreases |c|
  {
    hide Step, Same, SameAfter;
    SameLater(core, xlen, base, c, d, s, t, 0);
    if c != [] && Same(s, t) {
      var s', t' := Step(core, xlen, base, c[0].insn, c[0].size, s), Step(core, xlen, base, d[0].insn, d[0].size, t);
      AgreeEach(core, xlen, base, c[1..], d[1..], s', t');
      if AgreeAlong(core, xlen, base, c[1..], d[1..], s', t') {
        forall n | 0 <= n <= |c| ensures SameAfter(core, xlen, base, c, d, s, t, n) {
          SameLater(core, xlen, base, c, d, s, t, n);
          if n > 0 { assert SameAfter(core, xlen, base, c[1..], d[1..], s', t', n - 1); }
        }
      } else {
        var n :| 0 <= n <= |c[1..]| && !SameAfter(core, xlen, base, c[1..], d[1..], s', t', n);
        SameLater(core, xlen, base, c, d, s, t, n + 1);
      }
    }
  }
}
