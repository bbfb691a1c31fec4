/** A disassembler for the text section, written from sections 1.5 and 16 of the RISC-V
    Unprivileged ISA, and the proof that it reads back the program that was assembled. */
module Disasm {
  import opened Isa
  import opened Bits
  import opened Ir
  import opened CRules
  import opened Compress
  import opened Symtab
  import opened Bytes
  import opened Layout
  import opened Emit
  import opened Survive
  import opened Agree
  import Encode16
  import Encode32
  import Decode16
  import Decode32
  import opened Conform16
  import opened Tags16

  /** One line of a listing: an offset and the instruction found there, if it is one. */
  datatype Line = Line(at: nat, insn: Option<Insn>)

  function HalfOfValue(n: int): bv16 { (Word(n) & 0xFFFF) as bv16 }

  /** Step through the bytes by 2 or by 4, as the two low bits of each halfword say. */
  function Read(xlen: Xlen, b: seq<Byte>, at: nat): seq<Line>
    decreases |b| - at
  {
    if at + 2 > |b| then []
    else if b[at] % 4 != 3 then
      [Line(at, Decode16.Decode(xlen, HalfOfValue(FromLe(b[at..at + 2]))))] + Read(xlen, b, at + 2)
    else if at + 4 > |b| then [Line(at, None)]
    else [Line(at, Decode32.Decode(xlen, Word(FromLe(b[at..at + 4]))))] + Read(xlen, b, at + 4)
  }

  // ------------------------------------------------- bytes back to words

  lemma LowByte(n: int, k: nat)
    requires k > 0
    ensures LeBytes(n, k)[0] % 4 == n % 4
  {}

  lemma ReadsWord(w: bv32)
    ensures Word(FromLe(WordBytes(w))) == w && (w & 3 == 3 ==> WordBytes(w)[0] % 4 == 3)
  {
    hide Val, Low, Word, LeBytes, FromLe;
    WordRoundTrip(w);
    LowByte(Val(w, 32), 4);
    LowTwoBits(w, 32);
  }

  lemma Widen(h: bv16) returns (w: bv32)
    ensures w == h as bv32 && (w & 0xFFFF) as bv16 == h && (w & 3 == 3 <==> h & 3 == 3)
  {
    w := h as bv32;
  }

  lemma NarrowSame(w: bv32, w': bv32, h: bv16)
    requires w == w' && (w' & 0xFFFF) as bv16 == h
    ensures (w & 0xFFFF) as bv16 == h
  {}

  lemma ReadsHalf(h: bv16)
    ensures HalfOfValue(FromLe(HalfBytes(h))) == h && (h & 3 != 3 ==> HalfBytes(h)[0] % 4 != 3)
  {
    hide Val, Low, Word, LeBytes, FromLe;
    HalfRoundTrip(h);
    var w := Widen(h);
    WordVal(w);
    NarrowSame(Word(FromLe(HalfBytes(h))), w, h);
    LowByte(Val(w, 32), 2);
    LowTwoBits(w, 32);
  }

  // ------------------------------------------------- what one entry denotes

  /** The instruction the entry stands for at its address, labels resolved. */
  function Intended(syms: Symbols, e: Entry): Insn
    requires Immediate(syms, e.target, e.reloc, e.imm, e.addr).Some?
  {
    var imm := Immediate(syms, e.target, e.reloc, e.imm, e.addr).value;
    match e.op
    case Base(op) => Decode32.Meaning(op, e.rd, e.rs1, e.rs2, imm)
    case Comp(op) => Decode16.Meaning(op, e.rd, e.rs1, e.rs2, imm)
  }

  /** The entry is emitted in a layout that agrees with the manual. */
  predicate Faithful(syms: Symbols, e: Entry)
    requires Immediate(syms, e.target, e.reloc, e.imm, e.addr).Some?
  {
    if e.choice.Some? then Conforms(e.choice.value.op, e.choice.value.rs2, e.choice.value.imm)
    else e.op.Comp? ==> Conforms(e.op.comp, e.rs2, Immediate(syms, e.target, e.reloc, e.imm, e.addr).value)
  }

  lemma SameDisplacement(sym: int, addr: int)
    ensures Disp(addr, U32(sym)) == I32(I32(sym) - addr)
  {
    TruncateTwice(I32(U32(sym)), addr);
  }

  lemma TruncateTwice(a: int, b: int)
    ensures I32(a - I32(b)) == I32(a - b)
  {
    var q := b / TWO32;
    assert b % TWO32 == b - q * TWO32;
    ModShift(a - b, q);
    ModShift(a - b, q + 1);
  }

  lemma ModShift(n: int, q: int)
    ensures (n + q * TWO32) % TWO32 == n % TWO32
  {
    DivModUnique(n + q * TWO32, TWO32, n / TWO32 + q, n % TWO32);
  }

  /** Control transfers, and they only, compress to control transfers. */
  lemma TransferRules(xlen: Xlen, e: Entry)
    requires TryMap(xlen, e).Some?
    ensures e.op.Base? && (PcRelative(TryMap(xlen, e).value.op) <==> BaseFmt(e.op.base).FmtB? || BaseFmt(e.op.base).FmtJ?)
  {
    hide TryMap;
    hide Decode16.Meaning, Decode32.Meaning, BaseFmt;
    RulesKeepMeaning(xlen, e);
    var t := TryMap(xlen, e).value;
    TransferOps(t.op, t.rd, t.rs1, t.rs2, t.imm);
    SameOp(e.op.base, e.rd, e.rs1, e.rs2, e.imm);
  }

  lemma TransferFormats()
    ensures forall op :: BaseFmt(op).FmtB? || BaseFmt(op).FmtJ? <==> op in {BEQ, BNE, BLT, BGE, BLTU, BGEU, JAL}
  {}

  lemma TransferOps(op: COp, rd: Reg, rs1: Reg, rs2: Reg, imm: int)
    ensures var f := BaseFmt(Decode16.Meaning(op, rd, rs1, rs2, imm).op); PcRelative(op) <==> f.FmtB? || f.FmtJ?
  {
    hide BaseFmt;
    TransferFormats();
    match op
    case C_BEQZ | C_BNEZ | C_J | C_JAL =>
    case C_ADD | C_SUB | C_XOR | C_OR | C_AND | C_SUBW | C_ADDW | C_MV =>
    case C_JALR | C_JR | C_EBREAK | C_LUI =>
    case C_ADDI | C_ADDIW | C_SRLI | C_SRAI | C_SLLI | C_ANDI | C_LI =>
    case C_LW | C_LD | C_SD | C_SW | C_SWSP | C_SDSP | C_LDSP | C_LWSP =>
  }

  lemma SameOp(op: BaseOp, rd: Reg, rs1: Reg, rs2: Reg, imm: int)
    ensures Decode32.Meaning(op, rd, rs1, rs2, imm).op == op
  {}

  lemma OtherOffset(op: COp, rd: Reg, rs1: Reg, rs2: Reg, imm: int, imm': int)
    requires PcRelative(op)
    ensures Decode16.Meaning(op, rd, rs1, rs2, imm') == Decode16.Meaning(op, rd, rs1, rs2, imm).(imm := imm')
  {}

  lemma OtherBaseOffset(op: BaseOp, rd: Reg, rs1: Reg, rs2: Reg, imm: int, imm': int)
    requires BaseFmt(op).FmtB? || BaseFmt(op).FmtJ?
    ensures Decode32.Meaning(op, rd, rs1, rs2, imm') == Decode32.Meaning(op, rd, rs1, rs2, imm).(imm := imm')
  {}

  /** A surviving choice stands for the instruction its entry stands for. */
  lemma ChoiceIntended(cfg: Config, syms: Symbols, e: Entry)
    requires WfInstr(e) && Derived(cfg, e) && ChoiceResolved(syms, e) && e.choice.Some?
    ensures Immediate(syms, e.target, e.reloc, e.imm, e.addr).Some?
    ensures ChoiceMeaning(e.choice.value) == Intended(syms, e)
    ensures !PcRelative(e.choice.value.op) ==> e.choice.value.target.None?
  {
    hide TryMap, I32, U32, Disp, RangeOk, Decode16.Meaning, Decode32.Meaning;
    RulesKeepMeaning(cfg.xlen, e);
    var ch, t := e.choice.value, TryMap(cfg.xlen, e).value;
    TransferRules(cfg.xlen, e);
    if PcRelative(t.op) {
      hide BaseFmt, CFmt;
      OtherOffset(t.op, t.rd, t.rs1, t.rs2, t.imm, ch.imm);
      OtherBaseOffset(e.op.base, e.rd, e.rs1, e.rs2, e.imm, ch.imm);
      if e.target.Some? { SameDisplacement(syms[e.target.value], e.addr); }
    }
  }

  lemma HalfForm(cfg: Config, op: COp, rd: Reg, rs1: Reg, rs2: Reg, imm: int, h: bv16)
    requires Encode16.CEncode(cfg, op, CFmt(op), rd, rs1, rs2, imm) == Some(h)
    ensures h & 3 != 3 && (Decode16.Decode(cfg.xlen, h) == Some(Decode16.Meaning(op, rd, rs1, rs2, imm)) <==> Conforms(op, rs2, imm))
  {
    hide Encode16.CEncode, Decode16.Decode, Decode16.Meaning, Conforms, Encode16.TagsMatch;
    CEncodeExact(cfg, op, rd, rs1, rs2, imm);
    EncodedTagsMatch(cfg, op, rd, rs1, rs2, imm);
  }

  /** The code is the halfword the choice's encoder makes. */
  predicate Packs(cfg: Config, ch: Choice, c: Code) {
    c.Half? && Encode16.CEncode(cfg, ch.op, CFmt(ch.op), ch.rd, ch.rs1, ch.rs2, ch.imm) == Some(c.h)
  }

  /** What was encoded, for an entry with a compressed choice. */
  lemma ChoiceCode(cfg: Config, syms: Symbols, e: Entry)
    requires WfInstr(e) && Derived(cfg, e) && ChoiceResolved(syms, e) && e.choice.Some? && !NodeCode(cfg, syms, e).Fail?
    ensures Packs(cfg, e.choice.value, NodeCode(cfg, syms, e))
  {
    hide Encode16.CEncode, Encode16.RequireC, Derived, ChoiceResolved, LabelFits, ChoiceMeaning, Intended, IsCFmt, CFmt, FmtOf, BaseFmt;
    ChoiceIntended(cfg, syms, e);
    CFormats();
  }

  lemma PlainCode(cfg: Config, syms: Symbols, e: Entry)
    requires WfInstr(e) && e.choice.None? && !NodeCode(cfg, syms, e).Fail?
    ensures Immediate(syms, e.target, e.reloc, e.imm, e.addr).Some?
    ensures var imm := Immediate(syms, e.target, e.reloc, e.imm, e.addr).value;
            match e.op
            case Base(op) => Encode32.RequireForOp(cfg, op) && NodeCode(cfg, syms, e).Full? &&
                             Encode32.Encode(cfg.xlen, op, BaseFmt(op), e.rd, e.rs1, e.rs2, imm) == Some(NodeCode(cfg, syms, e).w)
            case Comp(op) => NodeCode(cfg, syms, e).Half? &&
                             Encode16.CEncode(cfg, op, CFmt(op), e.rd, e.rs1, e.rs2, imm) == Some(NodeCode(cfg, syms, e).h)
  {
    hide Encode16.CEncode, Encode16.RequireC, Encode32.Encode, Encode32.RequireForOp, LabelFits, IsCFmt, CFmt, BaseFmt, ResolveLabel;
    CFormats();
  }

  /** The instruction read back from an emitted word or halfword. */
  function CodeInsn(xlen: Xlen, c: Code): Option<Insn> {
    match c
    case Half(h) => Decode16.Decode(xlen, h)
    case Full(w) => Decode32.Decode(xlen, w)
    case Fail(_) => None
  }

  /** The low bits say how long the code is. */
  predicate SelfDelimiting(c: Code) {
    match c
    case Half(h) => h & 3 != 3
    case Full(w) => w & 3 == 3
    case Fail(_) => false
  }

  /** Every emitted instruction entry, in whichever form, denotes what the entry stands for
      exactly when its layout agrees with the manual. */
  lemma CodeDenotes(cfg: Config, syms: Symbols, e: Entry)
    requires WfInstr(e) && Derived(cfg, e) && ChoiceResolved(syms, e) && !NodeCode(cfg, syms, e).Fail?
    ensures Immediate(syms, e.target, e.reloc, e.imm, e.addr).Some? && SelfDelimiting(NodeCode(cfg, syms, e))
    ensures CodeInsn(cfg.xlen, NodeCode(cfg, syms, e)) == Some(Intended(syms, e)) <==> Faithful(syms, e)
  {
    hide Encode16.CEncode, Encode32.Encode, Decode16.Decode, Decode32.Decode, Conforms, Derived, ChoiceResolved, WfInstr,
      Decode16.Meaning, Decode32.Meaning, NodeCode, Immediate, CFmt, BaseFmt, Decode32.Representable, Encode32.RequireForOp;
    if e.choice.Some? {
      var ch := e.choice.value;
      ChoiceIntended(cfg, syms, e);
      ChoiceCode(cfg, syms, e);
      HalfForm(cfg, ch.op, ch.rd, ch.rs1, ch.rs2, ch.imm, NodeCode(cfg, syms, e).h);
    } else {
      PlainCode(cfg, syms, e);
      var imm := Immediate(syms, e.target, e.reloc, e.imm, e.addr).value;
      match e.op
      case Base(op) => Decode32.EncodeExact(cfg, op, e.rd, e.rs1, e.rs2, imm);
      case Comp(op) => HalfForm(cfg, op, e.rd, e.rs1, e.rs2, imm, NodeCode(cfg, syms, e).h);
    }
  }

  // ------------------------------------------------- the whole text section

  /** The listing has one line for each text instruction, at its address, and the line reads
      as the instruction intended exactly when the layout used agrees with the manual. */
  predicate Lists(syms: Symbols, nodes: seq<Entry>, lines: seq<Line>)
    decreases |nodes|
  {
    if nodes == [] then lines == []
    else if nodes[0].sect != Text || nodes[0].kind != KInstr then Lists(syms, nodes[1..], lines)
    else
      var e := nodes[0];
      && lines != [] && lines[0].at == e.addr && Immediate(syms, e.target, e.reloc, e.imm, e.addr).Some?
      && (lines[0].insn == Some(Intended(syms, e)) <==> Faithful(syms, e))
      && Lists(syms, nodes[1..], lines[1..])
  }

  /** Text holds instructions only; padding entries, if any, are empty. */
  predicate TextIsCode(nodes: seq<Entry>) {
    forall e :: e in nodes && e.sect == Text && e.kind != KInstr ==> e.kind == KAlign && e.size == 0
  }

  predicate Checked(cfg: Config, syms: Symbols, nodes: seq<Entry>) {
    forall e :: e in nodes && e.sect == Text ==> Kept(cfg, e) && ChoiceResolved(syms, e)
  }

  lemma ReadHalf(xlen: Xlen, b: seq<Byte>, at: nat, h: bv16)
    requires at + 2 <= |b| && b[at..at + 2] == HalfBytes(h) && h & 3 != 3
    ensures Read(xlen, b, at) == [Line(at, Decode16.Decode(xlen, h))] + Read(xlen, b, at + 2)
  {
    hide Decode16.Decode, Decode32.Decode, HalfBytes, FromLe, HalfOfValue, Word;
    ReadsHalf(h);
    assert b[at] == b[at..at + 2][0];
  }

  lemma ReadWord(xlen: Xlen, b: seq<Byte>, at: nat, w: bv32)
    requires at + 4 <= |b| && b[at..at + 4] == WordBytes(w) && w & 3 == 3
    ensures Read(xlen, b, at) == [Line(at, Decode32.Decode(xlen, w))] + Read(xlen, b, at + 4)
  {
    hide Decode16.Decode, Decode32.Decode, WordBytes, FromLe, HalfOfValue, Word;
    ReadsWord(w);
    assert b[at] == b[at..at + 4][0];
  }

  lemma Cut(b: seq<Byte>, at: nat, c: seq<Byte>, rest: seq<Byte>)
    requires at <= |b| && b[at..] == c + rest
    ensures at + |c| <= |b| && b[at..at + |c|] == c && b[at + |c|..] == rest
  {
    assert b[at..at + |c|] == b[at..][..|c|];
    assert b[at + |c|..] == b[at..][|c|..];
  }

  lemma ReadOne(cfg: Config, syms: Symbols, e: Entry, b: seq<Byte>, at: nat, rest: seq<Byte>)
    requires e.kind == KInstr && Kept(cfg, e) && ChoiceResolved(syms, e) && Chunk(cfg, syms, e).Some?
    requires at <= |b| && b[at..] == Chunk(cfg, syms, e).value + rest
    ensures Immediate(syms, e.target, e.reloc, e.imm, e.addr).Some?
    ensures var n := |Chunk(cfg, syms, e).value|;
            && at + n <= |b| && b[at + n..] == rest
            && Read(cfg.xlen, b, at) == [Line(at, CodeInsn(cfg.xlen, NodeCode(cfg, syms, e)))] + Read(cfg.xlen, b, at + n)
    ensures CodeInsn(cfg.xlen, NodeCode(cfg, syms, e)) == Some(Intended(syms, e)) <==> Faithful(syms, e)
  {
    hide NodeCode, Intended, Faithful, Immediate, Decode16.Decode, Decode32.Decode, WordBytes, HalfBytes, Derived, ChoiceResolved,
      WfInstr, Read;
    CodeDenotes(cfg, syms, e);
    WordSize();
    Cut(b, at, Chunk(cfg, syms, e).value, rest);
    match NodeCode(cfg, syms, e)
    case Half(h) => ReadHalf(cfg.xlen, b, at, h);
    case Full(w) => ReadWord(cfg.xlen, b, at, w);
  }

  lemma PutFirst(syms: Symbols, nodes: seq<Entry>, line: Line, lines: seq<Line>)
    requires nodes != [] && nodes[0].sect == Text && nodes[0].kind == KInstr
    requires var e := nodes[0];
             && line.at == e.addr && Immediate(syms, e.target, e.reloc, e.imm, e.addr).Some?
             && (line.insn == Some(Intended(syms, e)) <==> Faithful(syms, e))
    requires Lists(syms, nodes[1..], lines)
    ensures Lists(syms, nodes, [line] + lines)
  {
    hide Intended, Faithful, Immediate;
    assert ([line] + lines)[1..] == lines;
  }

  lemma EmptyPadding(cfg: Config, syms: Symbols, e: Entry, pc: int)
    requires e.kind == KAlign && e.size == 0 && AssignOne(e, pc) == e && 0 <= pc < TWO32
    ensures Chunk(cfg, syms, e) == Some([]) && NextPc(e, pc) == pc
  {
    hide Align.AlignUp;
    AlignUpRange(pc, U32(e.imm));
  }

  lemma {:induction false} ReadsFrom(cfg: Config, syms: Symbols, nodes: seq<Entry>, b: seq<Byte>, pc: nat)
    requires Wf(nodes) && AllEmittable(cfg, syms, nodes) && TextIsCode(nodes) && Checked(cfg, syms, nodes) && DataSizes(nodes)
    requires Settled(nodes, Text, pc) && pc + Total(nodes, Text) < TWO32
    requires pc <= |b| && b[pc..] == SectBytes(cfg, syms, nodes, Text)
    ensures Lists(syms, nodes, Read(cfg.xlen, b, pc))
    decreases |nodes|
  {
    hide Chunk, AssignOne, NextPc, Kept, ChoiceResolved, Read, Intended, Faithful, Immediate, WfInstr, CodeInsn, NodeCode;
    if nodes != [] {
      var e := nodes[0];
      assert e in nodes && forall x :: x in nodes[1..] ==> x in nodes;
      if e.sect != Text {
        assert [] + SectBytes(cfg, syms, nodes[1..], Text) == SectBytes(cfg, syms, nodes[1..], Text);
        ReadsFrom(cfg, syms, nodes[1..], b, pc);
      } else {
        TotalNotNegative(nodes[1..], Text, NextPc(e, pc));
        if e.kind == KInstr {
          SizeOfChunk(cfg, syms, e, pc);
          StepPacked(e, pc);
          ReadOne(cfg, syms, e, b, pc, SectBytes(cfg, syms, nodes[1..], Text));
          ReadsFrom(cfg, syms, nodes[1..], b, pc + e.size);
          PutFirst(syms, nodes, Read(cfg.xlen, b, pc)[0], Read(cfg.xlen, b, pc + e.size));
        } else {
          EmptyPadding(cfg, syms, e, pc);
          assert [] + SectBytes(cfg, syms, nodes[1..], Text) == SectBytes(cfg, syms, nodes[1..], Text);
          ReadsFrom(cfg, syms, nodes[1..], b, pc);
        }
      }
    } else {
      assert Read(cfg.xlen, b, pc) == [] by { ReadEnd(cfg.xlen, b, pc); }
    }
  }

  lemma ReadEnd(xlen: Xlen, b: seq<Byte>, at: nat)
    requires at == |b|
    ensures Read(xlen, b, at) == []
  {}

  /** Stepping through the emitted text by the low bits of each halfword visits exactly the
      text instructions, at their addresses, and reads back what each stands for, for any mix
      of explicit, automatic and 32-bit forms. */
  lemma TextReadsBack(cfg: Config, syms: Symbols, nodes: seq<Entry>)
    requires Wf(nodes) && AllEmittable(cfg, syms, nodes) && TextIsCode(nodes) && Checked(cfg, syms, nodes) && DataSizes(nodes)
    requires Settled(nodes, Text, 0) && Total(nodes, Text) < TWO32
    ensures Lists(syms, nodes, Read(cfg.xlen, SectBytes(cfg, syms, nodes, Text), 0))
  {
    hide SectBytes, Lists, Settled, Total;
    var b := SectBytes(cfg, syms, nodes, Text);
    assert b[0..] == b;
    ReadsFrom(cfg, syms, nodes, b, 0);
  }
}
