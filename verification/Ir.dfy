/** The intermediate representation of `ir.h` and `ir.c`. */
module Ir {
  import opened Isa

  datatype Kind = KInstr | KData | KAlign

  datatype Forced = SizeAuto | Size2 | Size4

  /** `struct c_choice`: a compressed replacement. */
  datatype Choice = Choice(op: COp, fmt: Fmt, rd: Reg, rs1: Reg, rs2: Reg, imm: int, target: Option<string>, reloc: Reloc)

  /** `ir_entry_t`. The flag `has_c_choice` and the field it guards are one option here;
      the line number, used in messages only, is left out. */
  datatype Entry = Entry(
    kind: Kind, op: Op, fmt: Fmt, rd: Reg, rs1: Reg, rs2: Reg, imm: int, target: Option<string>, reloc: Reloc,
    sect: Section, addr: int, size: int, canCompress: bool, forced: Forced, choice: Option<Choice>)

  const BLANK: Entry :=
    Entry(KInstr, Base(ADD), FmtR, 0, 0, 0, 0, None, RelocNone, Text, 0, 0, false, SizeAuto, None)

  /** The entry `ir_append_instr` builds. */
  function NewInstr(op: Op, fmt: Fmt, rd: Reg, rs1: Reg, rs2: Reg, imm: int, target: Option<string>, reloc: Reloc,
                    sect: Section, addr: int, size: int): Entry {
    Entry(KInstr, op, fmt, rd, rs1, rs2, imm, target, if target.Some? then reloc else RelocNone, sect, addr, size,
          !IsCFmt(fmt), if IsCFmt(fmt) then Size2 else SizeAuto, None)
  }

  /** The entry `ir_append_align` builds: the alignment is not recorded, only the padding. */
  function NewAlign(sect: Section, addr: int, pad: int): Entry {
    BLANK.(kind := KAlign, sect := sect, addr := addr, size := pad)
  }

  /** The entry `ir_append_data` builds. */
  function NewData(sect: Section, addr: int, value: int, size: int): Entry {
    BLANK.(kind := KData, sect := sect, addr := addr, size := size, imm := value)
  }

  /** `ir_is_explicit_c`. */
  predicate IsExplicitC(e: Entry) {
    e.forced == Size2 && !e.canCompress && e.choice.None?
  }

  /** What holds of every instruction entry the grammar can append and pass 2 can refine:
      the format is the operation's, the flags follow the format, a compressed choice
      sits only on a base instruction and has its own operation's format. */
  predicate WfInstr(e: Entry) {
    && e.fmt == FmtOf(e.op)
    && (IsCFmt(e.fmt) ==> e.forced == Size2 && !e.canCompress && e.choice.None?)
    && (!IsCFmt(e.fmt) ==> e.forced == SizeAuto && e.canCompress)
    && (e.choice.Some? ==> e.choice.value.fmt == CFmt(e.choice.value.op))
    && LabelFits(e.op, e.target, e.reloc)
  }

  /** The labels the grammar attaches: none, or a non-empty one with the relocation kind
      of a branch, a jump, or one half of `la`. */
  predicate LabelFits(op: Op, target: Option<string>, reloc: Reloc) {
    if target.None? then reloc == RelocNone
    else
      && target.value != ""
      && match reloc
         case Boff => FmtOf(op).FmtB? || FmtOf(op).FmtCB?
         case Jtgt => FmtOf(op).FmtJ? || FmtOf(op).FmtCJ?
         case Hi20 => op == Base(AUIPC)
         case Lo12 => op == Base(ADDI)
         case RelocNone => false
  }

  predicate Wf(nodes: seq<Entry>) {
    forall e :: e in nodes && e.kind == KInstr ==> WfInstr(e)
  }

  /** The IR buffer. Growth by doubling is left to the sequence. */
  class Buffer {
    var nodes: seq<Entry>

    constructor ()
      ensures nodes == []
    {
      nodes := [];
    }

    method AppendInstr(op: Op, fmt: Fmt, rd: Reg, rs1: Reg, rs2: Reg, imm: int, target: Option<string>, reloc: Reloc,
                       sect: Section, addr: int, size: int)
      modifies this
      ensures nodes == old(nodes) + [NewInstr(op, fmt, rd, rs1, rs2, imm, target, reloc, sect, addr, size)]
    {
      var reloc' := reloc;
      if target.None? { reloc' := RelocNone; }
      var e := BLANK.(kind := KInstr, op := op, fmt := fmt, rd := rd, rs1 := rs1, rs2 := rs2, imm := imm, target := target,
                      reloc := reloc', sect := sect, addr := addr, size := size);
      if IsCFmt(fmt) {
        e := e.(forced := Size2, canCompress := false, choice := None);
      } else {
        e := e.(forced := SizeAuto, canCompress := true, choice := None);
      }
      nodes := nodes + [e];
    }

    method AppendAlign(sect: Section, addr: int, pad: int)
      modifies this
      ensures nodes == old(nodes) + (if pad == 0 then [] else [NewAlign(sect, addr, pad)])
    {
      if pad == 0 { return; }
      nodes := nodes + [BLANK.(kind := KAlign, sect := sect, addr := addr, size := pad)];
    }

    method AppendData(sect: Section, addr: int, value: int, size: int)
      modifies this
      ensures nodes == old(nodes) + [NewData(sect, addr, value, size)]
    {
      nodes := nodes + [BLANK.(kind := KData, sect := sect, addr := addr, size := size, imm := value)];
    }
  }
}
