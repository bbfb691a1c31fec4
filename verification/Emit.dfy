/** Emission of the laid-out entries (`pass2.c`), as functions of the entry list and the
    sinks, and what a successful run has written. */
module Emit {
  import opened Isa
  import opened Ir
  import opened Bytes
  import opened Out
  import opened Symtab
  import opened Layout
  import opened Compress
  import Encode32
  import Encode16

  /** `resolve_label`: None reports an undefined label. */
  function ResolveLabel(syms: Symbols, name: string, reloc: Reloc, addr: int): Option<int> {
    var target := Lookup(syms, name);
    if target < 0 then None
    else
      var t := I32(target);
      var offset := t - addr;
      var hi := (offset + 0x800) / 4096;
      Some(match reloc
           case Hi20 => I32(hi * 4096)
           case Lo12 => I32(offset - hi * 4096)
           case Boff | Jtgt => I32(offset)
           case RelocNone => I32(t))
  }

  /** What encoding one instruction comes to; a failure may or may not raise `had_error`. */
  datatype Code = Half(h: bv16) | Full(w: bv32) | Fail(reported: bool)

  /** The immediate to encode: the resolved label if there is one. */
  function Immediate(syms: Symbols, target: Option<string>, reloc: Reloc, imm: int, addr: int): Option<int> {
    if target.None? then Some(imm)
    else if reloc == RelocNone then None
    else ResolveLabel(syms, target.value, reloc, addr)
  }

  /** `pass2_emit_instr` up to the write. */
  function CodeOf(cfg: Config, syms: Symbols, op: Op, fmt: Fmt, rd: Reg, rs1: Reg, rs2: Reg, imm: int,
                  target: Option<string>, reloc: Reloc, addr: int): Code
    requires !IsCFmt(fmt) ==> op.Base?
  {
    var value := Immediate(syms, target, reloc, imm, addr);
    if IsCFmt(fmt) then
      if op.Base? || !Encode16.RequireC(cfg, op.comp) then Fail(false)
      else if value.None? then Fail(true)
      else
        var h := Encode16.CEncode(cfg, op.comp, fmt, rd, rs1, rs2, value.value);
        if h.None? then Fail(true) else Half(h.value)
    else if !Encode32.RequireForOp(cfg, op.base) then Fail(true)
    else if value.None? then Fail(true)
    else
      var w := Encode32.Encode(cfg.xlen, op.base, fmt, rd, rs1, rs2, value.value);
      if w.None? then Fail(true) else Full(w.value)
  }

  /** `pass2_emit_node`: the compressed choice if there is one (`c_materialize`, which drops
      the label of a compressed control transfer), else the entry itself. */
  function NodeCode(cfg: Config, syms: Symbols, e: Entry): Code
    requires WfInstr(e)
  {
    if e.choice.Some? then
      var ch := e.choice.value;
      var target := if PcRelative(ch.op) then None else ch.target;
      var reloc := if PcRelative(ch.op) then RelocNone else ch.reloc;
      CodeOf(cfg, syms, Comp(ch.op), ch.fmt, ch.rd, ch.rs1, ch.rs2, if target.Some? then 0 else ch.imm, target, reloc, e.addr)
    else
      CodeOf(cfg, syms, e.op, e.fmt, e.rd, e.rs1, e.rs2, if e.target.Some? then 0 else e.imm, e.target, e.reloc, e.addr)
  }

  /** The state pass 2 keeps while it writes. */
  datatype State = State(sink: Sink, sect: Section, seenText: bool, hadError: bool)

  /** `pass2_emit_section`. */
  function EmitSection(s: State, sect: Section): (State, bool) {
    if s.seenText && sect == Data then (s.(hadError := true), false)
    else (s.(seenText := s.seenText || sect == Text, sect := sect, sink := s.sink.(cur := sect)), true)
  }

  /** Writing what encoding came to. */
  function EmitCode(c: Code, s: State): (State, bool) {
    match c
    case Fail(reported) => (s.(hadError := s.hadError || reported), false)
    case Half(h) =>
      var r := SinkWrite(MarkRvc(s.sink), HalfBytes(h));
      if r.None? then (s.(sink := MarkRvc(s.sink)), false) else (s.(sink := r.value), true)
    case Full(w) =>
      var r := SinkWrite(s.sink, WordBytes(w));
      if r.None? then (s, false) else (s.(sink := r.value), true)
  }

  /** `pass2_emit_align`, `pass2_emit_data` and `pass2_emit_node`. */
  function EmitEntry(cfg: Config, syms: Symbols, hasFile: bool, e: Entry, s: State): (State, bool)
    requires e.kind == KInstr ==> WfInstr(e)
  {
    if e.kind == KAlign && e.size <= 0 then (s, true)
    else if s.hadError then (s, false)
    else if !hasFile then (s.(hadError := true), false)
    else
      match e.kind
      case KAlign =>
        var r := SinkWrite(s.sink, Bytes.Zeros(e.size));
        if r.None? then (s, false) else (s.(sink := r.value), true)
      case KData =>
        if s.sect != Data then (s.(hadError := true), false)
        else if e.size !in {1, 2, 4, 8} then (s, false)
        else
          var r := SinkWrite(s.sink, LeBytes(e.imm, e.size));
          if r.None? then (s, false) else (s.(sink := r.value), true)
      case KInstr => EmitCode(NodeCode(cfg, syms, e), s)
  }

  /** The emission loop of `pass2_run`. */
  function EmitFrom(cfg: Config, syms: Symbols, hasFile: bool, nodes: seq<Entry>, s: State): (State, bool)
    requires Wf(nodes)
    decreases |nodes|
  {
    if nodes == [] then (s, !s.hadError)
    else
      var e := nodes[0];
      var (s1, ok1) := if e.sect != s.sect then EmitSection(s, e.sect) else (s, true);
      if !ok1 then (s1, false)
      else
        var (s2, ok2) := EmitEntry(cfg, syms, hasFile, e, s1);
        if !ok2 then (s2, false) else EmitFrom(cfg, syms, hasFile, nodes[1..], s2)
  }

  /** Layout as `pass2_run` does it: data first, then text with or without compression. */
  function Prepare(cfg: Config, syms: Symbols, nodes: seq<Entry>): (r: seq<Entry>)
    ensures |r| == |nodes|
  {
    var a := Assign(nodes, Data, 0);
    if cfg.hasC && cfg.autoC then Relax(cfg, syms, Plan(cfg, a), Text, 8).0 else Assign(a, Text, 0)
  }

  /** Emission as `pass2_run` does it, from the prepared entries. */
  function EmitAll(cfg: Config, syms: Symbols, hasFile: bool, nodes: seq<Entry>, s: State): (State, bool)
    requires Wf(nodes)
  {
    if nodes == [] then EmitFrom(cfg, syms, hasFile, nodes, s)
    else
      var (s1, ok) := EmitSection(s, nodes[0].sect);
      if !ok then (s1, false) else EmitFrom(cfg, syms, hasFile, nodes, s1)
  }

  // ------------------------------------------------- what is written

  /** The bytes one entry contributes; None if it cannot be emitted. */
  function Chunk(cfg: Config, syms: Symbols, e: Entry): Option<seq<Byte>>
    requires e.kind == KInstr ==> WfInstr(e)
  {
    match e.kind
    case KAlign => Some(if e.size <= 0 then [] else Bytes.Zeros(e.size))
    case KData => if e.sect == Data && e.size in {1, 2, 4, 8} then Some(LeBytes(e.imm, e.size)) else None
    case KInstr =>
      match NodeCode(cfg, syms, e)
      case Half(h) => Some(HalfBytes(h))
      case Full(w) => Some(WordBytes(w))
      case Fail(_) => None
  }

  predicate AllEmittable(cfg: Config, syms: Symbols, nodes: seq<Entry>)
    requires Wf(nodes)
  {
    forall e :: e in nodes ==> Chunk(cfg, syms, e).Some?
  }

  /** The concatenation of the bytes of the entries of one section. */
  function SectBytes(cfg: Config, syms: Symbols, nodes: seq<Entry>, sect: Section): seq<Byte>
    requires Wf(nodes) && AllEmittable(cfg, syms, nodes)
  {
    if nodes == [] then []
    else (if nodes[0].sect == sect then Chunk(cfg, syms, nodes[0]).value else []) + SectBytes(cfg, syms, nodes[1..], sect)
  }

  /** The bytes of all entries, in order. */
  function AllBytes(cfg: Config, syms: Symbols, nodes: seq<Entry>): seq<Byte>
    requires Wf(nodes) && AllEmittable(cfg, syms, nodes)
  {
    if nodes == [] then [] else Chunk(cfg, syms, nodes[0]).value + AllBytes(cfg, syms, nodes[1..])
  }

  /** All entries of the data section come before all entries of the text section. */
  predicate DataFirst(nodes: seq<Entry>) {
    forall i, j :: 0 <= i < j < |nodes| && nodes[j].sect == Data ==> nodes[i].sect == Data
  }

  /** What a sink holds after bytes for the data section, then bytes for the text section,
      which a raw stream receives in the order `all`. */
  predicate Wrote(a: Sink, b: Sink, data: seq<Byte>, text: seq<Byte>, all: seq<Byte>) {
    && b.fmt == a.fmt
    && (a.fmt == Elf ==> b.data == a.data + data && b.text == a.text + text && b.raw == a.raw)
    && (a.fmt == Raw ==> b.data == a.data && b.text == a.text && (b.raw.Some? <==> a.raw.Some?))
    && (a.fmt == Raw && a.raw.Some? ==> b.raw.value == a.raw.value + all)
  }

  lemma EntryWrites(cfg: Config, syms: Symbols, e: Entry, s: State)
    requires e.kind == KInstr ==> WfInstr(e)
    requires e.sect == s.sect == s.sink.cur && EmitEntry(cfg, syms, true, e, s).1 && !s.hadError
    ensures var s' := EmitEntry(cfg, syms, true, e, s).0;
            && Chunk(cfg, syms, e).Some?
            && s' == s.(sink := s'.sink) && s'.sink.cur == s.sect
            && var c := Chunk(cfg, syms, e).value;
               Wrote(s.sink, s'.sink, if e.sect == Data then c else [], if e.sect == Text then c else [], c)
  {
    hide NodeCode, LeBytes, HalfBytes, WordBytes, WfInstr;
    if e.kind == KAlign && e.size <= 0 {
      var c: seq<Byte> := [];
      assert s.sink.data + c == s.sink.data && s.sink.text + c == s.sink.text;
      assert s.sink.raw.Some? ==> s.sink.raw.value + c == s.sink.raw.value;
    } else {
      assert s.sink.data + [] == s.sink.data && s.sink.text + [] == s.sink.text;
    }
  }

  lemma WroteTrans(a: Sink, b: Sink, c: Sink, d1: seq<Byte>, t1: seq<Byte>, r1: seq<Byte>, d2: seq<Byte>, t2: seq<Byte>, r2: seq<Byte>)
    requires Wrote(a, b, d1, t1, r1) && Wrote(b, c, d2, t2, r2)
    ensures Wrote(a, c, d1 + d2, t1 + t2, r1 + r2)
  {
    assert (a.data + d1) + d2 == a.data + (d1 + d2);
    assert (a.text + t1) + t2 == a.text + (t1 + t2);
    if a.raw.Some? { assert (a.raw.value + r1) + r2 == a.raw.value + (r1 + r2); }
  }

  lemma {:induction false} OnlyText(cfg: Config, syms: Symbols, nodes: seq<Entry>)
    requires Wf(nodes) && AllEmittable(cfg, syms, nodes) && forall e :: e in nodes ==> e.sect == Text
    ensures SectBytes(cfg, syms, nodes, Data) == [] && AllBytes(cfg, syms, nodes) == SectBytes(cfg, syms, nodes, Text)
    decreases |nodes|
  {
    hide Chunk, WfInstr;
    if nodes != [] {
      assert nodes[0] in nodes && forall e :: e in nodes[1..] ==> e in nodes;
      OnlyText(cfg, syms, nodes[1..]);
    }
  }

  lemma DataFirstTail(nodes: seq<Entry>)
    requires nodes != [] && DataFirst(nodes)
    ensures DataFirst(nodes[1..]) && (nodes[0].sect == Text ==> forall e :: e in nodes ==> e.sect == Text)
  {
    forall i, j | 0 <= i < j < |nodes[1..]| && nodes[1..][j].sect == Data ensures nodes[1..][i].sect == Data {
      assert nodes[1..][j] == nodes[j + 1] && nodes[1..][i] == nodes[i + 1];
    }
    if nodes[0].sect == Text {
      forall e | e in nodes ensures e.sect == Text {
        var j :| 0 <= j < |nodes| && nodes[j] == e;
      }
    }
  }

  lemma Shuffle(c: seq<Byte>, d: seq<Byte>, t: seq<Byte>)
    ensures c + (d + t) == (c + d) + ([] + t) && [] + t == t
  {}

  /** With all data first, the stream is the data bytes followed by the text bytes. */
  lemma {:induction false} StreamIsDataThenText(cfg: Config, syms: Symbols, nodes: seq<Entry>)
    requires Wf(nodes) && AllEmittable(cfg, syms, nodes) && DataFirst(nodes)
    ensures AllBytes(cfg, syms, nodes) == SectBytes(cfg, syms, nodes, Data) + SectBytes(cfg, syms, nodes, Text)
    decreases |nodes|
  {
    if nodes != [] {
      hide Chunk, WfInstr;
      DataFirstTail(nodes);
      hide DataFirst;
      if nodes[0].sect == Data {
        StreamIsDataThenText(cfg, syms, nodes[1..]);
        Shuffle(Chunk(cfg, syms, nodes[0]).value, SectBytes(cfg, syms, nodes[1..], Data), SectBytes(cfg, syms, nodes[1..], Text));
      } else {
        OnlyText(cfg, syms, nodes);
        hide SectBytes, AllBytes;
        Shuffle([], [], SectBytes(cfg, syms, nodes, Text));
      }
    }
  }

  /** What holds of a finished emission loop. */
  ghost predicate Written(cfg: Config, syms: Symbols, nodes: seq<Entry>, a: State, b: State)
    requires Wf(nodes)
  {
    && AllEmittable(cfg, syms, nodes)
    && DataFirst(nodes)
    && (a.seenText ==> forall e :: e in nodes ==> e.sect == Text)
    && Wrote(a.sink, b.sink, SectBytes(cfg, syms, nodes, Data), SectBytes(cfg, syms, nodes, Text), AllBytes(cfg, syms, nodes))
  }

  lemma WrittenNil(cfg: Config, syms: Symbols, s: State)
    ensures Written(cfg, syms, [], s, s)
  {
    assert s.sink.data + [] == s.sink.data && s.sink.text + [] == s.sink.text;
    assert s.sink.raw.Some? ==> s.sink.raw.value + [] == s.sink.raw.value;
  }

  lemma WrittenCons(cfg: Config, syms: Symbols, nodes: seq<Entry>, s: State, s1: State, s2: State, r: State)
    requires nodes != [] && Wf(nodes) && Wf(nodes[1..])
    requires s1.sink == s.sink.(cur := nodes[0].sect)
    requires s1.seenText == (s.seenText || nodes[0].sect == Text) && (s.seenText ==> nodes[0].sect == Text)
    requires s2.seenText == s1.seenText && Chunk(cfg, syms, nodes[0]).Some?
    requires var c := Chunk(cfg, syms, nodes[0]).value;
             Wrote(s1.sink, s2.sink, if nodes[0].sect == Data then c else [], if nodes[0].sect == Text then c else [], c)
    requires Written(cfg, syms, nodes[1..], s2, r)
    ensures Written(cfg, syms, nodes, s, r)
  {
    hide Chunk, WfInstr;
    var e, rest := nodes[0], nodes[1..];
    var c := Chunk(cfg, syms, e).value;
    assert nodes == [e] + rest;
    forall x | x in nodes ensures Chunk(cfg, syms, x).Some? { assert x == e || x in rest; }
    forall i, j | 0 <= i < j < |nodes| && nodes[j].sect == Data ensures nodes[i].sect == Data {
      assert nodes[j] == rest[j - 1] && rest[j - 1] in rest;
      if i > 0 { assert nodes[i] == rest[i - 1]; }
    }
    if s.seenText { forall x | x in nodes ensures x.sect == Text { assert x == e || x in rest; } }
    WroteTrans(s1.sink, s2.sink, r.sink, if e.sect == Data then c else [], if e.sect == Text then c else [], c,
               SectBytes(cfg, syms, rest, Data), SectBytes(cfg, syms, rest, Text), AllBytes(cfg, syms, rest));
  }

  /** A successful emission loop emitted every entry, in data-then-text order, and wrote to
      each section the bytes of its entries and nothing else. */
  lemma {:induction false} EmitFromWrites(cfg: Config, syms: Symbols, nodes: seq<Entry>, s: State)
    requires Wf(nodes) && !s.hadError && s.sink.cur == s.sect && (s.sect == Text <==> s.seenText)
    requires EmitFrom(cfg, syms, true, nodes, s).1
    ensures Written(cfg, syms, nodes, s, EmitFrom(cfg, syms, true, nodes, s).0)
    decreases |nodes|
  {
    hide EmitEntry, Chunk, Written, Wrote, WfInstr;
    if nodes == [] {
      WrittenNil(cfg, syms, s);
    } else {
      var e := nodes[0];
      assert e in nodes && forall x :: x in nodes[1..] ==> x in nodes;
      var s1 := (if e.sect != s.sect then EmitSection(s, e.sect) else (s, true)).0;
      EntryWrites(cfg, syms, e, s1);
      var s2 := EmitEntry(cfg, syms, true, e, s1).0;
      EmitFromWrites(cfg, syms, nodes[1..], s2);
      WrittenCons(cfg, syms, nodes, s, s1, s2, EmitFrom(cfg, syms, true, nodes[1..], s2).0);
    }
  }

  /** The sinks before pass 2 runs: nothing emitted, no section announced. */
  predicate Fresh(s: State) {
    !s.hadError && !s.seenText && s.sect == Text && s.sink.cur == Text && s.sink.data == [] && s.sink.text == [] &&
    (s.sink.fmt == Raw ==> s.sink.raw == Some([]))
  }

  /** A successful emission: the data entries all come first and lie in the data section, each
      buffer holds the bytes of its section, and a raw stream is the data then the text. */
  lemma EmitAllWrites(cfg: Config, syms: Symbols, nodes: seq<Entry>, s: State)
    requires Wf(nodes) && Fresh(s) && EmitAll(cfg, syms, true, nodes, s).1
    ensures AllEmittable(cfg, syms, nodes) && DataFirst(nodes) && forall e :: e in nodes && e.kind == KData ==> e.sect == Data
    ensures var r := EmitAll(cfg, syms, true, nodes, s).0.sink;
            var data, text := SectBytes(cfg, syms, nodes, Data), SectBytes(cfg, syms, nodes, Text);
            && (s.sink.fmt == Elf ==> r.data == data && r.text == text)
            && (s.sink.fmt == Raw ==> r.raw == Some(data + text))
  {
    hide EmitFrom, Chunk, WfInstr, SectBytes, AllBytes, DataFirst;
    assert forall b: seq<Byte> :: [] + b == b;
    if nodes == [] {
      assert EmitFrom(cfg, syms, true, nodes, s).0 == s by { EmitNil(cfg, syms, s); }
      WrittenNil(cfg, syms, s);
      StreamIsDataThenText(cfg, syms, nodes);
    } else {
      var s1 := EmitSection(s, nodes[0].sect).0;
      EmitFromWrites(cfg, syms, nodes, s1);
      StreamIsDataThenText(cfg, syms, nodes);
      forall e | e in nodes && e.kind == KData ensures e.sect == Data { DataInData(cfg, syms, e); }
    }
  }

  lemma EmitNil(cfg: Config, syms: Symbols, s: State)
    ensures EmitFrom(cfg, syms, true, [], s).0 == s
  {}

  lemma DataInData(cfg: Config, syms: Symbols, e: Entry)
    requires e.kind == KData && Chunk(cfg, syms, e).Some?
    ensures e.sect == Data
  {}

  /** The sinks can be written to. */
  predicate Open(s: Sink) { s.fmt == Raw ==> s.raw.Some? }

  lemma EntrySucceeds(cfg: Config, syms: Symbols, e: Entry, s: State)
    requires e.kind == KInstr ==> WfInstr(e)
    requires !s.hadError && Open(s.sink) && e.sect == s.sect && Chunk(cfg, syms, e).Some?
    ensures EmitEntry(cfg, syms, true, e, s).1
    ensures var r := EmitEntry(cfg, syms, true, e, s).0; r == s.(sink := r.sink) && Open(r.sink)
  {
    hide NodeCode, LeBytes, HalfBytes, WordBytes, WfInstr;
  }

  /** Entries that can each be emitted, data first, are all emitted. */
  lemma {:induction false} EmitFromSucceeds(cfg: Config, syms: Symbols, nodes: seq<Entry>, s: State)
    requires Wf(nodes) && !s.hadError && Open(s.sink)
    requires AllEmittable(cfg, syms, nodes) && DataFirst(nodes) && (s.seenText ==> forall e :: e in nodes ==> e.sect == Text)
    ensures EmitFrom(cfg, syms, true, nodes, s).1
    decreases |nodes|
  {
    if nodes != [] {
      hide EmitEntry, Chunk, WfInstr;
      var e := nodes[0];
      assert e in nodes && forall x :: x in nodes[1..] ==> x in nodes;
      var s1 := (if e.sect != s.sect then EmitSection(s, e.sect) else (s, true)).0;
      EntrySucceeds(cfg, syms, e, s1);
      DataFirstTail(nodes);
      EmitFromSucceeds(cfg, syms, nodes[1..], EmitEntry(cfg, syms, true, e, s1).0);
    }
  }

  /** Emission succeeds exactly when every entry can be emitted and data comes first. */
  lemma EmitAllExact(cfg: Config, syms: Symbols, nodes: seq<Entry>, s: State)
    requires Wf(nodes) && Fresh(s)
    ensures EmitAll(cfg, syms, true, nodes, s).1 <==> AllEmittable(cfg, syms, nodes) && DataFirst(nodes)
  {
    hide EmitFrom, Chunk, WfInstr, SectBytes, AllBytes, DataFirst;
    if EmitAll(cfg, syms, true, nodes, s).1 {
      EmitAllWrites(cfg, syms, nodes, s);
    } else if AllEmittable(cfg, syms, nodes) && DataFirst(nodes) {
      if nodes == [] {
        EmitFromSucceeds(cfg, syms, nodes, s);
      } else {
        DataFirstTail(nodes);
        EmitFromSucceeds(cfg, syms, nodes, EmitSection(s, nodes[0].sect).0);
      }
    }
  }

  // ------------------------------------------------- the compressed-code flag

  /** The entry is emitted as a 16-bit instruction of the text section. */
  predicate HalfText(cfg: Config, syms: Symbols, e: Entry)
    requires e.kind == KInstr ==> WfInstr(e)
  {
    e.sect == Text && e.kind == KInstr && NodeCode(cfg, syms, e).Half?
  }

  predicate AnyHalf(cfg: Config, syms: Symbols, nodes: seq<Entry>)
    requires Wf(nodes)
  {
    exists e :: e in nodes && HalfText(cfg, syms, e)
  }

  lemma EntryMarks(cfg: Config, syms: Symbols, e: Entry, s: State)
    requires e.kind == KInstr ==> WfInstr(e)
    requires e.sect == s.sect == s.sink.cur && s.sink.fmt == Elf && EmitEntry(cfg, syms, true, e, s).1 && !s.hadError
    ensures var s' := EmitEntry(cfg, syms, true, e, s).0;
            && s' == s.(sink := s'.sink) && s'.sink.cur == s.sink.cur && s'.sink.fmt == Elf
            && (s'.sink.rvc <==> s.sink.rvc || HalfText(cfg, syms, e))
  {
    hide NodeCode, LeBytes, HalfBytes, WordBytes, WfInstr;
  }

  lemma {:induction false} EmitFromMarks(cfg: Config, syms: Symbols, nodes: seq<Entry>, s: State)
    requires Wf(nodes) && !s.hadError && s.sink.cur == s.sect && s.sink.fmt == Elf && EmitFrom(cfg, syms, true, nodes, s).1
    ensures EmitFrom(cfg, syms, true, nodes, s).0.sink.rvc <==> s.sink.rvc || AnyHalf(cfg, syms, nodes)
    decreases |nodes|
  {
    hide EmitEntry, HalfText, WfInstr;
    if nodes != [] {
      var e := nodes[0];
      assert e in nodes && forall x :: x in nodes[1..] ==> x in nodes;
      assert forall x :: x in nodes ==> x == e || x in nodes[1..];
      var s1 := (if e.sect != s.sect then EmitSection(s, e.sect) else (s, true)).0;
      EntryMarks(cfg, syms, e, s1);
      EmitFromMarks(cfg, syms, nodes[1..], EmitEntry(cfg, syms, true, e, s1).0);
    }
  }

  /** After a successful ELF run the sink's flag, which becomes EF_RISCV_RVC, is raised exactly
      if some instruction of the text section was emitted in 16 bits. */
  lemma EmitAllMarks(cfg: Config, syms: Symbols, nodes: seq<Entry>, s: State)
    requires Wf(nodes) && Fresh(s) && s.sink.fmt == Elf && !s.sink.rvc && EmitAll(cfg, syms, true, nodes, s).1
    ensures EmitAll(cfg, syms, true, nodes, s).0.sink.rvc <==> AnyHalf(cfg, syms, nodes)
  {
    hide EmitFrom, HalfText, WfInstr;
    if nodes == [] {
      EmitFromMarks(cfg, syms, nodes, s);
    } else {
      EmitFromMarks(cfg, syms, nodes, EmitSection(s, nodes[0].sect).0);
    }
  }
}
