/** The assembler end to end (`main.c`): items in, output file out. */
module Driver {
  import opened Isa
  import opened Ir
  import opened Bytes
  import opened Symtab
  import opened Out
  import Layout
  import opened Emit
  import opened Survive
  import opened Agree
  import opened Disasm
  import opened Whole
  import opened Programs
  import opened Elf
  import P1 = Pass1
  import P2 = Pass2

  lemma {:induction false} EmitFromClean(cfg: Config, syms: Layout.Symbols, nodes: seq<Entry>, s: State)
    requires Wf(nodes)
    ensures EmitFrom(cfg, syms, true, nodes, s).1 ==> !EmitFrom(cfg, syms, true, nodes, s).0.hadError
    decreases |nodes|
  {
    hide EmitEntry, EmitSection, WfInstr;
    if nodes != [] {
      var s1 := (if nodes[0].sect != s.sect then EmitSection(s, nodes[0].sect) else (s, true)).0;
      assert nodes[0] in nodes && forall x :: x in nodes[1..] ==> x in nodes;
      EmitFromClean(cfg, syms, nodes[1..], EmitEntry(cfg, syms, true, nodes[0], s1).0);
    }
  }

  lemma AssembleClean(cfg: Config, fmt: OutFormat, items: seq<P1.Item>)
    requires P1.AllProper(items)
    ensures Assemble(cfg, fmt, items).1 ==> !Assemble(cfg, fmt, items).0.hadError
  {
    hide EmitFrom, P1.After, Final;
    var p, syms, s := Final(cfg, items), P1.After(items).syms, Start(fmt);
    EmitFromClean(cfg, syms, p, s);
    if p != [] { EmitFromClean(cfg, syms, p, EmitSection(s, p[0].sect).0); }
  }

  /** Pass 2 into fresh sinks. */
  method RunSecond(cfg: Config, fmt: OutFormat, ir: Buffer, symtab: Table, out: Output) returns (ok: bool)
    requires symtab.Valid() && out.Valid() && {ir as object, symtab, symtab.table} !! out.Repr()
    requires KeptAll(cfg, ir.nodes) && out.View() == Start(fmt).sink
    modifies ir, out.Repr()
    ensures out.Valid() && symtab.M == old(symtab.M) && Wf(Prepare(cfg, symtab.M, old(ir.nodes)))
    ensures var (s, good) := EmitAll(cfg, symtab.M, true, Prepare(cfg, symtab.M, old(ir.nodes)), Start(fmt));
            out.View() == s.sink && ok == (good && !s.hadError)
  {
    hide Prepare, EmitAll, KeptAll, Wf, Output.View, Output.Valid, Table.Valid;
    var second := new P2.Pass(cfg, ir, symtab, out, true);
    var good := second.Run();
    ok := good && !second.hadError;
  }

  /** Pass 1, then pass 2. */
  method RunPasses(cfg: Config, fmt: OutFormat, items: seq<P1.Item>, fp: File) returns (out: Output, ok: bool)
    requires P1.AllProper(items) && fp.content == [] && fp.pos == 0
    modifies fp
    ensures out.Valid() && out.fp == fp && out.fmt == fmt && out.xlen == cfg.xlen
    ensures ok == Assemble(cfg, fmt, items).1
    ensures ok ==> out.View() == Assemble(cfg, fmt, items).0.sink
  {
    hide P1.After, P1.AllProper, Prepare, EmitAll, KeptAll, Wf, Output.View, Output.Valid, Table.Valid;
    PassOneKept(cfg, items);
    AssembleClean(cfg, fmt, items);
    var first := new P1.Assembler();
    first.Run(items);
    out := new Output(fmt, cfg.xlen, fp);
    ok := RunSecond(cfg, fmt, first.ir, first.symtab, out);
  }

  /** Both passes and the file. A run that fails may leave a partial file, as the source does. */
  method AssembleFile(cfg: Config, fmt: OutFormat, items: seq<P1.Item>, fp: File) returns (ok: bool)
    requires P1.AllProper(items) && fp.content == [] && fp.pos == 0
    modifies fp
    ensures ok <==> Assemble(cfg, fmt, items).1
    ensures ok && fmt == Raw ==> Assemble(cfg, fmt, items).0.sink.raw == Some(fp.content)
    ensures ok && fmt == Elf ==>
            var s := Assemble(cfg, fmt, items).0.sink;
            Written(fp.content, Blocks(cfg.xlen, s.text, s.data, s.rvc, 0))
  {
    hide Assemble, Blocks, PatchAll, P1.AllProper;
    var out, good := RunPasses(cfg, fmt, items, fp);
    ghost var was := fp.content;
    var finished := Finish(out, 0);
    ok := good && finished;
  }

  /** The file is some earlier content with these writes made over it. */
  ghost predicate Written(f: seq<Byte>, blocks: seq<Block>) {
    Placed(blocks) && exists f0 :: f == PatchAll(f0, blocks)
  }

  /** The finished ELF file, read by its headers, is an executable that loads the text and data of
      the program and starts at its text; the text disassembles to the program, and EF_RISCV_RVC
      is set exactly if the text holds a 16-bit instruction. */
  lemma FileReadsBack(cfg: Config, items: seq<P1.Item>, f: seq<Byte>)
    requires P1.AllProper(items) && Good(cfg, Elf, items)
    requires var s := Assemble(cfg, Elf, items).0.sink; Fits(cfg.xlen, s.text, s.data) && Written(f, Blocks(cfg.xlen, s.text, s.data, s.rvc, 0))
    ensures var s := Assemble(cfg, Elf, items).0.sink;
            && ReadsBack(f, cfg.xlen, s.text, s.data, s.rvc, 0) && Executable(f, cfg.xlen, s.text, s.data, s.rvc, 0)
            && AllEmittable(cfg, P1.After(items).syms, Final(cfg, items)) && s.data == DataOf(cfg, items) && s.text == TextOf(cfg, items)
            && (s.rvc <==> AnyHalf(cfg, P1.After(items).syms, Final(cfg, items)))
            && Lists(P1.After(items).syms, Final(cfg, items), Read(cfg.xlen, s.text, 0))
  {
    hide Assemble, Blocks, PatchAll, Fits, ReadsBack, Executable, P1.After, Final, Lists, TextOf, DataOf, Good, LaidOut, AllEmittable, AnyHalf, PairwiseApart;
    assert Assemble(cfg, Elf, items).1 by { GoodSucceeds(cfg, items); }
    var s := Assemble(cfg, Elf, items).0.sink;
    var b := Blocks(cfg.xlen, s.text, s.data, s.rvc, 0);
    var f0 :| f == PatchAll(f0, b);
    EntryZero(cfg.xlen);
    ElfReadsBack(cfg.xlen, s.text, s.data, s.rvc, 0, f0);
    LoadsAndStarts(cfg.xlen, s.text, s.data, s.rvc, 0, f0);
    GoodRun(cfg, Elf, items);
    ProgramReadsBack(cfg, Elf, items);
    FlagMeaning(cfg, items);
  }

  lemma FlagMeaning(cfg: Config, items: seq<P1.Item>)
    requires P1.AllProper(items) && Assemble(cfg, Elf, items).1
    ensures Assemble(cfg, Elf, items).0.sink.rvc <==> AnyHalf(cfg, P1.After(items).syms, Final(cfg, items))
  {
    hide P1.After, Final, EmitAll, AnyHalf;
    EmitAllMarks(cfg, P1.After(items).syms, Final(cfg, items), Start(Elf));
  }

  lemma GoodSucceeds(cfg: Config, items: seq<P1.Item>)
    requires Good(cfg, Elf, items)
    ensures P1.AllProper(items) && Assemble(cfg, Elf, items).1
  {}

  lemma EntryZero(xlen: Xlen)
    ensures 0 < Limit(xlen)
  {}
}
