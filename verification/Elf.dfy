/** The ELF writer of `out.c` (`out_finish`), and a reader written from the System V gABI
    (chapters 4 and 5) that recovers what was written. */
module Elf {
  import opened Isa
  import opened Bits
  import opened Align
  import opened Bytes
  import opened Out

  // ------------------------------------------------- structures as the writer lays them down

  datatype Field = Field(width: nat, value: int)

  function Serialize(fs: seq<Field>): seq<Byte> {
    if fs == [] then [] else LeBytes(fs[0].value, fs[0].width) + Serialize(fs[1..])
  }

  datatype Phdr = Phdr(pType: int, flags: int, offset: int, vaddr: int, paddr: int, filesz: int, memsz: int, align: int)

  datatype Shdr = Shdr(name: int, shType: int, flags: int, addr: int, offset: int, size: int, link: int, info: int,
                       addralign: int, entsize: int)

  datatype Ehdr = Ehdr(xlen: Xlen, eType: int, machine: int, version: int, entry: int, phoff: int, shoff: int, flags: int,
                       ehsize: int, phentsize: int, phnum: int, shentsize: int, shnum: int, shstrndx: int)

  /** The width of an address or offset. */
  function Wide(xlen: Xlen): nat { if xlen == RV64 then 8 else 4 }

  function PhdrFields(xlen: Xlen, p: Phdr): seq<Field> {
    if xlen == RV64 then
      [Field(4, p.pType), Field(4, p.flags), Field(8, p.offset), Field(8, p.vaddr), Field(8, p.paddr), Field(8, p.filesz),
       Field(8, p.memsz), Field(8, p.align)]
    else
      [Field(4, p.pType), Field(4, p.offset), Field(4, p.vaddr), Field(4, p.paddr), Field(4, p.filesz), Field(4, p.memsz),
       Field(4, p.flags), Field(4, p.align)]
  }

  function ShdrFields(xlen: Xlen, s: Shdr): seq<Field> {
    var n := Wide(xlen);
    [Field(4, s.name), Field(4, s.shType), Field(n, s.flags), Field(n, s.addr), Field(n, s.offset), Field(n, s.size),
     Field(4, s.link), Field(4, s.info), Field(n, s.addralign), Field(n, s.entsize)]
  }

  function EhdrFields(h: Ehdr): seq<Field> {
    var n := Wide(h.xlen);
    [Field(4, 0x464C_457F), Field(1, if h.xlen == RV64 then 2 else 1), Field(1, 1), Field(1, 1), Field(8, 0), Field(1, 0),
     Field(2, h.eType), Field(2, h.machine), Field(4, h.version), Field(n, h.entry), Field(n, h.phoff), Field(n, h.shoff),
     Field(4, h.flags), Field(2, h.ehsize), Field(2, h.phentsize), Field(2, h.phnum), Field(2, h.shentsize),
     Field(2, h.shnum), Field(2, h.shstrndx)]
  }

  function EhdrSize(xlen: Xlen): nat { if xlen == RV64 then 64 else 52 }
  function PhdrSize(xlen: Xlen): nat { if xlen == RV64 then 56 else 32 }
  /** The size of a table of k rows. */
  function Rows(size: nat, k: int): int { size * k }

  function ShdrSize(xlen: Xlen): nat { if xlen == RV64 then 64 else 40 }

  // ------------------------------------------------- the plan of the file

  const TEXT_BASE := 0x10_0000
  const DATA_BASE := 0x20_0000

  /** `align_up_u32` on the truncated offset or `align_up_u64`; alignments are powers of two. */
  function AlignOff(xlen: Xlen, off: int, pow2: nat): int
    requires pow2 <= 31
  {
    if xlen == RV32 then AlignToPow2(U32(off), pow2)
    else
      var x := off + (Pow2(pow2) - 1);
      (x - x % Pow2(pow2)) % 0x1_0000_0000_0000_0000
  }

  const TEXT_NAME: seq<Byte> := [0x2E, 0x74, 0x65, 0x78, 0x74]
  const DATA_NAME: seq<Byte> := [0x2E, 0x64, 0x61, 0x74, 0x61]
  const SHSTR_NAME: seq<Byte> := [0x2E, 0x73, 0x68, 0x73, 0x74, 0x72, 0x74, 0x61, 0x62]

  /** What `out_finish` computes before it writes. */
  datatype Plan = Plan(textOff: int, dataOff: int, shstrOff: int, shoff: int, shstr: seq<Byte>, nmText: int, nmData: int, nmShstr: int,
                       phnum: int, shnum: int)

  function PlanOf(xlen: Xlen, text: seq<Byte>, data: seq<Byte>): Plan {
    var phnum := (if text != [] then 1 else 0) + (if data != [] then 1 else 0);
    var off0 := EhdrSize(xlen) + Rows(PhdrSize(xlen), phnum);
    var textOff := if text != [] then AlignOff(xlen, off0, 12) else 0;
    var off1 := if text != [] then textOff + |text| else off0;
    var dataOff := if data != [] then AlignOff(xlen, off1, 12) else 0;
    var off2 := if data != [] then dataOff + |data| else off1;
    var names := [0] + (if text != [] then TEXT_NAME + [0] else []);
    var names' := names + (if data != [] then DATA_NAME + [0] else []);
    var shstr := names' + SHSTR_NAME + [0];
    var shoff := AlignOff(xlen, off2 + |shstr|, if xlen == RV64 then 3 else 2);
    Plan(textOff, dataOff, off2, shoff, shstr, if text != [] then 1 else 0, if data != [] then |names| else 0, |names'|, phnum, 2 + phnum)
  }

  function TextPhdr(p: Plan, size: int): Phdr { Phdr(1, 5, p.textOff, TEXT_BASE, TEXT_BASE, size, size, 0x1000) }
  function DataPhdr(p: Plan, size: int): Phdr { Phdr(1, 6, p.dataOff, DATA_BASE, DATA_BASE, size, size, 0x1000) }
  function NullShdr(): Shdr { Shdr(0, 0, 0, 0, 0, 0, 0, 0, 0, 0) }
  function TextShdr(p: Plan, size: int): Shdr { Shdr(p.nmText, 1, 6, TEXT_BASE, p.textOff, size, 0, 0, 2, 0) }
  function DataShdr(p: Plan, size: int): Shdr { Shdr(p.nmData, 1, 3, DATA_BASE, p.dataOff, size, 0, 0, 4, 0) }
  function NamesShdr(p: Plan): Shdr { Shdr(p.nmShstr, 3, 0, 0, p.shstrOff, |p.shstr|, 0, 0, 1, 0) }

  function EhdrOf(xlen: Xlen, p: Plan, text: seq<Byte>, rvc: bool, entry: int): Ehdr {
    var start := if entry != 0 then entry else if text != [] then TEXT_BASE else DATA_BASE;
    Ehdr(xlen, 2, 243, 1, start, if p.phnum > 0 then EhdrSize(xlen) else 0, p.shoff, if rvc then 1 else 0,
         EhdrSize(xlen), PhdrSize(xlen), p.phnum, ShdrSize(xlen), p.shnum, p.shnum - 1)
  }

  /** A run of bytes to be written at an offset. */
  datatype Block = Block(off: int, bytes: seq<Byte>)

  function PhdrBytes(xlen: Xlen, p: Phdr): seq<Byte> { Serialize(PhdrFields(xlen, p)) }
  function ShdrBytes(xlen: Xlen, s: Shdr): seq<Byte> { Serialize(ShdrFields(xlen, s)) }

  /** The writes of `out_finish` in order; absent ones are empty. */
  function Blocks(xlen: Xlen, text: seq<Byte>, data: seq<Byte>, rvc: bool, entry: int): seq<Block> {
    var p := PlanOf(xlen, text, data);
    var n := ShdrSize(xlen);
    var dataIndex := if text != [] then 2 else 1;
    [Block(p.textOff, text),
     Block(p.dataOff, data),
     Block(p.shstrOff, p.shstr),
     Block(EhdrSize(xlen), (if text != [] then PhdrBytes(xlen, TextPhdr(p, |text|)) else []) +
                           (if data != [] then PhdrBytes(xlen, DataPhdr(p, |data|)) else [])),
     Block(p.shoff, ShdrBytes(xlen, NullShdr())),
     Block(p.shoff + n, if text != [] then ShdrBytes(xlen, TextShdr(p, |text|)) else []),
     Block(p.shoff + Rows(n, dataIndex), if data != [] then ShdrBytes(xlen, DataShdr(p, |data|)) else []),
     Block(p.shoff + Rows(n, p.shnum - 1), ShdrBytes(xlen, NamesShdr(p))),
     Block(0, Serialize(EhdrFields(EhdrOf(xlen, p, text, rvc, entry))))]
  }

  predicate Placed(blocks: seq<Block>) {
    forall i :: 0 <= i < |blocks| ==> blocks[i].off >= 0
  }

  function PatchAll(f: seq<Byte>, blocks: seq<Block>): seq<Byte>
    requires Placed(blocks)
    decreases |blocks|
  {
    if blocks == [] then f else PatchAll(Patch(f, blocks[0].off, blocks[0].bytes), blocks[1..])
  }

  // ------------------------------------------------- disjoint writes all survive

  predicate Apart(a: Block, b: Block) {
    a.bytes == [] || b.bytes == [] || a.off + |a.bytes| <= b.off || b.off + |b.bytes| <= a.off
  }

  predicate PairwiseApart(blocks: seq<Block>) {
    forall i, j :: 0 <= i < j < |blocks| ==> Apart(blocks[i], blocks[j])
  }

  /** The file has these bytes at this offset. */
  predicate HasAt(f: seq<Byte>, off: int, bytes: seq<Byte>) {
    bytes == [] || (0 <= off && off + |bytes| <= |f| && f[off..off + |bytes|] == bytes)
  }

  lemma PatchHas(f: seq<Byte>, b: Block)
    requires b.off >= 0
    ensures HasAt(Patch(f, b.off, b.bytes), b.off, b.bytes)
  {
    if b.bytes != [] {
      var r := Patch(f, b.off, b.bytes);
      forall i | 0 <= i < |b.bytes| ensures r[b.off..b.off + |b.bytes|][i] == b.bytes[i] { PatchAt(f, b.off, b.bytes, b.off + i); }
    }
  }

  lemma PatchKeeps(f: seq<Byte>, b: Block, off: int, bytes: seq<Byte>)
    requires b.off >= 0 && HasAt(f, off, bytes) && Apart(Block(off, bytes), b)
    ensures HasAt(Patch(f, b.off, b.bytes), off, bytes)
  {
    if b.bytes != [] && bytes != [] {
      var r := Patch(f, b.off, b.bytes);
      forall i | 0 <= i < |bytes| ensures r[off..off + |bytes|][i] == bytes[i] {
        PatchAt(f, b.off, b.bytes, off + i);
        assert f[off..off + |bytes|][i] == bytes[i];
      }
    }
  }

  lemma {:induction false} AllKeep(f: seq<Byte>, blocks: seq<Block>, off: int, bytes: seq<Byte>)
    requires Placed(blocks) && HasAt(f, off, bytes) && forall i :: 0 <= i < |blocks| ==> Apart(Block(off, bytes), blocks[i])
    ensures HasAt(PatchAll(f, blocks), off, bytes)
    decreases |blocks|
  {
    hide HasAt, Apart;
    if blocks != [] {
      PatchKeeps(f, blocks[0], off, bytes);
      AllKeep(Patch(f, blocks[0].off, blocks[0].bytes), blocks[1..], off, bytes);
    }
  }

  /** Writes at pairwise disjoint ranges are all found in the finished file. */
  lemma {:induction false} BlockSurvives(f: seq<Byte>, blocks: seq<Block>, k: nat)
    requires Placed(blocks) && PairwiseApart(blocks) && k < |blocks|
    ensures HasAt(PatchAll(f, blocks), blocks[k].off, blocks[k].bytes)
    decreases |blocks|
  {
    hide HasAt, Apart;
    var f' := Patch(f, blocks[0].off, blocks[0].bytes);
    if k == 0 {
      PatchHas(f, blocks[0]);
      assert Block(blocks[0].off, blocks[0].bytes) == blocks[0];
      AllKeep(f', blocks[1..], blocks[0].off, blocks[0].bytes);
    } else {
      BlockSurvives(f', blocks[1..], k - 1);
    }
  }

  // ------------------------------------------------- where the blocks lie

  function Limit(xlen: Xlen): int { if xlen == RV64 then 0x1_0000_0000_0000_0000 else TWO32 }

  /** The contents leave room for headers and padding within the class's offsets. */
  predicate Fits(xlen: Xlen, text: seq<Byte>, data: seq<Byte>) {
    |text| + |data| + 0x4000 <= Limit(xlen)
  }

  lemma AlignOff32(off: int, pow2: nat)
    requires 0 <= off && pow2 <= 12 && off + 0x1000 <= TWO32 && Pow2(pow2) <= 0x1000
    ensures var a := AlignOff(RV32, off, pow2); off <= a < off + Pow2(pow2) && a % Pow2(pow2) == 0
  {
    hide AlignToPow2, Pow2, ModPad;
    var pad := PadReaches(off, pow2);
    AlignAddsPadding(off, pow2);
    Small(off, TWO32);
    Small(off + pad, TWO32);
    assert AlignOff(RV32, off, pow2) == off + pad;
    hide AlignOff;
  }

  lemma RoundIs(off: int, a: int, pad: int)
    requires a > 0 && pad == (a - off % a) % a
    ensures (off + (a - 1)) - (off + (a - 1)) % a == off + pad
  {
    RoundUp(off, a);
  }

  lemma AlignOff64(off: int, pow2: nat)
    requires 0 <= off && pow2 <= 12 && off + 0x1000 <= Limit(RV64) && Pow2(pow2) <= 0x1000
    ensures var a := AlignOff(RV64, off, pow2); off <= a < off + Pow2(pow2) && a % Pow2(pow2) == 0
  {
    hide Pow2, ModPad;
    var pad := PadReaches(off, pow2);
    assert pad == (Pow2(pow2) - off % Pow2(pow2)) % Pow2(pow2) by { PadIs(off, pow2); }
    RoundIs(off, Pow2(pow2), pad);
    Small(off + pad, Limit(RV64));
    assert AlignOff(RV64, off, pow2) == off + pad;
    hide AlignOff;
  }

  lemma PadIs(off: int, pow2: nat)
    ensures ModPad(off, pow2) == (Pow2(pow2) - off % Pow2(pow2)) % Pow2(pow2)
  {
    hide Pow2;
  }

  lemma AlignOffValue(xlen: Xlen, off: int, pow2: nat)
    requires 0 <= off && pow2 <= 12 && off + 0x1000 <= Limit(xlen)
    ensures var a := AlignOff(xlen, off, pow2); off <= a < off + Pow2(pow2) && a % Pow2(pow2) == 0
  {
    hide AlignOff, Pow2;
    SmallPower(pow2);
    if xlen == RV32 { AlignOff32(off, pow2); } else { AlignOff64(off, pow2); }
  }

  lemma Small(n: int, m: int)
    requires 0 <= n < m
    ensures n % m == n
  {}

  lemma SmallPower(pow2: nat)
    requires pow2 <= 12
    ensures Pow2(pow2) <= 0x1000
  {
    PowDivides(pow2, 12);
    PowerTable();
    MulMono(Pow2(pow2), 1, Pow2(12 - pow2));
  }

  /** The widths of the first i fields. */
  function Sum(fs: seq<Field>, i: nat): nat
    requires i <= |fs|
  {
    if i == 0 then 0 else Sum(fs, i - 1) + fs[i - 1].width
  }

  lemma {:induction false} SumTail(fs: seq<Field>, i: nat)
    requires i < |fs|
    ensures Sum(fs, i + 1) == fs[0].width + Sum(fs[1..], i)
    decreases i
  {
    if i == 0 { assert Sum(fs, 1) == Sum(fs, 0) + fs[0].width; } else { SumTail(fs, i - 1); }
  }

  lemma {:induction false} SerializeSize(fs: seq<Field>)
    ensures |Serialize(fs)| == Sum(fs, |fs|)
    decreases |fs|
  {
    if fs != [] {
      SumTail(fs, |fs| - 1);
      SerializeSize(fs[1..]);
    }
  }

  /** The end of the headers, and of the text. */
  function HeadEnd(xlen: Xlen, p: Plan): int { EhdrSize(xlen) + Rows(PhdrSize(xlen), p.phnum) }
  function TextEnd(xlen: Xlen, p: Plan, text: seq<Byte>): int { if text != [] then p.textOff + |text| else HeadEnd(xlen, p) }

  /** The order of the parts. */
  lemma PlanOrder(xlen: Xlen, text: seq<Byte>, data: seq<Byte>)
    requires Fits(xlen, text, data)
    ensures var p := PlanOf(xlen, text, data);
            && (text != [] ==> HeadEnd(xlen, p) <= p.textOff <= HeadEnd(xlen, p) + 0x1000)
            && (data != [] ==> TextEnd(xlen, p, text) <= p.dataOff <= TextEnd(xlen, p, text) + 0x1000)
            && p.shstrOff == (if data != [] then p.dataOff + |data| else TextEnd(xlen, p, text))
            && p.shstrOff + |p.shstr| <= p.shoff <= p.shstrOff + |p.shstr| + 8
            && |p.shstr| <= 23 && 0 <= p.phnum <= 2 && p.shnum == 2 + p.phnum
  {
    hide AlignOff, Pow2;
    PowerTable();
    var p := PlanOf(xlen, text, data);
    if text != [] { AlignOffValue(xlen, HeadEnd(xlen, p), 12); }
    if data != [] { AlignOffValue(xlen, TextEnd(xlen, p, text), 12); }
    AlignOffValue(xlen, p.shstrOff + |p.shstr|, if xlen == RV64 then 3 else 2);
  }

  /** Contents start on a page. */
  lemma PlanAligned(xlen: Xlen, text: seq<Byte>, data: seq<Byte>)
    requires Fits(xlen, text, data)
    ensures var p := PlanOf(xlen, text, data);
            (text != [] ==> p.textOff % 0x1000 == 0) && (data != [] ==> p.dataOff % 0x1000 == 0)
  {
    hide AlignOff, Pow2;
    PlanOrder(xlen, text, data);
    PowerTable();
    var p := PlanOf(xlen, text, data);
    if text != [] { AlignOffValue(xlen, HeadEnd(xlen, p), 12); }
    if data != [] { AlignOffValue(xlen, TextEnd(xlen, p, text), 12); }
  }

  // ------------------------------------------------- reading structures

  /** The number in w bytes at an offset, or -1 beyond the end. */
  function Get(f: seq<Byte>, off: int, w: nat): int {
    if 0 <= off && off + w <= |f| then FromLe(f[off..off + w]) else -1
  }

  lemma {:induction false} FieldAt(f: seq<Byte>, off: nat, fs: seq<Field>, i: nat)
    requires off + |Serialize(fs)| <= |f| && f[off..off + |Serialize(fs)|] == Serialize(fs)
    requires i < |fs| && 0 <= fs[i].value < Pow256(fs[i].width)
    ensures Get(f, off + Sum(fs, i), fs[i].width) == fs[i].value
    decreases i
  {
    var v, w, rest := fs[0].value, fs[0].width, Serialize(fs[1..]);
    Front(f, off, LeBytes(v, w), rest);
    if i == 0 {
      LeRoundTrip(v, w);
      Small(v, Pow256(w));
    } else {
      FieldAt(f, off + w, fs[1..], i - 1);
      SumTail(fs, i - 1);
    }
  }

  lemma Front(f: seq<Byte>, off: nat, a: seq<Byte>, b: seq<Byte>)
    requires off + |a + b| <= |f| && f[off..off + |a + b|] == a + b
    ensures f[off..off + |a|] == a && f[off + |a|..off + |a| + |b|] == b
  {
    assert f[off..off + |a|] == f[off..off + |a + b|][..|a|];
    assert f[off + |a|..off + |a| + |b|] == f[off..off + |a + b|][|a|..];
  }

  predicate FitFields(fs: seq<Field>) {
    forall i :: 0 <= i < |fs| ==> 0 <= fs[i].value < Pow256(fs[i].width)
  }

  /** All fields of a serialized structure, each where the widths before it end. */
  lemma FieldsAt(f: seq<Byte>, off: nat, fs: seq<Field>)
    requires HasAt(f, off, Serialize(fs)) && Serialize(fs) != [] && FitFields(fs)
    ensures forall i :: 0 <= i < |fs| ==> Get(f, off + Sum(fs, i), fs[i].width) == fs[i].value
  {
    hide Sum, Serialize, Get, Pow256;
    forall i | 0 <= i < |fs| ensures Get(f, off + Sum(fs, i), fs[i].width) == fs[i].value {
      assert 0 <= fs[i].value < Pow256(fs[i].width);
      FieldAt(f, off, fs, i);
    }
  }

  /** A program header of the class at an offset (chapter 5). */
  function ReadPhdr(xlen: Xlen, f: seq<Byte>, o: int): Phdr {
    if xlen == RV64 then
      Phdr(Get(f, o, 4), Get(f, o + 4, 4), Get(f, o + 8, 8), Get(f, o + 16, 8), Get(f, o + 24, 8), Get(f, o + 32, 8),
           Get(f, o + 40, 8), Get(f, o + 48, 8))
    else
      Phdr(Get(f, o, 4), Get(f, o + 24, 4), Get(f, o + 4, 4), Get(f, o + 8, 4), Get(f, o + 12, 4), Get(f, o + 16, 4),
           Get(f, o + 20, 4), Get(f, o + 28, 4))
  }

  /** A section header of the class at an offset (chapter 4). */
  function ReadShdr(xlen: Xlen, f: seq<Byte>, o: int): Shdr {
    if xlen == RV64 then
      Shdr(Get(f, o, 4), Get(f, o + 4, 4), Get(f, o + 8, 8), Get(f, o + 16, 8), Get(f, o + 24, 8), Get(f, o + 32, 8),
           Get(f, o + 40, 4), Get(f, o + 44, 4), Get(f, o + 48, 8), Get(f, o + 56, 8))
    else
      Shdr(Get(f, o, 4), Get(f, o + 4, 4), Get(f, o + 8, 4), Get(f, o + 12, 4), Get(f, o + 16, 4), Get(f, o + 20, 4),
           Get(f, o + 24, 4), Get(f, o + 28, 4), Get(f, o + 32, 4), Get(f, o + 36, 4))
  }

  /** The ELF header (chapter 4); None without the magic number or for another class,
      byte order or version. */
  function ReadEhdr(f: seq<Byte>): Option<Ehdr> {
    if Get(f, 0, 1) != 0x7F || Get(f, 1, 1) != 0x45 || Get(f, 2, 1) != 0x4C || Get(f, 3, 1) != 0x46 then None
    else if Get(f, 5, 1) != 1 || Get(f, 6, 1) != 1 then None
    else if Get(f, 4, 1) == 2 then
      Some(Ehdr(RV64, Get(f, 16, 2), Get(f, 18, 2), Get(f, 20, 4), Get(f, 24, 8), Get(f, 32, 8), Get(f, 40, 8), Get(f, 48, 4),
                Get(f, 52, 2), Get(f, 54, 2), Get(f, 56, 2), Get(f, 58, 2), Get(f, 60, 2), Get(f, 62, 2)))
    else if Get(f, 4, 1) == 1 then
      Some(Ehdr(RV32, Get(f, 16, 2), Get(f, 18, 2), Get(f, 20, 4), Get(f, 24, 4), Get(f, 28, 4), Get(f, 32, 4), Get(f, 36, 4),
                Get(f, 40, 2), Get(f, 42, 2), Get(f, 44, 2), Get(f, 46, 2), Get(f, 48, 2), Get(f, 50, 2)))
    else None
  }

  /** Every field fits the width the class gives it. */
  predicate WordFits(v: int) { 0 <= v < TWO32 }
  predicate WideFits(xlen: Xlen, v: int) { 0 <= v < Limit(xlen) }

  predicate PhdrFits(xlen: Xlen, p: Phdr) {
    && WordFits(p.pType) && WordFits(p.flags) && WideFits(xlen, p.offset) && WideFits(xlen, p.vaddr) && WideFits(xlen, p.paddr)
    && WideFits(xlen, p.filesz) && WideFits(xlen, p.memsz) && WideFits(xlen, p.align)
  }

  predicate ShdrFits(xlen: Xlen, s: Shdr) {
    && WordFits(s.name) && WordFits(s.shType) && WideFits(xlen, s.flags) && WideFits(xlen, s.addr) && WideFits(xlen, s.offset)
    && WideFits(xlen, s.size) && WordFits(s.link) && WordFits(s.info) && WideFits(xlen, s.addralign) && WideFits(xlen, s.entsize)
  }

  predicate EhdrFits(h: Ehdr) {
    && 0 <= h.eType < 0x1_0000 && 0 <= h.machine < 0x1_0000 && WordFits(h.version)
    && WideFits(h.xlen, h.entry) && WideFits(h.xlen, h.phoff) && WideFits(h.xlen, h.shoff) && WordFits(h.flags)
    && 0 <= h.ehsize < 0x1_0000 && 0 <= h.phentsize < 0x1_0000 && 0 <= h.phnum < 0x1_0000
    && 0 <= h.shentsize < 0x1_0000 && 0 <= h.shnum < 0x1_0000 && 0 <= h.shstrndx < 0x1_0000
  }

  /** Offsets of eight and ten fields. */
  lemma Sums8(fs: seq<Field>)
    requires |fs| == 8
    ensures Sum(fs, 0) == 0 && Sum(fs, 1) == fs[0].width && Sum(fs, 2) == Sum(fs, 1) + fs[1].width
    ensures Sum(fs, 3) == Sum(fs, 2) + fs[2].width && Sum(fs, 4) == Sum(fs, 3) + fs[3].width
    ensures Sum(fs, 5) == Sum(fs, 4) + fs[4].width && Sum(fs, 6) == Sum(fs, 5) + fs[5].width
    ensures Sum(fs, 7) == Sum(fs, 6) + fs[6].width && Sum(fs, 8) == Sum(fs, 7) + fs[7].width
  {}

  lemma PhdrSums(xlen: Xlen, p: Phdr) returns (fs: seq<Field>)
    ensures fs == PhdrFields(xlen, p) && |fs| == 8 && |PhdrBytes(xlen, p)| == PhdrSize(xlen)
    ensures Sum(fs, 0) == 0 && Sum(fs, 1) == 4 && Sum(fs, 2) == 8
    ensures xlen == RV64 ==> Sum(fs, 3) == 16 && Sum(fs, 4) == 24 && Sum(fs, 5) == 32 && Sum(fs, 6) == 40 && Sum(fs, 7) == 48
    ensures xlen == RV32 ==> Sum(fs, 3) == 12 && Sum(fs, 4) == 16 && Sum(fs, 5) == 20 && Sum(fs, 6) == 24 && Sum(fs, 7) == 28
  {
    hide Sum, Serialize;
    fs := PhdrFields(xlen, p);
    Sums8(fs);
    SerializeSize(fs);
  }

  /** A program header reads back. */
  lemma PhdrReadsBack(xlen: Xlen, f: seq<Byte>, off: nat, p: Phdr)
    requires PhdrFits(xlen, p) && HasAt(f, off, PhdrBytes(xlen, p))
    ensures ReadPhdr(xlen, f, off) == p
  {
    hide Sum, Serialize, Pow256, Get, HasAt;
    var fs := PhdrSums(xlen, p);
    PowTable();
    FieldsAt(f, off, fs);
  }

  lemma ShdrSums(xlen: Xlen, s: Shdr) returns (fs: seq<Field>)
    ensures fs == ShdrFields(xlen, s) && |fs| == 10 && |ShdrBytes(xlen, s)| == ShdrSize(xlen)
    ensures Sum(fs, 0) == 0 && Sum(fs, 1) == 4 && Sum(fs, 2) == 8
    ensures xlen == RV64 ==> Sum(fs, 3) == 16 && Sum(fs, 4) == 24 && Sum(fs, 5) == 32 && Sum(fs, 6) == 40 && Sum(fs, 7) == 44
                             && Sum(fs, 8) == 48 && Sum(fs, 9) == 56
    ensures xlen == RV32 ==> Sum(fs, 3) == 12 && Sum(fs, 4) == 16 && Sum(fs, 5) == 20 && Sum(fs, 6) == 24 && Sum(fs, 7) == 28
                             && Sum(fs, 8) == 32 && Sum(fs, 9) == 36
  {
    hide Sum, Serialize;
    fs := ShdrFields(xlen, s);
    SumsTo(fs, 5);
    SumsTo(fs, 10);
    SerializeSize(fs);
  }

  /** Five more offsets. */
  lemma SumsTo(fs: seq<Field>, k: nat)
    requires 5 <= k <= |fs|
    ensures Sum(fs, 0) == 0
    ensures Sum(fs, k) == Sum(fs, k - 1) + fs[k - 1].width && Sum(fs, k - 1) == Sum(fs, k - 2) + fs[k - 2].width
    ensures Sum(fs, k - 2) == Sum(fs, k - 3) + fs[k - 3].width && Sum(fs, k - 3) == Sum(fs, k - 4) + fs[k - 4].width
    ensures Sum(fs, k - 4) == Sum(fs, k - 5) + fs[k - 5].width
  {}

  /** A section header reads back. */
  lemma ShdrReadsBack(xlen: Xlen, f: seq<Byte>, off: nat, s: Shdr)
    requires ShdrFits(xlen, s) && HasAt(f, off, ShdrBytes(xlen, s))
    ensures ReadShdr(xlen, f, off) == s
  {
    hide Sum, Serialize, Pow256, Get, HasAt;
    var fs := ShdrSums(xlen, s);
    PowTable();
    FieldsAt(f, off, fs);
  }

  lemma EhdrSums(h: Ehdr) returns (fs: seq<Field>)
    ensures fs == EhdrFields(h) && |fs| == 19 && |Serialize(fs)| == EhdrSize(h.xlen)
    ensures Sum(fs, 0) == 0 && Sum(fs, 1) == 4 && Sum(fs, 2) == 5 && Sum(fs, 3) == 6 && Sum(fs, 6) == 16 && Sum(fs, 7) == 18
            && Sum(fs, 8) == 20 && Sum(fs, 9) == 24
    ensures h.xlen == RV64 ==> Sum(fs, 10) == 32 && Sum(fs, 11) == 40 && Sum(fs, 12) == 48 && Sum(fs, 13) == 52 && Sum(fs, 14) == 54
                               && Sum(fs, 15) == 56 && Sum(fs, 16) == 58 && Sum(fs, 17) == 60 && Sum(fs, 18) == 62
    ensures h.xlen == RV32 ==> Sum(fs, 10) == 28 && Sum(fs, 11) == 32 && Sum(fs, 12) == 36 && Sum(fs, 13) == 40 && Sum(fs, 14) == 42
                               && Sum(fs, 15) == 44 && Sum(fs, 16) == 46 && Sum(fs, 17) == 48 && Sum(fs, 18) == 50
  {
    hide Sum, Serialize;
    fs := EhdrFields(h);
    SumsTo(fs, 5);
    SumsTo(fs, 10);
    SumsTo(fs, 15);
    SumsTo(fs, 19);
    SerializeSize(fs);
  }

  /** The magic number, byte by byte. */
  lemma MagicBytes(f: seq<Byte>)
    requires Get(f, 0, 4) == 0x464C_457F
    ensures Get(f, 0, 1) == 0x7F && Get(f, 1, 1) == 0x45 && Get(f, 2, 1) == 0x4C && Get(f, 3, 1) == 0x46
  {
    hide FromLe;
    var b := f[0..4];
    var x0: int, x1: int, x2: int, x3: int := f[0], f[1], f[2], f[3];
    FourBytes(b);
    assert f[0..1] == [f[0]] && f[1..2] == [f[1]] && f[2..3] == [f[2]] && f[3..4] == [f[3]];
    OneByte(f[0]);
    OneByte(f[1]);
    OneByte(f[2]);
    OneByte(f[3]);
    assert x0 + 256 * x1 + 0x1_0000 * x2 + 0x100_0000 * x3 == 0x464C_457F;
  }

  lemma FourBytes(b: seq<Byte>)
    requires |b| == 4
    ensures var x0: int, x1: int, x2: int, x3: int := b[0], b[1], b[2], b[3];
            FromLe(b) == x0 + 256 * x1 + 0x1_0000 * x2 + 0x100_0000 * x3
  {
    var c := b[1..];
    var d := c[1..];
    assert d[1..] == [b[3]];
    OneByte(b[3]);
    assert FromLe(d) == d[0] as int + 256 * FromLe(d[1..]);
    assert FromLe(c) == c[0] as int + 256 * FromLe(d);
  }

  lemma OneByte(x: Byte)
    ensures FromLe([x]) == x
  {}

  /** The ELF header reads back. */
  lemma EhdrReadsBack(f: seq<Byte>, h: Ehdr)
    requires EhdrFits(h) && HasAt(f, 0, Serialize(EhdrFields(h)))
    ensures ReadEhdr(f) == Some(h)
  {
    hide Sum, Serialize, Get, HasAt;
    hide Pow256;
    var fs := EhdrSums(h);
    PowTable();
    assert Pow256(1) == 256;
    FieldsAt(f, 0, fs);
    MagicBytes(f);
  }

  // ------------------------------------------------- the writes do not overlap

  /** A block is empty or lies between two offsets. */
  predicate Inside(b: Block, lo: int, hi: int) {
    b.bytes == [] || (lo <= b.off && b.off + |b.bytes| <= hi)
  }

  predicate Ascending(slots: seq<int>) {
    forall i, j :: 0 <= i <= j < |slots| ==> slots[i] <= slots[j]
  }

  /** Blocks in different slots of an ascending partition are apart. */
  lemma InSlots(blocks: seq<Block>, slots: seq<int>, rank: seq<nat>)
    requires Ascending(slots) && |rank| == |blocks|
    requires forall k :: 0 <= k < |blocks| ==> rank[k] + 1 < |slots| && Inside(blocks[k], slots[rank[k]], slots[rank[k] + 1])
    requires forall i, j :: 0 <= i < j < |rank| ==> rank[i] != rank[j]
    ensures PairwiseApart(blocks)
  {
    forall i, j | 0 <= i < j < |blocks| ensures Apart(blocks[i], blocks[j]) {
      assert rank[i] != rank[j];
      assert Inside(blocks[i], slots[rank[i]], slots[rank[i] + 1]) && Inside(blocks[j], slots[rank[j]], slots[rank[j] + 1]);
      if rank[i] < rank[j] { assert slots[rank[i] + 1] <= slots[rank[j]]; } else { assert slots[rank[j] + 1] <= slots[rank[i]]; }
    }
  }

  lemma BlockSizes(xlen: Xlen, text: seq<Byte>, data: seq<Byte>, rvc: bool, entry: int)
    ensures var b, p, n := Blocks(xlen, text, data, rvc, entry), PlanOf(xlen, text, data), ShdrSize(xlen);
            && |b[3].bytes| == Rows(PhdrSize(xlen), p.phnum) && |b[4].bytes| == n && |b[7].bytes| == n && |b[8].bytes| == EhdrSize(xlen)
            && |b[5].bytes| == (if text != [] then n else 0) && |b[6].bytes| == (if data != [] then n else 0)
  {
    hide PhdrBytes, ShdrBytes, Serialize, PlanOf, Sum;
    var p := PlanOf(xlen, text, data);
    var fs := PhdrSums(xlen, TextPhdr(p, |text|));
    fs := PhdrSums(xlen, DataPhdr(p, |data|));
    fs := ShdrSums(xlen, NullShdr());
    fs := ShdrSums(xlen, TextShdr(p, |text|));
    fs := ShdrSums(xlen, DataShdr(p, |data|));
    fs := ShdrSums(xlen, NamesShdr(p));
    fs := EhdrSums(EhdrOf(xlen, p, text, rvc, entry));
    PhCount(xlen, text, data);
  }

  /** The ends of the parts of the file, in file order. */
  function Slots(xlen: Xlen, text: seq<Byte>, data: seq<Byte>): seq<int> {
    var p, n := PlanOf(xlen, text, data), ShdrSize(xlen);
    [0, EhdrSize(xlen), HeadEnd(xlen, p), TextEnd(xlen, p, text), p.shstrOff, p.shstrOff + |p.shstr|, p.shoff + n,
     p.shoff + Rows(n, if text != [] then 2 else 1), p.shoff + Rows(n, p.shnum - 1), p.shoff + Rows(n, p.shnum)]
  }

  lemma RowsOf(n: int, k: int)
    requires n >= 0 && 0 <= k <= 4
    ensures Rows(n, k) == if k == 0 then 0 else if k == 1 then n else if k == 2 then n + n else if k == 3 then n + n + n else n + n + n + n
  {}

  /** Each slot ends where, or before, the next one does: headers and contents. */
  lemma FrontOrder(xlen: Xlen, text: seq<Byte>, data: seq<Byte>)
    requires Fits(xlen, text, data)
    ensures var s := Slots(xlen, text, data); |s| == 10 && s[0] <= s[1] <= s[2] <= s[3] <= s[4] <= s[5]
  {
    hide PlanOf, EhdrSize, ShdrSize, PhdrSize, Rows;
    PlanOrder(xlen, text, data);
    PhCount(xlen, text, data);
    RowsOf(PhdrSize(xlen), PlanOf(xlen, text, data).phnum);
  }

  /** The same for the section header table. */
  lemma TableOrder(xlen: Xlen, text: seq<Byte>, data: seq<Byte>)
    requires Fits(xlen, text, data)
    ensures var s := Slots(xlen, text, data); |s| == 10 && s[5] <= s[6] <= s[7] <= s[8] <= s[9]
  {
    hide PlanOf, EhdrSize, ShdrSize, PhdrSize, Rows;
    PlanOrder(xlen, text, data);
    PhCount(xlen, text, data);
    var p, n := PlanOf(xlen, text, data), ShdrSize(xlen);
    RowsOf(n, p.shnum);
    RowsOf(n, p.shnum - 1);
    RowsOf(n, if text != [] then 2 else 1);
  }

  lemma TenAscend(s: seq<int>)
    requires |s| == 10 && s[0] <= s[1] <= s[2] <= s[3] <= s[4] <= s[5] <= s[6] <= s[7] <= s[8] <= s[9]
    ensures Ascending(s)
  {
    hide Ascending;
    forall k | 0 < k < 10 ensures s[k - 1] <= s[k] { if k < 4 {} else if k < 7 {} else {} }
    Steps(s);
  }

  lemma SlotsAscend(xlen: Xlen, text: seq<Byte>, data: seq<Byte>)
    requires Fits(xlen, text, data)
    ensures Ascending(Slots(xlen, text, data))
  {
    hide Slots, Ascending;
    FrontOrder(xlen, text, data);
    TableOrder(xlen, text, data);
    TenAscend(Slots(xlen, text, data));
  }

  lemma PhCount(xlen: Xlen, text: seq<Byte>, data: seq<Byte>)
    ensures PlanOf(xlen, text, data).phnum == (if text != [] then 1 else 0) + (if data != [] then 1 else 0)
    ensures PlanOf(xlen, text, data).textOff >= 0 && PlanOf(xlen, text, data).dataOff >= 0
    ensures PlanOf(xlen, text, data).shstrOff >= 0 && PlanOf(xlen, text, data).shoff >= 0 && PlanOf(xlen, text, data).shnum >= 2
  {
    hide AlignOff;
    NotNegative();
  }

  lemma NotNegative()
    ensures forall xlen, off, pow2 {:trigger AlignOff(xlen, off, pow2)} :: pow2 <= 31 ==> AlignOff(xlen, off, pow2) >= 0
  {
    hide Word, Low, Val, Pow2;
  }

  lemma Steps(slots: seq<int>)
    requires forall i :: 0 < i < |slots| ==> slots[i - 1] <= slots[i]
    ensures Ascending(slots)
  {
    forall i, j | 0 <= i <= j < |slots| ensures slots[i] <= slots[j] { StepsTo(slots, i, j); }
  }

  lemma {:induction false} StepsTo(slots: seq<int>, i: nat, j: nat)
    requires (forall k :: 0 < k < |slots| ==> slots[k - 1] <= slots[k]) && i <= j < |slots|
    ensures slots[i] <= slots[j]
    decreases j - i
  {
    if i < j { StepsTo(slots, i, j - 1); }
  }

  /** Where each block starts. */
  lemma BlockStarts(xlen: Xlen, text: seq<Byte>, data: seq<Byte>, rvc: bool, entry: int)
    ensures var b, p, n := Blocks(xlen, text, data, rvc, entry), PlanOf(xlen, text, data), ShdrSize(xlen);
            && |b| == 9 && b[0] == Block(p.textOff, text) && b[1] == Block(p.dataOff, data) && b[2] == Block(p.shstrOff, p.shstr)
            && b[3].off == EhdrSize(xlen) && b[4].off == p.shoff && b[5].off == p.shoff + n
            && b[6].off == p.shoff + Rows(n, if text != [] then 2 else 1) && b[7].off == p.shoff + Rows(n, p.shnum - 1) && b[8].off == 0
  {
    hide PlanOf, EhdrOf, PhdrBytes, ShdrBytes, Serialize, ShdrSize, EhdrSize;
  }

  lemma ContentInside(xlen: Xlen, text: seq<Byte>, data: seq<Byte>, rvc: bool, entry: int)
    requires Fits(xlen, text, data)
    ensures var b, s := Blocks(xlen, text, data, rvc, entry), Slots(xlen, text, data);
            |b| == 9 && |s| == 10 && Inside(b[0], s[2], s[3]) && Inside(b[1], s[3], s[4]) && Inside(b[2], s[4], s[5])
  {
    hide PlanOf, Blocks, EhdrSize, PhdrSize, ShdrSize, Rows;
    BlockStarts(xlen, text, data, rvc, entry);
    PlanOrder(xlen, text, data);
  }

  lemma HeadersInside(xlen: Xlen, text: seq<Byte>, data: seq<Byte>, rvc: bool, entry: int)
    ensures var b, s := Blocks(xlen, text, data, rvc, entry), Slots(xlen, text, data);
            |b| == 9 && |s| == 10 && Inside(b[3], s[1], s[2]) && Inside(b[8], s[0], s[1])
  {
    hide PlanOf, Blocks, EhdrSize, PhdrSize, ShdrSize, Rows;
    BlockSizes(xlen, text, data, rvc, entry);
    BlockStarts(xlen, text, data, rvc, entry);
  }

  lemma TableInside(xlen: Xlen, text: seq<Byte>, data: seq<Byte>, rvc: bool, entry: int)
    requires Fits(xlen, text, data)
    ensures var b, s := Blocks(xlen, text, data, rvc, entry), Slots(xlen, text, data);
            && |b| == 9 && |s| == 10
            && Inside(b[4], s[5], s[6]) && Inside(b[5], s[6], s[7]) && Inside(b[6], s[7], s[8]) && Inside(b[7], s[8], s[9])
  {
    hide PlanOf, Blocks, EhdrSize, PhdrSize, ShdrSize, Rows;
    BlockSizes(xlen, text, data, rvc, entry);
    BlockStarts(xlen, text, data, rvc, entry);
    PlanOrder(xlen, text, data);
    PhCount(xlen, text, data);
    var p, n := PlanOf(xlen, text, data), ShdrSize(xlen);
    RowsOf(n, p.shnum);
    RowsOf(n, p.shnum - 1);
    RowsOf(n, if text != [] then 2 else 1);
  }

  lemma BlocksPlaced(xlen: Xlen, text: seq<Byte>, data: seq<Byte>, rvc: bool, entry: int)
    ensures Placed(Blocks(xlen, text, data, rvc, entry))
  {
    hide PlanOf, Blocks;
    PhCount(xlen, text, data);
    BlockStarts(xlen, text, data, rvc, entry);
    var b := Blocks(xlen, text, data, rvc, entry);
    assert b[0].off >= 0 && b[1].off >= 0 && b[2].off >= 0 && b[3].off >= 0 && b[4].off >= 0 && b[5].off >= 0 && b[6].off >= 0;
    assert b[7].off >= 0 && b[8].off >= 0;
  }

  /** Header, program headers, text, data, names and section headers occupy pairwise disjoint
      ranges, in all four cases of text and data and for both classes. */
  lemma BlocksApart(xlen: Xlen, text: seq<Byte>, data: seq<Byte>, rvc: bool, entry: int)
    requires Fits(xlen, text, data)
    ensures Placed(Blocks(xlen, text, data, rvc, entry)) && PairwiseApart(Blocks(xlen, text, data, rvc, entry))
  {
    hide Blocks, Slots, PlanOf;
    BlocksPlaced(xlen, text, data, rvc, entry);
    SlotsAscend(xlen, text, data);
    ContentInside(xlen, text, data, rvc, entry);
    HeadersInside(xlen, text, data, rvc, entry);
    TableInside(xlen, text, data, rvc, entry);
    var b, s := Blocks(xlen, text, data, rvc, entry), Slots(xlen, text, data);
    InNineSlots(b, s);
  }

  lemma InNineSlots(b: seq<Block>, s: seq<int>)
    requires |b| == 9 && |s| == 10 && Ascending(s)
    requires Inside(b[0], s[2], s[3]) && Inside(b[1], s[3], s[4]) && Inside(b[2], s[4], s[5]) && Inside(b[3], s[1], s[2])
    requires Inside(b[4], s[5], s[6]) && Inside(b[5], s[6], s[7]) && Inside(b[6], s[7], s[8]) && Inside(b[7], s[8], s[9])
    requires Inside(b[8], s[0], s[1])
    ensures PairwiseApart(b)
  {
    hide Ascending, PairwiseApart, Inside;
    var rank: seq<nat> := [2, 3, 4, 1, 5, 6, 7, 8, 0];
    forall k | 0 <= k < 9 ensures rank[k] + 1 < 10 && Inside(b[k], s[rank[k]], s[rank[k] + 1]) {
      if k < 3 {} else if k < 6 {} else {}
    }
    InSlots(b, s, rank);
  }

  // ------------------------------------------------- reading the whole file

  /** The bytes from an offset up to the next zero. */
  function CString(f: seq<Byte>, at: int): seq<Byte>
    decreases |f| - at
  {
    if at < 0 || at >= |f| || f[at] == 0 then [] else [f[at]] + CString(f, at + 1)
  }

  function Slice(f: seq<Byte>, off: int, n: int): seq<Byte> {
    if n > 0 && 0 <= off && off + n <= |f| then f[off..off + n] else []
  }

  datatype Segment = Segment(header: Phdr, bytes: seq<Byte>)

  datatype Sect = Sect(name: seq<Byte>, header: Shdr, bytes: seq<Byte>)

  function ReadSegment(xlen: Xlen, f: seq<Byte>, off: int): Segment {
    var p := ReadPhdr(xlen, f, off);
    Segment(p, Slice(f, p.offset, p.filesz))
  }

  /** The segments, following e_phoff. */
  function ReadSegments(f: seq<Byte>, h: Ehdr, i: nat): seq<Segment>
    decreases h.phnum - i
  {
    if i >= h.phnum then [] else [ReadSegment(h.xlen, f, h.phoff + i * h.phentsize)] + ReadSegments(f, h, i + 1)
  }

  function ReadSect(xlen: Xlen, f: seq<Byte>, off: int, names: int): Sect {
    var s := ReadShdr(xlen, f, off);
    Sect(CString(f, names + s.name), s, Slice(f, s.offset, s.size))
  }

  /** The sections, following e_shoff, their names found through e_shstrndx. */
  function ReadSects(f: seq<Byte>, h: Ehdr, i: nat): seq<Sect>
    decreases h.shnum - i
  {
    var names := ReadShdr(h.xlen, f, h.shoff + h.shstrndx * h.shentsize).offset;
    if i >= h.shnum then [] else [ReadSect(h.xlen, f, h.shoff + i * h.shentsize, names)] + ReadSects(f, h, i + 1)
  }

  lemma {:induction false} CStringIs(f: seq<Byte>, at: nat, name: seq<Byte>)
    requires at + |name| < |f| && f[at..at + |name|] == name && f[at + |name|] == 0 && forall i :: 0 <= i < |name| ==> name[i] != 0
    ensures CString(f, at) == name
    decreases |name|
  {
    if name != [] {
      assert f[at..at + |name|][0] == f[at] && f[at..at + |name|][1..] == f[at + 1..at + 1 + |name[1..]|];
      CStringIs(f, at + 1, name[1..]);
    }
  }

  /** A name stands in the name table, ended by a zero. */
  predicate NameIn(shstr: seq<Byte>, at: int, name: seq<Byte>) {
    && 0 <= at && at + |name| < |shstr| && shstr[at..at + |name|] == name && shstr[at + |name|] == 0
    && forall i :: 0 <= i < |name| ==> name[i] != 0
  }

  lemma NamesPlaced(xlen: Xlen, text: seq<Byte>, data: seq<Byte>)
    ensures var p := PlanOf(xlen, text, data);
            && NameIn(p.shstr, 0, []) && NameIn(p.shstr, p.nmShstr, SHSTR_NAME)
            && (text != [] ==> NameIn(p.shstr, p.nmText, TEXT_NAME)) && (data != [] ==> NameIn(p.shstr, p.nmData, DATA_NAME))
            && 0 <= p.nmText < 24 && 0 <= p.nmData < 24 && 0 <= p.nmShstr < 24
  {
    hide AlignOff;
  }

  lemma NameReadsBack(f: seq<Byte>, off: nat, shstr: seq<Byte>, at: nat, name: seq<Byte>)
    requires HasAt(f, off, shstr) && NameIn(shstr, at, name)
    ensures CString(f, off + at) == name
  {
    assert f[off..off + |shstr|][at + |name|] == f[off + at + |name|];
    SubSlice(f, off, |shstr|, at, |name|);
    CStringIs(f, off + at, name);
  }

  lemma SubSlice(f: seq<Byte>, off: nat, n: nat, i: nat, k: nat)
    requires off + n <= |f| && i + k <= n
    ensures f[off..off + n][i..i + k] == f[off + i..off + i + k]
  {
    var a, b := f[off..off + n][i..i + k], f[off + i..off + i + k];
    assert |a| == |b| && forall j :: 0 <= j < k ==> a[j] == b[j];
  }

  lemma SliceReadsBack(f: seq<Byte>, off: int, bytes: seq<Byte>)
    requires HasAt(f, off, bytes)
    ensures Slice(f, off, |bytes|) == bytes
  {}

  lemma HasPart(f: seq<Byte>, off: nat, a: seq<Byte>, b: seq<Byte>)
    requires HasAt(f, off, a + b)
    ensures HasAt(f, off, a) && HasAt(f, off + |a|, b)
  {
    if a + b != [] { Front(f, off, a, b); }
  }

  lemma SegmentAt(xlen: Xlen, f: seq<Byte>, off: nat, p: Phdr, bytes: seq<Byte>)
    requires PhdrFits(xlen, p) && HasAt(f, off, PhdrBytes(xlen, p)) && p.filesz == |bytes| && HasAt(f, p.offset, bytes)
    ensures ReadSegment(xlen, f, off) == Segment(p, bytes)
  {
    hide PhdrBytes, ReadPhdr, Slice, HasAt;
    PhdrReadsBack(xlen, f, off, p);
    SliceReadsBack(f, p.offset, bytes);
  }

  lemma SectAt(xlen: Xlen, f: seq<Byte>, off: nat, s: Shdr, bytes: seq<Byte>, names: nat, shstr: seq<Byte>, name: seq<Byte>)
    requires ShdrFits(xlen, s) && HasAt(f, off, ShdrBytes(xlen, s)) && s.size == |bytes| && HasAt(f, s.offset, bytes)
    requires HasAt(f, names, shstr) && NameIn(shstr, s.name, name)
    ensures ReadSect(xlen, f, off, names) == Sect(name, s, bytes)
  {
    hide ShdrBytes, ReadShdr, Slice, HasAt, NameIn, CString;
    ShdrReadsBack(xlen, f, off, s);
    SliceReadsBack(f, s.offset, bytes);
    NameReadsBack(f, names, shstr, s.name, name);
  }

  /** What the file is known to hold: every write, the contents at page boundaries. */
  predicate HoldsAll(f: seq<Byte>, blocks: seq<Block>) {
    forall k :: 0 <= k < |blocks| ==> HasAt(f, blocks[k].off, blocks[k].bytes)
  }

  lemma ImageHolds(f0: seq<Byte>, blocks: seq<Block>)
    requires Placed(blocks) && PairwiseApart(blocks)
    ensures HoldsAll(PatchAll(f0, blocks), blocks)
  {
    hide HasAt, PairwiseApart;
    forall k | 0 <= k < |blocks| ensures HasAt(PatchAll(f0, blocks), blocks[k].off, blocks[k].bytes) { BlockSurvives(f0, blocks, k); }
  }

  lemma OffsetsFit(xlen: Xlen, text: seq<Byte>, data: seq<Byte>)
    requires Fits(xlen, text, data)
    ensures var p := PlanOf(xlen, text, data);
            && 0 <= p.textOff < Limit(xlen) && 0 <= p.dataOff < Limit(xlen) && 0 <= p.shstrOff < Limit(xlen) && 0 <= p.shoff < Limit(xlen)
            && |text| < Limit(xlen) && |data| < Limit(xlen) && |p.shstr| <= 23 && 0 <= p.phnum <= 2 && p.shnum == 2 + p.phnum
  {
    hide PlanOf, Rows;
    PlanOrder(xlen, text, data);
    PhCount(xlen, text, data);
    RowsOf(PhdrSize(xlen), PlanOf(xlen, text, data).phnum);
    TextOffZero(xlen, text, data);
  }

  lemma TextOffZero(xlen: Xlen, text: seq<Byte>, data: seq<Byte>)
    ensures text == [] ==> PlanOf(xlen, text, data).textOff == 0
    ensures data == [] ==> PlanOf(xlen, text, data).dataOff == 0
  {
    hide AlignOff;
  }

  lemma TextHeadersFit(xlen: Xlen, text: seq<Byte>, data: seq<Byte>)
    requires Fits(xlen, text, data)
    ensures var p := PlanOf(xlen, text, data);
            && PhdrFits(xlen, TextPhdr(p, |text|)) && PhdrFits(xlen, DataPhdr(p, |data|))
            && ShdrFits(xlen, NullShdr()) && ShdrFits(xlen, TextShdr(p, |text|)) && ShdrFits(xlen, DataShdr(p, |data|))
            && ShdrFits(xlen, NamesShdr(p))
  {
    hide PlanOf;
    OffsetsFit(xlen, text, data);
    NamesPlaced(xlen, text, data);
  }

  /** At most two segments: what following the table comes to. */
  lemma SegmentsUnfold(f: seq<Byte>, h: Ehdr)
    requires 0 <= h.phnum <= 2
    ensures var a, b := ReadSegment(h.xlen, f, h.phoff), ReadSegment(h.xlen, f, h.phoff + h.phentsize);
            ReadSegments(f, h, 0) == if h.phnum == 0 then [] else if h.phnum == 1 then [a] else [a, b]
  {
    hide ReadSegment;
    assert ReadSegments(f, h, 2) == [];
    assert h.phnum > 1 ==> ReadSegments(f, h, 1) == [ReadSegment(h.xlen, f, h.phoff + h.phentsize)];
    assert h.phnum > 0 ==> ReadSegments(f, h, 0) == [ReadSegment(h.xlen, f, h.phoff)] + ReadSegments(f, h, 1);
  }

  /** Two to four sections. */
  lemma SectsUnfold(f: seq<Byte>, h: Ehdr, names: int)
    requires 2 <= h.shnum <= 4 && names == ReadShdr(h.xlen, f, h.shoff + h.shstrndx * h.shentsize).offset
    ensures var a, b := ReadSect(h.xlen, f, h.shoff, names), ReadSect(h.xlen, f, h.shoff + h.shentsize, names);
            var c, d := ReadSect(h.xlen, f, h.shoff + 2 * h.shentsize, names), ReadSect(h.xlen, f, h.shoff + 3 * h.shentsize, names);
            ReadSects(f, h, 0) == if h.shnum == 2 then [a, b] else if h.shnum == 3 then [a, b, c] else [a, b, c, d]
  {
    hide ReadSect, ReadShdr;
    assert ReadSects(f, h, 4) == [];
    assert h.shnum > 3 ==> ReadSects(f, h, 3) == [ReadSect(h.xlen, f, h.shoff + 3 * h.shentsize, names)];
    assert h.shnum == 3 ==> ReadSects(f, h, 3) == [];
    assert h.shnum > 2 ==> ReadSects(f, h, 2) == [ReadSect(h.xlen, f, h.shoff + 2 * h.shentsize, names)] + ReadSects(f, h, 3);
    assert h.shnum == 2 ==> ReadSects(f, h, 2) == [];
    assert ReadSects(f, h, 1) == [ReadSect(h.xlen, f, h.shoff + h.shentsize, names)] + ReadSects(f, h, 2);
  }

  lemma SegmentsRead(xlen: Xlen, text: seq<Byte>, data: seq<Byte>, rvc: bool, entry: int, f: seq<Byte>)
    requires Fits(xlen, text, data) && HoldsAll(f, Blocks(xlen, text, data, rvc, entry))
    ensures ReadSegments(f, EhdrOf(xlen, PlanOf(xlen, text, data), text, rvc, entry), 0) == Segments(xlen, text, data)
  {
    hide PlanOf, Blocks, HasAt, ReadSegment, ReadSegments, PhdrBytes, PhdrFits;
    BlockStarts(xlen, text, data, rvc, entry);
    var p, b := PlanOf(xlen, text, data), Blocks(xlen, text, data, rvc, entry);
    TextHeadersFit(xlen, text, data);
    PhCount(xlen, text, data);
    var t, d := TextPhdr(p, |text|), DataPhdr(p, |data|);
    var n := |PhdrBytes(xlen, t)|;
    var fs := PhdrSums(xlen, t);
    assert HasAt(f, b[0].off, b[0].bytes) && HasAt(f, b[1].off, b[1].bytes) && HasAt(f, b[3].off, b[3].bytes);
    PhdrTable(xlen, text, data, rvc, entry);
    if text != [] {
      HasPart(f, EhdrSize(xlen), PhdrBytes(xlen, t), if data != [] then PhdrBytes(xlen, d) else []);
      SegmentAt(xlen, f, EhdrSize(xlen), t, text);
    }
    if data != [] { SegmentAt(xlen, f, EhdrSize(xlen) + (if text != [] then n else 0), d, data); }
    SegmentsUnfold(f, EhdrOf(xlen, p, text, rvc, entry));
  }

  lemma PhdrTable(xlen: Xlen, text: seq<Byte>, data: seq<Byte>, rvc: bool, entry: int)
    ensures var p, b := PlanOf(xlen, text, data), Blocks(xlen, text, data, rvc, entry);
            var t, d := PhdrBytes(xlen, TextPhdr(p, |text|)), PhdrBytes(xlen, DataPhdr(p, |data|));
            b[3] == Block(EhdrSize(xlen), if text != [] then t + (if data != [] then d else []) else if data != [] then d else [])
  {
    hide PlanOf, PhdrBytes, ShdrBytes, Serialize, EhdrOf;
    assert forall x: seq<Byte> :: [] + x == x && x + [] == x;
  }

  lemma SectsRead(xlen: Xlen, text: seq<Byte>, data: seq<Byte>, rvc: bool, entry: int, f: seq<Byte>)
    requires Fits(xlen, text, data) && HoldsAll(f, Blocks(xlen, text, data, rvc, entry))
    ensures ReadSects(f, EhdrOf(xlen, PlanOf(xlen, text, data), text, rvc, entry), 0) == Sects(xlen, text, data)
  {
    hide PlanOf, HasAt, ReadSect, ReadSects, ReadShdr, ShdrBytes, PhdrBytes, ShdrFits, NameIn, Serialize, Rows;
    var p, b, n := PlanOf(xlen, text, data), Blocks(xlen, text, data, rvc, entry), ShdrSize(xlen);
    TextHeadersFit(xlen, text, data);
    NamesPlaced(xlen, text, data);
    OffsetsFit(xlen, text, data);
    assert HasAt(f, b[0].off, b[0].bytes) && HasAt(f, b[1].off, b[1].bytes) && HasAt(f, b[2].off, b[2].bytes) && HasAt(f, b[4].off, b[4].bytes);
    assert HasAt(f, b[5].off, b[5].bytes) && HasAt(f, b[6].off, b[6].bytes) && HasAt(f, b[7].off, b[7].bytes);
    PhCount(xlen, text, data);
    RowsOf(n, p.shnum - 1);
    RowsOf(n, if text != [] then 2 else 1);
    ShdrReadsBack(xlen, f, p.shoff + Rows(n, p.shnum - 1), NamesShdr(p));
    assert HasAt(f, 0, []) by { Nothing(f); }
    SectAt(xlen, f, p.shoff, NullShdr(), [], p.shstrOff, p.shstr, []);
    if text != [] { SectAt(xlen, f, p.shoff + n, TextShdr(p, |text|), text, p.shstrOff, p.shstr, TEXT_NAME); }
    if data != [] {
      SectAt(xlen, f, p.shoff + Rows(n, if text != [] then 2 else 1), DataShdr(p, |data|), data, p.shstrOff, p.shstr, DATA_NAME);
    }
    SectAt(xlen, f, p.shoff + Rows(n, p.shnum - 1), NamesShdr(p), p.shstr, p.shstrOff, p.shstr, SHSTR_NAME);
    LastRow(n, p.shnum - 1);
    SectsUnfold(f, EhdrOf(xlen, p, text, rvc, entry), p.shstrOff);
  }

  lemma LastRow(n: nat, k: int)
    ensures Rows(n, k) == k * n
  {}

  lemma Nothing(f: seq<Byte>)
    ensures HasAt(f, 0, [])
  {}

  /** The segments and sections a reader should find. */
  function Segments(xlen: Xlen, text: seq<Byte>, data: seq<Byte>): seq<Segment> {
    var p := PlanOf(xlen, text, data);
    (if text != [] then [Segment(TextPhdr(p, |text|), text)] else []) + (if data != [] then [Segment(DataPhdr(p, |data|), data)] else [])
  }

  function Sects(xlen: Xlen, text: seq<Byte>, data: seq<Byte>): seq<Sect> {
    var p := PlanOf(xlen, text, data);
    [Sect([], NullShdr(), [])] + (if text != [] then [Sect(TEXT_NAME, TextShdr(p, |text|), text)] else []) +
    (if data != [] then [Sect(DATA_NAME, DataShdr(p, |data|), data)] else []) + [Sect(SHSTR_NAME, NamesShdr(p), p.shstr)]
  }

  /** Offset and address agree modulo the alignment, as chapter 5 requires of a loadable segment. */
  predicate Congruent(p: Phdr) {
    p.align > 0 && p.offset % p.align == p.vaddr % p.align
  }

  lemma PagesAgree(xlen: Xlen, text: seq<Byte>, data: seq<Byte>)
    requires Fits(xlen, text, data)
    ensures forall s :: s in Segments(xlen, text, data) ==> Congruent(s.header)
  {
    hide PlanOf;
    PlanAligned(xlen, text, data);
  }

  lemma HeaderFits(xlen: Xlen, text: seq<Byte>, data: seq<Byte>, rvc: bool, entry: int)
    requires Fits(xlen, text, data) && 0 <= entry < Limit(xlen)
    ensures EhdrFits(EhdrOf(xlen, PlanOf(xlen, text, data), text, rvc, entry))
  {
    hide PlanOf;
    OffsetsFit(xlen, text, data);
  }

  /** Following the headers of f finds the header, the segments and the sections intended. */
  predicate ReadsBack(f: seq<Byte>, xlen: Xlen, text: seq<Byte>, data: seq<Byte>, rvc: bool, entry: int) {
    var h := EhdrOf(xlen, PlanOf(xlen, text, data), text, rvc, entry);
    ReadEhdr(f) == Some(h) && ReadSegments(f, h, 0) == Segments(xlen, text, data) && ReadSects(f, h, 0) == Sects(xlen, text, data)
  }

  /** For both classes and all four cases of text and data: the writes are disjoint, and
      following the headers recovers the header, each segment, each section with its name,
      and exactly the buffered bytes; segment offsets and addresses agree modulo the page. */
  lemma ElfReadsBack(xlen: Xlen, text: seq<Byte>, data: seq<Byte>, rvc: bool, entry: int, f0: seq<Byte>)
    requires Fits(xlen, text, data) && 0 <= entry < Limit(xlen)
    ensures Placed(Blocks(xlen, text, data, rvc, entry)) && PairwiseApart(Blocks(xlen, text, data, rvc, entry))
    ensures ReadsBack(PatchAll(f0, Blocks(xlen, text, data, rvc, entry)), xlen, text, data, rvc, entry)
    ensures forall s :: s in Segments(xlen, text, data) ==> Congruent(s.header)
  {
    hide PlanOf, Blocks, PairwiseApart, HasAt, ReadSegments, ReadSects, PatchAll, ReadEhdr, Serialize, EhdrFields, EhdrOf, Segments, Sects, Congruent;
    BlocksApart(xlen, text, data, rvc, entry);
    var b := Blocks(xlen, text, data, rvc, entry);
    var f := PatchAll(f0, b);
    ImageHolds(f0, b);
    SegmentsRead(xlen, text, data, rvc, entry, f);
    SectsRead(xlen, text, data, rvc, entry, f);
    PagesAgree(xlen, text, data);
    BlockStarts(xlen, text, data, rvc, entry);
    assert HasAt(f, b[8].off, b[8].bytes);
    HeaderBlock(xlen, text, data, rvc, entry);
    HeaderFits(xlen, text, data, rvc, entry);
    EhdrReadsBack(f, EhdrOf(xlen, PlanOf(xlen, text, data), text, rvc, entry));
  }

  lemma HeaderBlock(xlen: Xlen, text: seq<Byte>, data: seq<Byte>, rvc: bool, entry: int)
    ensures Blocks(xlen, text, data, rvc, entry)[8] ==
            Block(0, Serialize(EhdrFields(EhdrOf(xlen, PlanOf(xlen, text, data), text, rvc, entry))))
  {
    hide PlanOf, PhdrBytes, ShdrBytes, Serialize, EhdrOf;
  }

  // ------------------------------------------------- what a loader finds

  function Ascii(s: string): (r: seq<Byte>)
    ensures |r| == |s|
  {
    seq(|s|, i requires 0 <= i < |s| => (s[i] as int % 128) as Byte)
  }

  /** A loadable segment (PT_LOAD) of these bytes: where it goes, what it may do, and that its
      place in the file agrees with its address modulo the page. */
  predicate Loads(s: Segment, vaddr: int, flags: int, bytes: seq<Byte>) {
    && s.bytes == bytes && s.header.pType == 1 && s.header.vaddr == vaddr && s.header.paddr == vaddr && s.header.flags == flags
    && s.header.filesz == |bytes| && s.header.memsz == |bytes| && s.header.align == 0x1000 && s.header.offset % 0x1000 == 0
  }

  /** A section of this name, type, flags, address and alignment. */
  predicate Named(s: Sect, name: string, shType: int, flags: int, addr: int, addralign: int) {
    && s.name == Ascii(name) && s.header.shType == shType && s.header.flags == flags && s.header.addr == addr
    && s.header.addralign == addralign && s.header.size == |s.bytes| && s.header.link == 0 && s.header.info == 0 && s.header.entsize == 0
  }

  /** An executable (ET_EXEC) for RISC-V (243) of the class. It starts at the entry asked for; if
      none is, at the text if there is any and at the data's address otherwise. */
  predicate Starts(h: Ehdr, xlen: Xlen, text: seq<Byte>, data: seq<Byte>, rvc: bool, entry: int) {
    && h.xlen == xlen && h.eType == 2 && h.machine == 243 && h.version == 1 && h.flags == (if rvc then 1 else 0)
    && h.entry == (if entry != 0 then entry else if text != [] then 0x10_0000 else 0x20_0000)
    && h.ehsize == (if xlen == RV64 then 64 else 52) && (text == [] && data == [] ==> h.phoff == 0)
    && h.shoff % (if xlen == RV64 then 8 else 4) == 0
    && h.shstrndx == 1 + (if text != [] then 1 else 0) + (if data != [] then 1 else 0)
  }

  /** Text is loaded readable and executable (5) at 0x100000, data readable and writable (6) at 0x200000. */
  predicate Mapped(segs: seq<Segment>, text: seq<Byte>, data: seq<Byte>) {
    var t := if text != [] then 1 else 0;
    && |segs| == t + (if data != [] then 1 else 0)
    && (text != [] ==> Loads(segs[0], 0x10_0000, 5, text))
    && (data != [] ==> Loads(segs[t], 0x20_0000, 6, data))
  }

  /** Section 0 is null; .text (allocated, executable) and .data (allocated, writable) hold the
      segments' bytes, and the last section is the string table. */
  predicate Sectioned(sects: seq<Sect>, text: seq<Byte>, data: seq<Byte>) {
    var t, d := if text != [] then 1 else 0, if data != [] then 1 else 0;
    && |sects| == 2 + t + d && Named(sects[0], "", 0, 0, 0, 0) && sects[0].bytes == []
    && (text != [] ==> Named(sects[1], ".text", 1, 6, 0x10_0000, 2) && sects[1].bytes == text)
    && (data != [] ==> Named(sects[1 + t], ".data", 1, 3, 0x20_0000, 4) && sects[1 + t].bytes == data)
    && Named(sects[1 + t + d], ".shstrtab", 3, 0, 0, 1)
  }

  /** Sections and segments of the same bytes start at the same offset. */
  predicate SameOffsets(segs: seq<Segment>, sects: seq<Sect>) {
    forall i :: 0 <= i < |segs| && i + 1 < |sects| ==> segs[i].header.offset == sects[i + 1].header.offset
  }

  /** All of this is found by following the headers of the file; by default execution starts in the first segment. */
  predicate Executable(f: seq<Byte>, xlen: Xlen, text: seq<Byte>, data: seq<Byte>, rvc: bool, entry: int) {
    ReadEhdr(f).Some? &&
    var h := ReadEhdr(f).value;
    var segs, sects := ReadSegments(f, h, 0), ReadSects(f, h, 0);
    && Starts(h, xlen, text, data, rvc, entry) && Mapped(segs, text, data) && Sectioned(sects, text, data) && SameOffsets(segs, sects)
    && (entry == 0 && segs != [] ==> segs[0].header.vaddr == h.entry)
  }

  lemma NamesSpelt()
    ensures Ascii("") == [] && Ascii(".text") == TEXT_NAME && Ascii(".data") == DATA_NAME && Ascii(".shstrtab") == SHSTR_NAME
  {}

  lemma SegmentsAre(xlen: Xlen, text: seq<Byte>, data: seq<Byte>)
    requires Fits(xlen, text, data)
    ensures Mapped(Segments(xlen, text, data), text, data)
    ensures var s := Segments(xlen, text, data); s != [] ==> s[0].header.vaddr == if text != [] then 0x10_0000 else 0x20_0000
  {
    hide PlanOf;
    PlanAligned(xlen, text, data);
  }

  lemma SectsAre(xlen: Xlen, text: seq<Byte>, data: seq<Byte>)
    ensures Sectioned(Sects(xlen, text, data), text, data)
  {
    hide PlanOf, Ascii;
    NamesSpelt();
  }

  lemma OffsetsAre(xlen: Xlen, text: seq<Byte>, data: seq<Byte>)
    ensures SameOffsets(Segments(xlen, text, data), Sects(xlen, text, data))
  {
    hide PlanOf;
  }

  lemma TableAligned(xlen: Xlen, text: seq<Byte>, data: seq<Byte>)
    requires Fits(xlen, text, data)
    ensures PlanOf(xlen, text, data).shoff % (if xlen == RV64 then 8 else 4) == 0
  {
    hide AlignOff, Pow2;
    PowerTable();
    var p := PlanOf(xlen, text, data);
    PlanOrder(xlen, text, data);
    AlignOffValue(xlen, p.shstrOff + |p.shstr|, if xlen == RV64 then 3 else 2);
  }

  lemma HeaderIs(xlen: Xlen, text: seq<Byte>, data: seq<Byte>, rvc: bool, entry: int)
    requires Fits(xlen, text, data)
    ensures Starts(EhdrOf(xlen, PlanOf(xlen, text, data), text, rvc, entry), xlen, text, data, rvc, entry)
  {
    PhCount(xlen, text, data);
    ShCount(xlen, text, data);
    TableAligned(xlen, text, data);
    hide PlanOf;
  }

  lemma StartAddress(h: Ehdr, xlen: Xlen, text: seq<Byte>, data: seq<Byte>, rvc: bool)
    requires Starts(h, xlen, text, data, rvc, 0)
    ensures h.entry == if text != [] then 0x10_0000 else 0x20_0000
  {}

  /** The finished file loads and starts as the System V gABI has it, whatever was in it before. */
  lemma LoadsAndStarts(xlen: Xlen, text: seq<Byte>, data: seq<Byte>, rvc: bool, entry: int, f0: seq<Byte>)
    requires Fits(xlen, text, data) && 0 <= entry < Limit(xlen)
    ensures Placed(Blocks(xlen, text, data, rvc, entry))
    ensures Executable(PatchAll(f0, Blocks(xlen, text, data, rvc, entry)), xlen, text, data, rvc, entry)
  {
    hide PlanOf, Blocks, PairwiseApart, ReadSegments, ReadSects, PatchAll, ReadEhdr, EhdrOf, Segments, Sects, Congruent, Starts, Mapped,
      Sectioned, SameOffsets, Fits;
    ElfReadsBack(xlen, text, data, rvc, entry, f0);
    HeaderIs(xlen, text, data, rvc, entry);
    SegmentsAre(xlen, text, data);
    SectsAre(xlen, text, data);
    OffsetsAre(xlen, text, data);
    if entry == 0 { StartAddress(EhdrOf(xlen, PlanOf(xlen, text, data), text, rvc, 0), xlen, text, data, rvc); }
  }

  // ------------------------------------------------- the writer

  lemma PatchAllAppend(f: seq<Byte>, blocks: seq<Block>, b: Block)
    requires Placed(blocks) && b.off >= 0
    ensures Placed(blocks + [b]) && PatchAll(f, blocks + [b]) == Patch(PatchAll(f, blocks), b.off, b.bytes)
    decreases |blocks|
  {
    if blocks == [] {
      assert blocks + [b] == [b] && [b][1..] == [];
    } else {
      assert (blocks + [b])[1..] == blocks[1..] + [b];
      PatchAllAppend(Patch(f, blocks[0].off, blocks[0].bytes), blocks[1..], b);
    }
  }

  /** `out_finish`: a raw file is complete; an ELF file gets its contents, names and headers. */
  method Finish(out: Output, entry: int) returns (ok: bool)
    requires out.Valid()
    modifies out.fp
    ensures ok <==> out.fp != null
    ensures out.fmt == Raw && out.fp != null ==> out.fp.content == old(out.fp.content)
    ensures out.fmt == Elf && out.fp != null ==>
            var b := Blocks(out.xlen, out.text.Contents(), out.data.Contents(), out.hasRvc, entry);
            Placed(b) && out.fp.content == PatchAll(old(out.fp.content), b)
  {
    hide Blocks, PatchAll;
    if out.fmt == Raw { return out.fp != null; }
    if out.fp == null { return false; }
    var text, data := out.text.data[..out.text.len], out.data.data[..out.data.len];
    WriteElf(out.fp, out.xlen, text, data, out.hasRvc, entry);
    return true;
  }

  /** The running offset of `out_finish`, and the name table. */
  method MakePlan(xlen: Xlen, text: seq<Byte>, data: seq<Byte>) returns (p: Plan)
    ensures p == PlanOf(xlen, text, data)
  {
    hide AlignOff;
    var phnum, shnum := 0, 2;
    if text != [] { phnum, shnum := phnum + 1, shnum + 1; }
    if data != [] { phnum, shnum := phnum + 1, shnum + 1; }
    var off := EhdrSize(xlen) + PhdrSize(xlen) * phnum;
    var textOff, dataOff := 0, 0;
    if text != [] {
      off := AlignOff(xlen, off, 12);
      textOff := off;
      off := off + |text|;
    }
    if data != [] {
      off := AlignOff(xlen, off, 12);
      dataOff := off;
      off := off + |data|;
    }
    var shstr: seq<Byte> := [0];
    var nmText, nmData := 0, 0;
    if text != [] {
      nmText := |shstr|;
      shstr := shstr + (TEXT_NAME + [0]);
    }
    if data != [] {
      nmData := |shstr|;
      shstr := shstr + (DATA_NAME + [0]);
    }
    var nmShstr := |shstr|;
    shstr := shstr + SHSTR_NAME + [0];
    var shstrOff := off;
    off := AlignOff(xlen, off + |shstr|, if xlen == RV64 then 3 else 2);
    p := Plan(textOff, dataOff, shstrOff, off, shstr, nmText, nmData, nmShstr, phnum, shnum);
  }

  lemma NextBlock(f0: seq<Byte>, all: seq<Block>, k: nat)
    requires Placed(all) && k < |all|
    ensures Placed(all[..k]) && Placed(all[..k + 1])
    ensures PatchAll(f0, all[..k + 1]) == Patch(PatchAll(f0, all[..k]), all[k].off, all[k].bytes)
  {
    hide PatchAll;
    assert all[..k + 1] == all[..k] + [all[k]];
    PatchAllAppend(f0, all[..k], all[k]);
  }

  /** One guarded `write_at`: the k-th of all writes. */
  method WriteBlock(fp: File, off: int, bytes: seq<Byte>, ghost f0: seq<Byte>, ghost all: seq<Block>, ghost k: nat)
    requires Placed(all) && k < |all| && all[k] == Block(off, bytes) && fp.content == PatchAll(f0, all[..k])
    modifies fp
    ensures fp.content == PatchAll(f0, all[..k + 1])
  {
    hide PatchAll;
    NextBlock(f0, all, k);
    if bytes != [] { fp.WriteAt(off, bytes); }
  }

  /** The writes of `out_finish`, in order. */
  method WriteElf(fp: File, xlen: Xlen, text: seq<Byte>, data: seq<Byte>, rvc: bool, entry: int)
    modifies fp
    ensures Placed(Blocks(xlen, text, data, rvc, entry))
    ensures fp.content == PatchAll(old(fp.content), Blocks(xlen, text, data, rvc, entry))
  {
    hide PlanOf, Blocks, PatchAll, Placed, PhdrBytes, ShdrBytes, Serialize, EhdrOf, Rows;
    var p := MakePlan(xlen, text, data);
    BlocksPlaced(xlen, text, data, rvc, entry);
    BlockList(xlen, text, data, rvc, entry);
    ghost var f0, all := fp.content, Blocks(xlen, text, data, rvc, entry);
    NoWrites(f0, all);
    WriteBlock(fp, p.textOff, text, f0, all, 0);
    WriteBlock(fp, p.dataOff, data, f0, all, 1);
    WriteBlock(fp, p.shstrOff, p.shstr, f0, all, 2);
    var ph: seq<Byte> := [];
    if text != [] { ph := ph + PhdrBytes(xlen, TextPhdr(p, |text|)); }
    if data != [] { ph := ph + PhdrBytes(xlen, DataPhdr(p, |data|)); }
    assert ph == all[3].bytes;
    WriteBlock(fp, EhdrSize(xlen), ph, f0, all, 3);
    WriteBlock(fp, p.shoff, ShdrBytes(xlen, NullShdr()), f0, all, 4);
    var si := 1;
    if text != [] {
      WriteBlock(fp, p.shoff + ShdrSize(xlen), ShdrBytes(xlen, TextShdr(p, |text|)), f0, all, 5);
      si := si + 1;
    } else {
      NextBlock(f0, all, 5);
    }
    if data != [] {
      WriteBlock(fp, p.shoff + Rows(ShdrSize(xlen), si), ShdrBytes(xlen, DataShdr(p, |data|)), f0, all, 6);
      si := si + 1;
    } else {
      NextBlock(f0, all, 6);
    }
    WriteBlock(fp, p.shoff + Rows(ShdrSize(xlen), si), ShdrBytes(xlen, NamesShdr(p)), f0, all, 7);
    WriteBlock(fp, 0, Serialize(EhdrFields(EhdrOf(xlen, p, text, rvc, entry))), f0, all, 8);
    assert all[..9] == all;
  }

  lemma NoWrites(f0: seq<Byte>, all: seq<Block>)
    requires Placed(all)
    ensures Placed(all[..0]) && PatchAll(f0, all[..0]) == f0
  {}

  /** The writes one by one. */
  predicate BlocksAre(b: seq<Block>, xlen: Xlen, p: Plan, text: seq<Byte>, data: seq<Byte>, rvc: bool, entry: int) {
    var n := ShdrSize(xlen);
    && |b| == 9 && b[0] == Block(p.textOff, text) && b[1] == Block(p.dataOff, data) && b[2] == Block(p.shstrOff, p.shstr)
    && b[3] == Block(EhdrSize(xlen), (if text != [] then PhdrBytes(xlen, TextPhdr(p, |text|)) else []) +
                                     (if data != [] then PhdrBytes(xlen, DataPhdr(p, |data|)) else []))
    && b[4] == Block(p.shoff, ShdrBytes(xlen, NullShdr()))
    && b[5] == Block(p.shoff + n, if text != [] then ShdrBytes(xlen, TextShdr(p, |text|)) else [])
    && b[6] == Block(p.shoff + Rows(n, if text != [] then 2 else 1), if data != [] then ShdrBytes(xlen, DataShdr(p, |data|)) else [])
    && b[7] == Block(p.shoff + Rows(n, p.shnum - 1), ShdrBytes(xlen, NamesShdr(p)))
    && b[8] == Block(0, Serialize(EhdrFields(EhdrOf(xlen, p, text, rvc, entry))))
  }

  lemma BlockList(xlen: Xlen, text: seq<Byte>, data: seq<Byte>, rvc: bool, entry: int)
    ensures BlocksAre(Blocks(xlen, text, data, rvc, entry), xlen, PlanOf(xlen, text, data), text, data, rvc, entry)
    ensures PlanOf(xlen, text, data).shnum - 1 == 1 + (if text != [] then 1 else 0) + (if data != [] then 1 else 0)
  {
    hide PlanOf, PhdrBytes, ShdrBytes, Serialize, EhdrOf, Rows;
    PhCount(xlen, text, data);
    ShCount(xlen, text, data);
  }

  lemma ShCount(xlen: Xlen, text: seq<Byte>, data: seq<Byte>)
    ensures PlanOf(xlen, text, data).shnum == 2 + PlanOf(xlen, text, data).phnum
  {
    hide AlignOff;
  }
}
