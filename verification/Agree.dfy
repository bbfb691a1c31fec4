/** Layout and emission agree: in a settled layout the bytes written to a section before an
    entry number exactly the entry's address. */
module Agree {
  import opened Isa
  import opened Ir
  import opened Align
  import opened CRules
  import opened Bytes
  import opened Out
  import opened Layout
  import opened Emit
  import opened Survive
  import Bits
  import Encode16
  import Encode32

  // ------------------------------------------------- the prepared entries are settled

  /** Relaxation reached its fixed point within the cap, or was not asked for. */
  predicate Converged(cfg: Config, syms: Symbols, nodes: seq<Entry>) {
    cfg.hasC && cfg.autoC ==> Relax(cfg, syms, Planned(cfg, nodes), Text, 8).1
  }

  /** b is a, except in the other section. */
  predicate SameIn(a: seq<Entry>, b: seq<Entry>, sect: Section) {
    |a| == |b| && forall i :: 0 <= i < |a| ==> b[i].sect == a[i].sect && (a[i].sect == sect ==> b[i] == a[i])
  }

  lemma SameInTail(a: seq<Entry>, b: seq<Entry>, sect: Section)
    requires SameIn(a, b, sect) && a != []
    ensures SameIn(a[1..], b[1..], sect) && a[0].sect == b[0].sect && (a[0].sect == sect ==> a[0] == b[0])
  {
    assert forall i :: 0 <= i < |a[1..]| ==> a[1..][i] == a[i + 1] && b[1..][i] == b[i + 1];
  }

  lemma {:induction false} SettledSameIn(a: seq<Entry>, b: seq<Entry>, sect: Section, pc: int)
    requires Settled(a, sect, pc) && SameIn(a, b, sect)
    ensures Settled(b, sect, pc)
    decreases |a|
  {
    hide AssignOne, NextPc;
    if a != [] {
      SameInTail(a, b, sect);
      hide SameIn;
      SettledSameIn(a[1..], b[1..], sect, if a[0].sect != sect then pc else NextPc(a[0], pc));
    }
  }

  lemma SameInTrans(a: seq<Entry>, b: seq<Entry>, c: seq<Entry>, sect: Section)
    requires SameIn(a, b, sect) && SameIn(b, c, sect)
    ensures SameIn(a, c, sect)
  {
    forall i | 0 <= i < |a| ensures c[i].sect == a[i].sect && (a[i].sect == sect ==> c[i] == a[i]) {
      assert b[i].sect == a[i].sect;
    }
  }

  lemma {:induction false} AssignOther(nodes: seq<Entry>, sect: Section, pc: int, i: nat)
    requires i < |nodes| && nodes[i].sect != sect
    ensures Assign(nodes, sect, pc)[i] == nodes[i]
    decreases |nodes|
  {
    hide AssignOne, NextPc;
    if i > 0 {
      AssignOther(nodes[1..], sect, if nodes[0].sect != sect then pc else NextPc(nodes[0], pc), i - 1);
    }
  }

  lemma AssignSameIn(nodes: seq<Entry>, sect: Section, other: Section)
    requires sect != other
    ensures SameIn(nodes, Assign(nodes, sect, 0), other)
  {
    var r := Assign(nodes, sect, 0);
    forall i | 0 <= i < |nodes| ensures r[i].sect == nodes[i].sect && (nodes[i].sect == other ==> r[i] == nodes[i]) {
      AssignStatic(nodes, sect, 0, i);
      if nodes[i].sect == other { AssignOther(nodes, sect, 0, i); }
      hide Assign;
    }
  }

  lemma ValidateSameIn(cfg: Config, syms: Symbols, nodes: seq<Entry>, sect: Section, other: Section)
    requires sect != other
    ensures SameIn(nodes, Validate(cfg, syms, nodes, sect), other)
  {
    var r := Validate(cfg, syms, nodes, sect);
    forall i | 0 <= i < |nodes| ensures r[i].sect == nodes[i].sect && (nodes[i].sect == other ==> r[i] == nodes[i]) {
      ValidateShape(cfg, syms, nodes, sect, i);
      hide ValidateOne;
    }
  }

  lemma PlanSameIn(cfg: Config, nodes: seq<Entry>)
    ensures SameIn(nodes, Plan(cfg, nodes), Data)
  {}

  lemma {:induction false} RelaxSameIn(cfg: Config, syms: Symbols, nodes: seq<Entry>, sect: Section, iters: nat, other: Section)
    requires sect != other
    ensures SameIn(nodes, Relax(cfg, syms, nodes, sect, iters).0, other)
    decreases iters
  {
    hide SameIn, Assign, Validate, Changed;
    if iters == 0 {
      SameInRefl(nodes, other);
    } else {
      var laid := Assign(nodes, sect, 0);
      var checked := Validate(cfg, syms, laid, sect);
      AssignSameIn(nodes, sect, other);
      ValidateSameIn(cfg, syms, laid, sect, other);
      SameInTrans(nodes, laid, checked, other);
      if Changed(cfg, syms, laid, sect) {
        RelaxSameIn(cfg, syms, checked, sect, iters - 1, other);
        SameInTrans(nodes, checked, Relax(cfg, syms, checked, sect, iters - 1).0, other);
      }
    }
  }

  lemma SameInRefl(nodes: seq<Entry>, sect: Section)
    ensures SameIn(nodes, nodes, sect)
  {}

  /** The data section is always settled, the text section once relaxation converged; what
      surviving choices say agrees with the addresses. */
  lemma PrepareSettled(cfg: Config, syms: Symbols, nodes: seq<Entry>)
    ensures Settled(Prepare(cfg, syms, nodes), Data, 0)
    ensures Converged(cfg, syms, nodes) ==> Settled(Prepare(cfg, syms, nodes), Text, 0)
    ensures Converged(cfg, syms, nodes) && cfg.hasC && cfg.autoC ==>
            forall i :: 0 <= i < |nodes| && Prepare(cfg, syms, nodes)[i].sect == Text ==> ChoiceResolved(syms, Prepare(cfg, syms, nodes)[i])
  {
    hide Assign, Plan, Relax, Settled, SameIn, ChoiceResolved;
    var a := Assign(nodes, Data, 0);
    AssignSettles(nodes, Data, 0);
    if cfg.hasC && cfg.autoC {
      PlanSameIn(cfg, a);
      RelaxSameIn(cfg, syms, Plan(cfg, a), Text, 8, Data);
      SameInTrans(a, Plan(cfg, a), Relax(cfg, syms, Plan(cfg, a), Text, 8).0, Data);
      SettledSameIn(a, Prepare(cfg, syms, nodes), Data, 0);
      if Converged(cfg, syms, nodes) { RelaxFixedPoint(cfg, syms, Plan(cfg, a), Text, 8); }
    } else {
      AssignSettles(a, Text, 0);
      AssignSameIn(a, Text, Data);
      SettledSameIn(a, Assign(a, Text, 0), Data, 0);
    }
  }

  lemma PrepareKeeps(cfg: Config, syms: Symbols, nodes: seq<Entry>)
    requires KeptAll(cfg, nodes)
    ensures KeptAll(cfg, Prepare(cfg, syms, nodes)) && Wf(Prepare(cfg, syms, nodes))
  {
    hide Kept, KeptAll, Assign, Plan, Relax;
    var a := Assign(nodes, Data, 0);
    AssignKeepsAll(cfg, nodes, Data);
    if cfg.hasC && cfg.autoC {
      PlanKeepsAll(cfg, a);
      RelaxKeepsAll(cfg, syms, Plan(cfg, a), Text, 8);
    } else {
      AssignKeepsAll(cfg, a, Text);
    }
    KeptWf(cfg, Prepare(cfg, syms, nodes));
  }

  lemma KeptWf(cfg: Config, nodes: seq<Entry>)
    requires KeptAll(cfg, nodes)
    ensures Wf(nodes)
  {
    hide Derived, WfInstr;
    assert forall i :: 0 <= i < |nodes| ==> Kept(cfg, nodes[i]);
  }

  // ------------------------------------------------- addresses number bytes

  /** The bytes the entries of a section take. */
  function Total(nodes: seq<Entry>, sect: Section): int {
    if nodes == [] then 0 else (if nodes[0].sect == sect then nodes[0].size else 0) + Total(nodes[1..], sect)
  }

  predicate DataSizes(nodes: seq<Entry>) {
    forall e :: e in nodes && e.kind == KData ==> e.size >= 0
  }

  /** Each entry of the section starts where the sizes before it end (padding comes first). */
  predicate Packed(nodes: seq<Entry>, sect: Section, pc: int) {
    nodes == [] ||
    if nodes[0].sect != sect then Packed(nodes[1..], sect, pc)
    else
      && nodes[0].size >= 0
      && nodes[0].addr == (if nodes[0].kind == KAlign then pc + nodes[0].size else pc)
      && Packed(nodes[1..], sect, pc + nodes[0].size)
  }

  lemma SizeNotNegative(e: Entry, pc: int)
    requires AssignOne(e, pc) == e && (e.kind == KData ==> e.size >= 0)
    ensures e.size >= 0
  {
    hide AlignUp;
  }

  lemma {:induction false} TotalNotNegative(nodes: seq<Entry>, sect: Section, pc: int)
    requires Settled(nodes, sect, pc) && DataSizes(nodes)
    ensures Total(nodes, sect) >= 0
    decreases |nodes|
  {
    hide AssignOne, NextPc;
    if nodes != [] {
      assert nodes[0] in nodes && forall e :: e in nodes[1..] ==> e in nodes;
      if nodes[0].sect == sect { SizeNotNegative(nodes[0], pc); }
      TotalNotNegative(nodes[1..], sect, if nodes[0].sect != sect then pc else NextPc(nodes[0], pc));
    }
  }

  lemma AlignUpRange(pc: int, align: int)
    ensures 0 <= AlignUp(pc, align) < TWO32
  {
    hide Bits.Val, Bits.Low, Bits.Word;
    Bits.PowerTable();
  }

  /** Without wrap-around the counter moves by the entry's size. */
  lemma StepPacked(e: Entry, pc: int)
    requires AssignOne(e, pc) == e && 0 <= pc && 0 <= e.size && pc + e.size < TWO32
    ensures NextPc(e, pc) == pc + e.size && e.addr == if e.kind == KAlign then pc + e.size else pc
  {
    hide AlignUp, SizeNow;
    AlignUpRange(pc, U32(e.imm));
  }

  lemma {:induction false} SettledPacked(nodes: seq<Entry>, sect: Section, pc: int)
    requires Settled(nodes, sect, pc) && DataSizes(nodes) && 0 <= pc && pc + Total(nodes, sect) < TWO32
    ensures Packed(nodes, sect, pc)
    decreases |nodes|
  {
    hide AssignOne, NextPc;
    if nodes != [] {
      assert nodes[0] in nodes && forall e :: e in nodes[1..] ==> e in nodes;
      if nodes[0].sect == sect {
        SizeNotNegative(nodes[0], pc);
        TotalNotNegative(nodes[1..], sect, NextPc(nodes[0], pc));
        StepPacked(nodes[0], pc);
        SettledPacked(nodes[1..], sect, pc + nodes[0].size);
      } else {
        SettledPacked(nodes[1..], sect, pc);
      }
    }
  }

  lemma {:induction false} PackedAt(nodes: seq<Entry>, sect: Section, pc: int, i: nat)
    requires Packed(nodes, sect, pc) && i < |nodes| && nodes[i].sect == sect
    ensures nodes[i].size >= 0
    ensures nodes[i].addr == pc + Total(nodes[..i], sect) + (if nodes[i].kind == KAlign then nodes[i].size else 0)
    decreases i
  {
    if i > 0 {
      assert nodes[..i][1..] == nodes[1..][..i - 1];
      PackedAt(nodes[1..], sect, if nodes[0].sect != sect then pc else pc + nodes[0].size, i - 1);
    }
  }

  // ------------------------------------------------- chunks have the laid-out size

  lemma SizeOfChunk(cfg: Config, syms: Symbols, e: Entry, pc: int)
    requires e.kind == KInstr ==> WfInstr(e)
    requires AssignOne(e, pc) == e && Chunk(cfg, syms, e).Some? && (e.kind == KData ==> e.size >= 0)
    ensures |Chunk(cfg, syms, e).value| == e.size
  {
    if e.kind == KInstr {
      CodeSize(cfg, syms, e);
      hide WfInstr, NodeCode, WordBytes, HalfBytes;
      WordSize();
    } else {
      SizeNotNegative(e, pc);
      hide AssignOne;
    }
  }

  lemma WordSize()
    ensures forall w :: |WordBytes(w)| == 4
    ensures forall h :: |HalfBytes(h)| == 2
  {}

  lemma CodeSize(cfg: Config, syms: Symbols, e: Entry)
    requires WfInstr(e)
    ensures NodeCode(cfg, syms, e).Half? ==> SizeNow(e) == 2
    ensures NodeCode(cfg, syms, e).Full? ==> SizeNow(e) == 4
  {
    hide Encode16.CEncode, Encode32.Encode, Encode16.RequireC, Encode32.RequireForOp, Immediate, LabelFits, FmtOf, CFmt;
    CFormats();
  }

  lemma CFormats()
    ensures forall op :: IsCFmt(CFmt(op))
    ensures forall op :: !IsCFmt(BaseFmt(op))
  {}

  lemma {:induction false} BytesTotal(cfg: Config, syms: Symbols, nodes: seq<Entry>, sect: Section, pc: int)
    requires Wf(nodes) && AllEmittable(cfg, syms, nodes) && Settled(nodes, sect, pc) && DataSizes(nodes)
    ensures |SectBytes(cfg, syms, nodes, sect)| == Total(nodes, sect)
    decreases |nodes|
  {
    hide Chunk, WfInstr, AssignOne, NextPc;
    if nodes != [] {
      assert nodes[0] in nodes && forall e :: e in nodes[1..] ==> e in nodes;
      if nodes[0].sect == sect { SizeOfChunk(cfg, syms, nodes[0], pc); }
      BytesTotal(cfg, syms, nodes[1..], sect, if nodes[0].sect != sect then pc else NextPc(nodes[0], pc));
    }
  }

  lemma TailSlices(nodes: seq<Entry>, i: nat)
    requires 0 < i <= |nodes|
    ensures nodes[1..][..i - 1] == nodes[..i][1..] && nodes[1..][i - 1..] == nodes[i..]
  {}

  lemma Associate(a: seq<Byte>, b: seq<Byte>, c: seq<Byte>)
    ensures (a + b) + c == a + (b + c)
  {}

  lemma PartsEmittable(cfg: Config, syms: Symbols, nodes: seq<Entry>, i: nat)
    requires Wf(nodes) && AllEmittable(cfg, syms, nodes) && i <= |nodes|
    ensures Wf(nodes[..i]) && AllEmittable(cfg, syms, nodes[..i]) && Wf(nodes[i..]) && AllEmittable(cfg, syms, nodes[i..])
  {
    hide Chunk, WfInstr;
    assert forall e :: e in nodes[..i] ==> e in nodes;
    assert forall e :: e in nodes[i..] ==> e in nodes;
  }

  lemma FirstEmittable(cfg: Config, syms: Symbols, nodes: seq<Entry>)
    requires Wf(nodes) && AllEmittable(cfg, syms, nodes) && nodes != []
    ensures (nodes[0].kind == KInstr ==> WfInstr(nodes[0])) && Chunk(cfg, syms, nodes[0]).Some?
  {
    hide Chunk, WfInstr;
    assert nodes[0] in nodes;
  }

  lemma {:induction false} BytesSplit(cfg: Config, syms: Symbols, nodes: seq<Entry>, sect: Section, i: nat)
    requires Wf(nodes) && AllEmittable(cfg, syms, nodes) && i <= |nodes|
    ensures Wf(nodes[..i]) && AllEmittable(cfg, syms, nodes[..i]) && Wf(nodes[i..]) && AllEmittable(cfg, syms, nodes[i..])
    ensures SectBytes(cfg, syms, nodes, sect) == SectBytes(cfg, syms, nodes[..i], sect) + SectBytes(cfg, syms, nodes[i..], sect)
    decreases i
  {
    hide Chunk, WfInstr, Wf, AllEmittable;
    PartsEmittable(cfg, syms, nodes, i);
    if i == 0 {
      assert nodes[0..] == nodes && SectBytes(cfg, syms, nodes[..0], sect) == [];
    } else {
      PartsEmittable(cfg, syms, nodes, 1);
      BytesSplit(cfg, syms, nodes[1..], sect, i - 1);
      TailSlices(nodes, i);
      FirstEmittable(cfg, syms, nodes);
      var c := if nodes[0].sect == sect then Chunk(cfg, syms, nodes[0]).value else [];
      Associate(c, SectBytes(cfg, syms, nodes[..i][1..], sect), SectBytes(cfg, syms, nodes[i..], sect));
    }
  }

  lemma {:induction false} SettledPrefix(nodes: seq<Entry>, sect: Section, pc: int, i: nat)
    requires Settled(nodes, sect, pc) && i <= |nodes|
    ensures Settled(nodes[..i], sect, pc)
    decreases i
  {
    hide AssignOne, NextPc;
    if i > 0 {
      assert nodes[..i][1..] == nodes[1..][..i - 1];
      SettledPrefix(nodes[1..], sect, if nodes[0].sect != sect then pc else NextPc(nodes[0], pc), i - 1);
    }
  }

  /** An address inside a settled layout, and what precedes it. */
  lemma {:induction false} SettledAt(nodes: seq<Entry>, sect: Section, pc: int, i: nat) returns (at: int)
    requires Settled(nodes, sect, pc) && i < |nodes| && nodes[i].sect == sect
    ensures AssignOne(nodes[i], at) == nodes[i]
    decreases i
  {
    hide AssignOne, NextPc;
    if i == 0 { at := pc; } else {
      at := SettledAt(nodes[1..], sect, if nodes[0].sect != sect then pc else NextPc(nodes[0], pc), i - 1);
    }
  }

  /** In a settled layout below 4 GiB, the bytes before an entry number its address, and
      its own bytes stand at that address. */
  lemma LayoutAgrees(cfg: Config, syms: Symbols, nodes: seq<Entry>, sect: Section, i: nat)
    requires Wf(nodes) && AllEmittable(cfg, syms, nodes) && DataSizes(nodes)
    requires Settled(nodes, sect, 0) && Total(nodes, sect) < TWO32
    requires i < |nodes| && nodes[i].sect == sect && nodes[i].kind != KAlign
    ensures var e, b := nodes[i], SectBytes(cfg, syms, nodes, sect);
            && Wf(nodes[..i]) && AllEmittable(cfg, syms, nodes[..i]) && Chunk(cfg, syms, e).Some?
            && |SectBytes(cfg, syms, nodes[..i], sect)| == e.addr && 0 <= e.addr && 0 <= e.size && e.addr + e.size <= |b|
            && b[e.addr..e.addr + e.size] == Chunk(cfg, syms, e).value
  {
    hide Chunk, WfInstr, AssignOne, Settled, Total, Packed;
    var e := nodes[i];
    SettledPacked(nodes, sect, 0);
    PackedAt(nodes, sect, 0, i);
    SettledPrefix(nodes, sect, 0, i);
    assert forall x :: x in nodes[..i] ==> x in nodes;
    BytesSplit(cfg, syms, nodes, sect, i);
    BytesTotal(cfg, syms, nodes[..i], sect, 0);
    assert e in nodes && nodes[i..][0] == e;
    var at := SettledAt(nodes, sect, 0, i);
    SizeOfChunk(cfg, syms, e, at);
    Slice(SectBytes(cfg, syms, nodes[..i], sect), Chunk(cfg, syms, e).value, SectBytes(cfg, syms, nodes[i..][1..], sect));
  }

  lemma Slice(a: seq<Byte>, b: seq<Byte>, c: seq<Byte>)
    ensures (a + (b + c))[|a|..|a| + |b|] == b
  {}

  /** Reading size little-endian bytes at a data entry's address gives its value modulo
      256^size. */
  lemma DataReadsBack(cfg: Config, syms: Symbols, nodes: seq<Entry>, i: nat)
    requires Wf(nodes) && AllEmittable(cfg, syms, nodes) && DataSizes(nodes)
    requires Settled(nodes, Data, 0) && Total(nodes, Data) < TWO32
    requires i < |nodes| && nodes[i].kind == KData
    ensures var e, b := nodes[i], SectBytes(cfg, syms, nodes, Data);
            && e.sect == Data && e.size in {1, 2, 4, 8} && 0 <= e.addr && e.addr + e.size <= |b|
            && FromLe(b[e.addr..e.addr + e.size]) == e.imm % Pow256(e.size)
  {
    hide SectBytes, Settled, Total, LeBytes, FromLe, Pow256;
    var e := nodes[i];
    assert Chunk(cfg, syms, e).Some?;
    LayoutAgrees(cfg, syms, nodes, Data, i);
    LeRoundTrip(e.imm, e.size);
  }

  /** A laid-out alignment entry takes the least padding that makes the counter a multiple of
      its power of two (modulo 2^32), and the next entry starts there. */
  lemma AlignmentExact(e: Entry, pc: int, pow2: nat)
    requires e.kind == KAlign && e.imm == Bits.Pow2(pow2) && 0 < pow2 <= 31 && 0 <= pc < TWO32 && AssignOne(e, pc) == e
    ensures e.addr == U32(pc + e.size) && NextPc(e, pc) == e.addr
    ensures Reaches(pc, pow2, e.size) && forall d :: 0 <= d < e.size ==> !Reaches(pc, pow2, d)
  {
    hide Bits.Pow2, AlignUp, Reaches, ModPad;
    PaddingExact(pc, pow2);
    AlignAddsPadding(pc, pow2);
    PowerFits(pow2);
  }

  lemma PowerFits(pow2: nat)
    requires 0 < pow2 <= 31
    ensures 1 < Bits.Pow2(pow2) < TWO32
  {
    PowDivides(pow2, 31);
    Bits.PowerTable();
    Bits.MulMono(Bits.Pow2(pow2), 1, Bits.Pow2(31 - pow2));
  }

  // ------------------------------------------------- the cap

  /** A dropped choice leaves its entry with the size it had while it was compressed. */
  lemma DroppedUnsettled(cfg: Config, syms: Symbols, nodes: seq<Entry>, k: nat)
    requires KeptAll(cfg, nodes) && k < |nodes|
    requires var laid := Assign(nodes, Text, 0); laid[k].choice.Some? && Validate(cfg, syms, laid, Text)[k].choice.None?
    ensures !Settled(Validate(cfg, syms, Assign(nodes, Text, 0), Text), Text, 0)
  {
    hide Assign, Validate, Settled, KeptAll, Kept;
    var laid := Assign(nodes, Text, 0);
    var checked := Validate(cfg, syms, laid, Text);
    AssignKeepsAll(cfg, nodes, Text);
    ValidateShape(cfg, syms, laid, Text, k);
    ValidateTentative(cfg, syms, laid, Text, k);
    KeptAt(cfg, laid, k);
    AssignSettles(nodes, Text, 0);
    var was := SettledAt(laid, Text, 0, k);
    if Settled(checked, Text, 0) {
      var at := SettledAt(checked, Text, 0, k);
      DropGrows(cfg, laid[k], checked[k], was, at);
    }
  }

  lemma KeptAt(cfg: Config, nodes: seq<Entry>, k: nat)
    requires KeptAll(cfg, nodes) && k < |nodes|
    ensures Kept(cfg, nodes[k])
  {}

  lemma DropGrows(cfg: Config, a: Entry, b: Entry, was: int, at: int)
    requires Kept(cfg, a) && a.choice.Some? && b == a.(choice := None) && AssignOne(a, was) == a
    ensures AssignOne(b, at) != b
  {
    hide TryMap, LabelFits, AlignUp;
  }

  lemma {:induction false} RelaxUnsettled(cfg: Config, syms: Symbols, nodes: seq<Entry>, iters: nat)
    requires KeptAll(cfg, nodes) && iters > 0 && !Relax(cfg, syms, nodes, Text, iters).1
    ensures !Settled(Relax(cfg, syms, nodes, Text, iters).0, Text, 0)
    decreases iters
  {
    hide Assign, Validate, Settled, KeptAll;
    var laid := Assign(nodes, Text, 0);
    var checked := Validate(cfg, syms, laid, Text);
    if iters == 1 {
      var k :| 0 <= k < |laid| && laid[k].choice.Some? && checked[k].choice.None?;
      DroppedUnsettled(cfg, syms, nodes, k);
    } else {
      AssignKeepsAll(cfg, nodes, Text);
      ValidateKeepsAll(cfg, syms, laid, Text);
      RelaxUnsettled(cfg, syms, checked, iters - 1);
    }
  }

  /** The text section pass 2 emits is settled exactly when relaxation converged within the cap. */
  lemma SettledExactly(cfg: Config, syms: Symbols, nodes: seq<Entry>)
    requires KeptAll(cfg, nodes)
    ensures Settled(Prepare(cfg, syms, nodes), Text, 0) <==> Converged(cfg, syms, nodes)
  {
    hide Assign, Plan, Relax, Settled, KeptAll;
    PrepareSettled(cfg, syms, nodes);
    if !Converged(cfg, syms, nodes) {
      var a := Assign(nodes, Data, 0);
      AssignKeepsAll(cfg, nodes, Data);
      PlanKeepsAll(cfg, a);
      RelaxUnsettled(cfg, syms, Plan(cfg, a), 8);
    }
  }

  /** It converges whenever fewer than eight compressed control transfers have a label. */
  lemma ConvergesIfFew(cfg: Config, syms: Symbols, nodes: seq<Entry>)
    requires Transfers(Planned(cfg, nodes), Text) < 8
    ensures Converged(cfg, syms, nodes)
  {
    hide Assign, Plan, Relax, Transfers;
    RelaxConverges(cfg, syms, Planned(cfg, nodes), Text, 8);
  }
}
