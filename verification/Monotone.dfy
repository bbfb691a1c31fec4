/** Across relaxation rounds choices only disappear and addresses only grow, so a choice
    dropped for a reason that growing addresses cannot mend was rightly dropped. */
module Monotone {
  import opened Isa
  import opened Bits
  import opened Ir
  import opened Compress
  import opened Align
  import opened Symtab
  import opened Layout
  import opened Emit

  /** One round of `pass2_relayout_and_validate`. */
  function Round(cfg: Config, syms: Symbols, nodes: seq<Entry>, sect: Section): (r: seq<Entry>)
    ensures |r| == |nodes|
  {
    Validate(cfg, syms, Assign(nodes, sect, 0), sect)
  }

  function Rounds(cfg: Config, syms: Symbols, nodes: seq<Entry>, sect: Section, k: nat): (r: seq<Entry>)
    ensures |r| == |nodes|
  {
    if k == 0 then nodes else Round(cfg, syms, Rounds(cfg, syms, nodes, sect, k - 1), sect)
  }

  /** An upper bound on what an entry takes, whatever is chosen for it. */
  function Bound(e: Entry): int {
    match e.kind
    case KData => e.size
    case KAlign => e.imm
    case KInstr => 4
  }

  /** Alignments are 0 or a power of two, data sizes are not negative. */
  predicate Sane(e: Entry) {
    match e.kind
    case KData => e.size >= 0
    case KAlign => e.imm == 0 || exists p: nat :: p <= 31 && e.imm == Pow2(p)
    case KInstr => true
  }

  function Extent(nodes: seq<Entry>, sect: Section): int {
    if nodes == [] then 0
    else (if nodes[0].sect == sect then Bound(nodes[0]) else 0) + Extent(nodes[1..], sect)
  }

  /** b is a with possibly fewer choices; addresses, and sizes that layout computes, may differ. */
  predicate Later(a: Entry, b: Entry) {
    && b == a.(choice := b.choice, addr := b.addr, size := b.size)
    && (b.choice.Some? ==> a.choice.Some?)
    && (a.kind == KData ==> b.size == a.size)
  }

  predicate LaterAll(a: seq<Entry>, b: seq<Entry>) {
    |a| == |b| && forall i :: 0 <= i < |a| ==> Later(a[i], b[i])
  }

  /** No smaller, and by an even amount. */
  predicate Above(lo: int, hi: int) { lo <= hi && (hi - lo) % 2 == 0 }

  lemma AlignNoWrap(pc: int, p: nat)
    requires 0 <= pc && p <= 31 && pc + Pow2(p) < TWO32
    ensures AlignUp(pc, Pow2(p)) == pc + ModPad(pc, p) && 0 <= ModPad(pc, p) < Pow2(p)
    ensures (pc + ModPad(pc, p)) % Pow2(p) == 0
  {
    hide Pow2, AlignUp, ModPad;
    AlignAddsPadding(pc, p);
    var pad := PadReaches(pc, p);
    SmallWord(pc + pad);
  }

  lemma SmallWord(n: int)
    requires 0 <= n < TWO32
    ensures U32(n) == n
  {}

  lemma EvenMultiple(n: int, p: nat)
    requires p > 0 && n % Pow2(p) == 0
    ensures n % 2 == 0
  {
    var q := n / Pow2(p);
    assert n == Pow2(p) * q;
    assert Pow2(p) * q == 2 * (Pow2(p - 1) * q);
  }

  lemma AlignMonotone(pa: int, pb: int, p: nat)
    requires 0 <= pa && Above(pa, pb) && 0 < p <= 31 && pb + Pow2(p) < TWO32
    ensures 0 <= AlignUp(pa, Pow2(p)) && Above(AlignUp(pa, Pow2(p)), AlignUp(pb, Pow2(p)))
    ensures AlignUp(pb, Pow2(p)) <= pb + Pow2(p)
  {
    hide Pow2, AlignUp, ModPad;
    AlignNoWrap(pa, p);
    AlignNoWrap(pb, p);
    var x, y := pa + ModPad(pa, p), pb + ModPad(pb, p);
    EvenMultiple(x, p);
    EvenMultiple(y, p);
    NextMultiple(x, y, pa, Pow2(p));
    EvenGap(x, y);
  }

  lemma EvenGap(x: int, y: int)
    requires x % 2 == 0 && y % 2 == 0
    ensures (y - x) % 2 == 0
  {}

  /** The next multiple after pc is not above any multiple at or after pc. */
  lemma NextMultiple(x: int, y: int, pc: int, a: int)
    requires a > 0 && x % a == 0 && y % a == 0 && pc <= y && x < pc + a
    ensures x <= y
  {
    var p, q := x / a, y / a;
    assert x == a * p && y == a * q;
    if p > q { Bits.MulMono(a, q + 1, p); } else { Bits.MulMono(a, p, q); }
  }

  lemma SizeMonotone(a: Entry, b: Entry)
    requires Later(a, b)
    ensures Above(SizeNow(a), SizeNow(b)) && 0 < SizeNow(a) && SizeNow(b) <= 4
  {}

  lemma NoWrap(pc: int)
    ensures 0 <= pc < TWO32 ==> U32(pc) == pc
  {}

  lemma StepAlign(a: Entry, b: Entry, pa: int, pb: int)
    requires a.kind == KAlign && Later(a, b) && Sane(a) && 0 <= pa && Above(pa, pb) && pb + Bound(a) < TWO32
    ensures 0 <= NextPc(a, pa) && Above(NextPc(a, pa), NextPc(b, pb)) && NextPc(b, pb) <= pb + Bound(a)
    ensures AssignOne(a, pa).addr == NextPc(a, pa) && AssignOne(b, pb).addr == NextPc(b, pb)
  {
    hide AlignUp, Pow2;
    NoWrap(a.imm);
    if a.imm > 1 {
      var p: nat :| p <= 31 && a.imm == Pow2(p);
      assert p > 0 by { assert Pow2(0) == 1 by { PowZero(); } }
      AlignMonotone(pa, pb, p);
    }
  }

  lemma PowZero()
    ensures Pow2(0) == 1
  {}

  lemma StepMonotone(a: Entry, b: Entry, pa: int, pb: int)
    requires Later(a, b) && Sane(a) && 0 <= pa && Above(pa, pb) && pb + Bound(a) < TWO32
    ensures 0 <= NextPc(a, pa) && Above(NextPc(a, pa), NextPc(b, pb)) && NextPc(b, pb) <= pb + Bound(a)
    ensures Above(AssignOne(a, pa).addr, AssignOne(b, pb).addr)
  {
    if a.kind == KAlign {
      StepAlign(a, b, pa, pb);
      hide AssignOne, NextPc, AlignUp, Above;
    } else {
      SizeMonotone(a, b);
      hide AlignUp, SizeNow, Pow2, U32;
      NoWrap(pa + SizeNow(a));
      NoWrap(pb + SizeNow(b));
      NoWrap(pa + a.size);
      NoWrap(pb + b.size);
    }
  }

  lemma {:induction false} ExtentNonNegative(nodes: seq<Entry>, sect: Section)
    requires forall e :: e in nodes ==> Sane(e)
    ensures Extent(nodes, sect) >= 0
  {
    if nodes != [] {
      assert Sane(nodes[0]);
      ExtentNonNegative(nodes[1..], sect);
      BoundNonNegative(nodes[0]);
    }
  }

  lemma BoundNonNegative(e: Entry)
    requires Sane(e)
    ensures Bound(e) >= 0
  {}

  lemma LaterTail(a: seq<Entry>, b: seq<Entry>)
    requires LaterAll(a, b) && a != []
    ensures Later(a[0], b[0]) && LaterAll(a[1..], b[1..])
  {
    hide Later;
    forall i | 0 <= i < |a[1..]| ensures Later(a[1..][i], b[1..][i]) { assert Later(a[i + 1], b[i + 1]); }
  }

  /** With fewer choices no address is smaller, and every difference is even. */
  lemma {:induction false} AssignMonotone(a: seq<Entry>, b: seq<Entry>, sect: Section, pa: int, pb: int, i: nat)
    requires LaterAll(a, b) && (forall e :: e in a ==> Sane(e))
    requires 0 <= pa && Above(pa, pb) && pb + Extent(a, sect) < TWO32
    requires i < |a| && a[i].sect == sect
    ensures Above(Assign(a, sect, pa)[i].addr, Assign(b, sect, pb)[i].addr)
    decreases |a|
  {
    hide Later, Sane, NextPc, AssignOne, Bound, Above;
    LaterTail(a, b);
    SameSection(a[0], b[0]);
    ExtentNonNegative(a[1..], sect);
    if a[0].sect == sect {
      StepMonotone(a[0], b[0], pa, pb);
      if i > 0 {
        AssignMonotone(a[1..], b[1..], sect, NextPc(a[0], pa), NextPc(b[0], pb), i - 1);
      }
    } else {
      AssignMonotone(a[1..], b[1..], sect, pa, pb, i - 1);
    }
  }

  lemma SameSection(a: Entry, b: Entry)
    requires Later(a, b)
    ensures a.sect == b.sect
  {}

  lemma RoundLater(cfg: Config, syms: Symbols, nodes: seq<Entry>, sect: Section)
    ensures LaterAll(nodes, Round(cfg, syms, nodes, sect))
  {
    var laid := Assign(nodes, sect, 0);
    var r := Round(cfg, syms, nodes, sect);
    forall i | 0 <= i < |nodes| ensures Later(nodes[i], r[i]) {
      AssignStatic(nodes, sect, 0, i);
      if nodes[i].kind == KData { AssignKeepsData(nodes, sect, 0, i); }
      ValidateShape(cfg, syms, laid, sect, i);
      hide Assign, Validate;
    }
  }

  lemma {:induction false} AssignKeepsData(nodes: seq<Entry>, sect: Section, pc: int, i: nat)
    requires i < |nodes| && nodes[i].kind == KData
    ensures Assign(nodes, sect, pc)[i].size == nodes[i].size
    decreases |nodes|
  {
    hide NextPc;
    if i > 0 {
      AssignKeepsData(nodes[1..], sect, if nodes[0].sect != sect then pc else NextPc(nodes[0], pc), i - 1);
    }
  }

  lemma LaterTrans(a: seq<Entry>, b: seq<Entry>, c: seq<Entry>)
    requires LaterAll(a, b) && LaterAll(b, c)
    ensures LaterAll(a, c)
  {
    forall i | 0 <= i < |a| ensures Later(a[i], c[i]) { assert Later(a[i], b[i]) && Later(b[i], c[i]); }
  }

  lemma LaterRefl(a: seq<Entry>)
    ensures LaterAll(a, a)
  {}

  lemma {:induction false} RoundsLater(cfg: Config, syms: Symbols, nodes: seq<Entry>, sect: Section, j: nat, k: nat)
    requires j <= k
    ensures LaterAll(Rounds(cfg, syms, nodes, sect, j), Rounds(cfg, syms, nodes, sect, k))
    decreases k
  {
    hide LaterAll, Round;
    if j == k {
      LaterRefl(Rounds(cfg, syms, nodes, sect, j));
    } else {
      RoundsLater(cfg, syms, nodes, sect, j, k - 1);
      RoundLater(cfg, syms, Rounds(cfg, syms, nodes, sect, k - 1), sect);
      LaterTrans(Rounds(cfg, syms, nodes, sect, j), Rounds(cfg, syms, nodes, sect, k - 1), Rounds(cfg, syms, nodes, sect, k));
    }
  }

  /** The layout of round k, before its validation. */
  function LaidAt(cfg: Config, syms: Symbols, nodes: seq<Entry>, sect: Section, k: nat): (r: seq<Entry>)
    ensures |r| == |nodes|
  {
    Assign(Rounds(cfg, syms, nodes, sect, k), sect, 0)
  }

  lemma {:induction false} LaterExtent(a: seq<Entry>, b: seq<Entry>, sect: Section)
    requires LaterAll(a, b)
    ensures Extent(b, sect) == Extent(a, sect)
    ensures (forall e :: e in a ==> Sane(e)) <==> forall e :: e in b ==> Sane(e)
    decreases |a|
  {
    if a != [] {
      LaterTail(a, b);
      LaterExtent(a[1..], b[1..], sect);
      SameBound(a[0], b[0]);
      hide Later, Sane, Bound;
      assert forall e :: e in b <==> e == b[0] || e in b[1..];
      assert forall e :: e in a <==> e == a[0] || e in a[1..];
    }
  }

  lemma SameBound(a: Entry, b: Entry)
    requires Later(a, b)
    ensures Bound(a) == Bound(b) && a.sect == b.sect && (Sane(a) <==> Sane(b))
  {}

  lemma AssignKeepsChoice(nodes: seq<Entry>, sect: Section, i: nat)
    requires i < |nodes|
    ensures Assign(nodes, sect, 0)[i].choice == nodes[i].choice
  {
    AssignStatic(nodes, sect, 0, i);
  }

  lemma AboveZero()
    ensures Above(0, 0)
  {}

  lemma LaidLater(a: seq<Entry>, b: seq<Entry>, sect: Section, i: nat)
    requires LaterAll(a, b) && i < |a| && a[i].sect == sect
    requires (forall e :: e in a ==> Sane(e)) && Extent(a, sect) < TWO32
    ensures (Assign(b, sect, 0)[i].choice.Some? ==> Assign(a, sect, 0)[i].choice.Some?)
    ensures Above(Assign(a, sect, 0)[i].addr, Assign(b, sect, 0)[i].addr)
  {
    hide Assign, Sane, Extent, LaterAll, Above;
    LaterAt(a, b, i);
    AboveZero();
    AssignMonotone(a, b, sect, 0, 0, i);
    AssignKeepsChoice(a, sect, i);
    AssignKeepsChoice(b, sect, i);
  }

  /** Over any number of rounds no choice comes back and no address decreases. */
  lemma RoundsMonotone(cfg: Config, syms: Symbols, nodes: seq<Entry>, sect: Section, j: nat, k: nat, i: nat)
    requires j <= k && i < |nodes| && nodes[i].sect == sect
    requires (forall e :: e in nodes ==> Sane(e)) && Extent(nodes, sect) < TWO32
    ensures LaidAt(cfg, syms, nodes, sect, k)[i].choice.Some? ==> LaidAt(cfg, syms, nodes, sect, j)[i].choice.Some?
    ensures Above(LaidAt(cfg, syms, nodes, sect, j)[i].addr, LaidAt(cfg, syms, nodes, sect, k)[i].addr)
  {
    assert Rounds(cfg, syms, nodes, sect, 0) == nodes;
    hide Rounds, Assign, Sane, Extent, LaterAll, Above;
    RoundsLater(cfg, syms, nodes, sect, 0, j);
    RoundsLater(cfg, syms, nodes, sect, j, k);
    LaterExtent(nodes, Rounds(cfg, syms, nodes, sect, j), sect);
    LaterAt(nodes, Rounds(cfg, syms, nodes, sect, j), i);
    LaidLater(Rounds(cfg, syms, nodes, sect, j), Rounds(cfg, syms, nodes, sect, k), sect, i);
  }

  lemma LaterAt(a: seq<Entry>, b: seq<Entry>, i: nat)
    requires LaterAll(a, b) && i < |a|
    ensures |a| == |b| && a[i].sect == b[i].sect && (b[i].choice.Some? ==> a[i].choice.Some?)
  {
    assert Later(a[i], b[i]);
  }

  function LowBound(op: COp): int {
    match op
    case C_BEQZ | C_BNEZ => -256
    case C_J | C_JAL => -2048
    case _ => -TWO31
  }

  /** A choice refused because its label is undefined, or its displacement odd or below the
      range, is refused at every address at least as large and of the same parity. */
  predicate RefusedForGood(syms: Symbols, e: Entry) {
    && e.choice.Some? && PcRelative(e.choice.value.op) && e.choice.value.target.Some? && e.choice.value.target.value != ""
    && var to := Lookup(syms, e.choice.value.target.value);
       to < 0 || (to - e.addr) % 2 != 0 || to - e.addr < LowBound(e.choice.value.op)
  }

  lemma DispExact(from: int, to: int)
    requires 0 <= from < TWO31 && 0 <= to < TWO31
    ensures Disp(from, to) == to - from && U32(to) == to
  {}

  /** Such a refusal in round j is a refusal in the layout of every later round k. */
  lemma RefusalIsFinal(cfg: Config, syms: Symbols, nodes: seq<Entry>, sect: Section, j: nat, k: nat, i: nat)
    requires j <= k && i < |nodes| && nodes[i].sect == sect
    requires (forall e :: e in nodes ==> Sane(e)) && Extent(nodes, sect) < TWO32
    requires forall l :: l in syms ==> syms[l] < TWO31
    requires var e := LaidAt(cfg, syms, nodes, sect, j)[i]; 0 <= e.addr < TWO31 && RefusedForGood(syms, e)
    requires LaidAt(cfg, syms, nodes, sect, k)[i].addr < TWO31
    ensures var e := LaidAt(cfg, syms, nodes, sect, j)[i];
            && ValidateOne(syms, e).choice.None?
            && ValidateOne(syms, e.(addr := LaidAt(cfg, syms, nodes, sect, k)[i].addr)).choice.None?
  {
    hide LaidAt;
    RoundsMonotone(cfg, syms, nodes, sect, j, k, i);
    var e := LaidAt(cfg, syms, nodes, sect, j)[i];
    Refused(syms, e, e.addr);
    Refused(syms, e, LaidAt(cfg, syms, nodes, sect, k)[i].addr);
  }

  lemma Refused(syms: Symbols, e: Entry, addr: int)
    requires RefusedForGood(syms, e) && 0 <= e.addr <= addr < TWO31 && (addr - e.addr) % 2 == 0
    requires forall l :: l in syms ==> syms[l] < TWO31
    ensures ValidateOne(syms, e.(addr := addr)).choice.None?
  {
    hide Disp, U32;
    var to := Lookup(syms, e.choice.value.target.value);
    if to >= 0 {
      DispExact(addr, to);
    }
  }

  // ------------------------------------------------- the layout that is emitted

  lemma {:induction false} RoundFirst(cfg: Config, syms: Symbols, nodes: seq<Entry>, sect: Section, k: nat)
    ensures Rounds(cfg, syms, nodes, sect, k + 1) == Rounds(cfg, syms, Round(cfg, syms, nodes, sect), sect, k)
  {
    hide Round;
    if k > 0 { RoundFirst(cfg, syms, nodes, sect, k - 1); }
  }

  /** Relaxation is some number of rounds, all the cap allows if it did not converge. */
  lemma {:induction false} RelaxIsRounds(cfg: Config, syms: Symbols, nodes: seq<Entry>, sect: Section, iters: nat) returns (k: nat)
    requires iters > 0
    ensures 0 < k <= iters && Relax(cfg, syms, nodes, sect, iters).0 == Rounds(cfg, syms, nodes, sect, k)
    ensures !Relax(cfg, syms, nodes, sect, iters).1 ==> k == iters
    decreases iters
  {
    hide Assign, Validate, Changed, Rounds;
    var next := Round(cfg, syms, nodes, sect);
    FirstRound(cfg, syms, nodes, sect);
    if !Changed(cfg, syms, Assign(nodes, sect, 0), sect) {
      k := 1;
    } else if iters == 1 {
      k := 1;
      assert Relax(cfg, syms, next, sect, 0) == (next, false);
    } else {
      k := RelaxIsRounds(cfg, syms, next, sect, iters - 1);
      RoundFirst(cfg, syms, nodes, sect, k);
      k := k + 1;
    }
  }

  lemma FirstRound(cfg: Config, syms: Symbols, nodes: seq<Entry>, sect: Section)
    ensures Rounds(cfg, syms, nodes, sect, 1) == Round(cfg, syms, nodes, sect)
  {
    assert Rounds(cfg, syms, nodes, sect, 0) == nodes;
  }

  lemma LastRound(cfg: Config, syms: Symbols, nodes: seq<Entry>, sect: Section, k: nat, i: nat)
    requires k > 0 && i < |nodes|
    ensures var r, laid := Rounds(cfg, syms, nodes, sect, k)[i], LaidAt(cfg, syms, nodes, sect, k - 1)[i];
            r.addr == laid.addr && r == laid.(choice := r.choice) && (r.choice.Some? ==> laid.choice.Some?)
  {
    hide Assign;
    ValidateShape(cfg, syms, LaidAt(cfg, syms, nodes, sect, k - 1), sect, i);
  }

  lemma PlannedSane(cfg: Config, nodes: seq<Entry>)
    requires forall e :: e in nodes ==> Sane(e) && e.choice.None?
    ensures (forall e :: e in Planned(cfg, nodes) ==> Sane(e)) && Extent(Planned(cfg, nodes), Text) == Extent(nodes, Text)
  {
    hide Sane, Extent;
    var p := Planned(cfg, nodes);
    forall i | 0 <= i < |nodes| ensures Later(p[i], nodes[i]) {
      assert nodes[i] in nodes;
      AssignStatic(nodes, Data, 0, i);
      if nodes[i].kind == KData { AssignKeepsData(nodes, Data, 0, i); }
    }
    LaterExtent(p, nodes, Text);
  }

  /** The emitted layout comes after every round j before the last: no choice came back, no
      address decreased, and what round j refused for good is emitted uncompressed, at an
      address where the compressed form would still be refused. */
  lemma EmittedIsLast(cfg: Config, syms: Symbols, nodes: seq<Entry>, i: nat, j: nat) returns (k: nat)
    requires cfg.hasC && cfg.autoC && i < |nodes| && nodes[i].sect == Text
    requires (forall e :: e in nodes ==> Sane(e) && e.choice.None?) && Extent(nodes, Text) < TWO31
    requires forall l :: l in syms ==> syms[l] < TWO31
    ensures 0 < k <= 8 && Prepare(cfg, syms, nodes) == Rounds(cfg, syms, Planned(cfg, nodes), Text, k)
    ensures (!Relax(cfg, syms, Planned(cfg, nodes), Text, 8).1 ==> k == 8)
    ensures j < k ==>
              var e, r := LaidAt(cfg, syms, Planned(cfg, nodes), Text, j)[i], Prepare(cfg, syms, nodes)[i];
              && Above(e.addr, r.addr) && (r.choice.Some? ==> e.choice.Some?)
              && (0 <= e.addr && r.addr < TWO31 && RefusedForGood(syms, e) ==>
                  r.choice.None? && ValidateOne(syms, e.(addr := r.addr)).choice.None?)
  {
    hide Rounds, Assign, Plan, Relax, LaidAt, Sane, Extent, RefusedForGood, ValidateOne, Above;
    var p := Planned(cfg, nodes);
    PlannedSane(cfg, nodes);
    k := RelaxIsRounds(cfg, syms, p, Text, 8);
    if j < k {
      assert p[i].sect == Text by { PlannedSect(cfg, nodes, i); }
      LastRound(cfg, syms, p, Text, k, i);
      RoundsMonotone(cfg, syms, p, Text, j, k - 1, i);
      var e, r := LaidAt(cfg, syms, p, Text, j)[i], Prepare(cfg, syms, nodes)[i];
      if 0 <= e.addr && r.addr < TWO31 && RefusedForGood(syms, e) {
        AboveOrder(e.addr, r.addr);
        RefusalIsFinal(cfg, syms, p, Text, j, k - 1, i);
        StaysRefused(cfg, syms, p, j, k, i);
      }
    }
  }

  lemma AboveOrder(x: int, y: int)
    requires Above(x, y)
    ensures x <= y
  {}

  lemma PlannedSect(cfg: Config, nodes: seq<Entry>, i: nat)
    requires i < |nodes|
    ensures Planned(cfg, nodes)[i].sect == nodes[i].sect
  {
    AssignStatic(nodes, Data, 0, i);
    hide Assign;
  }

  /** A choice refused in round j is gone after that round. */
  lemma StaysRefused(cfg: Config, syms: Symbols, p: seq<Entry>, j: nat, k: nat, i: nat)
    requires cfg.hasC && cfg.autoC && j < k && i < |p| && p[i].sect == Text
    requires ValidateOne(syms, LaidAt(cfg, syms, p, Text, j)[i]).choice.None?
    ensures Rounds(cfg, syms, p, Text, k)[i].choice.None?
  {
    hide Assign, ValidateOne, LaterAll;
    RoundsLater(cfg, syms, p, Text, 0, j);
    LaterAt(p, Rounds(cfg, syms, p, Text, j), i);
    AssignStatic(Rounds(cfg, syms, p, Text, j), Text, 0, i);
    RoundsLater(cfg, syms, p, Text, j + 1, k);
    LaterAt(Rounds(cfg, syms, p, Text, j + 1), Rounds(cfg, syms, p, Text, k), i);
  }
}
