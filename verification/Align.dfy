/** The padding arithmetic of `pass.h`: a mask computation on 32-bit words. */
module Align {
  import opened Isa
  import opened Bits

  /** `(addr + (align - 1)) & ~(align - 1)` on `uint32_t`. */
  function AlignUp(addr: int, align: int): int {
    Val(Word(addr + (align - 1)) & !Word(align - 1), 32)
  }

  /** `pass_align_to_pow2`, for the shifts C defines. */
  function AlignToPow2(addr: int, pow2: nat): int
    requires pow2 <= 31
  {
    AlignUp(addr, Pow2(pow2))
  }

  /** `pass_align_pad`. */
  function AlignPad(addr: int, pow2: nat): int
    requires pow2 <= 31
  {
    U32(AlignToPow2(addr, pow2) - addr)
  }

  /** `pass1_emit_align`'s form of the same padding. */
  function ModPad(addr: int, pow2: nat): int {
    var a := Pow2(pow2);
    (a - addr % a) % a
  }

  /** Padding by d bytes makes the (wrapping) address a multiple of 2^pow2. */
  predicate Reaches(addr: int, pow2: nat, d: int) {
    U32(addr + d) % Pow2(pow2) == 0
  }

  lemma ClearHalf(x: bv32, m: bv32, r: bv32)
    requires x & 0x8000_0000 == 0 && (r == 0 || r == 1)
    ensures (Push(x, r) & !Push(m, 1)) >> 1 == x & !m
  {}

  lemma ClearLast(w: bv32, m: bv32)
    ensures (w & !Push(m, 1)) & 1 == 0
  {}

  lemma SameTop(x: bv32, x': bv32)
    requires x == x' && x' & 0x8000_0000 == 0
    ensures x & 0x8000_0000 == 0
  {}

  /** The low bits of 2^p - 1 are p ones. */
  lemma AllOnesNumber(p: nat, k: nat, m: bv32) returns (m': bv32)
    requires 0 < p <= k && m == Low(Pow2(p - 1) - 1, k - 1)
    ensures m' == Low(Pow2(p) - 1, k) && m' == Push(m, 1)
  {
    hide Low, Lsb, Push;
    var n := Pow2(p) - 1;
    assert n / 2 == Pow2(p - 1) - 1 && n % 2 == 1;
    var r := LsbOf(n);
    m' := LowUnfold(n, k, m);
  }

  lemma EvenVal(z: bv32, y: bv32, k: nat)
    requires k > 0 && z >> 1 == y && z & 1 == 0
    ensures Val(z, k) == 2 * Val(y, k - 1)
  {
    hide Val;
    ValStep(z, y, k);
  }

  lemma MaskParts(n: int, p: nat, k: nat, x: bv32, m: bv32, y: bv32) returns (w: bv32, m': bv32, z: bv32)
    requires 0 < p <= k <= 32 && x == Low(n / 2, k - 1) && m == Low(Pow2(p - 1) - 1, k - 1) && y == x & !m
    ensures w == Low(n, k) && m' == Low(Pow2(p) - 1, k) && z == w & !m'
    ensures Val(z, k) == 2 * Val(y, k - 1)
  {
    hide Low, Lsb, Pow2, Push, Val;
    var x' := LowTop(n / 2, k - 1);
    SameTop(x, x');
    w := LowUnfold(n, k, x);
    var r := LsbOf(n);
    m' := AllOnesNumber(p, k, m);
    ClearHalf(x, m, r);
    ClearLast(w, m);
    z := w & !m';
    EvenVal(z, y, k);
  }

  lemma NoMask(n: int, k: nat) returns (w: bv32, m: bv32, z: bv32)
    requires k <= 32
    ensures w == Low(n, k) && m == Low(0, k) && z == w & !m && Val(z, k) == n % Pow2(k)
  {
    hide Low, Val;
    Zeros(k);
    ValLow(n, k);
    w, m := Low(n, k), 0;
    z := NotZero(w);
  }

  lemma NotZero(x: bv32) returns (z: bv32)
    ensures z == x && z == x & !0
  {
    z := x;
  }

  lemma RemainderStep(n: int, p: nat, k: nat)
    requires 0 < p <= k
    ensures n % Pow2(k) - n % Pow2(p) == 2 * ((n / 2) % Pow2(k - 1) - (n / 2) % Pow2(p - 1))
  {
    ModDouble(n, Pow2(k - 1));
    ModDouble(n, Pow2(p - 1));
  }

  /** Clearing the low p bits subtracts the remainder modulo 2^p. */
  lemma {:induction false} MaskDown(n: int, p: nat, k: nat) returns (w: bv32, m: bv32, z: bv32)
    requires p <= k <= 32
    ensures w == Low(n, k) && m == Low(Pow2(p) - 1, k) && z == w & !m
    ensures Val(z, k) == n % Pow2(k) - n % Pow2(p)
    decreases p
  {
    if p == 0 {
      w, m, z := NoMask(n, k);
    } else {
      hide Low, Val, Pow2;
      var x, m0, y := MaskDown(n / 2, p - 1, k - 1);
      w, m, z := MaskParts(n, p, k, x, m0, y);
      RemainderStep(n, p, k);
    }
  }

  lemma {:induction false} PowDivides(p: nat, k: nat)
    requires p <= k
    ensures Pow2(k) == Pow2(p) * Pow2(k - p)
    decreases k - p
  {
    if p < k {
      PowDivides(p, k - 1);
      assert 2 * (Pow2(p) * Pow2(k - 1 - p)) == Pow2(p) * (2 * Pow2(k - 1 - p));
    }
  }

  /** A remainder modulo a multiple keeps the remainder modulo the factor. */
  lemma ModMod(n: int, a: int, b: int)
    requires a > 0 && b > 0
    ensures (n % (a * b)) % a == n % a
  {
    var q, r := n / (a * b), n % (a * b);
    var q', r' := r / a, r % a;
    assert n == (a * b) * q + a * q' + r';
    assert (a * b) * q == a * (b * q);
    assert a * (b * q) + a * q' == a * (b * q + q');
    DivModUnique(n, a, b * q + q', r');
  }

  /** The mask computation, as arithmetic. */
  lemma AlignUpValue(addr: int, pow2: nat)
    requires pow2 <= 31
    ensures var n := addr + (Pow2(pow2) - 1);
            AlignUp(addr, Pow2(pow2)) == n % TWO32 - n % Pow2(pow2)
  {
    hide Low, Val, Pow2;
    PowerTable();
    var w, m, z := MaskDown(addr + (Pow2(pow2) - 1), pow2, 32);
    SameCut(w, m, z, Word(addr + (Pow2(pow2) - 1)), Word(Pow2(pow2) - 1));
  }

  lemma SameCut(w: bv32, m: bv32, z: bv32, w': bv32, m': bv32)
    requires w == w' && m == m' && z == w & !m
    ensures z == w' & !m'
  {}

  /** Aligning adds the modular padding, modulo 2^32. */
  lemma AlignAddsPadding(addr: int, pow2: nat)
    requires pow2 <= 31
    ensures AlignToPow2(addr, pow2) == U32(addr + ModPad(addr, pow2))
    ensures 0 <= ModPad(addr, pow2) < Pow2(pow2)
  {
    hide AlignUp, Pow2;
    AlignUpValue(addr, pow2);
    Split32(pow2);
    PadModulo(addr, Pow2(pow2), Pow2(32 - pow2));
  }

  lemma Split32(pow2: nat)
    requires pow2 <= 31
    ensures Pow2(pow2) * Pow2(32 - pow2) == TWO32
  {
    PowDivides(pow2, 32);
    PowerTable();
  }

  lemma PadModulo(addr: int, a: int, b: int)
    requires a > 0 && b > 0 && a * b == TWO32
    ensures (addr + (a - 1)) % TWO32 - (addr + (a - 1)) % a == U32(addr + (a - addr % a) % a)
    ensures 0 <= (a - addr % a) % a < a
  {
    RoundUp(addr, a);
    ShiftedMod(addr + (a - 1), (addr + (a - 1)) % a, TWO32, a, b);
  }

  lemma ReachesMod(addr: int, pow2: nat, d: int)
    requires pow2 <= 31
    ensures Reaches(addr, pow2, d) <==> (addr + d) % Pow2(pow2) == 0
  {
    hide Pow2;
    Split32(pow2);
    ModMod(addr + d, Pow2(pow2), Pow2(32 - pow2));
  }

  /** For every 32-bit address and power: the mask form of the padding is the modular form,
      it reaches a multiple of 2^pow2, and no smaller padding does; addresses wrap. */
  lemma PaddingExact(addr: int, pow2: nat)
    requires 0 <= addr < TWO32 && pow2 <= 31
    ensures AlignPad(addr, pow2) == ModPad(addr, pow2)
    ensures Reaches(addr, pow2, ModPad(addr, pow2))
    ensures forall d :: 0 <= d < ModPad(addr, pow2) ==> !Reaches(addr, pow2, d)
  {
    hide AlignToPow2, Pow2, Reaches;
    var a := Pow2(pow2);
    RoundUp(addr, a);
    AlignAddsPadding(addr, pow2);
    ReachesMod(addr, pow2, ModPad(addr, pow2));
    forall d | 0 <= d < ModPad(addr, pow2) ensures !Reaches(addr, pow2, d) {
      NotYet(addr, a, d);
      ReachesMod(addr, pow2, d);
    }
    Split32(pow2);
    PadFits(addr, ModPad(addr, pow2), a, Pow2(32 - pow2));
  }

  lemma PadFits(addr: int, pad: int, a: int, b: int)
    requires 0 <= addr < TWO32 && 0 <= pad < a && a * b == TWO32 && b >= 1
    ensures U32(U32(addr + pad) - addr) == pad
  {
    MulMono(a, 1, b);
  }

  /** Subtracting a remainder commutes with reduction modulo a multiple. */
  lemma ShiftedMod(n: int, r: int, m: int, a: int, b: int)
    requires a > 0 && b > 0 && m == a * b && r == n % a
    ensures n % m - r == (n - r) % m
  {
    ModMod(n, a, b);
    var q, s := n / m, n % m;
    assert s >= r by { assert s % a == r; }
    DivModUnique(n - r, m, q, s - r);
  }

  lemma RoundUp(addr: int, a: int)
    requires a > 0
    ensures var n := addr + (a - 1);
            var pad := (a - addr % a) % a;
            n - n % a == addr + pad && (addr + pad) % a == 0 && 0 <= pad < a
  {
    var q, r := addr / a, addr % a;
    if r == 0 {
      DivModUnique(addr + (a - 1), a, q, a - 1);
      DivModUnique(a - r, a, 1, 0);
    } else {
      DivModUnique(addr + (a - 1), a, q + 1, r - 1);
      DivModUnique(a - r, a, 0, a - r);
      DivModUnique(addr + (a - r), a, q + 1, 0);
    }
  }

  lemma PadReaches(off: int, pow2: nat) returns (pad: int)
    ensures pad == ModPad(off, pow2) && 0 <= pad < Pow2(pow2) && (off + pad) % Pow2(pow2) == 0
  {
    hide Pow2;
    pad := ModPad(off, pow2);
    RoundUp(off, Pow2(pow2));
  }

  lemma NotYet(addr: int, a: int, d: int)
    requires a > 0 && 0 <= d < (a - addr % a) % a
    ensures (addr + d) % a != 0
  {
    var q, r := addr / a, addr % a;
    if r == 0 { DivModUnique(a - r, a, 1, 0); assert false; }
    DivModUnique(a - r, a, 0, a - r);
    DivModUnique(addr + d, a, q, r + d);
  }
}
