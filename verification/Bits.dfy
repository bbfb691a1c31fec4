/** Two's-complement conversion between integers and 32-bit words, one bit at a time, so
    that integer and bit-vector reasoning never have to meet; and the field setter `put`. */
module Bits {

  function Pow2(k: nat): (p: int)
    ensures p > 0
  {
    if k == 0 then 1 else 2 * Pow2(k - 1)
  }

  function Lsb(n: int): (r: bv32)
    ensures r == 0 || r == 1
  {
    if n % 2 == 1 then 1 else 0
  }

  /** The bits of x moved up one place to make room for the bit r. */
  function Push(x: bv32, r: bv32): bv32 { (x << 1) | r }

  /** The low k bits of n in two's complement: C's conversion to an unsigned type. */
  function Low(n: int, k: nat): bv32
    decreases k
  {
    if k == 0 then 0 else Push(Low(n / 2, k - 1), Lsb(n))
  }

  /** `(uint32_t)n` as a word. */
  function Word(n: int): bv32 { Low(n, 32) }

  /** The number denoted by the low k bits of w. */
  function Val(w: bv32, k: nat): (v: int)
    ensures 0 <= v < Pow2(k)
    decreases k
  {
    if k == 0 then 0 else 2 * Val(w >> 1, k - 1) + (if w & 1 == 1 then 1 else 0)
  }

  /** The low k bits of w read as a signed field. */
  function Signed(w: bv32, k: nat): int
    requires k > 0
  {
    if Val(w, k) >= Pow2(k - 1) then Val(w, k) - Pow2(k) else Val(w, k)
  }

  /** k one-bits. */
  function Ones(k: nat): bv32 {
    if k == 0 then 0 else Push(Ones(k - 1), 1)
  }

  lemma MulMono(d: int, a: int, b: int)
    requires d > 0 && a <= b
    ensures d * a <= d * b
  {}

  lemma DivModUnique(n: int, d: int, q: int, r: int)
    requires d > 0 && n == d * q + r && 0 <= r < d
    ensures n / d == q && n % d == r
  {
    var q', r' := n / d, n % d;
    assert n == d * q' + r';
    if q > q' { MulMono(d, q' + 1, q); }
    if q < q' { MulMono(d, q + 1, q'); }
  }

  lemma ModDouble(n: int, m: int)
    requires m > 0
    ensures n % (2 * m) == 2 * ((n / 2) % m) + n % 2
  {
    var q, r := (n / 2) / m, (n / 2) % m;
    DivModUnique(n, 2 * m, q, 2 * r + n % 2);
  }

  lemma LowUnfold(n: int, k: nat, x: bv32) returns (x': bv32)
    requires k > 0 && x == Low(n / 2, k - 1)
    ensures x' == Low(n, k) && x' == Push(x, Lsb(n))
  {
    x' := Low(n, k);
  }

  lemma OnesUnfold(k: nat, o: bv32) returns (o': bv32)
    requires k > 0 && o == Ones(k - 1)
    ensures o' == Ones(k) && o' == Push(o, 1)
  {
    o' := Ones(k);
  }

  // Lemmas about Low, Val and Ones return the words they speak of: the caller then works
  // with plain values and the solver does not unfold the recursion into bits.

  lemma LowMaskStep(n: int, k: nat, j: nat)
    requires 0 < j <= k && Low(n / 2, k - 1) & Ones(j - 1) == Low(n / 2, j - 1)
    ensures Low(n, k) & Ones(j) == Low(n, j)
  {
    hide Low, Ones, Lsb, Push;
    var x, o, y := Low(n / 2, k - 1), Ones(j - 1), Low(n / 2, j - 1);
    var r := LsbOf(n);
    var x' := LowUnfold(n, k, x);
    var o' := OnesUnfold(j, o);
    var y' := LowUnfold(n, j, y);
    MaskStep(x, o, y, x', o', y', r);
  }

  lemma MaskStep(x: bv32, o: bv32, y: bv32, x': bv32, o': bv32, y': bv32, r: bv32)
    requires x & o == y && r <= 1
    requires x' == Push(x, r) && o' == Push(o, 1) && y' == Push(y, r)
    ensures x' & o' == y'
  {}

  /** Masking the low k bits of a number down to j bits leaves its low j bits. */
  lemma {:induction false} LowMask(n: int, k: nat, j: nat)
    requires j <= k
    ensures Low(n, k) & Ones(j) == Low(n, j)
    decreases j
  {
    if j == 0 {
      NoBits(Low(n, k));
    } else {
      hide Low, Ones;
      LowMask(n / 2, k - 1, j - 1);
      LowMaskStep(n, k, j);
    }
  }

  lemma NoBits(x: bv32)
    ensures x & 0 == 0
  {}

  lemma {:induction false} OnesNest(j: nat, k: nat) returns (x: bv32, o: bv32)
    requires j <= k
    ensures x == Ones(j) && o == Ones(k) && x & o == x
    decreases j
  {
    if j == 0 {
      x, o := 0, Ones(k);
    } else {
      hide Ones, Push;
      var x0, o0 := OnesNest(j - 1, k - 1);
      x := OnesUnfold(j, x0);
      o := OnesUnfold(k, o0);
      MaskStep(x0, o0, x0, x, o, x, 1);
    }
  }

  lemma OnesTable()
    ensures Ones(2) == 0x3 && Ones(3) == 0x7 && Ones(5) == 0x1F && Ones(6) == 0x3F && Ones(7) == 0x7F && Ones(8) == 0xFF
    ensures Ones(9) == 0x1FF && Ones(11) == 0x7FF && Ones(12) == 0xFFF && Ones(16) == 0xFFFF
    ensures Ones(20) == 0xF_FFFF && Ones(31) == 0x7FFF_FFFF && Ones(32) == 0xFFFF_FFFF
  {
    assert Ones(4) == 0xF;
    assert Ones(10) == 0x3FF;
    assert Ones(14) == 0x3FFF;
    assert Ones(18) == 0x3_FFFF;
    assert Ones(22) == 0x3F_FFFF;
    assert Ones(24) == 0xFF_FFFF;
    assert Ones(26) == 0x3FF_FFFF;
    assert Ones(28) == 0xFFF_FFFF;
    assert Ones(30) == 0x3FFF_FFFF;
  }

  lemma OnesBelowTop(k: nat) returns (o: bv32)
    requires k < 32
    ensures o == Ones(k) && o & 0x8000_0000 == 0
  {
    var o31;
    o, o31 := OnesNest(k, 31);
    OnesTable();
    BelowTop(o, o31);
  }

  lemma BelowTop(x: bv32, o: bv32)
    requires x & o == x && o & 0x8000_0000 == 0
    ensures x & 0x8000_0000 == 0
  {}

  /** Fewer than 32 low bits leave the top bit of the word clear. */
  lemma LowTop(n: int, k: nat) returns (x: bv32)
    requires k < 32
    ensures x == Low(n, k) && x & 0x8000_0000 == 0
  {
    LowMask(n, k, k);
    var o := OnesBelowTop(k);
    x := Low(n, k);
    BelowTop(x, o);
  }

  lemma ValStep(w: bv32, x: bv32, k: nat)
    requires k > 0 && w >> 1 == x
    ensures Val(w, k) == 2 * Val(x, k - 1) + (if w & 1 == 1 then 1 else 0)
  {}

  lemma LsbOf(n: int) returns (r: bv32)
    ensures r == Lsb(n) && (r == 0 || r == 1) && (r == 1 <==> n % 2 == 1)
  {
    r := Lsb(n);
  }

  lemma PushHalf(x: bv32, r: bv32)
    requires x & 0x8000_0000 == 0 && (r == 0 || r == 1)
    ensures Push(x, r) >> 1 == x
  {}

  lemma PushLast(x: bv32, r: bv32)
    requires r == 0 || r == 1
    ensures Push(x, r) & 1 == r
  {}

  lemma LowHalf(n: int, k: nat) returns (w: bv32, x: bv32)
    requires 0 < k <= 32
    ensures w == Low(n, k) && x == Low(n / 2, k - 1) && w >> 1 == x && (w & 1 == 1 <==> n % 2 == 1)
  {
    hide Low, Lsb, Push;
    x := LowTop(n / 2, k - 1);
    var r := LsbOf(n);
    w := LowUnfold(n, k, x);
    PushHalf(x, r);
    PushLast(x, r);
  }

  lemma ValOfLow(n: int, k: nat)
    requires 0 < k <= 32
    ensures Val(Low(n, k), k) == 2 * Val(Low(n / 2, k - 1), k - 1) + n % 2
  {
    hide Low, Val;
    var w, x := LowHalf(n, k);
    ValStep(w, x, k);
  }

  /** A number is recovered, modulo 2^k, from its low k bits. */
  lemma {:induction false} ValLow(n: int, k: nat)
    requires k <= 32
    ensures Val(Low(n, k), k) == n % Pow2(k)
    decreases k
  {
    if k > 0 {
      hide Low, Val;
      ValLow(n / 2, k - 1);
      ValOfLow(n, k);
      ModDouble(n, Pow2(k - 1));
    }
  }

  /** A signed number that fits in k bits is recovered from its low k bits. */
  lemma SignedLow(n: int, k: nat)
    requires 0 < k <= 32 && -Pow2(k - 1) <= n < Pow2(k - 1)
    ensures Signed(Low(n, k), k) == n
  {
    ValLow(n, k);
    if n >= 0 {
      DivModUnique(n, Pow2(k), 0, n);
    } else {
      DivModUnique(n, Pow2(k), -1, n + Pow2(k));
    }
  }

  lemma HalfWord(w: bv32) returns (x: bv32)
    ensures x == w >> 1
  {
    x := w >> 1;
  }

  lemma LowDoubled(v: int, b: bool, k: nat) returns (y: bv32, r: bv32)
    requires k > 0
    ensures y == Low(v, k - 1) && r == Low(2 * v + (if b then 1 else 0), k)
    ensures r == Push(y, if b then 1 else 0)
  {
    hide Push;
    y, r := Low(v, k - 1), Low(2 * v + (if b then 1 else 0), k);
    assert (2 * v + (if b then 1 else 0)) / 2 == v;
  }

  lemma Reassemble(w: bv32, o: bv32)
    ensures Push((w >> 1) & o, w & 1) == w & Push(o, 1)
  {}

  lemma LowBit(w: bv32) returns (b: bv32)
    ensures b == w & 1 && b == if w & 1 == 1 then 1 else 0
  {
    b := w & 1;
  }

  /** A word is recovered from the number its low k bits denote, up to those k bits. */
  lemma {:induction false} LowVal(w: bv32, k: nat) returns (r: bv32, o: bv32)
    ensures r == Low(Val(w, k), k) && o == Ones(k) && r == w & o
    decreases k
  {
    if k == 0 {
      r, o := 0, 0;
    } else {
      var x := HalfWord(w);
      var y, p := LowVal(x, k - 1);
      var z;
      z, r := LowDoubled(Val(x, k - 1), w & 1 == 1, k);
      ValStep(w, x, k);
      o := OnesUnfold(k, p);
      var b := LowBit(w);
      hide Low, Val, Ones, Push;
      Reassemble(w, p);
    }
  }

  /** The whole word is recovered from its number. */
  lemma WordVal(w: bv32)
    ensures Word(Val(w, 32)) == w
  {
    var r, o := LowVal(w, 32);
    OnesTable();
  }

  /** A number below 2^j has no bit at or above j. */
  lemma {:induction false} LowShort(n: int, k: nat, j: nat)
    requires j <= k && 0 <= n < Pow2(j)
    ensures Low(n, k) == Low(n, j)
    decreases k
  {
    if j > 0 {
      LowShort(n / 2, k - 1, j - 1);
    } else if k > 0 {
      LowShort(0, k - 1, 0);
    }
  }

  lemma HalvesAgree(n: int, m: int, p: int)
    requires p > 0 && n % (2 * p) == m % (2 * p)
    ensures (n / 2) % p == (m / 2) % p && n % 2 == m % 2
  {
    ModDouble(n, p);
    ModDouble(m, p);
  }

  /** The word of a number depends on its residue modulo 2^k only. */
  lemma {:induction false} LowPeriodic(n: int, m: int, k: nat)
    requires n % Pow2(k) == m % Pow2(k)
    ensures Low(n, k) == Low(m, k)
    decreases k
  {
    if k > 0 {
      hide Low, Lsb;
      HalvesAgree(n, m, Pow2(k - 1));
      LowPeriodic(n / 2, m / 2, k - 1);
      SameUnfolding(n, m, k);
    }
  }

  lemma SameLsb(n: int, m: int)
    requires n % 2 == m % 2
    ensures Lsb(n) == Lsb(m)
  {}

  lemma SameUnfolding(n: int, m: int, k: nat)
    requires k > 0 && Low(n / 2, k - 1) == Low(m / 2, k - 1) && n % 2 == m % 2
    ensures Low(n, k) == Low(m, k)
  {
    hide Low, Lsb;
    SameLsb(n, m);
    var x := LowUnfold(n, k, Low(n / 2, k - 1));
    var x' := LowUnfold(m, k, Low(m / 2, k - 1));
  }

  lemma PowerTable()
    ensures Pow2(2) == 4 && Pow2(3) == 8 && Pow2(5) == 32 && Pow2(6) == 64 && Pow2(7) == 128 && Pow2(8) == 256
    ensures Pow2(9) == 512 && Pow2(11) == 2048 && Pow2(12) == 4096 && Pow2(13) == 8192 && Pow2(16) == 0x1_0000
    ensures Pow2(20) == 0x10_0000 && Pow2(21) == 0x20_0000 && Pow2(31) == 0x8000_0000 && Pow2(32) == 0x1_0000_0000
  {
    assert Pow2(18) == 0x4_0000;
    assert Pow2(25) == 0x200_0000;
    assert Pow2(28) == 0x1000_0000;
  }

  lemma LowFits(n: int, k: nat) returns (u: bv32, o: bv32)
    ensures u == Low(n, k) && o == Ones(k) && u & o == u
  {
    LowMask(n, k, k);
    u, o := Low(n, k), Ones(k);
  }

  /** An even number's low bits are those of its half, shifted up. */
  lemma LowEven(n: int, k: nat) returns (u: bv32)
    requires k > 0 && n % 2 == 0
    ensures u == Low(n / 2, k - 1) && Low(n, k) == u << 1
  {
    u := Low(n / 2, k - 1);
  }

  lemma ImmEven(imm: int, k: nat) returns (u: bv32, o: bv32)
    requires 1 < k <= 32 && imm % 2 == 0 && -Pow2(k - 1) <= imm < Pow2(k - 1)
    ensures u == Low(imm / 2, k - 1) && o == Ones(k - 1) && u & o == u
    ensures Signed(u << 1, k) == imm
  {
    SignedLow(imm, k);
    var u' := LowEven(imm, k);
    u, o := LowFits(imm / 2, k - 1);
  }

  lemma ImmShift(imm: int, k: nat) returns (x: bv32, u: bv32, o: bv32)
    requires k <= 32 && 0 <= imm < Pow2(k)
    ensures x == Word(imm) && o == Ones(k) && u == x & o && Val(u, k) == imm
  {
    LowShort(imm, 32, k);
    ValLow(imm, k);
    DivModUnique(imm, Pow2(k), 0, imm);
    u, o := LowFits(imm, k);
    x := u;
  }

  lemma {:induction false} Zeros(k: nat)
    ensures Low(0, k) == 0 && Val(0, k) == 0
  {
    if k > 0 { Zeros(k - 1); }
  }

  /** The low k bits are all zero exactly for the multiples of 2^k. */
  lemma LowIsZero(n: int, k: nat)
    requires k <= 32
    ensures Low(n, k) == 0 <==> n % Pow2(k) == 0
  {
    Zeros(k);
    ValLow(n, k);
    var u, o := LowFits(n, k);
    var r, o' := LowVal(u, k);
  }

  // ---------------------------------------------------------------- the field setter

  function FieldOnes(hi: bv8, lo: bv8): bv32
    requires lo <= hi <= 15
  {
    ((1 as bv32) << (hi - lo + 1)) - 1
  }

  function FieldMask(hi: bv8, lo: bv8): bv32
    requires lo <= hi <= 15
  {
    FieldOnes(hi, lo) << lo
  }

  function FieldBits(hi: bv8, lo: bv8, v: bv32): bv32
    requires lo <= hi <= 15
  {
    (v & FieldOnes(hi, lo)) << lo
  }

  /** The bits under the mask m of w are replaced by v. */
  function Merge(w: bv16, m: bv32, v: bv32): bv16 {
    ((((w as bv32) & !m) | v) & 0xFFFF) as bv16
  }

  /** `put(w, hi, lo, v)`: bits hi..lo of w become the low bits of v. Every caller passes
      constants, so the source's test for a negative lo has no counterpart here. */
  function Put(w: bv16, hi: bv8, lo: bv8, v: bv32): bv16 {
    if hi < lo || hi > 15 then w else Merge(w, FieldMask(hi, lo), FieldBits(hi, lo, v))
  }

  // The lemmas below hand masks on as plain values: the solver then never has to look
  // inside a shift by a variable amount.

  lemma FieldFacts(hi: bv8, lo: bv8, v: bv32) returns (m: bv32, bits: bv32)
    requires lo <= hi <= 15
    ensures m == FieldMask(hi, lo) && bits == FieldBits(hi, lo, v)
    ensures m & 0xFFFF_0000 == 0 && bits & !m == 0
    ensures bits >> lo == v & FieldOnes(hi, lo)
  {
    m, bits := FieldMask(hi, lo), FieldBits(hi, lo, v);
  }

  lemma MasksDisjoint(hi: bv8, lo: bv8, hi': bv8, lo': bv8)
    requires lo <= hi < lo' <= hi' <= 15
    ensures FieldMask(hi, lo) & FieldMask(hi', lo') == 0
  {}

  /** h holds the bits v under the mask m, and is w elsewhere. */
  predicate HoldsField(h: bv16, w: bv16, m: bv32, v: bv32) {
    (h as bv32) & m == v && (h as bv32) & !m == (w as bv32) & !m
  }

  lemma MergeInside(w: bv16, m: bv32, v: bv32)
    requires v & !m == 0 && m & 0xFFFF_0000 == 0
    ensures (Merge(w, m, v) as bv32) & m == v
  {}

  lemma MergeOutside(w: bv16, m: bv32, v: bv32)
    requires v & !m == 0 && m & 0xFFFF_0000 == 0
    ensures (Merge(w, m, v) as bv32) & !m == (w as bv32) & !m
  {}

  lemma MergeLaw(w: bv16, m: bv32, v: bv32)
    requires v & !m == 0 && m & 0xFFFF_0000 == 0
    ensures HoldsField(Merge(w, m, v), w, m, v)
  {
    hide Merge;
    MergeInside(w, m, v);
    MergeOutside(w, m, v);
  }

  lemma MergeCommute(w: bv16, m: bv32, v: bv32, m': bv32, v': bv32)
    requires v & !m == 0 && v' & !m' == 0 && m & m' == 0
    ensures Merge(Merge(w, m, v), m', v') == Merge(Merge(w, m', v'), m, v)
  {}

  lemma PutIsMerge(w: bv16, hi: bv8, lo: bv8, v: bv32)
    requires lo <= hi <= 15
    ensures Put(w, hi, lo, v) == Merge(w, FieldMask(hi, lo), FieldBits(hi, lo, v))
  {
    hide Merge, FieldMask, FieldBits;
  }

  /** The field reads back as v cut to its width, and every other bit of w stays. */
  lemma PutLaw(w: bv16, hi: bv8, lo: bv8, v: bv32) returns (m: bv32, bits: bv32)
    requires lo <= hi <= 15
    ensures m == FieldMask(hi, lo) && HoldsField(Put(w, hi, lo, v), w, m, bits) && bits >> lo == v & FieldOnes(hi, lo)
  {
    hide Put, Merge, FieldMask, FieldBits, FieldOnes, HoldsField;
    m, bits := FieldFacts(hi, lo, v);
    MergeLaw(w, m, bits);
    PutIsMerge(w, hi, lo, v);
  }

  /** Setting two fields that do not overlap gives the same halfword in either order. */
  lemma PutCommutes(w: bv16, hi: bv8, lo: bv8, v: bv32, hi': bv8, lo': bv8, v': bv32)
    requires lo <= hi < lo' <= hi' <= 15
    ensures Put(Put(w, hi, lo, v), hi', lo', v') == Put(Put(w, hi', lo', v'), hi, lo, v)
  {
    var m, bits := FieldFacts(hi, lo, v);
    var m', bits' := FieldFacts(hi', lo', v');
    MasksDisjoint(hi, lo, hi', lo');
    MergeCommute(w, m, bits, m', bits');
  }
}
