/** Little-endian byte sequences. */
module Bytes {
  import opened Bits

  type Byte = b: int | 0 <= b < 256

  /** The k low bytes of n in two's complement, least significant first. */
  function LeBytes(n: int, k: nat): (r: seq<Byte>)
    ensures |r| == k
    decreases k
  {
    if k == 0 then [] else [n % 256] + LeBytes(n / 256, k - 1)
  }

  function FromLe(b: seq<Byte>): (n: nat) {
    if b == [] then 0 else b[0] + 256 * FromLe(b[1..])
  }

  function Zeros(n: nat): (r: seq<Byte>)
    ensures |r| == n && forall i :: 0 <= i < n ==> r[i] == 0
  {
    seq(n, i => 0)
  }

  /** The bytes of a 32-bit word, and of a 16-bit halfword, on a little-endian host. */
  function WordBytes(w: bv32): seq<Byte> { LeBytes(Val(w, 32), 4) }
  function HalfBytes(h: bv16): seq<Byte> { LeBytes(Val(h as bv32, 32), 2) }

  lemma ModByte(n: int, m: int)
    requires m > 0
    ensures n % (256 * m) == n % 256 + 256 * ((n / 256) % m)
  {
    var q, r := (n / 256) / m, (n / 256) % m;
    assert n == 256 * (m * q + r) + n % 256;
    assert 256 * (m * q) == (256 * m) * q;
    DivModUnique(n, 256 * m, q, n % 256 + 256 * r);
  }

  function Pow256(k: nat): (p: int)
    ensures p > 0
  {
    if k == 0 then 1 else 256 * Pow256(k - 1)
  }

  /** Writing k little-endian bytes and reading them back gives the value modulo 256^k. */
  lemma {:induction false} LeRoundTrip(n: int, k: nat)
    ensures FromLe(LeBytes(n, k)) == n % Pow256(k)
    decreases k
  {
    if k > 0 {
      LeRoundTrip(n / 256, k - 1);
      assert LeBytes(n, k)[1..] == LeBytes(n / 256, k - 1);
      ModByte(n, Pow256(k - 1));
    }
  }

  lemma PowTable()
    ensures Pow256(1) == 256 && Pow256(2) == 0x1_0000 && Pow256(4) == 0x1_0000_0000 && Pow256(8) == 0x1_0000_0000_0000_0000
  {
    assert Pow256(6) == 0x1_0000_0000_0000;
  }

  /** A word is recovered from its four bytes. */
  lemma WordRoundTrip(w: bv32)
    ensures FromLe(WordBytes(w)) == Val(w, 32) && Word(FromLe(WordBytes(w))) == w
  {
    hide Val, Low;
    PowTable();
    PowerTable();
    LeRoundTrip(Val(w, 32), 4);
    WordVal(w);
  }

  lemma HalfFits(h: bv16) returns (w: bv32)
    ensures w == h as bv32 && w & 0xFFFF == w
  {
    w := h as bv32;
  }

  lemma {:induction false} ValShort(w: bv32, j: nat, k: nat, o: bv32)
    requires j <= k && o == Ones(j) && w & o == w
    ensures Val(w, k) == Val(w, j)
    decreases j
  {
    if j == 0 {
      if k > 0 { Bits.Zeros(k); assert w == 0 by { NoBits(w); } }
    } else {
      hide Val, Ones;
      var x, o' := HalveFit(w, j, o);
      ValShort(x, j - 1, k - 1, o');
      ValStep(w, x, k);
      ValStep(w, x, j);
    }
  }

  lemma HalveFit(w: bv32, j: nat, o: bv32) returns (x: bv32, o': bv32)
    requires j > 0 && o == Ones(j) && w & o == w
    ensures x == w >> 1 && o' == Ones(j - 1) && x & o' == x
  {
    o' := Ones(j - 1);
    x := HalfFit(w, o, o');
  }

  lemma HalfFit(w: bv32, o: bv32, o': bv32) returns (x: bv32)
    requires o == Push(o', 1) && w & o == w
    ensures x == w >> 1 && x & o' == x
  {
    x := w >> 1;
  }

  lemma Sixteen() returns (o: bv32)
    ensures o == Ones(16) && o == 0xFFFF && Pow2(16) == 0x1_0000 && Pow256(2) == 0x1_0000
  {
    OnesTable();
    PowerTable();
    PowTable();
    o := 0xFFFF;
  }

  lemma HalfVal(h: bv16) returns (w: bv32)
    ensures w == h as bv32 && 0 <= Val(w, 32) < 0x1_0000
  {
    hide Val, Ones, Pow2;
    w := HalfFits(h);
    var o := Sixteen();
    ValShort(w, 16, 32, o);
  }

  /** The value of a halfword from its two bytes. */
  lemma HalfRoundTrip(h: bv16)
    ensures FromLe(HalfBytes(h)) == Val(h as bv32, 32) && Val(h as bv32, 32) < 0x1_0000
  {
    hide Val, Ones, Pow2, Pow256, FromLe, LeBytes;
    var w := HalfVal(h);
    var o := Sixteen();
    LeRoundTrip(Val(w, 32), 2);
  }

  /** The low two bits of a word are those of the number it denotes. */
  lemma LowTwoBits(w: bv32, k: nat)
    requires k >= 2
    ensures Val(w, k) % 4 == 3 <==> w & 3 == 3
  {
    hide Val;
    var x := HalfWord(w);
    var y := HalfWord(x);
    ValStep(w, x, k);
    ValStep(x, y, k - 1);
    BothBits(w, x);
  }

  lemma BothBits(w: bv32, x: bv32)
    requires x == w >> 1
    ensures w & 3 == 3 <==> w & 1 == 1 && x & 1 == 1
  {}
}
