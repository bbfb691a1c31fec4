/** The two halves of a pc-relative address. */
module Hilo {
  import opened Isa
  import opened Bits
  import opened Symtab
  import opened Layout
  import opened Emit
  import Encode32
  import Decode32

  /** The distance from an address to a label. */
  function Offset(syms: Symbols, name: string, addr: int): int
    requires name in syms
  {
    I32(syms[name]) - addr
  }

  predicate Defined(syms: Symbols, name: string) { name in syms && syms[name] >= 0 }

  /** The offset rounded to the nearest multiple of 4096. */
  function High(off: int): int { (off + 0x800) / 4096 * 4096 }

  lemma Halves(off: int)
    ensures -2048 <= off - High(off) <= 2047 && High(off) % 4096 == 0
    ensures -TWO31 <= off < TWO31 ==> -TWO31 <= High(off) <= TWO31 && (High(off) == TWO31 <==> off >= TWO31 - 2048)
  {
    assert off + 0x800 == (off + 0x800) / 4096 * 4096 + (off + 0x800) % 4096;
  }

  lemma Resolved(syms: Symbols, name: string, addr: int)
    requires Defined(syms, name) && -TWO31 <= Offset(syms, name, addr) < TWO31
    ensures var off := Offset(syms, name, addr);
            && ResolveLabel(syms, name, Hi20, addr) == Some(if off >= TWO31 - 2048 then -TWO31 else High(off))
            && ResolveLabel(syms, name, Lo12, addr) == Some(off - High(off))
  {
    var off := Offset(syms, name, addr);
    Halves(off);
    assert I32(off - High(off)) == off - High(off);
    assert I32(High(off)) == if off >= TWO31 - 2048 then -TWO31 else High(off);
    hide I32;
  }

  lemma AcceptsPair(cfg: Config, rd: Reg, hi: int, lo: int)
    requires -2048 <= lo <= 2047 && hi % 4096 == 0 && -TWO31 <= hi < TWO31
    ensures var a, b := Encode32.Encode(cfg.xlen, AUIPC, FmtUI, rd, 0, 0, hi), Encode32.Encode(cfg.xlen, ADDI, FmtI, rd, rd, 0, lo);
            && a.Some? && Decode32.Decode(cfg.xlen, a.value) == Some(Insn(AUIPC, rd, 0, 0, hi))
            && b.Some? && Decode32.Decode(cfg.xlen, b.value) == Some(Insn(ADDI, rd, rd, 0, lo))
  {
    hide Encode32.Encode, Decode32.Decode;
    Decode32.EncodeExact(cfg, AUIPC, rd, 0, 0, hi);
    Decode32.EncodeExact(cfg, ADDI, rd, rd, 0, lo);
  }

  /** Both halves taken at one address, for an offset that fits 32 bits: they sum to the offset
      exactly when it is below 2^31 - 2048, and to the offset less 2^32 otherwise; the low half
      is a 12-bit immediate and the high half a multiple of 4096, so both encoders accept. */
  lemma HalvesSum(cfg: Config, syms: Symbols, name: string, addr: int, rd: Reg)
    requires Defined(syms, name) && -TWO31 <= Offset(syms, name, addr) < TWO31
    ensures ResolveLabel(syms, name, Hi20, addr).Some? && ResolveLabel(syms, name, Lo12, addr).Some?
    ensures var hi, lo := ResolveLabel(syms, name, Hi20, addr).value, ResolveLabel(syms, name, Lo12, addr).value;
            var off := Offset(syms, name, addr);
            var a, b := Encode32.Encode(cfg.xlen, AUIPC, FmtUI, rd, 0, 0, hi), Encode32.Encode(cfg.xlen, ADDI, FmtI, rd, rd, 0, lo);
            && -2048 <= lo <= 2047 && hi % 4096 == 0 && -TWO31 <= hi < TWO31
            && (hi + lo == off <==> off < TWO31 - 2048) && (hi + lo == off || hi + lo == off - TWO32)
            && a.Some? && Decode32.Decode(cfg.xlen, a.value) == Some(Insn(AUIPC, rd, 0, 0, hi))
            && b.Some? && Decode32.Decode(cfg.xlen, b.value) == Some(Insn(ADDI, rd, rd, 0, lo))
  {
    hide ResolveLabel, Offset, High, Encode32.Encode, Decode32.Decode;
    Halves(Offset(syms, name, addr));
    Resolved(syms, name, addr);
    AcceptsPair(cfg, rd, ResolveLabel(syms, name, Hi20, addr).value, ResolveLabel(syms, name, Lo12, addr).value);
  }

  lemma ResolvedWide(syms: Symbols, name: string, addr: int)
    requires Defined(syms, name)
    ensures var off := Offset(syms, name, addr);
            && ResolveLabel(syms, name, Hi20, addr) == Some(I32(High(off)))
            && ResolveLabel(syms, name, Lo12, addr) == Some(off - High(off))
  {
    var off := Offset(syms, name, addr);
    Halves(off);
    assert I32(off - High(off)) == off - High(off);
    hide I32;
  }

  /** Truncation to 32 bits keeps the value modulo 2^32. */
  lemma KeepsModulo(n: int)
    ensures (I32(n) - n) % TWO32 == 0
  {
    var q := n / TWO32;
    assert n == q * TWO32 + n % TWO32;
    DivModUnique(I32(n) - n, TWO32, if n % TWO32 >= TWO31 then -q - 1 else -q, 0);
  }

  lemma SameModulo(x: int, y: int, d: int)
    requires (x - y) % TWO32 == 0 && 0 < d < TWO32
    ensures (x - y + d) % TWO32 != 0 && (x - y - d) % TWO32 != 0
  {
    var q := (x - y) / TWO32;
    DivModUnique(x - y + d, TWO32, q, d);
    DivModUnique(x - y - d, TWO32, q - 1, TWO32 - d);
  }

  /** `la` resolves its ADDI at the ADDI's own address, four bytes on, so the pair is never
      right, whatever the offset: modulo 2^32 it falls four bytes short of the label, or 4092
      past it when the two halves round differently. */
  lemma LaMisses(syms: Symbols, name: string, addr: int)
    requires Defined(syms, name)
    ensures ResolveLabel(syms, name, Hi20, addr).Some? && ResolveLabel(syms, name, Lo12, addr + 4).Some?
    ensures var off := Offset(syms, name, addr);
            var sum := ResolveLabel(syms, name, Hi20, addr).value + ResolveLabel(syms, name, Lo12, addr + 4).value;
            && (sum - (if (off + 0x800) % 4096 < 4 then off + 4092 else off - 4)) % TWO32 == 0
            && (sum - off) % TWO32 != 0
            && (-TWO31 + 4 <= off < TWO31 - 2048 ==> sum == if (off + 0x800) % 4096 < 4 then off + 4092 else off - 4)
  {
    hide ResolveLabel, High;
    var off := Offset(syms, name, addr);
    ResolvedWide(syms, name, addr);
    ResolvedWide(syms, name, addr + 4);
    FourBack(off);
    KeepsModulo(High(off));
    SameModulo(I32(High(off)), High(off), 4);
    SameModulo(I32(High(off)), High(off), 4092);
    if -TWO31 + 4 <= off < TWO31 - 2048 {
      Halves(off);
      assert I32(High(off)) == High(off);
    }
  }

  lemma FourBack(off: int)
    ensures High(off - 4) == High(off) - (if (off + 0x800) % 4096 < 4 then 4096 else 0)
  {
    var n := off + 0x800;
    assert (n - 4) / 4096 == n / 4096 - (if n % 4096 < 4 then 1 else 0);
  }
}
