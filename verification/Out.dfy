/** Byte vectors, the output file and the sinks of `out.c`. */
module Out {
  import opened Isa
  import opened Bits
  import opened Bytes

  datatype OutFormat = Raw | Elf

  /** A file's bytes after p is written at offset off; a gap reads as zeros. */
  function Patch(f: seq<Byte>, off: nat, p: seq<Byte>): (r: seq<Byte>)
    ensures p != [] ==> |r| == if off + |p| > |f| then off + |p| else |f|
    ensures p == [] ==> r == f
  {
    if p == [] then f
    else
      var g := if |f| < off then f + Bytes.Zeros(off - |f|) else f;
      g[..off] + p + (if off + |p| < |g| then g[off + |p|..] else [])
  }

  /** A stdio stream: its bytes and its position. */
  class File {
    var content: seq<Byte>
    var pos: nat

    constructor ()
      ensures content == [] && pos == 0
    {
      content, pos := [], 0;
    }

    /** `fwrite`, which may accept fewer bytes than offered but makes progress. */
    method Fwrite(p: seq<Byte>) returns (wrote: nat)
      requires p != []
      modifies this
      ensures 0 < wrote <= |p|
      ensures content == Patch(old(content), old(pos), p[..wrote]) && pos == old(pos) + wrote
    {
      wrote :| 0 < wrote <= |p|;
      content := Patch(content, pos, p[..wrote]);
      pos := pos + wrote;
    }

    /** Writing a whole block in sequence. */
    method WriteAll(p: seq<Byte>)
      modifies this
      ensures content == Patch(old(content), old(pos), p) && pos == old(pos) + |p|
    {
      var left := p;
      ghost var done: seq<Byte> := [];
      while left != []
        invariant p == done + left
        invariant content == Patch(old(content), old(pos), done) && pos == old(pos) + |done|
        decreases |left|
      {
        var wrote := Fwrite(left);
        PatchTwice(old(content), old(pos), done, left[..wrote]);
        assert done + left[..wrote] + left[wrote..] == done + left;
        done := done + left[..wrote];
        left := left[wrote..];
      }
      assert p == done;
    }

    /** `write_at`: write a block at an offset and restore the position. */
    method WriteAt(off: nat, p: seq<Byte>)
      modifies this
      ensures content == Patch(old(content), off, p) && pos == old(pos)
    {
      var cur := pos;
      pos := off;
      WriteAll(p);
      pos := cur;
    }
  }

  /** Two adjacent writes are one. */
  lemma PatchTwice(f: seq<Byte>, off: nat, p: seq<Byte>, q: seq<Byte>)
    ensures Patch(Patch(f, off, p), off + |p|, q) == Patch(f, off, p + q)
  {
    if p == [] {
      assert p + q == q;
    } else if q == [] {
      assert p + q == p;
    } else {
      var a, b := Patch(Patch(f, off, p), off + |p|, q), Patch(f, off, p + q);
      assert |a| == |b|;
      forall i | 0 <= i < |a| ensures a[i] == b[i] { PatchAt(f, off, p, i); PatchAt(f, off, p + q, i); PatchAt(Patch(f, off, p), off + |p|, q, i); }
    }
  }

  /** The byte at index i after a write. */
  lemma PatchAt(f: seq<Byte>, off: nat, p: seq<Byte>, i: nat)
    requires p != []
    ensures i < |Patch(f, off, p)| ==>
            Patch(f, off, p)[i] == if off <= i < off + |p| then p[i - off] else if i < |f| then f[i] else 0
  {}

  /** `bytevec_t`. */
  class ByteVec {
    var data: array<Byte>
    var len: nat

    ghost predicate Valid()
      reads this
    {
      len <= data.Length
    }

    ghost function Contents(): seq<Byte>
      requires Valid()
      reads this, data
    {
      data[..len]
    }

    constructor ()
      ensures Valid() && fresh(data) && Contents() == []
    {
      data := new Byte[0];
      len := 0;
    }

    /** `bv_reserve`: double the capacity until it suffices. */
    method Reserve(need: nat)
      requires Valid()
      modifies this`data
      ensures Valid() && Contents() == old(Contents()) && len + need <= data.Length
      ensures data == old(data) || fresh(data)
    {
      if len + need <= data.Length { return; }
      var cap := if data.Length > 0 then data.Length else 256;
      while cap < len + need
        invariant cap > 0
        decreases len + need - cap
      {
        cap := cap * 2;
      }
      var bigger := new Byte[cap](_ => 0);
      var i := 0;
      while i < len
        invariant 0 <= i <= len <= bigger.Length && Valid() && bigger[..i] == data[..i]
        modifies bigger
      {
        bigger[i] := data[i];
        i := i + 1;
      }
      data := bigger;
    }

    /** `bv_append`. */
    method Append(src: seq<Byte>)
      requires Valid()
      modifies this, data
      ensures Valid() && Contents() == old(Contents()) + src
      ensures data == old(data) || fresh(data)
    {
      Reserve(|src|);
      var i := 0;
      ghost var was := data[..len];
      while i < |src|
        invariant 0 <= i <= |src| && data[..len + i] == was + src[..i]
        modifies data
      {
        data[len + i] := src[i];
        i := i + 1;
      }
      len := len + |src|;
    }

    /** `bv_zero`. */
    method Zero(n: nat)
      requires Valid()
      modifies this, data
      ensures Valid() && Contents() == old(Contents()) + Bytes.Zeros(n)
      ensures data == old(data) || fresh(data)
    {
      Reserve(n);
      var i := 0;
      ghost var was := data[..len];
      while i < n
        invariant 0 <= i <= n && data[..len] == was && data[len..len + i] == Bytes.Zeros(i)
        modifies data
      {
        data[len + i] := 0;
        i := i + 1;
      }
      assert data[..len + n] == data[..len] + data[len..len + n];
      len := len + n;
    }
  }

  /** The state of the sinks: `raw` is the stream of a raw file, None without a file. */
  datatype Sink = Sink(fmt: OutFormat, raw: Option<seq<Byte>>, cur: Section, text: seq<Byte>, data: seq<Byte>, rvc: bool)

  /** `sink_write`. */
  function SinkWrite(s: Sink, p: seq<Byte>): Option<Sink> {
    match s.fmt
    case Raw => if s.raw.None? then None else Some(s.(raw := Some(s.raw.value + p)))
    case Elf => Some(if s.cur == Text then s.(text := s.text + p) else s.(data := s.data + p))
  }

  /** `write_half_le`: the C flag is set even if the write then fails. */
  function MarkRvc(s: Sink): Sink {
    if s.fmt == Elf && s.cur == Text then s.(rvc := true) else s
  }

  /** `out_ctx_t`. */
  class Output {
    const fmt: OutFormat
    const xlen: Xlen
    const fp: File?
    var cur: Section
    const text: ByteVec
    const data: ByteVec
    var hasRvc: bool

    ghost predicate Valid()
      reads this, text, data, fp
    {
      && text != data && text.Valid() && data.Valid() && text.data != data.data
      && (fmt == Raw && fp != null ==> fp.pos == |fp.content|)
    }

    ghost function Repr(): set<object?>
      reads this, text, data
    {
      {this, text, data, text.data, data.data, fp}
    }

    ghost function View(): Sink
      requires Valid()
      reads this, text, data, text.data, data.data, fp
    {
      Sink(fmt, if fmt == Raw && fp != null then Some(fp.content) else None, cur, text.Contents(), data.Contents(), hasRvc)
    }

    /** `out_begin` followed by `out_set_file`. */
    constructor (fmt: OutFormat, xlen: Xlen, fp: File?)
      requires fp != null ==> fp.pos == |fp.content|
      ensures Valid() && this.fmt == fmt && this.xlen == xlen && this.fp == fp && cur == Text && !hasRvc
      ensures View() == Sink(fmt, if fmt == Raw && fp != null then Some(fp.content) else None, Text, [], [], false)
      ensures fresh({text, data, text.data, data.data})
    {
      this.fmt, this.xlen, this.fp, cur, hasRvc := fmt, xlen, fp, Text, false;
      text := new ByteVec();
      data := new ByteVec();
    }

    /** `out_begin_section`. */
    method BeginSection(sect: Section)
      requires Valid()
      modifies this`cur
      ensures Valid() && View() == old(View()).(cur := sect)
    {
      cur := sect;
    }

    method SinkBytes(p: seq<Byte>) returns (ok: bool)
      requires Valid()
      modifies Repr()
      ensures Valid() && fresh(Repr() - old(Repr()))
      ensures ok <==> SinkWrite(old(View()), p).Some?
      ensures View() == if ok then SinkWrite(old(View()), p).value else old(View())
    {
      if fmt == Raw {
        if fp == null { return false; }
        fp.WriteAll(p);
        PatchEnd(old(fp.content), p);
        return true;
      }
      if cur == Text { text.Append(p); } else { data.Append(p); }
      return true;
    }

    /** `sink_zeros`: a raw file receives chunks of at most 256 zeros. */
    method SinkZeros(n: nat) returns (ok: bool)
      requires Valid()
      modifies Repr()
      ensures Valid() && fresh(Repr() - old(Repr()))
      ensures ok <==> SinkWrite(old(View()), Bytes.Zeros(n)).Some?
      ensures View() == if ok then SinkWrite(old(View()), Bytes.Zeros(n)).value else old(View())
    {
      if fmt == Raw {
        if fp == null { return false; }
        var left := n;
        while left > 0
          invariant 0 <= left <= n
          invariant fp.content == old(fp.content) + Bytes.Zeros(n - left) && fp.pos == |fp.content|
          modifies fp
        {
          var chunk := if left > 256 then 256 else left;
          ghost var was := fp.content;
          fp.WriteAll(Bytes.Zeros(chunk));
          PatchEnd(was, Bytes.Zeros(chunk));
          assert Bytes.Zeros(n - left) + Bytes.Zeros(chunk) == Bytes.Zeros(n - left + chunk);
          left := left - chunk;
        }
        return true;
      }
      if cur == Text { text.Zero(n); } else { data.Zero(n); }
      return true;
    }

    /** `write_word_le`. */
    method WriteWord(w: bv32) returns (ok: bool)
      requires Valid()
      modifies Repr()
      ensures Valid() && fresh(Repr() - old(Repr()))
      ensures ok <==> SinkWrite(old(View()), WordBytes(w)).Some?
      ensures View() == if ok then SinkWrite(old(View()), WordBytes(w)).value else old(View())
    {
      ok := SinkBytes(WordBytes(w));
    }

    /** `write_half_le`. */
    method WriteHalf(h: bv16) returns (ok: bool)
      requires Valid()
      modifies Repr()
      ensures Valid() && fresh(Repr() - old(Repr()))
      ensures ok <==> SinkWrite(MarkRvc(old(View())), HalfBytes(h)).Some?
      ensures View() == if ok then SinkWrite(MarkRvc(old(View())), HalfBytes(h)).value else MarkRvc(old(View()))
    {
      if fmt == Elf && cur == Text { hasRvc := true; }
      ok := SinkBytes(HalfBytes(h));
    }

    /** `write_value_le`. */
    method WriteValue(value: int, size: int) returns (ok: bool)
      requires Valid()
      modifies Repr()
      ensures Valid() && fresh(Repr() - old(Repr()))
      ensures ok <==> size in {1, 2, 4, 8} && SinkWrite(old(View()), LeBytes(value, size)).Some?
      ensures View() == if ok then SinkWrite(old(View()), LeBytes(value, size)).value else old(View())
    {
      hide LeBytes;
      if size != 1 && size != 2 && size != 4 && size != 8 { return false; }
      var buf := LittleEndian(value, size);
      ok := SinkBytes(buf);
    }

    /** The loop of `write_value_le`. */
    static method LittleEndian(value: int, size: nat) returns (buf: seq<Byte>)
      ensures buf == LeBytes(value, size)
    {
      buf := [];
      var i := 0;
      var rest := value;
      while i < size
        invariant 0 <= i <= size && |buf| == i && buf + LeBytes(rest, size - i) == LeBytes(value, size)
      {
        assert LeBytes(rest, size - i) == [rest % 256] + LeBytes(rest / 256, size - i - 1);
        buf := buf + [rest % 256];
        rest := rest / 256;
        i := i + 1;
      }
    }
  }

  lemma PatchEnd(f: seq<Byte>, p: seq<Byte>)
    ensures Patch(f, |f|, p) == f + p
  {}
}
