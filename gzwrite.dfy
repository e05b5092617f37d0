// gzwrite_mtd_gl (board/loongson/common/general_load/device/mtd.c): inflate a
// gzip image from memory onto flash through a bad-block-mapped descriptor.
//
// The gzip member format is the one of RFC 1952; its header (section 2.3.1)
// is skipped here without checking the ID1/ID2 magic bytes, the same way
// the source does. The inflate engine, crc32 and the Ctrl-C poll are oracles.

module GzWrite {
  import opened Opt
  import opened MtdGl

  const Z_OK: int := 0
  const Z_STREAM_END: int := 1
  const Z_BUF_ERROR: int := -5

  /** A byte of the image, as the C code reads it (unsigned char promoted to int). */
  type byte = x: int | 0 <= x < 256

  const DEFLATED: byte := 8
  const HEAD_CRC: bv8 := 0x02
  const EXTRA_FIELD: bv8 := 0x04
  const ORIG_NAME: bv8 := 0x08
  const COMMENT: bv8 := 0x10
  const RESERVED: bv8 := 0xe0

  const U32: int := 0x1_0000_0000

  type u32 = x: nat | x < 0x1_0000_0000

  /** A byte of the image buffer; past the end of `src` it reads as 0. */
  function Byte(src: seq<byte>, k: int): byte
  {
    if 0 <= k < |src| then src[k] else 0
  }

  predicate NoZero(s: seq<byte>)
  {
    forall k | 0 <= k < |s| :: s[k] != 0
  }

  /** `while (src[i++] != 0);`: the index just past the NUL that ends a string field. */
  function SkipString(src: seq<byte>, i: nat): (j: nat)
    ensures j > i
    decreases |src| - i
  {
    if i < |src| && src[i] != 0 then SkipString(src, i + 1) else i + 1
  }

  datatype Header = BadGzip | OutOfData | Payload(start: nat)

  /** `(flags & mask) != 0` */
  predicate Has(flags: byte, mask: bv8)
  {
    (flags as bv8) & mask != 0
  }

  /** Where the header's fixed part and optional FEXTRA field end. */
  function ExtraEnd(src: seq<byte>, flags: byte): nat
  {
    if Has(flags, EXTRA_FIELD) then 12 + Byte(src, 10) + Byte(src, 11) * 256 else 10
  }

  /** Where an optional NUL-terminated field starting at `i` ends. */
  function StringEnd(src: seq<byte>, present: bool, i: nat): nat
  {
    if present then SkipString(src, i) else i
  }

  /** Where the whole header ends: fixed part, FEXTRA, FNAME, FCOMMENT, FHCRC. */
  function HeaderEnd(src: seq<byte>, flags: byte): nat
  {
    var i1 := StringEnd(src, Has(flags, ORIG_NAME), ExtraEnd(src, flags));
    var i2 := StringEnd(src, Has(flags, COMMENT), i1);
    if Has(flags, HEAD_CRC) then i2 + 2 else i2
  }

  /**
   * The header skip: compression method must be deflate and no reserved
   * flag may be set; FEXTRA, FNAME, FCOMMENT and FHCRC fields are stepped
   * over; the deflate data must start before the 8-byte trailer.
   */
  function ParseHeader(src: seq<byte>, len: int): (h: Header)
    ensures h.Payload? ==> 10 <= h.start < len - 8
  {
    var flags := Byte(src, 3);
    if Byte(src, 2) != DEFLATED || Has(flags, RESERVED) then BadGzip
    else
      var i := HeaderEnd(src, flags);
      if i >= len - 8 then OutOfData else Payload(i)
  }

  // ---- a header writer, to state what the skip accepts ----

  /** The fields of a gzip member header (RFC 1952, section 2.3.1). */
  datatype GzHeader = GzHeader(
    fixed: seq<byte>,              // MTIME, XFL, OS
    extra: Option<seq<byte>>,      // FEXTRA payload
    name: Option<seq<byte>>,       // FNAME, without its NUL
    comment: Option<seq<byte>>,    // FCOMMENT, without its NUL
    crc16: Option<seq<byte>>)      // FHCRC

  predicate WellFormed(h: GzHeader)
  {
    |h.fixed| == 6 &&
    (h.extra.Some? ==> |h.extra.value| < 0x1_0000) &&
    (h.name.Some? ==> NoZero(h.name.value)) &&
    (h.comment.Some? ==> NoZero(h.comment.value)) &&
    (h.crc16.Some? ==> |h.crc16.value| == 2)
  }

  function FlagByte(crc: bool, extra: bool, name: bool, comment: bool): byte
  {
    ((if crc then HEAD_CRC else 0) | (if extra then EXTRA_FIELD else 0) |
     (if name then ORIG_NAME else 0) | (if comment then COMMENT else 0)) as int
  }

  lemma FlagBits(crc: bool, extra: bool, name: bool, comment: bool)
    ensures var f := FlagByte(crc, extra, name, comment);
      !Has(f, RESERVED) && (Has(f, HEAD_CRC) <==> crc) && (Has(f, EXTRA_FIELD) <==> extra) &&
      (Has(f, ORIG_NAME) <==> name) && (Has(f, COMMENT) <==> comment)
  {
    if crc {
      if extra {
        if name { if comment {} else {} } else { if comment {} else {} }
      } else {
        if name { if comment {} else {} } else { if comment {} else {} }
      }
    } else {
      if extra {
        if name { if comment {} else {} } else { if comment {} else {} }
      } else {
        if name { if comment {} else {} } else { if comment {} else {} }
      }
    }
  }

  function StringField(s: Option<seq<byte>>): seq<byte>
  {
    if s.Some? then s.value + [0] else []
  }

  function ExtraField(e: Option<seq<byte>>): seq<byte>
  {
    if e.Some? then [|e.value| % 256, |e.value| / 256 % 256] + e.value else []
  }

  function EncodeHeader(h: GzHeader): seq<byte>
  {
    [0x1f, 0x8b, DEFLATED, FlagByte(h.crc16.Some?, h.extra.Some?, h.name.Some?, h.comment.Some?)] + h.fixed +
    ExtraField(h.extra) + StringField(h.name) + StringField(h.comment) +
    (if h.crc16.Some? then h.crc16.value else [])
  }

  lemma {:induction false} SkipStringOver(src: seq<byte>, i: nat, s: seq<byte>)
    requires NoZero(s) && i + |s| < |src|
    requires src[i..i + |s|] == s && src[i + |s|] == 0
    ensures SkipString(src, i) == i + |s| + 1
    decreases |s|
  {
    if s != [] {
      assert src[i] == s[0];
      assert src[i + 1..i + 1 + |s[1..]|] == s[1..];
      SkipStringOver(src, i + 1, s[1..]);
    }
  }

  lemma DropConcat(src: seq<byte>, i: nat, a: seq<byte>, b: seq<byte>)
    requires i <= |src| && src[i..] == a + b
    ensures i + |a| <= |src| && src[i + |a|..] == b
  {
    assert src[i + |a|..] == src[i..][|a|..];
  }

  lemma SplitLength(n: nat)
    requires n < 0x1_0000
    ensures n % 256 + n / 256 % 256 * 256 == n
  {
  }

  lemma ExtraStage(src: seq<byte>, flags: byte, e: Option<seq<byte>>, t: seq<byte>)
    requires 10 <= |src| && src[10..] == ExtraField(e) + t
    requires (Has(flags, EXTRA_FIELD) <==> e.Some?) && (e.Some? ==> |e.value| < 0x1_0000)
    ensures ExtraEnd(src, flags) == 10 + |ExtraField(e)|
  {
    if e.Some? {
      var len := |e.value|;
      assert src[10] == src[10..][0] && src[11] == src[10..][1];
      assert Byte(src, 10) == len % 256 && Byte(src, 11) == len / 256 % 256;
      SplitLength(len);
    }
  }

  lemma StringStage(src: seq<byte>, present: bool, i: nat, s: Option<seq<byte>>, t: seq<byte>)
    requires i <= |src| && src[i..] == StringField(s) + t
    requires (present <==> s.Some?) && (s.Some? ==> NoZero(s.value))
    ensures StringEnd(src, present, i) == i + |StringField(s)|
  {
    if present {
      var v := s.value;
      assert src[i..i + |v|] == src[i..][..|v|] == v;
      assert src[i + |v|] == src[i..][|v|] == 0;
      SkipStringOver(src, i, v);
    }
  }

  /**
   * A header written per RFC 1952 followed by at least the 8-byte trailer and
   * one byte of data is skipped exactly: the data starts right after it.
   */
  lemma HeaderRoundTrip(h: GzHeader, rest: seq<byte>)
    requires WellFormed(h)
    ensures var e := EncodeHeader(h);
      ParseHeader(e + rest, |e| + |rest|) == if |rest| > 8 then Payload(|e|) else OutOfData
  {
    var flags := FlagByte(h.crc16.Some?, h.extra.Some?, h.name.Some?, h.comment.Some?);
    FlagBits(h.crc16.Some?, h.extra.Some?, h.name.Some?, h.comment.Some?);
    var src := EncodeHeader(h) + rest;
    assert src[2] == DEFLATED && src[3] == flags;
    HeaderEndEncoded(h, rest);
  }

  /** Each optional field of a written header is stepped over exactly. */
  lemma HeaderEndEncoded(h: GzHeader, rest: seq<byte>)
    requires WellFormed(h)
    ensures HeaderEnd(EncodeHeader(h) + rest, FlagByte(h.crc16.Some?, h.extra.Some?, h.name.Some?, h.comment.Some?))
      == |EncodeHeader(h)|
  {
    var flags := FlagByte(h.crc16.Some?, h.extra.Some?, h.name.Some?, h.comment.Some?);
    FlagBits(h.crc16.Some?, h.extra.Some?, h.name.Some?, h.comment.Some?);
    var pre := [0x1f, 0x8b, DEFLATED, flags] + h.fixed;
    var hc := if h.crc16.Some? then h.crc16.value else [];
    var t0 := ExtraField(h.extra) + (StringField(h.name) + (StringField(h.comment) + (hc + rest)));
    var src := EncodeHeader(h) + rest;
    EncodeSplit(h, rest);
    DropConcat(src, 0, pre, t0);
    FieldsEnd(src, flags, h, hc + rest);
  }

  /** The optional fields after the 10 fixed bytes end where their encodings say. */
  lemma FieldsEnd(src: seq<byte>, flags: byte, h: GzHeader, t: seq<byte>)
    requires WellFormed(h)
    requires (Has(flags, HEAD_CRC) <==> h.crc16.Some?) && (Has(flags, EXTRA_FIELD) <==> h.extra.Some?) &&
      (Has(flags, ORIG_NAME) <==> h.name.Some?) && (Has(flags, COMMENT) <==> h.comment.Some?)
    requires 10 <= |src| && src[10..] == ExtraField(h.extra) + (StringField(h.name) + (StringField(h.comment) + t))
    ensures HeaderEnd(src, flags) == 10 + |ExtraField(h.extra)| + |StringField(h.name)| + |StringField(h.comment)| +
      (if h.crc16.Some? then 2 else 0)
  {
    var x := ExtraField(h.extra);
    var n := StringField(h.name);
    var c := StringField(h.comment);
    var t2 := c + t;
    var t1 := n + t2;
    ExtraStage(src, flags, h.extra, t1);
    DropConcat(src, 10, x, t1);
    var i1 := 10 + |x|;
    StringStage(src, Has(flags, ORIG_NAME), i1, h.name, t2);
    DropConcat(src, i1, n, t2);
    var i2 := i1 + |n|;
    StringStage(src, Has(flags, COMMENT), i2, h.comment, t);
    HeaderEndOf(src, flags, i1, i2, i2 + |c|);
  }

  lemma EncodeSplit(h: GzHeader, rest: seq<byte>)
    ensures EncodeHeader(h) + rest ==
      ([0x1f, 0x8b, DEFLATED, FlagByte(h.crc16.Some?, h.extra.Some?, h.name.Some?, h.comment.Some?)] + h.fixed) +
      (ExtraField(h.extra) + (StringField(h.name) + (StringField(h.comment) +
      ((if h.crc16.Some? then h.crc16.value else []) + rest))))
  {
  }

  lemma HeaderEndOf(src: seq<byte>, flags: byte, a: nat, b: nat, c: nat)
    requires ExtraEnd(src, flags) == a
    requires StringEnd(src, Has(flags, ORIG_NAME), a) == b
    requires StringEnd(src, Has(flags, COMMENT), b) == c
    ensures HeaderEnd(src, flags) == if Has(flags, HEAD_CRC) then c + 2 else c
  {
  }

  /** The magic bytes are not looked at: any first two bytes pass the skip. */
  lemma MagicNotChecked(src: seq<byte>, a: byte, b: byte)
    requires |src| >= 2
    ensures ParseHeader([a, b] + src[2..], |src|) == ParseHeader(src, |src|)
  {
    var s' := [a, b] + src[2..];
    assert s'[2..] == src[2..];
    var flags := Byte(src, 3);
    ByteAgrees(s', src, 2);
    ByteAgrees(s', src, 3);
    ByteAgrees(s', src, 10);
    ByteAgrees(s', src, 11);
    var e := ExtraEnd(src, flags);
    assert ExtraEnd(s', flags) == e;
    SkipStringAgrees(s', src, e);
    var i1 := StringEnd(src, Has(flags, ORIG_NAME), e);
    assert StringEnd(s', Has(flags, ORIG_NAME), e) == i1;
    SkipStringAgrees(s', src, i1);
    assert HeaderEnd(s', flags) == HeaderEnd(src, flags);
  }

  lemma ByteAgrees(s: seq<byte>, t: seq<byte>, k: nat)
    requires |s| == |t| && |s| >= 2 && k >= 2 && s[2..] == t[2..]
    ensures Byte(s, k) == Byte(t, k)
  {
    if k < |s| {
      assert s[k] == s[2..][k - 2];
    }
  }

  lemma {:induction false} SkipStringAgrees(s: seq<byte>, t: seq<byte>, k: nat)
    requires |s| == |t| && |s| >= 2 && k >= 2 && s[2..] == t[2..]
    ensures SkipString(s, k) == SkipString(t, k)
    decreases |s| - k
  {
    if k < |s| {
      assert s[k] == s[2..][k - 2] == t[k];
      if s[k] != 0 {
        SkipStringAgrees(s, t, k + 1);
      }
    }
  }

  // ---- trailer and set-up checks ----

  /** A little-endian 32-bit word. */
  function Le32(b: seq<byte>): u32
    requires |b| == 4
  {
    Le32Of(b[0], b[1], b[2], b[3])
  }

  function Le32Of(b0: nat, b1: nat, b2: nat, b3: nat): u32
    requires b0 < 256 && b1 < 256 && b2 < 256 && b3 < 256
  {
    b0 + 0x100 * b1 + 0x1_0000 * b2 + 0x100_0000 * b3
  }

  /** What the checks before inflating settle on. */
  datatype Plan = Plan(start: nat, expectedCrc: u32, szexpected: nat, blksperbuf: nat, outblock: nat)

  /**
   * The device-size check as written: the expected size in pages is compared
   * with the device size in BYTES less the start page.
   */
  predicate FitsDeviceAsWritten(szexpected: nat, writesize: pos, devsize: nat, outblock: nat)
  {
    !(szexpected / writesize > (devsize - outblock) % U64)
  }

  /** The check evidently intended: the pages needed fit in the pages left after the start page. */
  predicate FitsDevice(szexpected: nat, writesize: pos, devsize: nat, outblock: nat)
  {
    (szexpected + writesize - 1) / writesize + outblock <= devsize / writesize
  }

  /**
   * A 2-page device at a 2048-byte page size passes the as-written check for
   * an image of 4 pages: the check compares pages with bytes.
   */
  lemma DeviceCheckMixesUnits()
    ensures FitsDeviceAsWritten(8192, 2048, 4096, 0)
    ensures !FitsDevice(8192, 2048, 4096, 0)
  {
  }

  /**
   * The intended check: once passed, every page the image needs lies on the
   * device, wherever the last partial page ends.
   */
  lemma FitsDeviceMeansOnDevice(szexpected: nat, writesize: pos, devsize: nat, outblock: nat)
    requires FitsDevice(szexpected, writesize, devsize, outblock)
    ensures outblock * writesize + szexpected <= devsize
  {
    var pages := (szexpected + writesize - 1) / writesize;
    CeilCovers(szexpected, writesize);
    MulMono(pages + outblock, devsize / writesize, writesize);
    DivMul(devsize, writesize);
  }

  lemma CeilCovers(n: nat, w: pos)
    ensures (n + w - 1) / w * w >= n
  {
    var q := (n + w - 1) / w;
    var r := (n + w - 1) % w;
    assert n + w - 1 == q * w + r;
  }

  lemma MulMono(a: nat, b: nat, w: nat)
    requires a <= b
    ensures a * w <= b * w
  {
  }

  /** The number of whole `w`-sized units in `n` (lldiv). */
  function Whole(n: nat, w: pos): nat
  {
    n / w
  }

  /** `n` units of `w` bytes. */
  function Times(n: nat, w: pos): nat
  {
    n * w
  }

  /** `startoffs & (writesize - 1)` is zero, on 64-bit unsigned words. */
  predicate Aligned(startoffs: nat, writesize: pos)
  {
    ((startoffs % U64) as bv64) & (((writesize - 1) % U32) as bv64) == 0
  }

  /**
   * The checks gzwrite_mtd_gl makes before inflating, in order: the write
   * buffer is a non-zero multiple of the page size, the start offset passes
   * the alignment test, the header skips, a non-zero expected size agrees
   * with the low 32 bits of the trailer's ISIZE (a zero one is taken from
   * it), and the image passes the device-size check as written.
   */
  function Prepare(src: seq<byte>, len: int, m: MtdInfo, szwritebuf: nat, startoffs: nat, szexpected: nat): (p: Option<Plan>)
    requires len <= |src|
    ensures p.Some? ==> 10 <= p.value.start < len - 8
  {
    if szwritebuf == 0 || szwritebuf % m.writesize != 0 || szwritebuf < m.writesize then None
    else if !Aligned(startoffs, m.writesize) then None
    else
      var h := ParseHeader(src, len);
      if !h.Payload? then None
      else
        var t := ReadTrailer(src, len, szexpected);
        if t.None? then None
        else
          var outblock := Whole(startoffs, m.writesize);
          if !FitsDeviceAsWritten(t.value.1, m.writesize, m.size, outblock) then None
          else Some(Plan(h.start, t.value.0, t.value.1, Whole(szwritebuf, m.writesize), outblock))
  }

  /**
   * The trailer: the CRC-32 and ISIZE words (RFC 1952, section 2.3.1); a
   * non-zero expected size must agree with ISIZE in its low 32 bits, a zero
   * one is replaced by ISIZE.
   */
  function ReadTrailer(src: seq<byte>, len: int, szexpected: nat): (t: Option<(u32, nat)>)
    requires 8 <= len <= |src|
    ensures t.Some? ==> t.value.0 == Le32(src[len - 8..len - 4])
    ensures t.Some? && szexpected == 0 ==> t.value.1 == Le32(src[len - 4..len])
    ensures t.Some? && szexpected != 0 ==> t.value.1 == szexpected && szexpected % U32 == Le32(src[len - 4..len])
    ensures t.None? <==> szexpected != 0 && szexpected % U32 != Le32(src[len - 4..len])
  {
    var isize := Le32(src[len - 4..len]);
    if szexpected != 0 && szexpected % U32 != isize then None
    else Some((Le32(src[len - 8..len - 4]), if szexpected == 0 then isize else szexpected))
  }

  /**
   * What an accepted image satisfies: a whole number of pages per buffer,
   * the start page at or below the start offset, and an expected size whose
   * low 32 bits are the trailer's ISIZE.
   */
  lemma PrepareAccepts(src: seq<byte>, len: int, m: MtdInfo, szwritebuf: nat, startoffs: nat, szexpected: nat)
    requires len <= |src|
    requires Prepare(src, len, m, szwritebuf, startoffs, szexpected).Some?
    ensures var p := Prepare(src, len, m, szwritebuf, startoffs, szexpected).value;
      p.blksperbuf >= 1 && p.blksperbuf * m.writesize == szwritebuf &&
      p.outblock * m.writesize <= startoffs &&
      ReadTrailer(src, len, szexpected) == Some((p.expectedCrc, p.szexpected))
  {
    var p := Prepare(src, len, m, szwritebuf, startoffs, szexpected).value;
    assert p.blksperbuf == Whole(szwritebuf, m.writesize) && p.outblock == Whole(startoffs, m.writesize);
    DivMul(szwritebuf, m.writesize);
    DivMul(startoffs, m.writesize);
    DivPos(szwritebuf, m.writesize);
  }

  lemma DivPos(n: nat, w: pos)
    requires n >= w
    ensures n / w >= 1
  {
  }

  lemma DivMul(n: nat, w: pos)
    ensures (n / w) * w <= n && (n % w == 0 ==> (n / w) * w == n)
  {
  }

  /** A rejected image: any one failing check. */
  lemma PrepareRejects(src: seq<byte>, len: int, m: MtdInfo, szwritebuf: nat, startoffs: nat, szexpected: nat)
    requires len <= |src|
    requires szwritebuf == 0 || szwritebuf % m.writesize != 0 || !Aligned(startoffs, m.writesize) ||
             !ParseHeader(src, len).Payload?
    ensures Prepare(src, len, m, szwritebuf, startoffs, szexpected).None?
  {
  }

  // ---- the inflate loop ----

  /** One inflate() call: its return code, the bytes it produced, the input left. */
  datatype Step = Step(r: int, out: seq<byte>, availIn: nat)

  /** The inflate engine as a script of calls; a call past the script fails with Z_BUF_ERROR. */
  datatype Inflater = Inflater(initOk: bool, steps: seq<Step>)

  function Call(z: Inflater, k: nat): Step
  {
    if k < |z.steps| then z.steps[k] else Step(Z_BUF_ERROR, [], 0)
  }

  /** ctrlc() polled after the k-th write; polls past the sequence see no key. */
  function Polled(ctrlc: seq<bool>, k: nat): bool
  {
    k < |ctrlc| && ctrlc[k]
  }

  /** Pages written for an output buffer holding `n` bytes. */
  function WritePages(n: nat, szwritebuf: nat, writesize: pos): nat
  {
    if n < szwritebuf then (n + writesize - 1) / writesize else szwritebuf / writesize
  }

  datatype Exit = InflateFailed | Aborted | Drained

  /** The loop's state between inflate calls. */
  datatype GzState = GzState(k: nat, inner: bool, availIn: nat, r: int, crc: u32, total: nat, outblock: nat, badsize: nat)

  /** How the loop ends, and the flash calls it makes from the given state on. */
  datatype Loop = Loop(exit: Exit, r: int, k: nat, crc: u32, total: nat, badsize: nat, ops: seq<Op>)

  /** The mapped write of the output of call `s.k`, starting at page `s.outblock`. */
  function Written(m: MtdInfo, z: Inflater, szwritebuf: nat, s: GzState): Run
  {
    var pages := WritePages(|Call(z, s.k).out|, szwritebuf, m.writesize);
    WriteLoop(m, Times(s.outblock, m.writesize), Times(pages, m.writesize), 0, s.badsize, 0)
  }

  /**
   * The state after call `s.k` is accepted: its output is added to the crc
   * and the total, the page pointer moves by the pages the write reports,
   * and the inner loop goes on while the output buffer came back full.
   */
  function Advance(m: MtdInfo, z: Inflater, crc32: (u32, seq<byte>) -> u32, szwritebuf: nat, s: GzState): GzState
  {
    var c := Call(z, s.k);
    var w := Written(m, z, szwritebuf, s);
    GzState(s.k + 1, |c.out| == szwritebuf, c.availIn, c.r, crc32(s.crc, c.out), s.total + |c.out|,
            s.outblock + Whole(w.retsize, m.writesize), w.badsize)
  }

  /**
   * The two nested do-while loops: the outer one stops on "weird
   * termination" (no input left) and after Z_STREAM_END; the inner one calls
   * inflate again while the output buffer comes back full. Each call's
   * output is written out in whole pages, and Ctrl-C is polled after each
   * write.
   */
  function Drain(m: MtdInfo, z: Inflater, crc32: (u32, seq<byte>) -> u32, ctrlc: seq<bool>, szwritebuf: nat,
                 s: GzState): Loop
    decreases |z.steps| - s.k
  {
    if !s.inner && s.availIn == 0 then Loop(Drained, s.r, s.k, s.crc, s.total, s.badsize, [])
    else
      var c := Call(z, s.k);
      if c.r != Z_OK && c.r != Z_STREAM_END then Loop(InflateFailed, c.r, s.k, s.crc, s.total, s.badsize, [])
      else
        var n := Advance(m, z, crc32, szwritebuf, s);
        var w := Written(m, z, szwritebuf, s);
        if Polled(ctrlc, s.k) then Loop(Aborted, n.r, n.k, n.crc, n.total, n.badsize, w.ops)
        else if !n.inner && n.r == Z_STREAM_END then Loop(Drained, n.r, n.k, n.crc, n.total, n.badsize, w.ops)
        else
          var l := Drain(m, z, crc32, ctrlc, szwritebuf, n);
          l.(ops := w.ops + l.ops)
  }

  lemma DrainStops(m: MtdInfo, z: Inflater, crc32: (u32, seq<byte>) -> u32, ctrlc: seq<bool>, szwritebuf: nat, s: GzState)
    requires !s.inner && s.availIn == 0
    ensures Drain(m, z, crc32, ctrlc, szwritebuf, s) == Loop(Drained, s.r, s.k, s.crc, s.total, s.badsize, [])
  {
  }

  lemma DrainFails(m: MtdInfo, z: Inflater, crc32: (u32, seq<byte>) -> u32, ctrlc: seq<bool>, szwritebuf: nat, s: GzState)
    requires s.inner || s.availIn != 0
    requires Call(z, s.k).r != Z_OK && Call(z, s.k).r != Z_STREAM_END
    ensures Drain(m, z, crc32, ctrlc, szwritebuf, s) == Loop(InflateFailed, Call(z, s.k).r, s.k, s.crc, s.total, s.badsize, [])
  {
  }

  lemma DrainAccepts(m: MtdInfo, z: Inflater, crc32: (u32, seq<byte>) -> u32, ctrlc: seq<bool>, szwritebuf: nat, s: GzState)
    requires s.inner || s.availIn != 0
    requires Call(z, s.k).r == Z_OK || Call(z, s.k).r == Z_STREAM_END
    ensures s.k < |z.steps|
    ensures var n := Advance(m, z, crc32, szwritebuf, s);
      var w := Written(m, z, szwritebuf, s);
      var l := Drain(m, z, crc32, ctrlc, szwritebuf, s);
      if Polled(ctrlc, s.k) then l == Loop(Aborted, n.r, n.k, n.crc, n.total, n.badsize, w.ops)
      else if !n.inner && n.r == Z_STREAM_END then l == Loop(Drained, n.r, n.k, n.crc, n.total, n.badsize, w.ops)
      else l == Drain(m, z, crc32, ctrlc, szwritebuf, n).(ops := w.ops + Drain(m, z, crc32, ctrlc, szwritebuf, n).ops)
  {
  }

  /** The code gzwrite_mtd_gl returns once the loop has ended. */
  function Outcome(p: Plan, l: Loop): int
  {
    match l.exit
    case Drained => if p.szexpected != l.total || l.crc != p.expectedCrc then -1 else 0
    case _ => l.r
  }

  /** crc32 folded over the outputs of calls from..to-1. */
  function CrcOver(crc32: (u32, seq<byte>) -> u32, c: u32, z: Inflater, from: nat, to: nat): u32
    decreases to - from
  {
    if from >= to then c else CrcOver(crc32, crc32(c, Call(z, from).out), z, from + 1, to)
  }

  /** Bytes produced by calls from..to-1. */
  function Produced(z: Inflater, from: nat, to: nat): nat
    decreases to - from
  {
    if from >= to then 0 else |Call(z, from).out| + Produced(z, from + 1, to)
  }

  /**
   * The crc and the total the loop ends with cover exactly the output of the
   * calls it accepted, in order; a failing call contributes nothing.
   */
  lemma {:induction false} DrainAccounts(m: MtdInfo, z: Inflater, crc32: (u32, seq<byte>) -> u32, ctrlc: seq<bool>,
                                         szwritebuf: nat, s: GzState)
    ensures var l := Drain(m, z, crc32, ctrlc, szwritebuf, s);
      s.k <= l.k && l.crc == CrcOver(crc32, s.crc, z, s.k, l.k) && l.total == s.total + Produced(z, s.k, l.k)
    decreases |z.steps| - s.k
  {
    if s.inner || s.availIn != 0 {
      var c := Call(z, s.k);
      if c.r == Z_OK || c.r == Z_STREAM_END {
        var n := Advance(m, z, crc32, szwritebuf, s);
        DrainAccepts(m, z, crc32, ctrlc, szwritebuf, s);
        if !Polled(ctrlc, s.k) && (n.inner || n.r != Z_STREAM_END) {
          DrainAccounts(m, z, crc32, ctrlc, szwritebuf, n);
        }
      }
    }
  }

  /** A failing inflate code is passed through unchanged. */
  lemma {:induction false} DrainPassesErrors(m: MtdInfo, z: Inflater, crc32: (u32, seq<byte>) -> u32, ctrlc: seq<bool>,
                                             szwritebuf: nat, s: GzState)
    ensures var l := Drain(m, z, crc32, ctrlc, szwritebuf, s);
      l.exit == InflateFailed ==> l.r == Call(z, l.k).r && l.r != Z_OK && l.r != Z_STREAM_END
    decreases |z.steps| - s.k
  {
    if s.inner || s.availIn != 0 {
      var c := Call(z, s.k);
      if c.r == Z_OK || c.r == Z_STREAM_END {
        var n := Advance(m, z, crc32, szwritebuf, s);
        DrainAccepts(m, z, crc32, ctrlc, szwritebuf, s);
        if !Polled(ctrlc, s.k) && (n.inner || n.r != Z_STREAM_END) {
          DrainPassesErrors(m, z, crc32, ctrlc, szwritebuf, n);
        }
      }
    }
  }

  /**
   * A success (0) after a drained stream means the inflated size and crc
   * match the trailer; otherwise it is a Ctrl-C abort after a Z_OK call.
   */
  lemma OutcomeZero(m: MtdInfo, z: Inflater, crc32: (u32, seq<byte>) -> u32, ctrlc: seq<bool>,
                     szwritebuf: nat, s: GzState, p: Plan)
    requires Outcome(p, Drain(m, z, crc32, ctrlc, szwritebuf, s)) == 0
    ensures var l := Drain(m, z, crc32, ctrlc, szwritebuf, s);
      (l.exit == Drained ==> l.total == p.szexpected && l.crc == p.expectedCrc) &&
      (l.exit != Drained ==> l.exit == Aborted && l.r == Z_OK)
  {
    DrainPassesErrors(m, z, crc32, ctrlc, szwritebuf, s);
  }

  /** Ctrl-C right after a Z_OK call stops the loop, and the call reads as a success. */
  lemma AbortReportsOk(m: MtdInfo, z: Inflater, crc32: (u32, seq<byte>) -> u32, ctrlc: seq<bool>,
                       szwritebuf: nat, s: GzState, p: Plan)
    requires s.availIn > 0 && Polled(ctrlc, s.k) && Call(z, s.k).r == Z_OK
    ensures Drain(m, z, crc32, ctrlc, szwritebuf, s).exit == Aborted
    ensures Outcome(p, Drain(m, z, crc32, ctrlc, szwritebuf, s)) == 0
  {
    DrainAccepts(m, z, crc32, ctrlc, szwritebuf, s);
  }

  /**
   * gzwrite_mtd_gl. `retsize` is None when the call returns before its
   * `out:` label (nothing was written then); the loop's flash calls go
   * through the descriptor's mapped write.
   */
  method GzWriteMtd(src: seq<byte>, len: int, dev: MtdGlDesc, szwritebuf: nat, startoffs: nat, szexpected: nat,
                    z: Inflater, crc32: (u32, seq<byte>) -> u32, ctrlc: seq<bool>)
    returns (ret: int, retsize: Option<nat>)
    requires len <= |src|
    modifies dev`badsize, dev.mtd`ops
    ensures var p := Prepare(src, len, dev.mtd, szwritebuf, startoffs, szexpected);
      p.None? || !z.initOk ==>
        ret == -1 && retsize.None? && dev.badsize == old(dev.badsize) && dev.mtd.ops == old(dev.mtd.ops)
    ensures var p := Prepare(src, len, dev.mtd, szwritebuf, startoffs, szexpected);
      p.Some? && z.initOk ==>
        var l := Drain(dev.mtd, z, crc32, ctrlc, szwritebuf, Start(p.value, len - p.value.start, old(dev.badsize)));
        ret == Outcome(p.value, l) && retsize == Some(p.value.szexpected) &&
        dev.badsize == l.badsize && dev.mtd.ops == old(dev.mtd.ops) + l.ops
  {
    var plan := Prepare(src, len, dev.mtd, szwritebuf, startoffs, szexpected);
    if plan.None? || !z.initOk {
      return -1, None;
    }
    ret := InflateOut(dev, plan.value, len - plan.value.start, szwritebuf, z, crc32, ctrlc);
    retsize := Some(plan.value.szexpected);
  }

  /** The loop's state before the first inflate call. */
  function Start(p: Plan, availIn: nat, badsize: nat): GzState
  {
    GzState(0, false, availIn, Z_OK, 0, 0, p.outblock, badsize)
  }

  /**
   * The output loop of gzwrite_mtd_gl, from the first inflate call to the
   * final size and crc test. The two nested loops of the source are one
   * loop here, `inner` telling which of them is running.
   */
  method InflateOut(dev: MtdGlDesc, p: Plan, availIn0: nat, szwritebuf: nat,
                    z: Inflater, crc32: (u32, seq<byte>) -> u32, ctrlc: seq<bool>)
    returns (ret: int)
    modifies dev`badsize, dev.mtd`ops
    ensures var l := Drain(dev.mtd, z, crc32, ctrlc, szwritebuf, Start(p, availIn0, old(dev.badsize)));
      ret == Outcome(p, l) && dev.badsize == l.badsize && dev.mtd.ops == old(dev.mtd.ops) + l.ops
  {
    var ws: pos := dev.mtd.writesize;
    var k: nat := 0;
    var inner := false;
    var availIn := availIn0;
    var r := Z_OK;
    var crc: u32 := 0;
    var total: nat := 0;
    var outblock: nat := p.outblock;
    ghost var done: seq<Op> := [];
    ghost var whole := Drain(dev.mtd, z, crc32, ctrlc, szwritebuf, Start(p, availIn0, dev.badsize));
    assert Start(p, availIn0, dev.badsize) == GzState(k, inner, availIn, r, crc, total, outblock, dev.badsize);
    assert whole == Drain(dev.mtd, z, crc32, ctrlc, szwritebuf, Start(p, availIn0, old(dev.badsize)));
    while true
      invariant k <= |z.steps|
      invariant dev.mtd.ops == old(dev.mtd.ops) + done
      invariant var rest := Drain(dev.mtd, z, crc32, ctrlc, szwritebuf, GzState(k, inner, availIn, r, crc, total, outblock, dev.badsize));
        whole.exit == rest.exit && whole.r == rest.r && whole.crc == rest.crc && whole.total == rest.total &&
        whole.badsize == rest.badsize && whole.ops == done + rest.ops
      decreases |z.steps| - k
    {
      ghost var s := GzState(k, inner, availIn, r, crc, total, outblock, dev.badsize);
      if !inner && availIn == 0 {
        DrainStops(dev.mtd, z, crc32, ctrlc, szwritebuf, s);
        assert done + [] == done;
        break;
      }
      var c := Call(z, k);
      if c.r != Z_OK && c.r != Z_STREAM_END {
        DrainFails(dev.mtd, z, crc32, ctrlc, szwritebuf, s);
        assert done + [] == done;
        return c.r;
      }
      DrainAccepts(dev.mtd, z, crc32, ctrlc, szwritebuf, s);
      ghost var w := Written(dev.mtd, z, szwritebuf, s);
      ghost var done0 := done;
      var pages := WritePages(|c.out|, szwritebuf, ws);
      ghost var n := Advance(dev.mtd, z, crc32, szwritebuf, s);
      ghost var before := dev.mtd.ops;
      var wret, written := dev.WriteMapped(Times(outblock, ws), Times(pages, ws));
      assert written == w.retsize && dev.badsize == w.badsize && dev.mtd.ops == before + w.ops;
      ConcatAssoc(old(dev.mtd.ops), done, w.ops);
      done := done + w.ops;
      crc := crc32(crc, c.out);
      total := total + |c.out|;
      outblock := outblock + Whole(written, ws);
      r := c.r;
      availIn := c.availIn;
      inner := |c.out| == szwritebuf;
      k := k + 1;
      assert GzState(k, inner, availIn, r, crc, total, outblock, dev.badsize) == n;
      if Polled(ctrlc, k - 1) {
        assert whole.ops == done;
        return r;
      }
      if !inner && r == Z_STREAM_END {
        assert whole.ops == done;
        break;
      }
      ghost var after := Drain(dev.mtd, z, crc32, ctrlc, szwritebuf, GzState(k, inner, availIn, r, crc, total, outblock, dev.badsize));
      ConcatAssoc(done0, w.ops, after.ops);
    }
    if p.szexpected != total || crc != p.expectedCrc {
      ret := -1;
    } else {
      ret := 0;
    }
  }
}
