// The load/burn orchestrator of general_load
// (board/loongson/common/general_load/general_load.c, general_load.h).
//
// ldbr_init picks, from the two targets' classes, formats and the extra
// flags, one load function, one burn function and a finaliser for each
// side; ldbr_run then loads and burns chunk after chunk from offset 0 and
// runs the two finalisers once the copy has stopped.

module GeneralLoad {
  import opened Opt
  import opened CStr
  import opened MtdGl
  import opened GlTarget
  import GzWrite

  /** enum gl_extra_e: the flags the argument parser ORs together. */
  const EXTRA_NONE: nat := 0
  const EXTRA_DECOMPRESS: nat := 1
  const EXTRA_UBOOTSECURE: nat := 2

  /** FS_TYPE_ANY: a block target without a filesystem is raw. */
  const FS_TYPE_ANY: int := 0

  /** -ENODATA from fs_read: the file ended here. */
  const ENODATA: int := 61

  const U32: int := 0x1_0000_0000

  /** ldbr_run's load buffer without LMB: 16 MiB. */
  const BUF_SIZE: nat := 0x100_0000

  /** The output buffer both gzip burns hand to the inflater: 1 MiB. */
  const GZ_WRITE_BUF: nat := 1024 * 1024

  /** `extra & flag` for the single-bit flags 1 and 2. */
  predicate HasFlag(extra: nat, flag: nat)
    requires flag == EXTRA_DECOMPRESS || flag == EXTRA_UBOOTSECURE
  {
    (extra / flag) % 2 == 1
  }

  /** The load functions m__ld_*. */
  datatype LdFn = LdRam | LdNet | LdBlk | LdBlkFs | LdMtd

  /** The burn functions m__br_*. */
  datatype BrFn = BrRam | BrBlk | BrBlkDecompress | BrBlkFs | BrMtd | BrMtdDecompress | BrMtdUbootSecure

  datatype LdFin = LdFinNone | LdFinMtdClearBad
  datatype BrFin = BrFinNone | BrFinMtdEraseRest

  // ---- the dispatch table ----

  /** ldbr_init_ld's choice; None is the "ERR Device Type" failure. */
  function LdChoice(kind: DeviceType, fstype: int): Option<LdFn>
  {
    match kind
    case Ram => Some(LdRam)
    case Net => Some(LdNet)
    case Blk => if fstype == FS_TYPE_ANY then Some(LdBlk) else Some(LdBlkFs)
    case Mtd => Some(LdMtd)
    case NoDevice => None
  }

  /** ldbr_init_br's choice; a network or unset destination fails. */
  function BrChoice(kind: DeviceType, fstype: int, extra: nat): Option<BrFn>
  {
    match kind
    case Ram => Some(BrRam)
    case Blk =>
      if fstype != FS_TYPE_ANY then Some(BrBlkFs)
      else if HasFlag(extra, EXTRA_DECOMPRESS) then Some(BrBlkDecompress)
      else Some(BrBlk)
    case Mtd =>
      if HasFlag(extra, EXTRA_DECOMPRESS) then Some(BrMtdDecompress)
      else if HasFlag(extra, EXTRA_UBOOTSECURE) then Some(BrMtdUbootSecure)
      else Some(BrMtd)
    case _ => None
  }

  /** once_only as ldbr_init sets it. */
  predicate OnceOnly(srcKind: DeviceType, destKind: DeviceType, extra: nat)
  {
    extra != EXTRA_NONE || srcKind == Net || srcKind == Ram || destKind == Ram
  }

  /**
   * The burn table: a gzip burn exactly when DECOMPRESS is set on a raw
   * block or flash destination; the secure flash burn only without
   * DECOMPRESS; a filesystem destination ignores the flags; only RAM, block
   * and flash destinations are accepted.
   */
  lemma BurnTable(kind: DeviceType, fstype: int, extra: nat)
    ensures BrChoice(kind, fstype, extra).Some? <==> kind == Ram || kind == Blk || kind == Mtd
    ensures var c := BrChoice(kind, fstype, extra);
      (c == Some(BrBlkDecompress) || c == Some(BrMtdDecompress)) <==>
        HasFlag(extra, EXTRA_DECOMPRESS) && (kind == Mtd || (kind == Blk && fstype == FS_TYPE_ANY))
    ensures BrChoice(kind, fstype, extra) == Some(BrMtdUbootSecure) <==>
      kind == Mtd && !HasFlag(extra, EXTRA_DECOMPRESS) && HasFlag(extra, EXTRA_UBOOTSECURE)
    ensures kind == Blk && fstype != FS_TYPE_ANY ==>
      forall e: nat :: BrChoice(kind, fstype, e) == Some(BrBlkFs)
  {
  }

  /**
   * once_only holds iff there are extras, or the source is the network or
   * RAM, or the destination is RAM; a network destination does not set it.
   */
  lemma OnceOnlyCases(srcKind: DeviceType, destKind: DeviceType, extra: nat)
    ensures OnceOnly(srcKind, destKind, extra) <==>
      !(extra == EXTRA_NONE && (srcKind == Blk || srcKind == Mtd || srcKind == NoDevice) && destKind != Ram)
    ensures !OnceOnly(Blk, Net, EXTRA_NONE) && !OnceOnly(Mtd, Blk, EXTRA_NONE)
  {
  }

  /** The descriptor a load function dereferences. */
  predicate LdFits(f: LdFn, d: Option<Desc>)
  {
    match f
    case LdRam => true
    case LdNet => d.Some? && d.value.NetDesc?
    case LdBlk => d.Some? && d.value.BlkDesc?
    case LdBlkFs => d.Some? && d.value.BlkDesc?
    case LdMtd => d.Some? && d.value.MtdDesc?
  }

  predicate BrFits(f: BrFn, d: Option<Desc>)
  {
    match f
    case BrRam => true
    case BrBlk => d.Some? && d.value.BlkDesc?
    case BrBlkDecompress => d.Some? && d.value.BlkDesc?
    case BrBlkFs => d.Some? && d.value.BlkDesc?
    case _ => d.Some? && d.value.MtdDesc?
  }

  predicate IsMtd(d: Option<Desc>)
  {
    d.Some? && d.value.MtdDesc?
  }

  /** A target whose set_device succeeded: it holds a descriptor of its class. */
  predicate Opened(kind: DeviceType, d: Option<Desc>)
  {
    kind != NoDevice ==> d.Some? && DescFits(kind, d.value)
  }

  /** The functions chosen for an opened target only dereference descriptors of the right kind. */
  lemma ChoicesFit(srcKind: DeviceType, srcFmt: int, srcDesc: Option<Desc>,
                   destKind: DeviceType, destFmt: int, destDesc: Option<Desc>, extra: nat)
    requires Opened(srcKind, srcDesc) && Opened(destKind, destDesc)
    ensures LdChoice(srcKind, srcFmt).Some? ==> LdFits(LdChoice(srcKind, srcFmt).value, srcDesc)
    ensures BrChoice(destKind, destFmt, extra).Some? ==> BrFits(BrChoice(destKind, destFmt, extra).value, destDesc)
    ensures LdChoice(srcKind, srcFmt) == Some(LdMtd) ==> IsMtd(srcDesc)
    ensures destKind == Mtd ==> IsMtd(destDesc)
  {
  }

  // ---- size arithmetic of the load and burn functions ----

  /** u64 addition. */
  function Add64(a: nat, b: nat): (r: nat)
    ensures r < U64
    ensures a + b < U64 ==> r == a + b
  {
    (a + b) % U64
  }

  /**
   * ldbr_blk_partition_offset: 0 for the whole disk or a failed lookup,
   * otherwise the partition's first block times its block size (u64).
   */
  function BlkPartitionOffset(dev: BlkDev, part: int): (r: nat)
    ensures r < U64
    ensures part == 0 || part !in dev.parts ==> r == 0
    ensures part != 0 && part in dev.parts && dev.parts[part].start * dev.parts[part].blksz < U64 ==>
      r == dev.parts[part].start * dev.parts[part].blksz
  {
    if part == 0 || part !in dev.parts then 0
    else (dev.parts[part].start * dev.parts[part].blksz) % U64
  }

  /** The raw block request of m__ld_blk/m__br_blk: first block and count, both u32. */
  datatype BlkRequest = BlkRequest(blk: nat, cnt: nat)

  function BlkRequestOf(dev: BlkDev, part: int, offset: nat, size: nat): (r: BlkRequest)
    ensures r.blk < U32 && r.cnt < U32
  {
    var off := Add64(offset, BlkPartitionOffset(dev, part));
    BlkRequest((off / dev.blksz) % U32, (size / dev.blksz + 1) % U32)
  }

  /** `*retsize = n * desc->blksz` with n held in a u32. */
  function BlkReported(dev: BlkDev, n: nat): (r: nat)
    ensures r < U64
  {
    ((n % U32) * dev.blksz) % U64
  }

  lemma DivBounds(x: nat, bs: pos)
    ensures (x / bs) * bs <= x < (x / bs + 1) * bs
    ensures x % bs == 0 ==> (x / bs) * bs == x
  {
    assert (x / bs) * bs + x % bs == x;
    assert (x / bs + 1) * bs == (x / bs) * bs + bs;
  }

  lemma MulAdd(a: nat, b: nat, c: nat)
    ensures (a + b) * c == a * c + b * c
  {
  }

  /**
   * Without truncation the request asks for one block more than `size`
   * fits in whole blocks, so it spans at least size + 1 bytes from the
   * first block; from a block-aligned byte offset it therefore holds the
   * whole of the requested range.
   */
  lemma BlkRequestCovers(dev: BlkDev, part: int, offset: nat, size: nat)
    requires size / dev.blksz + 1 < U32
    requires Add64(offset, BlkPartitionOffset(dev, part)) / dev.blksz < U32
    ensures var r := BlkRequestOf(dev, part, offset, size);
      var off := Add64(offset, BlkPartitionOffset(dev, part));
      r.cnt * dev.blksz > size && (r.cnt - 1) * dev.blksz <= size && r.blk * dev.blksz <= off &&
      (off % dev.blksz == 0 ==> (r.blk + r.cnt) * dev.blksz > off + size)
  {
    var bs := dev.blksz;
    var off := Add64(offset, BlkPartitionOffset(dev, part));
    var q := size / bs;
    var o := off / bs;
    assert BlkRequestOf(dev, part, offset, size) == BlkRequest(o, q + 1);
    DivBounds(size, bs);
    DivBounds(off, bs);
    MulAdd(o, q + 1, bs);
  }

  /**
   * From an unaligned offset the request can stop short of the range: 100
   * bytes at byte 500 of a 512-byte-block disk ask for block 0 only.
   */
  lemma BlkUnalignedFallsShort()
    ensures var dev := BlkDev(Mmc, 0, 512, map[]);
      var r := BlkRequestOf(dev, 0, 500, 100);
      r == BlkRequest(0, 1) && (r.blk + r.cnt) * 512 < 500 + 100
  {
  }

  /** The flash chunk of the raw and secure burns and of the flash load: min(size, remain). */
  function MtdLen(size: nat, remain: nat): (r: nat)
    ensures r <= size && r <= remain && (r == size || r == remain)
  {
    if size < remain then size else remain
  }

  /**
   * When the skip and the offset stay inside the partition, a flash chunk
   * never runs past the partition's physical end.
   */
  lemma MtdChunkInPartition(d: MtdGlDesc, part: int, offset: nat, size: nat)
    requires PartitionOf(d.mtd, part).Some?
    requires offset + d.badsize <= PartitionOf(d.mtd, part).value.size < U64
    ensures d.Offset(part) + offset + d.badsize + MtdLen(size, d.Remain(offset, part)) <=
      PartitionOf(d.mtd, part).value.offset + PartitionOf(d.mtd, part).value.size
  {
    RemainReachesPartitionEnd(d, offset, part);
  }

  /** C's conversion of a u64 to `int`: the low 32 bits, two's complement. */
  function CInt(x: nat): (r: int)
    ensures r <= x && -0x8000_0000 <= r < 0x8000_0000
    ensures x < 0x8000_0000 ==> r == x
  {
    var w := x % U32;
    if w < 0x8000_0000 then w else w - U32
  }

  /** The buffer as the burn reads it: what the load put there, then zeros. */
  function Image(loaded: seq<GzWrite.byte>, size: nat): (r: seq<GzWrite.byte>)
    ensures |r| >= size && |r| >= |loaded| && r[..|loaded|] == loaded
  {
    if |loaded| >= size then loaded else loaded + seq(size - |loaded|, _ => 0)
  }

  /**
   * The services behind the load and burn functions, as oracles: net_loop,
   * blk_dread/blk_dwrite (blocks transferred), fs_set_blk_dev_with_part,
   * fs_read/fs_write (return code and bytes), u-boot's gzwrite,
   * uboot_secure, the bytes a load leaves in the buffer, and the inflate
   * engine, crc32 and Ctrl-C polls of the flash gzip burn.
   */
  datatype Io = Io(
    netLoop: (int, string, nat) -> int,
    blkRead: (BlkDev, nat, nat) -> nat,
    blkWrite: (BlkDev, nat, nat) -> nat,
    fsSetDev: (BlkDev, int) -> int,
    fsRead: (string, nat, nat) -> (int, nat),
    fsWrite: (string, nat, nat) -> (int, nat),
    gzwrite: (seq<GzWrite.byte>, BlkDev, nat) -> int,
    secure: seq<GzWrite.byte> -> bool,
    loaded: (nat, nat) -> seq<GzWrite.byte>,
    inflater: GzWrite.Inflater,
    crc32: (GzWrite.u32, seq<GzWrite.byte>) -> GzWrite.u32,
    ctrlc: seq<bool>)

  /** A call's return code and the size variable it leaves (`prev` when it writes none). */
  datatype Res = Res(ret: int, size: nat)

  /** The load functions that only call oracles. */
  function OracleLoad(io: Io, f: LdFn, d: Option<Desc>, part: int, fmt: int, sym: string,
                      offset: nat, size: nat, prev: nat): Res
    requires LdFits(f, d) && f != LdMtd
  {
    match f
    case LdRam => Res(0, size)
    case LdNet =>
      var r := io.netLoop(fmt, sym, d.value.ip);
      if r > 0 then Res(0, r) else Res(r, prev)
    case LdBlk =>
      var dev := d.value.dev;
      var q := BlkRequestOf(dev, part, offset, size);
      Res(0, BlkReported(dev, io.blkRead(dev, q.blk, q.cnt)))
    case LdBlkFs =>
      var dev := d.value.dev;
      if io.fsSetDev(dev, part) != 0 then Res(0, prev)
      else
        var (r, n) := io.fsRead(sym, offset, size);
        if r == -ENODATA then Res(0, 0) else Res(r, n)
  }

  /** The burn functions that only call oracles. */
  function OracleBurn(io: Io, f: BrFn, d: Option<Desc>, part: int, sym: string,
                      offset: nat, size: nat, prev: nat): Res
    requires BrFits(f, d) && (f == BrRam || f == BrBlk || f == BrBlkDecompress || f == BrBlkFs)
  {
    match f
    case BrRam => Res(0, size)
    case BrBlk =>
      var dev := d.value.dev;
      var q := BlkRequestOf(dev, part, offset, size);
      Res(0, BlkReported(dev, io.blkWrite(dev, q.blk, q.cnt)))
    case BrBlkDecompress =>
      var dev := d.value.dev;
      var img := Image(io.loaded(offset, size), size);
      if io.gzwrite(img, dev, Add64(offset, BlkPartitionOffset(dev, part))) == 0 then Res(0, size) else Res(0, prev)
    case BrBlkFs =>
      var dev := d.value.dev;
      if io.fsSetDev(dev, part) != 0 then Res(0, prev)
      else
        var (r, n) := io.fsWrite(sym, offset, size);
        if r < 0 then Res(-1, n) else Res(0, n)
  }

  /**
   * Only the network and filesystem loads can fail; a RAM or raw block
   * load always returns 0, and a filesystem load that hits the end of the
   * file succeeds with nothing loaded.
   */
  lemma LoadFailures(io: Io, f: LdFn, d: Option<Desc>, part: int, fmt: int, sym: string,
                     offset: nat, size: nat, prev: nat)
    requires LdFits(f, d) && f != LdMtd
    ensures var r := OracleLoad(io, f, d, part, fmt, sym, offset, size, prev);
      (r.ret != 0 ==> f == LdNet || f == LdBlkFs) &&
      (f == LdRam ==> r == Res(0, size)) &&
      (f == LdNet ==> (r.ret != 0 <==> io.netLoop(fmt, sym, d.value.ip) < 0) && (r.size == prev || r.size > 0)) &&
      (f == LdBlkFs && io.fsSetDev(d.value.dev, part) == 0 && io.fsRead(sym, offset, size).0 == -ENODATA ==>
        r == Res(0, 0))
  {
  }

  /**
   * Only a filesystem burn that fails to write can fail; the block gzip
   * burn reports the whole chunk as burned exactly when gzwrite returns 0,
   * and otherwise leaves the size variable alone.
   */
  lemma BurnFailures(io: Io, f: BrFn, d: Option<Desc>, part: int, sym: string, offset: nat, size: nat, prev: nat)
    requires BrFits(f, d) && (f == BrRam || f == BrBlk || f == BrBlkDecompress || f == BrBlkFs)
    ensures var r := OracleBurn(io, f, d, part, sym, offset, size, prev);
      (r.ret != 0 ==> f == BrBlkFs && r.ret == -1) &&
      (f == BrBlkDecompress ==> r.size == size || r.size == prev)
  {
  }

  /** A flash descriptor's skip (badsize); 0 for any other target. */
  function SkipOf(d: Option<Desc>): nat
    reads if IsMtd(d) then {d.value.mtd} else {}
  {
    if IsMtd(d) then d.value.mtd.badsize else 0
  }

  /** Both targets are one and the same flash descriptor. */
  predicate SameFlash(a: Option<Desc>, b: Option<Desc>)
  {
    IsMtd(a) && IsMtd(b) && a.value.mtd == b.value.mtd
  }

  /**
   * What load function `f` reports (return code, ldsize) for `size` bytes at
   * `offset`, `prev` being ldsize before the call and `bs` a flash source's
   * skip: the flash read is clipped to what remains of the partition.
   */
  function LoadOutcome(io: Io, f: LdFn, d: Option<Desc>, part: int, fmt: int, sym: string,
                       offset: nat, size: nat, prev: nat, bs: nat): Res
    requires LdFits(f, d)
  {
    if f == LdMtd then
      var m := d.value.mtd;
      var r := ReadLoop(m.mtd, Add64(offset, m.Offset(part)), MtdLen(size, PartitionRemain(m.mtd, offset, part, bs)), 0, bs, 0);
      Res(r.ret, r.retsize)
    else OracleLoad(io, f, d, part, fmt, sym, offset, size, prev)
  }

  /**
   * What burn function `f` reports (return code, brsize) for the `size`
   * loaded bytes at `offset`, `prev` being brsize before the call and `bs` a
   * flash destination's skip: the secure burn refuses an image uboot_secure
   * rejects, the plain flash write is clipped to what remains of the
   * partition, and the gzip burn reports the expected size.
   */
  function BurnOutcome(io: Io, f: BrFn, d: Option<Desc>, part: int, sym: string,
                       offset: nat, size: nat, prev: nat, bs: nat): Res
    requires BrFits(f, d)
  {
    var img := Image(io.loaded(offset, size), size);
    if f == BrMtdUbootSecure && !io.secure(img) then Res(-1, prev)
    else if f == BrMtd || f == BrMtdUbootSecure then
      var m := d.value.mtd;
      var r := WriteLoop(m.mtd, Add64(offset, m.Offset(part)), MtdLen(size, PartitionRemain(m.mtd, offset, part, bs)), 0, bs, 0);
      Res(r.ret, r.retsize)
    else if f == BrMtdDecompress then
      var m := d.value.mtd;
      var p := GzWrite.Prepare(img, CInt(size), m.mtd, GZ_WRITE_BUF, Add64(offset, m.Offset(part)), 0);
      if p.None? || !io.inflater.initOk then Res(-1, prev)
      else
        var g := GzWrite.Drain(m.mtd, io.inflater, io.crc32, io.ctrlc, GZ_WRITE_BUF,
                               GzWrite.Start(p.value, CInt(size) - p.value.start, bs));
        Res(GzWrite.Outcome(p.value, g), p.value.szexpected)
    else OracleBurn(io, f, d, part, sym, offset, size, prev)
  }

  // ---- erase-rest ----

  /**
   * The loop of m__brfin_mtd_eraserest from logical unit offset `i`: each
   * erase unit below `remain` is erased once at base + i + the skip; a
   * failed erase marks the block, which grows the skip, and the loop moves
   * on to the next unit all the same; a failed mark ends it with -1.
   */
  function EraseLoop(m: MtdInfo, base: nat, remain: nat, i: nat, bs: nat): Run
    decreases remain - i
  {
    if i >= remain then Run(0, bs, 0, [])
    else
      var p := base + i + bs;
      if p in m.eraseFails then
        if p in m.markFails then Run(-1, bs + m.erasesize, 0, [Erase(p), MarkBad(p)])
        else
          var r := EraseLoop(m, base, remain, i + m.erasesize, bs + m.erasesize);
          r.(ops := [Erase(p), MarkBad(p)] + r.ops)
      else
        var r := EraseLoop(m, base, remain, i + m.erasesize, bs);
        r.(ops := [Erase(p)] + r.ops)
  }

  /** Number of Erase calls in `ops`. */
  function Erases(ops: seq<Op>): nat
  {
    if ops == [] then 0 else (if ops[0].Erase? then 1 else 0) + Erases(ops[1..])
  }

  lemma ErasesPrefix(a: Op, t: seq<Op>)
    ensures Erases([a] + t) == (if a.Erase? then 1 else 0) + Erases(t)
  {
    assert ([a] + t)[1..] == t;
  }

  /** Erase-rest fails only on a failed mark, which is then its last call. */
  lemma {:induction false} EraseLoopFails(m: MtdInfo, base: nat, remain: nat, i: nat, bs: nat)
    ensures var r := EraseLoop(m, base, remain, i, bs);
      (r.ret == 0 || r.ret == -1) &&
      (r.ret == -1 ==> |r.ops| >= 2 && r.ops[|r.ops| - 1].MarkBad? && r.ops[|r.ops| - 1].addr in m.markFails)
    decreases remain - i
  {
    if i < remain {
      var p := base + i + bs;
      var es := m.erasesize;
      if p in m.eraseFails {
        if p !in m.markFails {
          EraseLoopFails(m, base, remain, i + es, bs + es);
        }
      } else {
        EraseLoopFails(m, base, remain, i + es, bs);
      }
    }
  }

  /** A successful erase-rest erased once per erase unit below `remain`. */
  lemma {:induction false} EraseLoopErases(m: MtdInfo, base: nat, remain: nat, i: nat, bs: nat)
    ensures var r := EraseLoop(m, base, remain, i, bs);
      r.ret == 0 ==> Erases(r.ops) == |Strides(i, remain, m.erasesize)|
    decreases remain - i
  {
    if i < remain {
      var p := base + i + bs;
      var es := m.erasesize;
      assert Strides(i, remain, es) == [i] + Strides(i + es, remain, es);
      if p in m.eraseFails {
        if p !in m.markFails {
          var r := EraseLoop(m, base, remain, i + es, bs + es);
          EraseLoopErases(m, base, remain, i + es, bs + es);
          ErasesPrefix(MarkBad(p), r.ops);
          ErasesPrefix(Erase(p), [MarkBad(p)] + r.ops);
          assert [Erase(p), MarkBad(p)] + r.ops == [Erase(p)] + ([MarkBad(p)] + r.ops);
        }
      } else {
        var r := EraseLoop(m, base, remain, i + es, bs);
        EraseLoopErases(m, base, remain, i + es, bs);
        ErasesPrefix(Erase(p), r.ops);
      }
    }
  }

  /** Every MarkBad call in `ops` is at a block whose mark succeeds. */
  predicate MarksSucceed(ops: seq<Op>, fails: set<nat>)
  {
    forall k | 0 <= k < |ops| && ops[k].MarkBad? :: ops[k].addr !in fails
  }

  lemma MarksConcat(a: seq<Op>, b: seq<Op>, fails: set<nat>)
    requires MarksSucceed(a, fails) && MarksSucceed(b, fails)
    ensures MarksSucceed(a + b, fails)
  {
    forall k | 0 <= k < |a + b| && (a + b)[k].MarkBad?
      ensures (a + b)[k].addr !in fails
    {
      if k < |a| {
        assert (a + b)[k] == a[k];
      } else {
        assert (a + b)[k] == b[k - |a|];
      }
    }
  }

  /** In a successful erase-rest every mark succeeded. */
  lemma {:induction false} EraseLoopMarks(m: MtdInfo, base: nat, remain: nat, i: nat, bs: nat)
    ensures var r := EraseLoop(m, base, remain, i, bs);
      r.ret == 0 ==> MarksSucceed(r.ops, m.markFails)
    decreases remain - i
  {
    var whole := EraseLoop(m, base, remain, i, bs);
    if i < remain {
      var p := base + i + bs;
      var es := m.erasesize;
      if p in m.eraseFails {
        if p !in m.markFails {
          var r := EraseLoop(m, base, remain, i + es, bs + es);
          EraseLoopMarks(m, base, remain, i + es, bs + es);
          assert whole.ret == r.ret && whole.ops == [Erase(p), MarkBad(p)] + r.ops;
          if r.ret == 0 {
            MarksConcat([Erase(p), MarkBad(p)], r.ops, m.markFails);
          }
        }
      } else {
        var r := EraseLoop(m, base, remain, i + es, bs);
        EraseLoopMarks(m, base, remain, i + es, bs);
        assert whole.ret == r.ret && whole.ops == [Erase(p)] + r.ops;
        if r.ret == 0 {
          MarksConcat([Erase(p)], r.ops, m.markFails);
        }
      }
    }
    assert whole.ret == 0 ==> MarksSucceed(whole.ops, m.markFails);
  }

  /**
   * After a block is marked the skip has grown, so the next unit lands one
   * erase block further on: the unit right after the marked block is
   * skipped, and the last units spill past base + remain.
   */
  lemma EraseLoopSkipsAfterMark(m: MtdInfo, base: nat, remain: nat, bs: nat)
    requires remain > m.erasesize
    requires base + bs in m.eraseFails && base + bs !in m.markFails
    ensures var ops := EraseLoop(m, base, remain, 0, bs).ops;
      |ops| >= 3 && ops[..3] == [Erase(base + bs), MarkBad(base + bs), Erase(base + bs + 2 * m.erasesize)]
  {
    var es := m.erasesize;
    var r := EraseLoop(m, base, remain, es, bs + es);
    assert EraseLoop(m, base, remain, 0, bs).ops == [Erase(base + bs), MarkBad(base + bs)] + r.ops;
    assert base + es + (bs + es) == base + bs + 2 * es;
    assert r.ops[0] == Erase(base + bs + 2 * es);
  }

  /** m__brfin_mtd_eraserest: erase the rest of the partition after the final offset. */
  method EraseRest(d: MtdGlDesc, part: int, offset: nat) returns (ret: int)
    modifies d`badsize, d.mtd`ops
    ensures var r := EraseLoop(d.mtd, Add64(offset, d.Offset(part)), old(d.Remain(offset, part)), 0, old(d.badsize));
      ret == r.ret && d.mtd.ops == old(d.mtd.ops) + r.ops && d.badsize == (if r.ret == 0 then 0 else r.badsize)
  {
    var remain := d.Remain(offset, part);
    var base := Add64(offset, d.Offset(part));
    var i: nat := 0;
    ghost var done: seq<Op> := [];
    ghost var whole := EraseLoop(d.mtd, base, remain, 0, d.badsize);
    while i < remain
      invariant d.mtd.ops == old(d.mtd.ops) + done
      invariant var rest := EraseLoop(d.mtd, base, remain, i, d.badsize);
        whole.ret == rest.ret && whole.badsize == rest.badsize && whole.ops == done + rest.ops
      decreases remain - i
    {
      ghost var done0 := done;
      var p := base + i + d.badsize;
      ghost var rest0 := EraseLoop(d.mtd, base, remain, i, d.badsize);
      var e := d.EraseMapped(base + i);
      if e < 0 {
        var mk := d.MarkBadMapped(base + i);
        ghost var step := [Erase(p), MarkBad(p)];
        ConcatAssoc(old(d.mtd.ops), done0, step);
        done := done + step;
        if mk < 0 {
          assert rest0 == Run(-1, d.badsize, 0, step);
          assert whole.ret == -1 && whole.badsize == d.badsize && whole.ops == done;
          return -1;
        }
        i := i + d.mtd.erasesize;
        ghost var after := EraseLoop(d.mtd, base, remain, i, d.badsize);
        ConcatAssoc(done0, step, after.ops);
      } else {
        ghost var step := [Erase(p)];
        ConcatAssoc(old(d.mtd.ops), done0, step);
        done := done + step;
        i := i + d.mtd.erasesize;
        ghost var after := EraseLoop(d.mtd, base, remain, i, d.badsize);
        ConcatAssoc(done0, step, after.ops);
      }
    }
    assert done + [] == done;
    d.ClearBad();
    return 0;
  }

  // ---- the copy loop ----

  /** What ldbr_run does, call by call, with the values it sees. */
  datatype Event =
    | LdCall(offset: nat, ret: int, size: nat)             // ldsize after the call
    | BrCall(offset: nat, size: nat, ret: int, brsize: nat)
    | LdFinCall
    | BrFinCall(offset: nat)

  function Fins(offset: nat): seq<Event>
  {
    [LdFinCall, BrFinCall(offset)]
  }

  /** The size variable a call leaves: ldsize after a load, brsize after a burn. */
  function Left(e: Event): nat
  {
    match e
    case LdCall(_, _, n) => n
    case BrCall(_, _, _, n) => n
    case _ => 0
  }

  /**
   * Call `k` of `ev` returned what its function gives at its offset, with
   * the size variable as the same function left it one round before (0 in
   * the first round) and, for a flash target, the skip `skips[k]`.
   */
  predicate Agrees(io: Io, ld: LdFn, br: BrFn, src: Target, dest: Target, ev: seq<Event>, skips: seq<nat>, k: nat)
    reads src, dest
    requires LdFits(ld, src.desc) && BrFits(br, dest.desc) && k < |ev| == |skips|
  {
    var prev := if k >= 2 then Left(ev[k - 2]) else 0;
    (ev[k].LdCall? ==>
       Res(ev[k].ret, ev[k].size) ==
       LoadOutcome(io, ld, src.desc, src.part, src.fmt, src.symbol, ev[k].offset, BUF_SIZE, prev, skips[k])) &&
    (ev[k].BrCall? ==>
       Res(ev[k].ret, ev[k].brsize) ==
       BurnOutcome(io, br, dest.desc, dest.part, dest.symbol, ev[k].offset, ev[k].size, prev, skips[k]))
  }

  /** Every load and burn call of `ev` returned what its function gives. */
  predicate Outcomes(io: Io, ld: LdFn, br: BrFn, src: Target, dest: Target, ev: seq<Event>, skips: seq<nat>)
    reads src, dest
    requires LdFits(ld, src.desc) && BrFits(br, dest.desc)
  {
    |skips| == |ev| && forall k: nat | k < |ev| :: Agrees(io, ld, br, src, dest, ev, skips, k)
  }

  /** One more call whose outcome agrees keeps the whole record agreeing. */
  lemma OutcomesAppend(io: Io, ld: LdFn, br: BrFn, src: Target, dest: Target, ev: seq<Event>, skips: seq<nat>,
                       e: Event, s: nat, ev': seq<Event>, skips': seq<nat>)
    requires LdFits(ld, src.desc) && BrFits(br, dest.desc)
    requires Outcomes(io, ld, br, src, dest, ev, skips)
    requires ev' == ev + [e] && skips' == skips + [s]
    requires Agrees(io, ld, br, src, dest, ev', skips', |ev|)
    ensures Outcomes(io, ld, br, src, dest, ev', skips')
  {
    forall k: nat | k < |ev'|
      ensures Agrees(io, ld, br, src, dest, ev', skips', k)
    {
      if k < |ev| {
        assert ev'[k] == ev[k] && skips'[k] == skips[k];
        if k >= 2 {
          assert ev'[k - 2] == ev[k - 2];
        }
        assert Agrees(io, ld, br, src, dest, ev, skips, k);
      }
    }
  }

  /** A load at position |ev| that returned what LoadOutcome gives agrees. */
  lemma LoadAgrees(io: Io, ld: LdFn, br: BrFn, src: Target, dest: Target, ev: seq<Event>, skips: seq<nat>,
                   l: Event, s: nat, prev: nat, ev': seq<Event>, skips': seq<nat>)
    requires LdFits(ld, src.desc) && BrFits(br, dest.desc) && |ev| == |skips|
    requires ev' == ev + [l] && skips' == skips + [s]
    requires prev == if |ev| >= 2 then Left(ev[|ev| - 2]) else 0
    requires l.LdCall? && Res(l.ret, l.size) ==
      LoadOutcome(io, ld, src.desc, src.part, src.fmt, src.symbol, l.offset, BUF_SIZE, prev, s)
    ensures Agrees(io, ld, br, src, dest, ev', skips', |ev|)
  {
    assert ev'[|ev|] == l && skips'[|ev|] == s;
    if |ev| >= 2 {
      assert ev'[|ev| - 2] == ev[|ev| - 2];
    }
  }

  /** A burn at position |ev| that returned what BurnOutcome gives agrees. */
  lemma BurnAgrees(io: Io, ld: LdFn, br: BrFn, src: Target, dest: Target, ev: seq<Event>, skips: seq<nat>,
                   b: Event, s: nat, prev: nat, ev': seq<Event>, skips': seq<nat>)
    requires LdFits(ld, src.desc) && BrFits(br, dest.desc) && |ev| == |skips|
    requires ev' == ev + [b] && skips' == skips + [s]
    requires prev == if |ev| >= 2 then Left(ev[|ev| - 2]) else 0
    requires b.BrCall? && Res(b.ret, b.brsize) ==
      BurnOutcome(io, br, dest.desc, dest.part, dest.symbol, b.offset, b.size, prev, s)
    ensures Agrees(io, ld, br, src, dest, ev', skips', |ev|)
  {
    assert ev'[|ev|] == b && skips'[|ev|] == s;
    if |ev| >= 2 {
      assert ev'[|ev| - 2] == ev[|ev| - 2];
    }
  }

  /** The finaliser events are not calls, so they always agree. */
  lemma FinsAgree(io: Io, ld: LdFn, br: BrFn, src: Target, dest: Target, ev: seq<Event>, skips: seq<nat>, o: nat)
    requires LdFits(ld, src.desc) && BrFits(br, dest.desc)
    requires Outcomes(io, ld, br, src, dest, ev, skips)
    ensures Outcomes(io, ld, br, src, dest, ev + Fins(o), skips + [0, 0])
  {
    var ev1, sk1 := ev + [LdFinCall], skips + [0];
    assert Agrees(io, ld, br, src, dest, ev1, sk1, |ev|) by {
      assert ev1[|ev|] == LdFinCall;
    }
    OutcomesAppend(io, ld, br, src, dest, ev, skips, LdFinCall, 0, ev1, sk1);
    var ev2, sk2 := ev1 + [BrFinCall(o)], sk1 + [0];
    assert Agrees(io, ld, br, src, dest, ev2, sk2, |ev1|) by {
      assert ev2[|ev1|] == BrFinCall(o);
    }
    OutcomesAppend(io, ld, br, src, dest, ev1, sk1, BrFinCall(o), 0, ev2, sk2);
    assert ev2 == ev + Fins(o) && sk2 == skips + [0, 0];
  }

  /** A round whose load (and burn, if any) returned what their functions give extends the record. */
  lemma RoundAgrees(io: Io, ld: LdFn, br: BrFn, src: Target, dest: Target, ev: seq<Event>, skips: seq<nat>,
                    l: Event, b: Option<Event>, s1: nat, s2: nat, ldPrev: nat, brPrev: nat)
    requires LdFits(ld, src.desc) && BrFits(br, dest.desc)
    requires Outcomes(io, ld, br, src, dest, ev, skips)
    requires ldPrev == (if |ev| >= 2 then Left(ev[|ev| - 2]) else 0)
    requires brPrev == (if |ev| >= 1 then Left(ev[|ev| - 1]) else 0)
    requires l.LdCall? && Res(l.ret, l.size) ==
      LoadOutcome(io, ld, src.desc, src.part, src.fmt, src.symbol, l.offset, BUF_SIZE, ldPrev, s1)
    requires b.Some? ==>
      b.value.BrCall? && Res(b.value.ret, b.value.brsize) ==
      BurnOutcome(io, br, dest.desc, dest.part, dest.symbol, b.value.offset, b.value.size, brPrev, s2)
    ensures Outcomes(io, ld, br, src, dest, ev + [l], skips + [s1])
    ensures b.Some? ==> Outcomes(io, ld, br, src, dest, ev + [l, b.value], skips + [s1, s2])
  {
    var ev1, sk1 := ev + [l], skips + [s1];
    LoadAgrees(io, ld, br, src, dest, ev, skips, l, s1, ldPrev, ev1, sk1);
    OutcomesAppend(io, ld, br, src, dest, ev, skips, l, s1, ev1, sk1);
    if b.Some? {
      if |ev| >= 1 {
        assert ev1[|ev1| - 2] == ev[|ev| - 1];
      }
      BurnAgrees(io, ld, br, src, dest, ev1, sk1, b.value, s2, brPrev, ev1 + [b.value], sk1 + [s2]);
      OutcomesAppend(io, ld, br, src, dest, ev1, sk1, b.value, s2, ev1 + [b.value], sk1 + [s2]);
      assert ev1 + [b.value] == ev + [l, b.value] && sk1 + [s2] == skips + [s1, s2];
    }
  }

  lemma SuffixOf<T>(a: seq<T>, b: seq<T>, c: seq<T>)
    requires a == b + c
    ensures |c| <= |a| && a[|a| - |c|..] == c
  {
    assert a[|b|..] == c;
  }

  /**
   * `tail` is the last round of a loop that stopped without an error at
   * `at`: nothing was loaded, or the burn of what was loaded burned nothing
   * or ended a once-only copy; `offset` is where it left the offset.
   */
  predicate Stopping(tail: seq<Event>, at: nat, offset: nat, once: bool)
  {
    (|tail| == 1 || |tail| == 2) && tail[0].LdCall? && tail[0].offset == at && tail[0].ret == 0 &&
    (|tail| == 1 ==> tail[0].size == 0 && offset == at) &&
    (|tail| == 2 ==>
      tail[0].size != 0 && tail[1].BrCall? && tail[1].offset == at && tail[1].size == tail[0].size &&
      tail[1].ret == 0 && (tail[1].brsize == 0 || once) &&
      offset == (if tail[1].brsize == 0 then at else Add64(at, tail[1].brsize)))
  }

  /** A load of `size` bytes at `offset`, then its burn, that keeps the loop going. */
  predicate Continues(l: Event, b: Event, offset: nat, once: bool)
  {
    l.LdCall? && l.offset == offset && l.ret == 0 && l.size != 0 &&
    b.BrCall? && b.offset == offset && b.size == l.size && b.ret == 0 && b.brsize != 0 && !once
  }

  /**
   * A whole run of ldbr_run from `offset`: load; a failed load returns -1;
   * nothing loaded stops the loop; burn what was loaded; a failed burn
   * returns -1; nothing burned stops the loop; otherwise the offset moves
   * by the burned size (u64) and, unless once_only, the loop goes on. A
   * stopped loop runs the load finaliser, then the burn finaliser at the
   * final offset, and returns 0.
   */
  predicate RunFrom(ev: seq<Event>, offset: nat, once: bool, ret: int)
    decreases |ev|
  {
    |ev| >= 1 && ev[0].LdCall? && ev[0].offset == offset &&
    if ev[0].ret != 0 then ev == [ev[0]] && ret == -1
    else if ev[0].size == 0 then ev[1..] == Fins(offset) && ret == 0
    else
      |ev| >= 2 && ev[1].BrCall? && ev[1].offset == offset && ev[1].size == ev[0].size &&
      if ev[1].ret != 0 then |ev| == 2 && ret == -1
      else if ev[1].brsize == 0 then ev[2..] == Fins(offset) && ret == 0
      else if once then ev[2..] == Fins(Add64(offset, ev[1].brsize)) && ret == 0
      else RunFrom(ev[2..], Add64(offset, ev[1].brsize), once, ret)
  }

  /** Where a sequence of load/burn rounds that all kept the loop going leaves the offset. */
  function Reach(ev: seq<Event>, offset: nat, once: bool): Option<nat>
    decreases |ev|
  {
    if ev == [] then Some(offset)
    else if |ev| >= 2 && Continues(ev[0], ev[1], offset, once) then Reach(ev[2..], Add64(offset, ev[1].brsize), once)
    else None
  }

  lemma {:induction false} ReachExtend(ev: seq<Event>, offset: nat, once: bool, mid: nat, l: Event, b: Event)
    requires Reach(ev, offset, once) == Some(mid) && Continues(l, b, mid, once)
    ensures Reach(ev + [l, b], offset, once) == Some(Add64(mid, b.brsize))
    decreases |ev|
  {
    if ev == [] {
      assert [l, b][2..] == [];
    } else {
      assert (ev + [l, b])[2..] == ev[2..] + [l, b];
      ReachExtend(ev[2..], Add64(offset, ev[1].brsize), once, mid, l, b);
    }
  }

  lemma {:induction false} RunJoin(ev: seq<Event>, offset: nat, once: bool, mid: nat, tail: seq<Event>, ret: int)
    requires Reach(ev, offset, once) == Some(mid) && RunFrom(tail, mid, once, ret)
    ensures RunFrom(ev + tail, offset, once, ret)
    decreases |ev|
  {
    if ev == [] {
      assert ev + tail == tail;
    } else {
      assert (ev + tail)[2..] == ev[2..] + tail;
      RunJoin(ev[2..], Add64(offset, ev[1].brsize), once, mid, tail, ret);
    }
  }

  /** How a round at `at` that follows rounds which reached `at` ends the run, stops it or continues it. */
  lemma RoundEnds(ev: seq<Event>, at: nat, once: bool, l: Event, b: Option<Event>)
    requires Reach(ev, 0, once) == Some(at)
    requires l.LdCall? && l.offset == at
    requires b.Some? <==> l.ret == 0 && l.size != 0
    requires b.Some? ==> b.value.BrCall? && b.value.offset == at && b.value.size == l.size
    ensures l.ret != 0 ==> RunFrom(ev + [l], 0, once, -1)
    ensures l.ret == 0 && b.None? ==> Stopping([l], at, at, once)
    ensures b.Some? && b.value.ret != 0 ==> RunFrom(ev + [l, b.value], 0, once, -1)
    ensures b.Some? && b.value.ret == 0 && (b.value.brsize == 0 || once) ==>
      Stopping([l, b.value], at, if b.value.brsize == 0 then at else Add64(at, b.value.brsize), once)
    ensures b.Some? && b.value.ret == 0 && !(b.value.brsize == 0 || once) ==>
      Continues(l, b.value, at, once) && Reach(ev + [l, b.value], 0, once) == Some(Add64(at, b.value.brsize))
  {
    if l.ret != 0 {
      RunJoin(ev, 0, once, at, [l], -1);
    } else if b.Some? {
      if b.value.ret != 0 {
        RunJoin(ev, 0, once, at, [l, b.value], -1);
      } else if !(b.value.brsize == 0 || once) {
        ReachExtend(ev, 0, once, at, l, b.value);
      }
    }
  }

  function Count(ev: seq<Event>, e: Event): nat
  {
    if ev == [] then 0 else (if ev[0] == e then 1 else 0) + Count(ev[1..], e)
  }

  function Burns(ev: seq<Event>): nat
  {
    if ev == [] then 0 else (if ev[0].BrCall? then 1 else 0) + Burns(ev[1..])
  }

  /** The bytes burned, in u64, over the successful burns of `ev`. */
  function Burned(ev: seq<Event>): nat
  {
    if ev == [] then 0 else Add64(if ev[0].BrCall? && ev[0].ret == 0 then ev[0].brsize else 0, Burned(ev[1..]))
  }

  function FinCalls(ev: seq<Event>): nat
  {
    if ev == [] then 0 else (if ev[0].LdFinCall? || ev[0].BrFinCall? then 1 else 0) + FinCalls(ev[1..])
  }

  lemma FinsCounts(offset: nat)
    ensures FinCalls(Fins(offset)) == 2 && Burns(Fins(offset)) == 0 && Burned(Fins(offset)) == 0
  {
    var f := Fins(offset);
    var g := f[1..];
    assert g == [BrFinCall(offset)] && g[1..] == [];
    assert FinCalls(g) == 1 && Burns(g) == 0 && Burned(g) == 0;
  }

  lemma Mod64Assoc(a: nat, b: nat, c: nat)
    ensures Add64(Add64(a, b), c) == Add64(a, Add64(b, c))
  {
  }

  lemma {:induction false} FinCallsConcat(a: seq<Event>, b: seq<Event>)
    ensures FinCalls(a + b) == FinCalls(a) + FinCalls(b)
    decreases |a|
  {
    if a == [] {
      assert a + b == b;
    } else {
      assert (a + b)[1..] == a[1..] + b;
      FinCallsConcat(a[1..], b);
    }
  }

  /** A run that ends in the finalisers: they are its last two events. */
  lemma FinsEnd(pre: seq<Event>, o: nat)
    ensures var ev := pre + Fins(o);
      |ev| == |pre| + 2 && ev[..|pre|] == pre && ev[|pre|..] == Fins(o) && FinCalls(ev) == FinCalls(pre) + 2
  {
    FinCallsConcat(pre, Fins(o));
    FinsCounts(o);
  }

  /** The burned total of a round: its burn's size, then the rest. */
  lemma BurnedRound(l: Event, b: Event, rest: seq<Event>)
    requires l.LdCall? && b.BrCall? && b.ret == 0
    ensures Burned([l, b] + rest) == Add64(b.brsize, Burned(rest)) && FinCalls([l, b] + rest) == FinCalls(rest)
  {
    var ev := [l, b] + rest;
    assert ev[1..] == [b] + rest && ev[1..][1..] == rest;
  }

  /**
   * A run returns 0 or -1. It returns 0 exactly when the two finalisers
   * ran, once each and as its last two calls, the burn finaliser at the
   * start offset plus every byte burned; a -1 run ran neither.
   */
  lemma {:induction false} RunOutcome(ev: seq<Event>, offset: nat, once: bool, ret: int)
    requires offset < U64
    requires RunFrom(ev, offset, once, ret)
    ensures ret == 0 || ret == -1
    ensures ret == -1 ==> FinCalls(ev) == 0
    ensures ret == 0 ==> (FinCalls(ev) == 2 && |ev| >= 3 &&
      ev[|ev| - 2..] == Fins(Add64(offset, Burned(ev[..|ev| - 2]))))
    decreases |ev|
  {
    var l := ev[0];
    if l.ret != 0 {
      assert ev == [l] && [l][1..] == [];
    } else if l.size == 0 {
      assert ev == [l] + Fins(offset);
      FinsEnd([l], offset);
      assert [l][1..] == [];
    } else {
      var b := ev[1];
      var rest := ev[2..];
      assert ev == [l, b] + rest;
      if b.ret != 0 {
        assert rest == [];
        assert [l, b][1..] == [b] && [b][1..] == [];
      } else if b.brsize == 0 || once {
        assert rest == Fins(Add64(offset, if b.brsize == 0 then 0 else b.brsize));
        assert ev == [l, b] + Fins(Add64(offset, b.brsize));
        FinsEnd([l, b], Add64(offset, b.brsize));
        BurnedRound(l, b, []);
        assert [l, b] + [] == [l, b];
        Mod64Assoc(offset, b.brsize, 0);
      } else {
        var next := Add64(offset, b.brsize);
        BurnedRound(l, b, rest);
        RunOutcome(rest, next, once, ret);
        if ret == 0 {
          RoundThenFins(l, b, rest, offset, ev);
        }
      }
    }
  }

  /** A round before a run that ended in the finalisers: they still end it, at the summed offset. */
  lemma RoundThenFins(l: Event, b: Event, rest: seq<Event>, offset: nat, ev: seq<Event>)
    requires l.LdCall? && b.BrCall? && b.ret == 0 && ev == [l, b] + rest
    requires FinCalls(rest) == 2 && |rest| >= 3
    requires rest[|rest| - 2..] == Fins(Add64(Add64(offset, b.brsize), Burned(rest[..|rest| - 2])))
    ensures FinCalls(ev) == 2 && |ev| >= 3 && ev[|ev| - 2..] == Fins(Add64(offset, Burned(ev[..|ev| - 2])))
  {
    var restPre := rest[..|rest| - 2];
    assert ev[..|ev| - 2] == [l, b] + restPre;
    assert ev[|ev| - 2..] == rest[|rest| - 2..];
    BurnedRound(l, b, restPre);
    BurnedRound(l, b, rest);
    Mod64Assoc(offset, b.brsize, Burned(restPre));
  }

  /** With once_only the loop burns at most once. */
  lemma OnceBurnsOnce(ev: seq<Event>, offset: nat, ret: int)
    requires RunFrom(ev, offset, true, ret)
    ensures Burns(ev) <= 1
  {
    var l := ev[0];
    assert ev == [l] + ev[1..];
    if l.ret != 0 {
      assert ev[1..] == [];
    } else if l.size == 0 {
      FinsCounts(offset);
    } else {
      var b := ev[1];
      var rest := ev[2..];
      assert ev[1..] == [b] + rest && ev[1..][1..] == rest;
      assert Burns(ev) == 1 + Burns(rest);
      if b.ret != 0 {
        assert rest == [];
      } else {
        FinsCounts(if b.brsize == 0 then offset else Add64(offset, b.brsize));
      }
    }
  }

  /** The next load starts where the previous burn ended: by brsize, not by ldsize. */
  lemma NextLoadAtBurnedOffset(ev: seq<Event>, offset: nat, ret: int)
    requires RunFrom(ev, offset, false, ret)
    requires |ev| >= 3 && ev[2].LdCall?
    ensures ev[1].BrCall? && ev[2].offset == Add64(offset, ev[1].brsize)
  {
  }

  /** A load that fills the buffer and a burn of 10 bytes move the next load to offset 10. */
  lemma OffsetByBurnExample()
    ensures RunFrom([LdCall(0, 0, 16), BrCall(0, 16, 0, 10), LdCall(10, 0, 0), LdFinCall, BrFinCall(10)], 0, false, 0)
  {
    var ev := [LdCall(0, 0, 16), BrCall(0, 16, 0, 10), LdCall(10, 0, 0), LdFinCall, BrFinCall(10)];
    assert ev[2..][1..] == Fins(10);
  }

  /** struct ldbr_s */
  class Ldbr {
    const src: Target
    const dest: Target
    var onceOnly: bool
    var ld: Option<LdFn>
    var ldfin: LdFin
    var br: Option<BrFn>
    var brfin: BrFin

    /** The initialiser in general_load: both finalisers are the no-ops; ldbr_init sets the targets. */
    constructor (src: Target, dest: Target)
      ensures this.src == src && this.dest == dest && !onceOnly
      ensures ld.None? && br.None? && ldfin == LdFinNone && brfin == BrFinNone
    {
      this.src := src;
      this.dest := dest;
      onceOnly := false;
      ld := None;
      br := None;
      ldfin := LdFinNone;
      brfin := BrFinNone;
    }

    /** The flash descriptors the run may touch, and their devices. */
    function Footprint(): set<object>
      reads src, dest
    {
      TargetsFootprint(src, dest)
    }

    /** ldbr_init set the functions, each matching its target's descriptor. */
    predicate Ready()
      reads this, src, dest
    {
      ld.Some? && br.Some? && LdFits(ld.value, src.desc) && BrFits(br.value, dest.desc) &&
      (ldfin == LdFinMtdClearBad ==> IsMtd(src.desc)) && (brfin == BrFinMtdEraseRest ==> IsMtd(dest.desc))
    }

    /** ldbr_init_ld */
    method InitLd() returns (ret: int)
      modifies this`ld, this`ldfin
      ensures var c := LdChoice(src.kind, src.fmt);
        (c.None? ==> ret == -1 && ld == old(ld) && ldfin == old(ldfin)) &&
        (c.Some? ==> ret == 0 && ld == c && ldfin == (if src.kind == Mtd then LdFinMtdClearBad else old(ldfin)))
    {
      if src.kind == Ram {
        ld := Some(LdRam);
      } else if src.kind == Net {
        ld := Some(LdNet);
      } else if src.kind == Blk {
        ld := if src.fmt == FS_TYPE_ANY then Some(LdBlk) else Some(LdBlkFs);
      } else if src.kind == Mtd {
        ld := Some(LdMtd);
        ldfin := LdFinMtdClearBad;
      } else {
        return -1;
      }
      return 0;
    }

    /** ldbr_init_br */
    method InitBr(extra: nat) returns (ret: int)
      modifies this`br, this`brfin
      ensures var c := BrChoice(dest.kind, dest.fmt, extra);
        (c.None? ==> ret == -1 && br == old(br) && brfin == old(brfin)) &&
        (c.Some? ==> ret == 0 && br == c && brfin == (if dest.kind == Mtd then BrFinMtdEraseRest else old(brfin)))
    {
      if dest.kind == Ram {
        br := Some(BrRam);
      } else if dest.kind == Blk {
        if dest.fmt == FS_TYPE_ANY {
          br := if HasFlag(extra, EXTRA_DECOMPRESS) then Some(BrBlkDecompress) else Some(BrBlk);
        } else {
          br := Some(BrBlkFs);
        }
      } else if dest.kind == Mtd {
        if HasFlag(extra, EXTRA_DECOMPRESS) {
          br := Some(BrMtdDecompress);
        } else if HasFlag(extra, EXTRA_UBOOTSECURE) {
          br := Some(BrMtdUbootSecure);
        } else {
          br := Some(BrMtd);
        }
        brfin := BrFinMtdEraseRest;
      } else {
        return -1;
      }
      return 0;
    }

    /** ldbr_init: once_only first, then the load side, then the burn side. */
    method Init(extra: nat) returns (ret: int)
      modifies this`onceOnly, this`ld, this`ldfin, this`br, this`brfin
      ensures onceOnly == (old(onceOnly) || OnceOnly(src.kind, dest.kind, extra))
      ensures ret == 0 || ret == -1
      ensures ret == 0 <==> LdChoice(src.kind, src.fmt).Some? && BrChoice(dest.kind, dest.fmt, extra).Some?
      ensures ret == 0 ==> (ld == LdChoice(src.kind, src.fmt) && br == BrChoice(dest.kind, dest.fmt, extra) &&
        ldfin == (if src.kind == Mtd then LdFinMtdClearBad else old(ldfin)) &&
        brfin == (if dest.kind == Mtd then BrFinMtdEraseRest else old(brfin)))
      ensures LdChoice(src.kind, src.fmt).None? ==> br == old(br) && brfin == old(brfin)
    {
      if extra != EXTRA_NONE {
        onceOnly := true;
      }
      if src.kind == Net || src.kind == Ram || dest.kind == Ram {
        onceOnly := true;
      }
      ret := InitLd();
      if ret != 0 {
        return -1;
      }
      ret := InitBr(extra);
      if ret != 0 {
        return -1;
      }
    }

    /** The run changes flash descriptors and devices only, never the targets or the ldbr. */
    lemma Apart()
      ensures this !in Footprint() && src !in Footprint() && dest !in Footprint()
    {
    }

    /** ldbr->ld(ldbr, offset, buf, size, &ldsize), `prev` being ldsize before the call. */
    method Load(io: Io, offset: nat, size: nat, prev: nat) returns (ret: int, newSize: nat)
      requires Ready()
      modifies FlashOf(src.desc)
      ensures Res(ret, newSize) ==
        LoadOutcome(io, ld.value, src.desc, src.part, src.fmt, src.symbol, offset, size, prev, old(SkipOf(src.desc)))
      ensures ld.value != LdMtd ==>
        Res(ret, newSize) == OracleLoad(io, ld.value, src.desc, src.part, src.fmt, src.symbol, offset, size, prev)
      ensures ld.value == LdMtd ==>
        var d := src.desc.value.mtd;
        var r := ReadLoop(d.mtd, Add64(offset, d.Offset(src.part)), MtdLen(size, old(d.Remain(offset, src.part))),
                          0, old(d.badsize), 0);
        ret == r.ret && newSize == r.retsize && d.badsize == r.badsize && d.mtd.ops == old(d.mtd.ops) + r.ops
    {
      if ld.value == LdMtd {
        var d := src.desc.value.mtd;
        var remain := d.Remain(offset, src.part);
        var addr := Add64(offset, d.Offset(src.part));
        ret, newSize := d.ReadMapped(addr, MtdLen(size, remain));
      } else {
        var r := OracleLoad(io, ld.value, src.desc, src.part, src.fmt, src.symbol, offset, size, prev);
        ret, newSize := r.ret, r.size;
      }
    }

    /** ldbr->br(ldbr, offset, buf, ldsize, &brsize), `prev` being brsize before the call. */
    method Burn(io: Io, offset: nat, size: nat, prev: nat) returns (ret: int, newSize: nat)
      requires Ready()
      modifies FlashOf(dest.desc)
      ensures Res(ret, newSize) ==
        BurnOutcome(io, br.value, dest.desc, dest.part, dest.symbol, offset, size, prev, old(SkipOf(dest.desc)))
      ensures br.value in {BrRam, BrBlk, BrBlkDecompress, BrBlkFs} ==>
        Res(ret, newSize) == OracleBurn(io, br.value, dest.desc, dest.part, dest.symbol, offset, size, prev)
      ensures br.value == BrMtdUbootSecure && !io.secure(Image(io.loaded(offset, size), size)) ==>
        ret == -1 && newSize == prev && unchanged(Footprint())
      ensures br.value == BrMtd || (br.value == BrMtdUbootSecure && io.secure(Image(io.loaded(offset, size), size))) ==>
        var d := dest.desc.value.mtd;
        var r := WriteLoop(d.mtd, Add64(offset, d.Offset(dest.part)), MtdLen(size, old(d.Remain(offset, dest.part))),
                           0, old(d.badsize), 0);
        ret == r.ret && newSize == r.retsize && d.badsize == r.badsize && d.mtd.ops == old(d.mtd.ops) + r.ops
      ensures br.value == BrMtdDecompress ==>
        var d := dest.desc.value.mtd;
        var p := GzWrite.Prepare(Image(io.loaded(offset, size), size), CInt(size), d.mtd, GZ_WRITE_BUF,
                                 Add64(offset, d.Offset(dest.part)), 0);
        (p.None? || !io.inflater.initOk ==>
          ret == -1 && newSize == prev && d.badsize == old(d.badsize) && d.mtd.ops == old(d.mtd.ops)) &&
        (p.Some? && io.inflater.initOk ==>
          var g := GzWrite.Drain(d.mtd, io.inflater, io.crc32, io.ctrlc, GZ_WRITE_BUF,
                                 GzWrite.Start(p.value, CInt(size) - p.value.start, old(d.badsize)));
          ret == GzWrite.Outcome(p.value, g) && newSize == p.value.szexpected &&
          d.badsize == g.badsize && d.mtd.ops == old(d.mtd.ops) + g.ops)
    {
      var b := br.value;
      if b == BrMtd || b == BrMtdUbootSecure || b == BrMtdDecompress {
        var d := dest.desc.value.mtd;
        var img := Image(io.loaded(offset, size), size);
        if b == BrMtdUbootSecure && !io.secure(img) {
          return -1, prev;
        }
        var remain := d.Remain(offset, dest.part);
        var addr := Add64(offset, d.Offset(dest.part));
        if b == BrMtdDecompress {
          var rs;
          ret, rs := GzWrite.GzWriteMtd(img, CInt(size), d, GZ_WRITE_BUF, addr, 0, io.inflater, io.crc32, io.ctrlc);
          newSize := if rs.Some? then rs.value else prev;
        } else {
          ret, newSize := d.WriteMapped(addr, MtdLen(size, remain));
        }
      } else {
        var r := OracleBurn(io, b, dest.desc, dest.part, dest.symbol, offset, size, prev);
        ret, newSize := r.ret, r.size;
      }
    }

    /** ldbr->ldfin(ldbr): the flash load finaliser drops the skip. */
    method RunLdFin()
      requires Ready()
      modifies FlashOf(src.desc)
      ensures ldfin == LdFinMtdClearBad ==> src.desc.value.mtd.badsize == 0
      ensures ldfin == LdFinMtdClearBad ==> unchanged(src.desc.value.mtd.mtd)
      ensures ldfin == LdFinNone ==> unchanged(FlashOf(src.desc))
    {
      if ldfin == LdFinMtdClearBad {
        src.desc.value.mtd.ClearBad();
      }
    }

    /** ldbr->brfin(ldbr, offset): erase-rest on a flash destination. */
    method RunBrFin(offset: nat) returns (ret: int)
      requires Ready()
      modifies FlashOf(dest.desc)
      ensures brfin == BrFinNone ==> ret == 0 && unchanged(FlashOf(dest.desc))
      ensures brfin == BrFinMtdEraseRest ==>
        var d := dest.desc.value.mtd;
        var r := EraseLoop(d.mtd, Add64(offset, d.Offset(dest.part)), old(d.Remain(offset, dest.part)), 0, old(d.badsize));
        ret == r.ret && d.mtd.ops == old(d.mtd.ops) + r.ops && d.badsize == (if r.ret == 0 then 0 else r.badsize)
    {
      if brfin == BrFinMtdEraseRest {
        ret := EraseRest(dest.desc.value.mtd, dest.part, offset);
      } else {
        ret := 0;
      }
    }

    /**
     * The end of a run that stopped without an error: the load finaliser,
     * then the burn finaliser at the final offset (its result is ignored),
     * and ldbr_run returns 0. A flash source's skip is dropped; a flash
     * destination is erased from the final offset to the end of its
     * partition, starting from the skip it has then (0 when the load
     * finaliser has just dropped it on the same descriptor).
     */
    method Stop(ghost once: bool, events: seq<Event>, tail: seq<Event>, at: nat, offset: nat, ghost io: Io, ghost skips: seq<nat>)
      returns (ret: Option<int>, all: seq<Event>, ghost allSkips: seq<nat>, ghost finSkip: nat)
      requires Ready() && once == onceOnly && Reach(events, 0, once) == Some(at)
      requires Outcomes(io, ld.value, br.value, src, dest, events + tail, skips)
      requires Stopping(tail, at, offset, once)
      modifies Footprint()
      ensures Ready() && Footprint() == old(Footprint())
      ensures ret == Some(0) && all == events + (tail + Fins(offset)) && RunFrom(all, 0, onceOnly, 0)
      ensures allSkips == skips + [0, 0] && Outcomes(io, ld.value, br.value, src, dest, all, allSkips)
      ensures finSkip == if ldfin == LdFinMtdClearBad && SameFlash(src.desc, dest.desc) then 0 else old(SkipOf(dest.desc))
      ensures ldfin == LdFinMtdClearBad && !(brfin == BrFinMtdEraseRest && SameFlash(src.desc, dest.desc)) ==>
        src.desc.value.mtd.badsize == 0
      ensures brfin == BrFinMtdEraseRest ==>
        var d := dest.desc.value.mtd;
        var r := EraseLoop(d.mtd, Add64(offset, d.Offset(dest.part)), PartitionRemain(d.mtd, offset, dest.part, finSkip), 0, finSkip);
        d.mtd.ops == old(d.mtd.ops) + r.ops && d.badsize == (if r.ret == 0 then 0 else r.badsize) &&
        |r.ops| <= |d.mtd.ops| && d.mtd.ops[|d.mtd.ops| - |r.ops|..] == r.ops
      ensures ldfin == LdFinNone && brfin == BrFinNone ==> unchanged(Footprint())
    {
      Apart();
      Finish(tail, at, offset, onceOnly);
      RunJoin(events, 0, onceOnly, at, tail + Fins(offset), 0);
      FinsAgree(io, ld.value, br.value, src, dest, events + tail, skips, offset);
      assert events + (tail + Fins(offset)) == (events + tail) + Fins(offset);
      ret, all, allSkips := Some(0), events + (tail + Fins(offset)), skips + [0, 0];
      RunLdFin();
      finSkip := SkipOf(dest.desc);
      var _ := RunBrFin(offset);
      if brfin == BrFinMtdEraseRest {
        var d := dest.desc.value.mtd;
        var r := EraseLoop(d.mtd, Add64(offset, d.Offset(dest.part)), PartitionRemain(d.mtd, offset, dest.part, finSkip), 0, finSkip);
        SuffixOf(d.mtd.ops, old(d.mtd.ops), r.ops);
      }
    }

    /**
     * One round of ldbr_run's loop: the load at `offset` and, when it
     * succeeded with something loaded, the burn of what it loaded.
     */
    method Round(io: Io, offset: nat, ldsize: nat, brsize: nat)
      returns (l: Event, b: Option<Event>, ghost s1: nat, ghost s2: nat)
      requires Ready()
      modifies Footprint()
      ensures Ready() && Footprint() == old(Footprint())
      ensures l.LdCall? && l.offset == offset
      ensures b.Some? <==> l.ret == 0 && l.size != 0
      ensures b.Some? ==> b.value.BrCall? && b.value.offset == offset && b.value.size == l.size
      ensures s1 == old(SkipOf(src.desc)) && Res(l.ret, l.size) ==
        LoadOutcome(io, ld.value, src.desc, src.part, src.fmt, src.symbol, offset, BUF_SIZE, ldsize, s1)
      ensures b.Some? ==>
        Res(b.value.ret, b.value.brsize) ==
        BurnOutcome(io, br.value, dest.desc, dest.part, dest.symbol, offset, l.size, brsize, s2)
      ensures !SameFlash(src.desc, dest.desc) ==> s2 == old(SkipOf(dest.desc))
    {
      ghost var fp := Footprint();
      Apart();
      s1 := SkipOf(src.desc);
      var r, n := Load(io, offset, BUF_SIZE, ldsize);
      assert Ready() && Footprint() == fp;
      s2 := SkipOf(dest.desc);
      l := LdCall(offset, r, n);
      if r != 0 || n == 0 {
        return l, None, s1, s2;
      }
      var r2, n2 := Burn(io, offset, n, brsize);
      assert Ready() && Footprint() == fp;
      b := Some(BrCall(offset, n, r2, n2));
    }

    /** Round, recorded: the round's events extend a record of calls that returned what their functions give. */
    method Step(io: Io, offset: nat, ldsize: nat, brsize: nat, ghost rounds: seq<Event>, ghost skips: seq<nat>)
      returns (l: Event, b: Option<Event>, ghost s1: nat, ghost s2: nat)
      requires Ready()
      requires Outcomes(io, ld.value, br.value, src, dest, rounds, skips)
      requires ldsize == (if |rounds| >= 2 then Left(rounds[|rounds| - 2]) else 0)
      requires brsize == (if |rounds| >= 1 then Left(rounds[|rounds| - 1]) else 0)
      modifies Footprint()
      ensures Ready() && Footprint() == old(Footprint())
      ensures l.LdCall? && l.offset == offset
      ensures b.Some? <==> l.ret == 0 && l.size != 0
      ensures b.Some? ==> b.value.BrCall? && b.value.offset == offset && b.value.size == l.size
      ensures s1 == old(SkipOf(src.desc))
      ensures Outcomes(io, ld.value, br.value, src, dest, rounds + [l], skips + [s1])
      ensures b.Some? ==> Outcomes(io, ld.value, br.value, src, dest, rounds + [l, b.value], skips + [s1, s2])
    {
      l, b, s1, s2 := Round(io, offset, ldsize, brsize);
      RoundAgrees(io, ld.value, br.value, src, dest, rounds, skips, l, b, s1, s2, ldsize, brsize);
    }

    /**
     * ldbr_run for at most `fuel` load/burn rounds: the events it goes
     * through make a whole run and `ret` is its result; None means the
     * copy was still going after `fuel` rounds. Every call returned what
     * its function gives (`skips` being the flash skip each call started
     * from, the first that of the source at the start), and a run that
     * stopped without an error has finalised both targets at the final
     * offset `finOffset`, the erase starting from the skip `finSkip`.
     */
    method Run(io: Io, fuel: nat)
      returns (ret: Option<int>, events: seq<Event>, ghost skips: seq<nat>, ghost finOffset: nat, ghost finSkip: nat)
      requires Ready()
      modifies Footprint()
      ensures Ready()
      ensures ret.Some? ==> RunFrom(events, 0, onceOnly, ret.value)
      ensures ret.None? ==> |events| == 2 * fuel && Reach(events, 0, onceOnly).Some?
      ensures Outcomes(io, ld.value, br.value, src, dest, events, skips)
      ensures |skips| > 0 ==> skips[0] == old(SkipOf(src.desc))
      ensures ret == Some(0) ==> |events| >= 2 && events[|events| - 1] == BrFinCall(finOffset)
      ensures ret == Some(0) && ldfin == LdFinMtdClearBad && !(brfin == BrFinMtdEraseRest && SameFlash(src.desc, dest.desc)) ==>
        src.desc.value.mtd.badsize == 0
      ensures ret == Some(0) && brfin == BrFinMtdEraseRest ==>
        var d := dest.desc.value.mtd;
        var r := EraseLoop(d.mtd, Add64(finOffset, d.Offset(dest.part)), PartitionRemain(d.mtd, finOffset, dest.part, finSkip), 0, finSkip);
        |r.ops| <= |d.mtd.ops| && d.mtd.ops[|d.mtd.ops| - |r.ops|..] == r.ops &&
        d.badsize == (if r.ret == 0 then 0 else r.badsize)
      ensures ret == Some(0) && ldfin == LdFinMtdClearBad && SameFlash(src.desc, dest.desc) ==> finSkip == 0
    {
      Apart();
      var failed, stopped, rounds, tail, at, stop;
      ghost var tailSkips;
      failed, stopped, rounds, tail, at, stop, skips, tailSkips := Rounds(io, fuel);
      if failed {
        return Some(-1), rounds + tail, skips + tailSkips, 0, 0;
      }
      if !stopped {
        assert rounds + tail == rounds && skips + tailSkips == skips;
        return None, rounds, skips, 0, 0;
      }
      finOffset := stop;
      ret, events, skips, finSkip := Stop(onceOnly, rounds, tail, at, stop, io, skips + tailSkips);
    }

    /**
     * The load/burn rounds of ldbr_run, at most `fuel` of them: `rounds`
     * kept the loop going and brought the offset to `at`; `tail` is the round
     * that failed, or the one that stopped the loop leaving the offset at
     * `stop`, and is empty when the fuel ran out first.
     */
    method Rounds(io: Io, fuel: nat)
      returns (failed: bool, stopped: bool, rounds: seq<Event>, tail: seq<Event>, at: nat, stop: nat,
               ghost skips: seq<nat>, ghost tailSkips: seq<nat>)
      requires Ready()
      modifies Footprint()
      ensures Ready() && Footprint() == old(Footprint())
      ensures Reach(rounds, 0, onceOnly) == Some(at)
      ensures Outcomes(io, ld.value, br.value, src, dest, rounds + tail, skips + tailSkips)
      ensures |skips + tailSkips| > 0 ==> (skips + tailSkips)[0] == old(SkipOf(src.desc))
      ensures failed ==> RunFrom(rounds + tail, 0, onceOnly, -1)
      ensures !failed && !stopped ==> |rounds| == 2 * fuel && tail == [] && tailSkips == []
      ensures stopped ==> !failed && Stopping(tail, at, stop, onceOnly)
    {
      Apart();
      var once := onceOnly;
      var offset: nat := 0;
      var ldsize: nat := 0;
      var brsize: nat := 0;
      var k := 0;
      rounds, skips := [], [];
      failed, stopped := false, false;
      tail, tailSkips := [], [];
      stop := 0;
      while k < fuel
        invariant Ready() && offset < U64 && Reach(rounds, 0, once) == Some(offset)
        invariant |rounds| == 2 * k && k <= fuel
        invariant once == onceOnly
        invariant Outcomes(io, ld.value, br.value, src, dest, rounds, skips)
        invariant ldsize == (if |rounds| >= 2 then Left(rounds[|rounds| - 2]) else 0)
        invariant brsize == (if |rounds| >= 1 then Left(rounds[|rounds| - 1]) else 0)
        invariant k == 0 ==> SkipOf(src.desc) == old(SkipOf(src.desc))
        invariant |skips| > 0 ==> skips[0] == old(SkipOf(src.desc))
        decreases fuel - k
      {
        var l, ob, s1, s2 := Step(io, offset, ldsize, brsize, rounds, skips);
        RoundEnds(rounds, offset, once, l, ob);
        if l.ret != 0 {
          return true, false, rounds, [l], offset, 0, skips, [s1];
        }
        if ob.None? {
          return false, true, rounds, [l], offset, offset, skips, [s1];
        }
        var b := ob.value;
        if b.ret != 0 {
          return true, false, rounds, [l, b], offset, 0, skips, [s1, s2];
        }
        if b.brsize == 0 || once {
          stop := if b.brsize == 0 then offset else Add64(offset, b.brsize);
          return false, true, rounds, [l, b], offset, stop, skips, [s1, s2];
        }
        rounds, skips := rounds + [l, b], skips + [s1, s2];
        ldsize, brsize := l.size, b.brsize;
        offset := Add64(offset, b.brsize);
        k := k + 1;
      }
      assert rounds + tail == rounds && skips + tailSkips == skips;
      at := offset;
    }
  }

  /** The last round of a run that stopped without an error, then the finalisers. */
  lemma Finish(tail: seq<Event>, at: nat, offset: nat, once: bool)
    requires Stopping(tail, at, offset, once)
    ensures RunFrom(tail + Fins(offset), at, once, 0)
  {
    var ev := tail + Fins(offset);
    assert ev[1..] == tail[1..] + Fins(offset);
    if |tail| == 2 {
      assert ev[2..] == Fins(offset);
    }
  }

  /** The footprint general_load may change: the flash descriptors of both targets. */
  function TargetsFootprint(src: Target, dest: Target): set<object>
    reads src, dest
  {
    FlashOf(src.desc) + FlashOf(dest.desc)
  }

  /** A flash descriptor and its device; nothing for any other target. */
  function FlashOf(d: Option<Desc>): set<object>
  {
    if IsMtd(d) then {d.value.mtd, d.value.mtd.mtd} else {}
  }

  /**
   * general_load: -1 when ldbr_init finds no load or no burn function for
   * the targets, otherwise the copy runs (for at most `fuel` rounds) and 0
   * is returned whatever the copy's own result. Every call of the copy
   * returned what the chosen function gives; a copy that stopped without
   * an error has dropped a flash source's skip and erased a flash
   * destination from the final offset to the end of its partition.
   */
  method GeneralLoadRun(src: Target, dest: Target, extra: nat, io: Io, fuel: nat)
    returns (ret: int, ghost run: Option<int>, ghost events: seq<Event>, ghost skips: seq<nat>,
             ghost finOffset: nat, ghost finSkip: nat)
    requires Opened(src.kind, src.desc) && Opened(dest.kind, dest.desc)
    modifies TargetsFootprint(src, dest)
    ensures ret == 0 || ret == -1
    ensures ret == -1 <==> LdChoice(src.kind, src.fmt).None? || BrChoice(dest.kind, dest.fmt, extra).None?
    ensures ret == -1 ==> events == [] && unchanged(TargetsFootprint(src, dest))
    ensures ret == 0 && run.Some? ==> RunFrom(events, 0, OnceOnly(src.kind, dest.kind, extra), run.value)
    ensures ret == 0 && run.None? ==> Reach(events, 0, OnceOnly(src.kind, dest.kind, extra)).Some?
    ensures ret == 0 ==>
      LdFits(LdChoice(src.kind, src.fmt).value, src.desc) && BrFits(BrChoice(dest.kind, dest.fmt, extra).value, dest.desc)
    ensures ret == 0 ==>
      Outcomes(io, LdChoice(src.kind, src.fmt).value, BrChoice(dest.kind, dest.fmt, extra).value, src, dest, events, skips) &&
      (|skips| > 0 ==> skips[0] == old(SkipOf(src.desc)))
    ensures ret == 0 && run == Some(0) ==> |events| >= 2 && events[|events| - 1] == BrFinCall(finOffset)
    ensures ret == 0 && run == Some(0) && src.kind == Mtd && !(dest.kind == Mtd && SameFlash(src.desc, dest.desc)) ==>
      IsMtd(src.desc) && src.desc.value.mtd.badsize == 0
    ensures ret == 0 && run == Some(0) && dest.kind == Mtd ==>
      IsMtd(dest.desc) &&
      var d := dest.desc.value.mtd;
      var r := EraseLoop(d.mtd, Add64(finOffset, d.Offset(dest.part)), PartitionRemain(d.mtd, finOffset, dest.part, finSkip), 0, finSkip);
      |r.ops| <= |d.mtd.ops| && d.mtd.ops[|d.mtd.ops| - |r.ops|..] == r.ops &&
      d.badsize == (if r.ret == 0 then 0 else r.badsize)
    ensures ret == 0 && run == Some(0) && src.kind == Mtd && SameFlash(src.desc, dest.desc) ==> finSkip == 0
  {
    var ldbr := new Ldbr(src, dest);
    var r := ldbr.Init(extra);
    if r != 0 {
      return -1, None, [], [], 0, 0;
    }
    ChoicesFit(src.kind, src.fmt, src.desc, dest.kind, dest.fmt, dest.desc, extra);
    assert ldbr.Footprint() == TargetsFootprint(src, dest);
    assert ldbr.onceOnly == OnceOnly(src.kind, dest.kind, extra);
    assert ldbr.ldfin == LdFinMtdClearBad <==> src.kind == Mtd;
    assert ldbr.brfin == BrFinMtdEraseRest <==> dest.kind == Mtd;
    run, events, skips, finOffset, finSkip := ldbr.Run(io, fuel);
    assert ldbr.src == src && ldbr.dest == dest && ldbr.onceOnly == OnceOnly(src.kind, dest.kind, extra);
    assert ldbr.ld.value == LdChoice(src.kind, src.fmt).value && ldbr.br.value == BrChoice(dest.kind, dest.fmt, extra).value;
    assert (ldbr.ldfin == LdFinMtdClearBad <==> src.kind == Mtd) && (ldbr.brfin == BrFinMtdEraseRest <==> dest.kind == Mtd);
    ret := 0;
  }
}
