// The Loongson SD/MMC host (drivers/mmc/ls_sdcard.c) without DMA: the
// clock prescaler search, the interrupt wait, the data and command register
// words of a command, and the programmed-I/O data transfer that moves the
// buffer through the 32-bit FIFO register, four bytes at a time.

module SdCard {
  import opened Opt
  import opened Mmio

  // Registers
  const REG_SDIPRE := 0x04
  const REG_SDICMDARG := 0x08
  const REG_SDICMDCON := 0x0c
  const REG_SDIRSP0 := 0x14
  const REG_SDIRSP1 := 0x18
  const REG_SDIRSP2 := 0x1C
  const REG_SDIRSP3 := 0x20
  const REG_SDIBSIZE := 0x28
  const REG_SDIDATCON := 0x2C
  const REG_SDIINTMSK := 0x3C
  const REG_SDIWRDAT := 0x40

  const MASK_SDIPRE_SCALE: bv32 := 0xff

  const BIT_SDICMDCON_CHECKCRC: bv32 := 0x2000   // bit 13
  const BIT_SDICMDCON_LONGRSP: bv32 := 0x400     // bit 10
  const BIT_SDICMDCON_WAITRSP: bv32 := 0x200     // bit 9
  const BIT_SDICMDCON_CMDSTART: bv32 := 0x100    // bit 8
  const BIT_SDICMDCON_SENDERHOST: bv32 := 0x40   // bit 6
  const MASK_SDICMDCON_CMDIDX: bv32 := 0xff

  const MASK_SDIBSIZE_B: bv32 := 0xfff
  const BIT_SDIDATCON_WIDEMD: bv32 := 0x1_0000   // bit 16
  const BIT_SDIDATCON_DSTART: bv32 := 0x4000     // bit 14
  const MASK_SDIDATCON_BNUM: bv32 := 0xfff

  const BIT_SDIINT_CMDRSPCRC: bv32 := 0x100      // bit 8
  const BIT_SDIINT_CMDTIMEOUT: bv32 := 0x80      // bit 7
  const BIT_SDIINT_CMDFIN: bv32 := 0x40          // bit 6
  const BIT_SDIINT_DATATIMEOUT: bv32 := 0x2      // bit 1
  /** All ten interrupt bits, R1BFIN (bit 9) down to DATAFIN (bit 0). */
  const SDIINT_ALL: bv32 := 0x3ff

  // From the MMC core's header (include/mmc.h), which is not part of this model.
  const MMC_RSP_PRESENT: bv32 := 0x1
  const MMC_RSP_136: bv32 := 0x2
  const MMC_RSP_CRC: bv32 := 0x4
  const MMC_DATA_READ: bv32 := 0x1
  const MMC_DATA_WRITE: bv32 := 0x2
  const ETIMEDOUT := 110

  /** The reference clock of_to_plat stores, and the lowest card clock it configures. */
  const REF_CLOCK := 200_000_000
  const F_MIN := REF_CLOCK / 256

  // ---- set_ios: the prescaler ----

  /** The for loop from `from`: the first divider reaching the clock, or 255. */
  function PrescalerFrom(refClock: nat, clock: nat, from: nat): (psc: nat)
    requires 1 <= from <= 255
    ensures from <= psc <= 255
    decreases 255 - from
  {
    if from == 255 then 255
    else if refClock / from <= clock then from
    else PrescalerFrom(refClock, clock, from + 1)
  }

  function Prescaler(refClock: nat, clock: nat): nat
  {
    PrescalerFrom(refClock, clock, 1)
  }

  /** The SDIPRE word: the scale byte replaced, the other bits kept. */
  function PrescaledWord(old_: bv32, psc: nat): bv32
    requires psc < 256
  {
    SetBits(ClearBits(old_, MASK_SDIPRE_SCALE), KeepBits(psc as bv32, MASK_SDIPRE_SCALE))
  }

  // ---- int_idle ----

  /**
   * The outcome of ls_mmc_int_idle once the polled status `val` has a bit
   * of `mask` set: 0 if it has a bit of `correct`, -ETIMEDOUT if it has a
   * command or data timeout, -1 otherwise.
   */
  function IdleResult(val: bv32, correct: bv32): int
  {
    if KeepBits(val, correct) != 0 then 0
    else if KeepBits(val, BIT_SDIINT_CMDTIMEOUT) != 0 || KeepBits(val, BIT_SDIINT_DATATIMEOUT) != 0 then -ETIMEDOUT
    else -1
  }

  /** int_idle acknowledges the bits it waited for by writing the mask back. */
  function Idled(io: Io, val: bv32, mask: bv32, correct: bv32): (int, Io)
    requires KeepBits(val, mask) != 0
  {
    (IdleResult(val, correct), Writel(io, mask, REG_SDIINTMSK))
  }

  // ---- setup_data and the command word ----

  datatype Data = Data(blocks: bv32, blocksize: bv32, flags: bv32)

  function BlockSizeWord(d: Data): bv32
  {
    KeepBits(d.blocksize, MASK_SDIBSIZE_B)
  }

  function DataControlWord(d: Data, buswidth: int): bv32
  {
    var v := KeepBits(d.blocks, MASK_SDIDATCON_BNUM);
    var v1 := if buswidth == 4 then SetBits(v, BIT_SDIDATCON_WIDEMD) else v;
    SetBits(v1, BIT_SDIDATCON_DSTART)
  }

  /** ls_mmc_setup_data */
  function DataSetUp(io: Io, d: Data, buswidth: int): Io
  {
    Writel(Writel(io, BlockSizeWord(d), REG_SDIBSIZE), DataControlWord(d, buswidth), REG_SDIDATCON)
  }

  function SetIf(v: bv32, c: bool, bit: bv32): bv32
  {
    if c then SetBits(v, bit) else v
  }

  /** The SDICMDCON word send_cmd builds from the index and the response type. */
  function CommandWord(cmdidx: bv32, respType: bv32): bv32
  {
    var v := SetBits(SetBits(KeepBits(cmdidx, MASK_SDICMDCON_CMDIDX), BIT_SDICMDCON_CMDSTART), BIT_SDICMDCON_SENDERHOST);
    var v1 := SetIf(v, KeepBits(respType, MMC_RSP_PRESENT) != 0, BIT_SDICMDCON_WAITRSP);
    var v2 := SetIf(v1, KeepBits(respType, MMC_RSP_CRC) != 0, BIT_SDICMDCON_CHECKCRC);
    SetIf(v2, KeepBits(respType, MMC_RSP_136) != 0, BIT_SDICMDCON_LONGRSP)
  }

  // ---- the data FIFO: bytes in 32-bit little-endian words ----

  /** 1, 2 or 3 bytes when that is what remains, else 4 (also for sz <= 0). */
  function Chunk(sz: int): (c: nat)
    ensures 1 <= c <= 4
    ensures 0 < sz < 4 ==> c == sz
  {
    if sz == 1 || sz == 2 || sz == 3 then sz else 4
  }

  /** A byte of the transfer buffer. */
  type Byte = b: int | 0 <= b < 256

  /** get_unaligned_le16/24/32 and the single-byte read: a little-endian value. */
  function LeValue(bs: seq<Byte>): (v: nat)
    ensures v < Pow256(|bs|)
  {
    if bs == [] then 0 else bs[0] + 256 * LeValue(bs[1..])
  }

  function Pow256(n: nat): (p: nat)
    ensures p >= 1
  {
    if n == 0 then 1 else 256 * Pow256(n - 1)
  }

  /** The `(u8)` cast and put_unaligned_le16/24/32: the low n bytes of a value. */
  function Unpack(w: nat, n: nat): (r: seq<Byte>)
    ensures |r| == n
  {
    if n == 0 then [] else [w % 256] + Unpack(w / 256, n - 1)
  }

  /** The words write_data puts into the FIFO for `sz` bytes of `buf`. */
  function FifoWords(buf: seq<Byte>, sz: int): (ws: seq<nat>)
    requires sz <= |buf|
    decreases if sz > 0 then sz else 0
  {
    if sz <= 0 then []
    else
      var c := Chunk(sz);
      [LeValue(buf[..c])] + FifoWords(buf[c..], sz - c)
  }

  /**
   * The bytes read_data stores from the FIFO words for `sz` bytes. The loop
   * is a do-while: it stores one word even when sz is not positive.
   */
  function FifoBytes(fifo: seq<nat>, sz: int): seq<Byte>
    requires |fifo| >= FifoReads(sz)
    decreases if sz > 0 then sz else 0
  {
    var c := Chunk(sz);
    Unpack(fifo[0], c) + (if sz - c > 0 then FifoBytes(fifo[1..], sz - c) else [])
  }

  /** How many FIFO words read_data reads for `sz` bytes. */
  function FifoReads(sz: int): (n: nat)
    ensures n >= 1
    decreases if sz > 0 then sz else 0
  {
    var c := Chunk(sz);
    1 + (if sz - c > 0 then FifoReads(sz - c) else 0)
  }

  /** `int sz = data->blocks * data->blocksize`: a 32-bit unsigned product seen as int. */
  function TransferSize(d: Data): int
  {
    var p := (d.blocks as int * d.blocksize as int) % U32;
    if p < 0x8000_0000 then p else p - U32
  }

  // ---- properties ----

  lemma ZeroOr(x: bv32)
    ensures SetBits(0, x) == x
  {
    assert 0 | x == x;
  }

  lemma {:induction false} PrescalerFromLeast(refClock: nat, clock: nat, from: nat)
    requires 1 <= from <= 255
    ensures var psc := PrescalerFrom(refClock, clock, from);
      (psc < 255 ==> refClock / psc <= clock) &&
      forall q | from <= q < psc :: refClock / q > clock
    decreases 255 - from
  {
    if from < 255 && refClock / from > clock {
      PrescalerFromLeast(refClock, clock, from + 1);
    }
  }

  /**
   * set_ios picks the smallest divider in 1..254 that brings the reference
   * clock down to the requested one, and 255 when none does.
   */
  lemma PrescalerLeast(refClock: nat, clock: nat)
    ensures var psc := Prescaler(refClock, clock);
      1 <= psc <= 255 &&
      (psc < 255 ==> refClock / psc <= clock) &&
      (forall q | 1 <= q < psc :: refClock / q > clock)
  {
    PrescalerFromLeast(refClock, clock, 1);
  }

  lemma NegativeFactor(a: int, q: int)
    requires q > 0
    ensures a * q < 0 ==> a < 0
  {
  }

  /** A smaller divisor never gives a smaller quotient. */
  lemma DivAntitone(n: nat, q: nat, d: nat)
    requires 1 <= q <= d
    ensures n / d <= n / q
  {
    var k := n / d;
    assert k * q <= k * d by {
      assert k * d - k * q == k * (d - q);
    }
    assert k * d <= n;
    assert n < (n / q + 1) * q;
    assert (k - (n / q + 1)) * q == k * q - (n / q + 1) * q;
    NegativeFactor(k - (n / q + 1), q);
  }

  /** When no divider from `from` on is enough, the loop runs out at 255. */
  lemma {:induction false} PrescalerRunsOut(refClock: nat, clock: nat, from: nat)
    requires 1 <= from <= 255
    requires forall q | from <= q < 255 :: refClock / q > clock
    ensures PrescalerFrom(refClock, clock, from) == 255
    decreases 255 - from
  {
    if from < 255 {
      PrescalerRunsOut(refClock, clock, from + 1);
    }
  }

  /**
   * At the lowest clock probe sets up, 200 MHz / 256, no divider up to 254
   * is enough, so the prescaler ends at 255 and the card clock at
   * 200 MHz / 255, slightly above the one asked for.
   */
  lemma ProbeClock()
    ensures Prescaler(REF_CLOCK, F_MIN) == 255
    ensures REF_CLOCK / 255 > F_MIN
  {
    forall q | 1 <= q < 255
      ensures REF_CLOCK / q > F_MIN
    {
      DivAntitone(REF_CLOCK, q, 254);
    }
    PrescalerRunsOut(REF_CLOCK, F_MIN, 1);
  }

  /** set_ios changes only the scale byte of SDIPRE, to the prescaler. */
  lemma PrescaledWordBits(old_: bv32, psc: nat)
    requires psc < 256
    ensures KeepBits(PrescaledWord(old_, psc), MASK_SDIPRE_SCALE) == psc as bv32
    ensures ClearBits(PrescaledWord(old_, psc), MASK_SDIPRE_SCALE) == ClearBits(old_, MASK_SDIPRE_SCALE)
  {
    var p := psc as bv32;
    assert p & 0xff == p;
    KeepOr(ClearBits(old_, MASK_SDIPRE_SCALE), KeepBits(p, MASK_SDIPRE_SCALE), MASK_SDIPRE_SCALE);
    ClearKeeps(old_, MASK_SDIPRE_SCALE);
    ZeroOr(p);
    ClearOrInside(ClearBits(old_, MASK_SDIPRE_SCALE), p, MASK_SDIPRE_SCALE);
    ClearTwice(old_, MASK_SDIPRE_SCALE);
  }

  /**
   * The command wait as send_cmd uses it (wait for CMDRSPCRC, CMDTIMEOUT or
   * CMDFIN; CMDFIN is success): success exactly when CMDFIN is set, a
   * timeout when it is not and a timeout bit is, and -1, which then can
   * only be a response CRC error, otherwise.
   */
  lemma CommandIdle(val: bv32)
    requires KeepBits(val, CMD_WAIT_MASK) != 0
    ensures IdleResult(val, BIT_SDIINT_CMDFIN) == 0 <==> KeepBits(val, BIT_SDIINT_CMDFIN) != 0
    ensures IdleResult(val, BIT_SDIINT_CMDFIN) == -ETIMEDOUT <==>
      KeepBits(val, BIT_SDIINT_CMDFIN) == 0 &&
      (KeepBits(val, BIT_SDIINT_CMDTIMEOUT) != 0 || KeepBits(val, BIT_SDIINT_DATATIMEOUT) != 0)
    ensures IdleResult(val, BIT_SDIINT_CMDFIN) == -1 ==> KeepBits(val, BIT_SDIINT_CMDRSPCRC) != 0
  {
    assert val & 0x1c0 != 0;
    if val & 0x40 == 0 && val & 0x80 == 0 {
      assert val & 0x100 != 0;
    }
  }

  const CMD_WAIT_MASK: bv32 := 0x1c0   // CMDRSPCRC | CMDTIMEOUT | CMDFIN

  /**
   * BSIZE holds the low 12 bits of the block size; DATCON the low 12 bits
   * of the block count, WIDEMD exactly for a 4-bit bus, DSTART always, and
   * nothing else.
   */
  lemma DataWords(d: Data, buswidth: int)
    ensures ClearBits(BlockSizeWord(d), MASK_SDIBSIZE_B) == 0
    ensures KeepBits(BlockSizeWord(d), MASK_SDIBSIZE_B) == KeepBits(d.blocksize, MASK_SDIBSIZE_B)
    ensures var w := DataControlWord(d, buswidth);
      KeepBits(w, MASK_SDIDATCON_BNUM) == KeepBits(d.blocks, MASK_SDIDATCON_BNUM) &&
      (KeepBits(w, BIT_SDIDATCON_WIDEMD) != 0 <==> buswidth == 4) &&
      KeepBits(w, BIT_SDIDATCON_DSTART) != 0 &&
      ClearBits(w, 0x1_4fff) == 0
  {
    var b := d.blocks;
    assert (d.blocksize & 0xfff) & !0xfff == 0;
    assert (d.blocksize & 0xfff) & 0xfff == d.blocksize & 0xfff;
    if buswidth == 4 {
      assert (((b & 0xfff) | 0x1_0000) | 0x4000) & 0xfff == b & 0xfff;
      assert (((b & 0xfff) | 0x1_0000) | 0x4000) & 0x1_0000 != 0;
      assert (((b & 0xfff) | 0x1_0000) | 0x4000) & 0x4000 != 0;
      assert (((b & 0xfff) | 0x1_0000) | 0x4000) & !0x1_4fff == 0;
    } else {
      assert ((b & 0xfff) | 0x4000) & 0xfff == b & 0xfff;
      assert ((b & 0xfff) | 0x4000) & 0x1_0000 == 0;
      assert ((b & 0xfff) | 0x4000) & 0x4000 != 0;
      assert ((b & 0xfff) | 0x4000) & !0x1_4fff == 0;
    }
  }

  lemma SetIfBit(x: bv32, c: bool, b: bv32)
    ensures KeepBits(SetIf(x, c, b), b) == if c then b else KeepBits(x, b)
  {
    if c {
      SetKeeps(x, b);
    }
  }

  lemma SetIfOther(x: bv32, c: bool, b: bv32, m: bv32)
    requires KeepBits(b, m) == 0
    ensures KeepBits(SetIf(x, c, b), m) == KeepBits(x, m)
  {
    if c {
      KeepOr(x, b, m);
      OrZero(KeepBits(x, m));
    }
  }

  lemma SetIfInside(x: bv32, c: bool, b: bv32, m: bv32)
    requires ClearBits(x, m) == 0 && ClearBits(b, m) == 0
    ensures ClearBits(SetIf(x, c, b), m) == 0
  {
    if c {
      KeepOr(x, b, !m);
      assert KeepBits(x, !m) == 0 && KeepBits(b, !m) == 0;
      OrZero(0);
    }
  }

  const CMD_WORD_MASK: bv32 := 0x27ff   // CHECKCRC, LONGRSP, WAITRSP and the fixed part

  /** The index byte, CMDSTART and SENDERHOST, before the response bits. */
  function CommandBase(cmdidx: bv32): bv32
  {
    SetBits(SetBits(KeepBits(cmdidx, MASK_SDICMDCON_CMDIDX), BIT_SDICMDCON_CMDSTART), BIT_SDICMDCON_SENDERHOST)
  }

  lemma CommandBaseBits(cmdidx: bv32)
    ensures KeepBits(CommandBase(cmdidx), MASK_SDICMDCON_CMDIDX) ==
      SetBits(KeepBits(cmdidx, MASK_SDICMDCON_CMDIDX), BIT_SDICMDCON_SENDERHOST)
    ensures KeepBits(CommandBase(cmdidx), 0x140) == 0x140
    ensures KeepBits(CommandBase(cmdidx), 0x2600) == 0
    ensures ClearBits(CommandBase(cmdidx), CMD_WORD_MASK) == 0
  {
    var v := ((cmdidx & 0xff) | 0x100) | 0x40;
    assert v & 0xff == (cmdidx & 0xff) | 0x40;
    assert v & 0x140 == 0x140;
    assert v & 0x2600 == 0;
    assert v & !0x27ff == 0;
  }

  /**
   * The command word holds the low byte of the index with SENDERHOST (bit
   * 6, inside the index field) forced on, CMDSTART always, WAITRSP exactly when a response is expected,
   * CHECKCRC exactly when its CRC is to be checked, LONGRSP exactly for a
   * 136-bit response, and no other bit.
   */
  lemma CommandWordBits(cmdidx: bv32, respType: bv32)
    ensures var w := CommandWord(cmdidx, respType);
      KeepBits(w, MASK_SDICMDCON_CMDIDX) == SetBits(KeepBits(cmdidx, MASK_SDICMDCON_CMDIDX), BIT_SDICMDCON_SENDERHOST) &&
      KeepBits(w, BIT_SDICMDCON_CMDSTART | BIT_SDICMDCON_SENDERHOST) == BIT_SDICMDCON_CMDSTART | BIT_SDICMDCON_SENDERHOST &&
      (KeepBits(w, BIT_SDICMDCON_WAITRSP) != 0 <==> KeepBits(respType, MMC_RSP_PRESENT) != 0) &&
      (KeepBits(w, BIT_SDICMDCON_CHECKCRC) != 0 <==> KeepBits(respType, MMC_RSP_CRC) != 0) &&
      (KeepBits(w, BIT_SDICMDCON_LONGRSP) != 0 <==> KeepBits(respType, MMC_RSP_136) != 0) &&
      ClearBits(w, CMD_WORD_MASK) == 0
  {
    var v := CommandBase(cmdidx);
    var c1 := KeepBits(respType, MMC_RSP_PRESENT) != 0;
    var c2 := KeepBits(respType, MMC_RSP_CRC) != 0;
    var c3 := KeepBits(respType, MMC_RSP_136) != 0;
    var v1 := SetIf(v, c1, BIT_SDICMDCON_WAITRSP);
    var v2 := SetIf(v1, c2, BIT_SDICMDCON_CHECKCRC);
    var w := SetIf(v2, c3, BIT_SDICMDCON_LONGRSP);
    assert w == CommandWord(cmdidx, respType);
    CommandBaseBits(cmdidx);
    var waitM, crcM, longM := BIT_SDICMDCON_WAITRSP, BIT_SDICMDCON_CHECKCRC, BIT_SDICMDCON_LONGRSP;
    // the fixed bits survive all three
    SetIfOther(v, c1, waitM, 0xff); SetIfOther(v1, c2, crcM, 0xff); SetIfOther(v2, c3, longM, 0xff);
    SetIfOther(v, c1, waitM, 0x140); SetIfOther(v1, c2, crcM, 0x140); SetIfOther(v2, c3, longM, 0x140);
    // each response bit is set by its own step only
    assert KeepBits(v, waitM) == 0 && KeepBits(v, crcM) == 0 && KeepBits(v, longM) == 0 by {
      assert KeepBits(v, 0x2600) == 0;
      assert v & 0x2600 == 0;
      assert v & 0x200 == (v & 0x2600) & 0x200;
      assert v & 0x2000 == (v & 0x2600) & 0x2000;
      assert v & 0x400 == (v & 0x2600) & 0x400;
    }
    SetIfBit(v, c1, waitM); SetIfOther(v1, c2, crcM, waitM); SetIfOther(v2, c3, longM, waitM);
    SetIfOther(v, c1, waitM, crcM); SetIfBit(v1, c2, crcM); SetIfOther(v2, c3, longM, crcM);
    SetIfOther(v, c1, waitM, longM); SetIfOther(v1, c2, crcM, longM); SetIfBit(v2, c3, longM);
    // nothing outside the word mask
    SetIfInside(v, c1, waitM, CMD_WORD_MASK); SetIfInside(v1, c2, crcM, CMD_WORD_MASK);
    SetIfInside(v2, c3, longM, CMD_WORD_MASK);
  }

  // ---- the FIFO codec ----

  /** Unpacking the value packed from some bytes gives back those bytes. */
  lemma {:induction false} UnpackLeValue(bs: seq<Byte>)
    ensures Unpack(LeValue(bs), |bs|) == bs
  {
    if bs != [] {
      var v := LeValue(bs);
      assert v % 256 == bs[0];
      assert v / 256 == LeValue(bs[1..]);
      UnpackLeValue(bs[1..]);
    }
  }

  lemma Pow256Four(n: nat)
    requires n <= 4
    ensures Pow256(n) <= U32
  {
    assert Pow256(0) == 1 && Pow256(1) == 256 && Pow256(2) == 65536 && Pow256(3) == 0x100_0000;
    assert Pow256(4) == U32;
  }

  /** Every word write_data sends fits the 32-bit FIFO register. */
  lemma {:induction false} FifoWordsFit(buf: seq<Byte>, sz: int)
    requires sz <= |buf|
    ensures forall k | 0 <= k < |FifoWords(buf, sz)| :: FifoWords(buf, sz)[k] < U32
    decreases if sz > 0 then sz else 0
  {
    if sz > 0 {
      var c := Chunk(sz);
      Pow256Four(|buf[..c]|);
      FifoWordsFit(buf[c..], sz - c);
    }
  }

  /** write_data puts ceil(sz / 4) words into the FIFO. */
  lemma {:induction false} FifoWordsCount(buf: seq<Byte>, sz: int)
    requires 0 < sz <= |buf|
    ensures |FifoWords(buf, sz)| == (sz + 3) / 4
    decreases sz
  {
    var c := Chunk(sz);
    if sz - c > 0 {
      FifoWordsCount(buf[c..], sz - c);
    }
  }

  /**
   * read_data reads ceil(sz / 4) words for a positive size and stores
   * exactly sz bytes; for a size that is not positive it still reads one
   * word and stores four bytes.
   */
  lemma {:induction false} FifoReadsCount(sz: int)
    ensures FifoReads(sz) == if sz > 0 then (sz + 3) / 4 else 1
    decreases if sz > 0 then sz else 0
  {
    var c := Chunk(sz);
    if sz - c > 0 {
      FifoReadsCount(sz - c);
    }
  }

  lemma {:induction false} FifoBytesCount(fifo: seq<nat>, sz: int)
    requires |fifo| >= FifoReads(sz)
    ensures |FifoBytes(fifo, sz)| == if sz > 0 then sz else 4
    decreases if sz > 0 then sz else 0
  {
    var c := Chunk(sz);
    if sz - c > 0 {
      FifoBytesCount(fifo[1..], sz - c);
    }
  }

  /**
   * Reading back the words write_data sends gives the bytes sent: the
   * FIFO codec of the two transfer directions are inverses.
   */
  lemma {:induction false} FifoRoundTrip(buf: seq<Byte>, sz: int)
    requires 0 < sz <= |buf|
    ensures |FifoWords(buf, sz)| >= FifoReads(sz)
    ensures FifoBytes(FifoWords(buf, sz), sz) == buf[..sz]
    decreases sz
  {
    FifoWordsCount(buf, sz);
    FifoReadsCount(sz);
    var c := Chunk(sz);
    FifoWordsHead(buf, sz);
    UnpackLeValue(buf[..c]);
    if sz - c > 0 {
      FifoRoundTrip(buf[c..], sz - c);
      SliceSplit(buf, c, sz);
    } else {
      assert buf[..sz] == buf[..c];
    }
  }

  /** write_data's first word packs the first chunk; the other words pack the rest. */
  lemma FifoWordsHead(buf: seq<Byte>, sz: int)
    requires 0 < sz <= |buf|
    ensures |FifoWords(buf, sz)| > 0
    ensures FifoWords(buf, sz)[0] == LeValue(buf[..Chunk(sz)])
    ensures FifoWords(buf, sz)[1..] == FifoWords(buf[Chunk(sz)..], sz - Chunk(sz))
  {
  }

  lemma SliceSplit(buf: seq<Byte>, c: int, sz: int)
    requires 0 <= c <= sz <= |buf|
    ensures buf[..sz] == buf[..c] + buf[c..][..sz - c]
  {
  }

  // ---- the transfers and send_cmd ----

  /** A FIFO write per word, in order; each value is stored in a u32. */
  function PushWords(io: Io, ws: seq<nat>): Io
    decreases |ws|
  {
    if ws == [] then io else PushWords(Writel(io, Trunc32(ws[0]), REG_SDIWRDAT), ws[1..])
  }

  /** Both transfers end by clearing BSIZE and DATCON. */
  function DataEnded(io: Io): Io
  {
    Writel(Writel(io, 0, REG_SDIBSIZE), 0, REG_SDIDATCON)
  }

  /** ls_mmc_write_data, without the busy waits between words. */
  function DataWritten(io: Io, src: seq<Byte>, sz: int): Io
    requires sz <= |src|
  {
    DataEnded(PushWords(io, FifoWords(src, sz)))
  }

  datatype Cmd = Cmd(cmdidx: bv32, respType: bv32, cmdarg: bv32)

  /** What send_cmd returns, hands back and leaves in the registers. */
  datatype Outcome = Outcome(ret: int, response: seq<bv32>, received: seq<Byte>, io: Io)

  /** What a command needs of its inputs: a finished wait, and a buffer or FIFO words for the data. */
  predicate SendReady(cmd: Cmd, data: Option<Data>, src: seq<Byte>, fifo: seq<nat>, status: bv32)
  {
    KeepBits(status, CMD_WAIT_MASK) != 0 &&
    (data.Some? && KeepBits(data.value.flags, MMC_DATA_WRITE) != 0 ==> TransferSize(data.value) <= |src|) &&
    (data.Some? && KeepBits(data.value.flags, MMC_DATA_WRITE) == 0 && KeepBits(data.value.flags, MMC_DATA_READ) != 0 ==>
       |fifo| >= FifoReads(TransferSize(data.value)))
  }

  /** The registers up to the command wait: interrupts cleared, data set up, argument, command. */
  function Issued(io: Io, buswidth: int, cmd: Cmd, data: Option<Data>): Io
  {
    var io1 := Writel(io, SDIINT_ALL, REG_SDIINTMSK);
    var io2 := if data.Some? then DataSetUp(io1, data.value, buswidth) else io1;
    var io3 := Writel(io2, cmd.cmdarg, REG_SDICMDARG);
    Writel(io3, CommandWord(cmd.cmdidx, cmd.respType), REG_SDICMDCON)
  }

  /** The response registers send_cmd reads: RSP0, and RSP1-3 for a long response. */
  function Responses(io: Io, cmd: Cmd): seq<bv32>
  {
    if KeepBits(cmd.respType, MMC_RSP_PRESENT) == 0 then []
    else if KeepBits(CommandWord(cmd.cmdidx, cmd.respType), BIT_SDICMDCON_LONGRSP) != 0 then
      [Readl(io, REG_SDIRSP0), Readl(io, REG_SDIRSP1), Readl(io, REG_SDIRSP2), Readl(io, REG_SDIRSP3)]
    else [Readl(io, REG_SDIRSP0)]
  }

  /**
   * ls_mmc_send_cmd: `status` is the interrupt status int_idle ends its
   * poll on; `src` is the buffer of a write, `fifo` the words the FIFO
   * yields to a read.
   */
  function Sent(io: Io, buswidth: int, cmd: Cmd, data: Option<Data>, src: seq<Byte>, fifo: seq<nat>, status: bv32): Outcome
    requires SendReady(cmd, data, src, fifo, status)
  {
    var io4 := Issued(io, buswidth, cmd, data);
    var (ret, io5) := Idled(io4, status, CMD_WAIT_MASK, BIT_SDIINT_CMDFIN);
    if ret != 0 then Outcome(ret, [], [], io5)
    else
      var resp := Responses(io5, cmd);
      if data.None? then Outcome(0, resp, [], io5)
      else if KeepBits(data.value.flags, MMC_DATA_WRITE) != 0 then
        Outcome(0, resp, [], DataWritten(io5, src, TransferSize(data.value)))
      else if KeepBits(data.value.flags, MMC_DATA_READ) != 0 then
        Outcome(0, resp, FifoBytes(fifo, TransferSize(data.value)), DataEnded(io5))
      else Outcome(0, resp, [], io5)
  }

  /** The host's private data. */
  datatype Host = Host(io: Io, refClock: nat, buswidth: int)

  /** ls_mmc_set_ios */
  function IosSet(h: Host, clock: nat): Host
  {
    var psc := Prescaler(h.refClock, clock);
    h.(io := Writel(h.io, PrescaledWord(Readl(h.io, REG_SDIPRE), psc), REG_SDIPRE))
  }

  // ---- properties of send_cmd ----

  lemma PushWordsLog(io: Io, ws: seq<nat>)
    ensures |PushWords(io, ws).writes| == |io.writes| + |ws|
    ensures PushWords(io, ws).writes[..|io.writes|] == io.writes
    ensures forall k | 0 <= k < |ws| :: PushWords(io, ws).writes[|io.writes| + k] == Store(REG_SDIWRDAT, Trunc32(ws[k]))
    decreases |ws|
  {
    if ws != [] {
      var io' := Writel(io, Trunc32(ws[0]), REG_SDIWRDAT);
      assert PushWords(io, ws) == PushWords(io', ws[1..]);
      PushWordsLog(io', ws[1..]);
      WordLogStep(io.writes, io'.writes, PushWords(io', ws[1..]).writes, ws);
    }
  }

  /** The write log of the first word, followed by the log of the others. */
  lemma WordLogStep(before: seq<Store>, mid: seq<Store>, after: seq<Store>, ws: seq<nat>)
    requires ws != [] && mid == before + [Store(REG_SDIWRDAT, Trunc32(ws[0]))]
    requires |after| == |mid| + |ws[1..]| && after[..|mid|] == mid
    requires forall k | 0 <= k < |ws[1..]| :: after[|mid| + k] == Store(REG_SDIWRDAT, Trunc32(ws[1..][k]))
    ensures |after| == |before| + |ws| && after[..|before|] == before
    ensures forall k | 0 <= k < |ws| :: after[|before| + k] == Store(REG_SDIWRDAT, Trunc32(ws[k]))
  {
    assert after[..|before|] == mid[..|before|];
    forall k | 0 <= k < |ws|
      ensures after[|before| + k] == Store(REG_SDIWRDAT, Trunc32(ws[k]))
    {
      if k == 0 {
        assert after[|before|] == mid[|before|];
      } else {
        assert ws[1..][k - 1] == ws[k];
        assert after[|mid| + (k - 1)] == Store(REG_SDIWRDAT, Trunc32(ws[1..][k - 1]));
      }
    }
  }

  /**
   * The wait decides the command: it fails exactly when CMDFIN is not set,
   * and then it returns -ETIMEDOUT or -1 before any response register is
   * read and before any data moves; the last write is the acknowledge of
   * the wait mask.
   */
  lemma SendFails(io: Io, buswidth: int, cmd: Cmd, data: Option<Data>, src: seq<Byte>, fifo: seq<nat>, status: bv32)
    requires SendReady(cmd, data, src, fifo, status)
    ensures var r := Sent(io, buswidth, cmd, data, src, fifo, status);
      (r.ret == 0 <==> KeepBits(status, BIT_SDIINT_CMDFIN) != 0) &&
      (r.ret != 0 ==>
        (r.ret == -ETIMEDOUT || r.ret == -1) && r.response == [] && r.received == [] &&
        r.io == Writel(Issued(io, buswidth, cmd, data), CMD_WAIT_MASK, REG_SDIINTMSK))
  {
    CommandIdle(status);
  }

  /**
   * The command's writes, in order: all interrupts cleared, BSIZE and
   * DATCON when there is data, the argument, the command word, the
   * acknowledge of the wait mask.
   */
  lemma IssuedLog(io: Io, buswidth: int, cmd: Cmd, data: Option<Data>)
    ensures var w := CommandWord(cmd.cmdidx, cmd.respType);
      Writel(Issued(io, buswidth, cmd, data), CMD_WAIT_MASK, REG_SDIINTMSK).writes ==
        io.writes + [Store(REG_SDIINTMSK, SDIINT_ALL)] +
        (if data.Some? then [Store(REG_SDIBSIZE, BlockSizeWord(data.value)),
                             Store(REG_SDIDATCON, DataControlWord(data.value, buswidth))] else []) +
        [Store(REG_SDICMDARG, cmd.cmdarg), Store(REG_SDICMDCON, w), Store(REG_SDIINTMSK, CMD_WAIT_MASK)]
  {
  }

  /**
   * A successful command hands back no response, one word from RSP0, or
   * RSP0-RSP3 for a 136-bit response, as the registers held them.
   */
  lemma SendResponses(io: Io, buswidth: int, cmd: Cmd, data: Option<Data>, src: seq<Byte>, fifo: seq<nat>, status: bv32)
    requires SendReady(cmd, data, src, fifo, status)
    requires KeepBits(status, BIT_SDIINT_CMDFIN) != 0
    ensures var r := Sent(io, buswidth, cmd, data, src, fifo, status);
      |r.response| == (if KeepBits(cmd.respType, MMC_RSP_PRESENT) == 0 then 0
                       else if KeepBits(cmd.respType, MMC_RSP_136) != 0 then 4 else 1) &&
      (|r.response| > 0 ==> r.response[0] == Readl(io, REG_SDIRSP0)) &&
      (|r.response| == 4 ==> r.response[1..] == [Readl(io, REG_SDIRSP1), Readl(io, REG_SDIRSP2), Readl(io, REG_SDIRSP3)])
  {
    CommandWordBits(cmd.cmdidx, cmd.respType);
  }

  /**
   * A successful write command sends the buffer as ceil(sz / 4)
   * little-endian words through SDIWRDAT, then clears BSIZE and DATCON.
   */
  lemma SendWrites(io: Io, buswidth: int, cmd: Cmd, d: Data, src: seq<Byte>, fifo: seq<nat>, status: bv32)
    requires SendReady(cmd, Some(d), src, fifo, status)
    requires KeepBits(status, BIT_SDIINT_CMDFIN) != 0 && KeepBits(d.flags, MMC_DATA_WRITE) != 0
    ensures var r := Sent(io, buswidth, cmd, Some(d), src, fifo, status);
      var io5 := Writel(Issued(io, buswidth, cmd, Some(d)), CMD_WAIT_MASK, REG_SDIINTMSK);
      var ws := FifoWords(src, TransferSize(d));
      r.ret == 0 && r.received == [] &&
      r.io == DataEnded(PushWords(io5, ws)) &&
      (TransferSize(d) > 0 ==> |ws| == (TransferSize(d) + 3) / 4) &&
      (TransferSize(d) <= 0 ==> ws == [])
  {
    CommandIdle(status);
    if TransferSize(d) > 0 {
      FifoWordsCount(src, TransferSize(d));
    }
  }

  /** A successful read command stores the bytes the FIFO words carry, then clears BSIZE and DATCON. */
  lemma SendReads(io: Io, buswidth: int, cmd: Cmd, d: Data, src: seq<Byte>, fifo: seq<nat>, status: bv32)
    requires SendReady(cmd, Some(d), src, fifo, status)
    requires KeepBits(status, BIT_SDIINT_CMDFIN) != 0
    requires KeepBits(d.flags, MMC_DATA_WRITE) == 0 && KeepBits(d.flags, MMC_DATA_READ) != 0
    ensures var r := Sent(io, buswidth, cmd, Some(d), src, fifo, status);
      r.ret == 0 && r.received == FifoBytes(fifo, TransferSize(d)) &&
      r.io == DataEnded(Writel(Issued(io, buswidth, cmd, Some(d)), CMD_WAIT_MASK, REG_SDIINTMSK)) &&
      |r.received| == (if TransferSize(d) > 0 then TransferSize(d) else 4)
  {
    CommandIdle(status);
    FifoBytesCount(fifo, TransferSize(d));
  }

  /** What read_data still has to store at word k with sz bytes to go. */
  function Pending(fifo: seq<nat>, k: nat, sz: int): seq<Byte>
    requires k <= |fifo| && (k == 0 || sz > 0 ==> |fifo[k..]| >= FifoReads(sz))
  {
    if k == 0 || sz > 0 then FifoBytes(fifo[k..], sz) else []
  }

  /** One pass of read_data's loop stores one word's bytes. */
  lemma ReadStep(fifo: seq<nat>, k: nat, sz: int)
    requires k <= |fifo| && (k == 0 || sz > 0) && |fifo[k..]| >= FifoReads(sz)
    ensures k < |fifo|
    ensures sz - Chunk(sz) > 0 ==> |fifo[k + 1..]| >= FifoReads(sz - Chunk(sz))
    ensures Pending(fifo, k, sz) == Unpack(fifo[k], Chunk(sz)) + Pending(fifo, k + 1, sz - Chunk(sz))
  {
    assert fifo[k..][0] == fifo[k];
    assert fifo[k..][1..] == fifo[k + 1..];
  }

  /**
   * The invariant of write_data's loop at byte pos with sz bytes to go:
   * the words pushed so far followed by those still to push are the
   * words of the transfer.
   */
  predicate WriteSoFar(src: seq<Byte>, total: int, pos: int, sz: int, pushed: seq<nat>)
  {
    total <= |src| && 0 <= pos <= |src| && sz <= |src| - pos &&
    pushed + FifoWords(src[pos..], sz) == FifoWords(src, total)
  }

  lemma WriteAdvance(src: seq<Byte>, total: int, pos: int, sz: int, pushed: seq<nat>)
    requires WriteSoFar(src, total, pos, sz, pushed) && sz > 0
    ensures pos + Chunk(sz) <= |src|
    ensures WriteSoFar(src, total, pos + Chunk(sz), sz - Chunk(sz), pushed + [LeValue(src[pos..pos + Chunk(sz)])])
  {
    FifoStep(src, pos, sz, pos + Chunk(sz), sz - Chunk(sz));
    SeqAssoc(pushed, [LeValue(src[pos..pos + Chunk(sz)])], FifoWords(src[pos + Chunk(sz)..], sz - Chunk(sz)));
  }

  lemma WriteDone(src: seq<Byte>, total: int, pos: int, sz: int, pushed: seq<nat>)
    requires WriteSoFar(src, total, pos, sz, pushed) && sz <= 0
    ensures pushed == FifoWords(src, total)
  {
    assert FifoWords(src[pos..], sz) == [];
  }

  /** Pushing one more word after a list writes it after the list's words. */
  lemma {:induction false} PushSnoc(io: Io, ws: seq<nat>, w: nat)
    ensures PushWords(io, ws + [w]) == Writel(PushWords(io, ws), Trunc32(w), REG_SDIWRDAT)
    decreases |ws|
  {
    if ws != [] {
      var io' := Writel(io, Trunc32(ws[0]), REG_SDIWRDAT);
      assert (ws + [w])[0] == ws[0] && (ws + [w])[1..] == ws[1..] + [w];
      PushSnoc(io', ws[1..], w);
    } else {
      assert ([] + [w])[1..] == [];
    }
  }

  /** The words of the bytes from pos on: the next chunk's word, then the words after it. */
  lemma FifoStep(src: seq<Byte>, pos: int, sz: int, pos': int, sz': int)
    requires 0 <= pos && 0 < sz <= |src| - pos
    requires pos' == pos + Chunk(sz) && sz' == sz - Chunk(sz)
    ensures pos' <= |src|
    ensures FifoWords(src[pos..], sz) == [LeValue(src[pos..pos'])] + FifoWords(src[pos'..], sz')
  {
    var c := Chunk(sz);
    assert src[pos..][..c] == src[pos..pos'] && src[pos..][c..] == src[pos'..];
  }

  /**
   * The invariant of read_data's loop after k reads with sz bytes to go:
   * the bytes stored so far followed by those still pending are the transfer.
   */
  predicate ReadSoFar(fifo: seq<nat>, total: int, k: nat, sz: int, received: seq<Byte>)
  {
    k <= |fifo| && |fifo| >= FifoReads(total) &&
    (k == 0 ==> sz == total && received == []) &&
    (k == 0 || sz > 0 ==> |fifo[k..]| >= FifoReads(sz)) &&
    received + Pending(fifo, k, sz) == FifoBytes(fifo, total)
  }

  lemma ReadAdvance(fifo: seq<nat>, total: int, k: nat, sz: int, received: seq<Byte>)
    requires ReadSoFar(fifo, total, k, sz, received) && (k == 0 || sz > 0)
    ensures k < |fifo|
    ensures ReadSoFar(fifo, total, k + 1, sz - Chunk(sz), received + Unpack(fifo[k], Chunk(sz)))
  {
    ReadStep(fifo, k, sz);
    var piece := Unpack(fifo[k], Chunk(sz));
    var later := Pending(fifo, k + 1, sz - Chunk(sz));
    SeqAssoc(received, piece, later);
  }

  lemma SeqAssoc<T>(a: seq<T>, b: seq<T>, c: seq<T>)
    ensures a + (b + c) == (a + b) + c
  {
  }

  lemma ReadDone(fifo: seq<nat>, total: int, k: nat, sz: int, received: seq<Byte>)
    requires ReadSoFar(fifo, total, k, sz, received) && k != 0 && sz <= 0
    ensures received == FifoBytes(fifo, total)
  {
    assert received + [] == received;
  }

  // ---- the driver ----

  class LsMmc {
    var io: Io
    var refClock: nat
    var buswidth: int

    function Snapshot(): Host
      reads this
    {
      Host(io, refClock, buswidth)
    }

    /** drv_ls_mmc_of_to_plat fixes the reference clock at 200 MHz. */
    constructor(window: Io)
      ensures Snapshot() == Host(window, REF_CLOCK, 0)
    {
      io := window;
      refClock := REF_CLOCK;
      buswidth := 0;
    }

    /** ls_mmc_set_ios */
    method SetIos(clock: nat) returns (ret: int)
      modifies this
      ensures ret == 0 && Snapshot() == IosSet(old(Snapshot()), clock)
    {
      var val := Readl(io, REG_SDIPRE);
      var psc := 1;
      while psc < 255
        invariant 1 <= psc <= 255
        invariant PrescalerFrom(refClock, clock, psc) == Prescaler(refClock, clock)
        decreases 255 - psc
      {
        if refClock / psc <= clock {
          break;
        }
        psc := psc + 1;
      }
      val := PrescaledWord(val, psc);
      io := Writel(io, val, REG_SDIPRE);
      return 0;
    }

    /** ls_mmc_int_idle once its poll has seen `status`, which has a bit of `mask`. */
    method IntIdle(mask: bv32, correct: bv32, status: bv32) returns (ret: int)
      requires KeepBits(status, mask) != 0
      modifies this
      ensures (ret, Snapshot()) == (Idled(old(io), status, mask, correct).0, old(Snapshot()).(io := Idled(old(io), status, mask, correct).1))
    {
      io := Writel(io, mask, REG_SDIINTMSK);
      if KeepBits(status, correct) != 0 {
        return 0;
      }
      if KeepBits(status, BIT_SDIINT_CMDTIMEOUT) != 0 || KeepBits(status, BIT_SDIINT_DATATIMEOUT) != 0 {
        return -ETIMEDOUT;
      }
      return -1;
    }

    /** ls_mmc_setup_data */
    method SetupData(d: Data) returns (ret: int)
      modifies this
      ensures ret == 0 && Snapshot() == old(Snapshot()).(io := DataSetUp(old(io), d, buswidth))
    {
      io := Writel(io, BlockSizeWord(d), REG_SDIBSIZE);
      var val := KeepBits(d.blocks, MASK_SDIDATCON_BNUM);
      if buswidth == 4 {
        val := SetBits(val, BIT_SDIDATCON_WIDEMD);
      }
      val := SetBits(val, BIT_SDIDATCON_DSTART);
      io := Writel(io, val, REG_SDIDATCON);
      return 0;
    }

    /** ls_mmc_write_data: `src` is the buffer; the busy wait after each word is left out. */
    method WriteData(d: Data, src: seq<Byte>) returns (ret: int)
      requires TransferSize(d) <= |src|
      modifies this
      ensures ret == 0 && Snapshot() == old(Snapshot()).(io := DataWritten(old(io), src, TransferSize(d)))
    {
      var sz := TransferSize(d);
      var pos := 0;
      ghost var pushed: seq<nat> := [];
      while sz > 0
        invariant WriteSoFar(src, TransferSize(d), pos, sz, pushed)
        invariant io == PushWords(old(io), pushed)
        invariant refClock == old(refClock) && buswidth == old(buswidth)
        decreases sz
      {
        var c := Chunk(sz);
        WriteAdvance(src, TransferSize(d), pos, sz, pushed);
        PushSnoc(old(io), pushed, LeValue(src[pos..pos + c]));
        var val := Trunc32(LeValue(src[pos..pos + c]));
        io := Writel(io, val, REG_SDIWRDAT);
        pushed := pushed + [LeValue(src[pos..pos + c])];
        pos := pos + c;
        sz := sz - c;
      }
      WriteDone(src, TransferSize(d), pos, sz, pushed);
      io := Writel(io, 0, REG_SDIBSIZE);
      io := Writel(io, 0, REG_SDIDATCON);
      return 0;
    }

    /**
     * ls_mmc_read_data: `fifo` holds the successive values read from
     * SDIWRDAT; the FIFO-full and busy polls are left out.
     */
    method ReadData(d: Data, fifo: seq<nat>) returns (ret: int, received: seq<Byte>)
      requires |fifo| >= FifoReads(TransferSize(d))
      modifies this
      ensures ret == 0 && received == FifoBytes(fifo, TransferSize(d))
      ensures Snapshot() == old(Snapshot()).(io := DataEnded(old(io)))
    {
      var sz := TransferSize(d);
      var k := 0;
      received := [];
      while k == 0 || sz > 0
        invariant ReadSoFar(fifo, TransferSize(d), k, sz, received)
        invariant Snapshot() == old(Snapshot())
        decreases (if sz > 0 then sz else 0) + (if k == 0 then 1 else 0)
      {
        var c := Chunk(sz);
        ReadAdvance(fifo, TransferSize(d), k, sz, received);
        received := received + Unpack(fifo[k], c);
        k := k + 1;
        sz := sz - c;
      }
      ReadDone(fifo, TransferSize(d), k, sz, received);
      io := Writel(io, 0, REG_SDIBSIZE);
      io := Writel(io, 0, REG_SDIDATCON);
      return 0, received;
    }

    /**
     * dm_ls_mmc_send_cmd, which records the bus width, and ls_mmc_send_cmd.
     * `status` is the interrupt status the command wait ends on.
     */
    method SendCmd(busWidth: int, cmd: Cmd, data: Option<Data>, src: seq<Byte>, fifo: seq<nat>, status: bv32)
      returns (ret: int, response: seq<bv32>, received: seq<Byte>)
      requires SendReady(cmd, data, src, fifo, status)
      modifies this
      ensures Outcome(ret, response, received, io) == Sent(old(io), busWidth, cmd, data, src, fifo, status)
      ensures refClock == old(refClock) && buswidth == busWidth
    {
      buswidth := busWidth;
      response, received := [], [];
      io := Writel(io, SDIINT_ALL, REG_SDIINTMSK);
      if data.Some? {
        var _ := SetupData(data.value);
      }
      io := Writel(io, cmd.cmdarg, REG_SDICMDARG);
      var val := CommandWord(cmd.cmdidx, cmd.respType);
      io := Writel(io, val, REG_SDICMDCON);
      assert io == Issued(old(io), busWidth, cmd, data);
      ret := IntIdle(CMD_WAIT_MASK, BIT_SDIINT_CMDFIN, status);
      ghost var io5 := io;
      assert (ret, io5) == Idled(Issued(old(io), busWidth, cmd, data), status, CMD_WAIT_MASK, BIT_SDIINT_CMDFIN);
      if ret != 0 {
        return;
      }
      if KeepBits(cmd.respType, MMC_RSP_PRESENT) != 0 {
        if KeepBits(val, BIT_SDICMDCON_LONGRSP) != 0 {
          response := [Readl(io, REG_SDIRSP0), Readl(io, REG_SDIRSP1), Readl(io, REG_SDIRSP2), Readl(io, REG_SDIRSP3)];
        } else {
          response := [Readl(io, REG_SDIRSP0)];
        }
      }
      assert response == Responses(io5, cmd);
      if data.Some? {
        if KeepBits(data.value.flags, MMC_DATA_WRITE) != 0 {
          ret := WriteData(data.value, src);
        } else if KeepBits(data.value.flags, MMC_DATA_READ) != 0 {
          ret, received := ReadData(data.value, fifo);
        }
        if ret != 0 {
          return;
        }
      }
      return 0, response, received;
    }
  }
}
