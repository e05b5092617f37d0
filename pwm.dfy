// The LS2K PWM controller (drivers/pwm/pwm-ls2k.c): a counter whose low
// and full buffers set duty and period in clock ticks, and a control
// register with enable, reset and invert bits. The driver keeps the last
// configured low and full values in its private data for enable.

module Pwm {
  import opened Mmio

  const LOW_BUFFER := 0x4
  const FULL_BUFFER := 0x8
  const CTRL := 0xc

  const CTRL_EN: bv32 := 0x1
  const CTRL_RST: bv32 := 0x80
  const CTRL_INVERT: bv32 := 0x200

  const NS_IN_HZ := 1_000_000_000
  const FULL_AT_DISABLE: bv32 := 10000

  const EINVAL := 22
  const ERANGE := 34

  const U64 := 0x1_0000_0000_0000_0000

  /** The driver's private data: registers, clock rate and the cached buffers. */
  datatype Chip = Chip(io: Io, clockFrequency: bv32, lowBufferReg: bv32, fullBufferReg: bv32)

  /** A period or duty in nanoseconds as clock ticks: floor(clk * ns / 10^9), at least 1. */
  function Ticks(clk: bv32, ns: int): int
    requires ns >= 0
  {
    var v := (clk as int * ns) / NS_IN_HZ;
    if v < 1 then 1 else v
  }

  /** ls2k_pwm_set_config. */
  function Configured(c: Chip, periodNs: int, dutyNs: int): (int, Chip)
    requires 0 <= periodNs < U32 && 0 <= dutyNs < U32
  {
    if periodNs > NS_IN_HZ || dutyNs > NS_IN_HZ then (-ERANGE, c)
    else
      var period := Trunc32(Ticks(c.clockFrequency, periodNs));
      var duty := Trunc32(Ticks(c.clockFrequency, dutyNs));
      (0, c.(io := Writel(Writel(c.io, duty, LOW_BUFFER), period, FULL_BUFFER),
             lowBufferReg := duty, fullBufferReg := period))
  }

  /** ls_pwm_disable. */
  function Disabled(c: Chip): Chip
  {
    var io1 := Writel(c.io, 1, LOW_BUFFER);
    var io2 := if c.fullBufferReg == 0 then Writel(io1, FULL_AT_DISABLE, FULL_BUFFER) else io1;
    var r := SetBits(Readl(io2, CTRL), CTRL_RST);
    var io3 := Writel(io2, r, CTRL);
    var io4 := Writel(io3, ClearBits(r, CTRL_RST), CTRL);
    c.(io := Writel(io4, ClearBits(Readl(io4, CTRL), CTRL_EN), CTRL))
  }

  /** ls_pwm_enable. */
  function Enabled(c: Chip): Chip
  {
    var io1 := Writel(Writel(c.io, c.lowBufferReg, LOW_BUFFER), c.fullBufferReg, FULL_BUFFER);
    c.(io := Writel(io1, SetBits(Readl(io1, CTRL), CTRL_EN), CTRL))
  }

  /** ls2k_pwm_set_enable. */
  function EnableSet(c: Chip, enable: bool): Chip
  {
    if enable then Enabled(c) else Disabled(c)
  }

  /** ls2k_pwm_set_invert: the control word passes through a 16-bit variable. */
  function Inverted(c: Chip, polarity: bool): Chip
  {
    var val := KeepBits(Readl(c.io, CTRL), 0xffff);
    var val' := if polarity then SetBits(val, CTRL_INVERT) else KeepBits(ClearBits(val, CTRL_INVERT), 0xffff);
    c.(io := Writel(c.io, val', CTRL))
  }

  /**
   * ls2k_pwm_probe: a missing register window is -EINVAL; a failing clock
   * lookup or enable passes its code on; otherwise the rate is stored in a
   * 32-bit field.
   */
  function Probed(c: Chip, hasBase: bool, getRet: int, enableRet: int, rate: int): (int, Chip)
    requires 0 <= rate < U64
  {
    if !hasBase then (-EINVAL, c)
    else if getRet != 0 then (getRet, c)
    else if enableRet != 0 then (enableRet, c)
    else (0, c.(clockFrequency := Trunc32(rate)))
  }

  // ---- properties ----

  lemma MulMono(a: int, b: int, c: int)
    requires 0 <= a && 0 <= b <= c
    ensures a * b <= a * c
  {
  }

  /** floor(k * n / d) <= k when n <= d. */
  lemma ScaleBound(k: int, n: int, d: int)
    requires 0 <= k && 0 <= n <= d && 0 < d
    ensures (k * n) / d <= k
  {
    MulMono(k, n, d);
    var q := (k * n) / d;
    assert q * d <= k * n <= k * d;
    assert (q - k) * d <= 0;
  }

  /**
   * For a time of at most one second the tick count is between 1 and
   * max(1, clk), so it fits the 32-bit period and duty variables, and the
   * 64-bit product clk * ns never wraps.
   */
  lemma TicksFit(clk: bv32, ns: int)
    requires 0 <= ns <= NS_IN_HZ
    ensures clk as int * ns < U64
    ensures 1 <= Ticks(clk, ns) <= (if clk == 0 then 1 else clk as int)
  {
    var k := clk as int;
    MulMono(k, ns, NS_IN_HZ);
    MulMono(NS_IN_HZ, k, U32 - 1);
    assert k * NS_IN_HZ <= (U32 - 1) * NS_IN_HZ < U64;
    ScaleBound(k, ns, NS_IN_HZ);
  }

  /** Out of range: -ERANGE, and neither registers nor the cache change. */
  lemma ConfigRange(c: Chip, periodNs: int, dutyNs: int)
    requires 0 <= periodNs < U32 && 0 <= dutyNs < U32
    ensures Configured(c, periodNs, dutyNs).0 == -ERANGE <==> (periodNs > NS_IN_HZ || dutyNs > NS_IN_HZ)
    ensures periodNs > NS_IN_HZ || dutyNs > NS_IN_HZ ==> Configured(c, periodNs, dutyNs).1 == c
  {
  }

  /**
   * In range: 0; duty goes to LOW_BUFFER and then period to FULL_BUFFER,
   * both as exact tick counts, and the cache holds the same two values.
   */
  lemma ConfigWrites(c: Chip, periodNs: int, dutyNs: int)
    requires 0 <= periodNs <= NS_IN_HZ && 0 <= dutyNs <= NS_IN_HZ
    ensures Ticks(c.clockFrequency, dutyNs) < U32 && Ticks(c.clockFrequency, periodNs) < U32
    ensures var (ret, r) := Configured(c, periodNs, dutyNs);
      ret == 0 &&
      r.lowBufferReg == Ticks(c.clockFrequency, dutyNs) as bv32 &&
      r.fullBufferReg == Ticks(c.clockFrequency, periodNs) as bv32 &&
      r.io.writes == c.io.writes + [Store(LOW_BUFFER, r.lowBufferReg), Store(FULL_BUFFER, r.fullBufferReg)] &&
      Readl(r.io, CTRL) == Readl(c.io, CTRL) && r.clockFrequency == c.clockFrequency
  {
    TicksFit(c.clockFrequency, periodNs);
    TicksFit(c.clockFrequency, dutyNs);
  }

  /**
   * disable writes LOW = 1, FULL = 10000 only when no period is cached,
   * then pulses RST (set, then clear) and finally clears EN.
   */
  lemma DisableWrites(c: Chip)
    ensures var r := Disabled(c); var c0 := Readl(c.io, CTRL);
      r.io.writes == c.io.writes + [Store(LOW_BUFFER, 1)] +
        (if c.fullBufferReg == 0 then [Store(FULL_BUFFER, FULL_AT_DISABLE)] else []) +
        [Store(CTRL, SetBits(c0, CTRL_RST)), Store(CTRL, ClearBits(SetBits(c0, CTRL_RST), CTRL_RST)),
         Store(CTRL, Readl(r.io, CTRL))]
  {
    var io1 := Writel(c.io, 1, LOW_BUFFER);
    var io2 := if c.fullBufferReg == 0 then Writel(io1, FULL_AT_DISABLE, FULL_BUFFER) else io1;
    assert Readl(io2, CTRL) == Readl(c.io, CTRL);
  }

  /**
   * After disable the control register has RST and EN clear and every
   * other bit as before, LOW holds 1, FULL holds 10000 if no period was
   * cached, and the cache is untouched.
   */
  lemma DisableEffect(c: Chip)
    ensures var r := Disabled(c); var c0 := Readl(c.io, CTRL);
      Readl(r.io, CTRL) == c0 & !(CTRL_RST | CTRL_EN) &&
      Readl(r.io, LOW_BUFFER) == 1 &&
      Readl(r.io, FULL_BUFFER) == (if c.fullBufferReg == 0 then FULL_AT_DISABLE else Readl(c.io, FULL_BUFFER)) &&
      r.lowBufferReg == c.lowBufferReg && r.fullBufferReg == c.fullBufferReg && r.clockFrequency == c.clockFrequency
  {
    var io1 := Writel(c.io, 1, LOW_BUFFER);
    var io2 := if c.fullBufferReg == 0 then Writel(io1, FULL_AT_DISABLE, FULL_BUFFER) else io1;
    assert Readl(io2, CTRL) == Readl(c.io, CTRL);
  }

  /**
   * enable restores the cached low and full values and sets EN, keeping
   * the other control bits; the cache is untouched.
   */
  lemma EnableWrites(c: Chip)
    ensures var r := Enabled(c); var c0 := Readl(c.io, CTRL);
      r.io.writes == c.io.writes + [Store(LOW_BUFFER, c.lowBufferReg), Store(FULL_BUFFER, c.fullBufferReg),
        Store(CTRL, SetBits(c0, CTRL_EN))] &&
      Readl(r.io, CTRL) == c0 | CTRL_EN &&
      Readl(r.io, LOW_BUFFER) == c.lowBufferReg && Readl(r.io, FULL_BUFFER) == c.fullBufferReg &&
      r.lowBufferReg == c.lowBufferReg && r.fullBufferReg == c.fullBufferReg
  {
  }

  /**
   * Configure, disable, enable: the counter runs again with the configured
   * duty and period, since disable does not touch the cache.
   */
  lemma EnableAfterDisable(c: Chip, periodNs: int, dutyNs: int)
    requires 0 <= periodNs <= NS_IN_HZ && 0 <= dutyNs <= NS_IN_HZ
    ensures Ticks(c.clockFrequency, dutyNs) < U32 && Ticks(c.clockFrequency, periodNs) < U32
    ensures var r := Enabled(Disabled(Configured(c, periodNs, dutyNs).1));
      Readl(r.io, LOW_BUFFER) == Ticks(c.clockFrequency, dutyNs) as bv32 &&
      Readl(r.io, FULL_BUFFER) == Ticks(c.clockFrequency, periodNs) as bv32 &&
      Readl(r.io, CTRL) & CTRL_EN == CTRL_EN && Readl(r.io, CTRL) & CTRL_RST == 0
  {
    var c1 := Configured(c, periodNs, dutyNs).1;
    ConfigWrites(c, periodNs, dutyNs);
    DisableEffect(c1);
    EnableWrites(Disabled(c1));
    var d := Readl(Disabled(c1).io, CTRL);
    assert d & CTRL_RST == 0;
    assert (d | CTRL_EN) & CTRL_RST == 0;
  }

  /**
   * set_invert: of bits 0-15 only bit 9 can change, and it ends equal to
   * the polarity; bits 16 and above are written as 0.
   */
  lemma InvertBits(c: Chip, polarity: bool)
    ensures var r := Inverted(c, polarity); var w := Readl(r.io, CTRL);
      w & 0xffff_0000 == 0 &&
      (w & CTRL_INVERT != 0 <==> polarity) &&
      w & 0xfdff == Readl(c.io, CTRL) & 0xfdff &&
      r.io.writes == c.io.writes + [Store(CTRL, w)] &&
      r.lowBufferReg == c.lowBufferReg && r.fullBufferReg == c.fullBufferReg
  {
  }

  /** A control register with bit 16 or above set loses it on set_invert. */
  lemma InvertDropsHighBits(c: Chip, polarity: bool)
    requires Readl(c.io, CTRL) == 0x1_0001
    ensures Readl(Inverted(c, polarity).io, CTRL) == (if polarity then 0x201 else 0x1)
  {
  }

  /** probe: the error cases leave the chip as it was; success stores the rate. */
  lemma ProbeCases(c: Chip, hasBase: bool, getRet: int, enableRet: int, rate: int)
    requires 0 <= rate < U64
    ensures var (ret, r) := Probed(c, hasBase, getRet, enableRet, rate);
      (ret == 0 <==> hasBase && getRet == 0 && enableRet == 0) &&
      (ret != 0 ==> r == c) &&
      (ret == 0 ==> r.io == c.io && r.clockFrequency == (rate % U32) as bv32) &&
      (!hasBase ==> ret == -EINVAL)
  {
  }

  // ---- the driver ----

  class PwmChip {
    var io: Io
    var clockFrequency: bv32
    var lowBufferReg: bv32
    var fullBufferReg: bv32

    function Snapshot(): Chip
      reads this
    {
      Chip(io, clockFrequency, lowBufferReg, fullBufferReg)
    }

    /** The private data starts zeroed. */
    constructor(window: Io)
      ensures Snapshot() == Chip(window, 0, 0, 0)
    {
      io := window;
      clockFrequency := 0;
      lowBufferReg := 0;
      fullBufferReg := 0;
    }

    method Probe(hasBase: bool, getRet: int, enableRet: int, rate: int) returns (ret: int)
      requires 0 <= rate < U64
      modifies this
      ensures (ret, Snapshot()) == Probed(old(Snapshot()), hasBase, getRet, enableRet, rate)
    {
      if !hasBase {
        return -EINVAL;
      }
      if getRet != 0 {
        return getRet;
      }
      if enableRet != 0 {
        return enableRet;
      }
      clockFrequency := Trunc32(rate);
      return 0;
    }

    method SetConfig(periodNs: int, dutyNs: int) returns (ret: int)
      requires 0 <= periodNs < U32 && 0 <= dutyNs < U32
      modifies this
      ensures (ret, Snapshot()) == Configured(old(Snapshot()), periodNs, dutyNs)
    {
      if periodNs > NS_IN_HZ || dutyNs > NS_IN_HZ {
        return -ERANGE;
      }
      var val0 := (clockFrequency as int * periodNs) / NS_IN_HZ;
      if val0 < 1 {
        val0 := 1;
      }
      var period := Trunc32(val0);
      var val1 := (clockFrequency as int * dutyNs) / NS_IN_HZ;
      if val1 < 1 {
        val1 := 1;
      }
      var duty := Trunc32(val1);
      io := Writel(io, duty, LOW_BUFFER);
      io := Writel(io, period, FULL_BUFFER);
      lowBufferReg := duty;
      fullBufferReg := period;
      return 0;
    }

    method Disable() returns (ret: int)
      modifies this
      ensures ret == 0 && Snapshot() == Disabled(old(Snapshot()))
    {
      io := Writel(io, 1, LOW_BUFFER);
      if fullBufferReg == 0 {
        io := Writel(io, FULL_AT_DISABLE, FULL_BUFFER);
      }
      var r := Readl(io, CTRL);
      r := SetBits(r, CTRL_RST);
      io := Writel(io, r, CTRL);
      r := ClearBits(r, CTRL_RST);
      io := Writel(io, r, CTRL);
      r := Readl(io, CTRL);
      r := ClearBits(r, CTRL_EN);
      io := Writel(io, r, CTRL);
      return 0;
    }

    method Enable() returns (ret: int)
      modifies this
      ensures ret == 0 && Snapshot() == Enabled(old(Snapshot()))
    {
      io := Writel(io, lowBufferReg, LOW_BUFFER);
      io := Writel(io, fullBufferReg, FULL_BUFFER);
      var r := Readl(io, CTRL);
      r := SetBits(r, CTRL_EN);
      io := Writel(io, r, CTRL);
      return 0;
    }

    method SetEnable(enable: bool) returns (ret: int)
      modifies this
      ensures ret == 0 && Snapshot() == EnableSet(old(Snapshot()), enable)
    {
      if enable {
        ret := Enable();
      } else {
        ret := Disable();
      }
    }

    method SetInvert(polarity: bool) returns (ret: int)
      modifies this
      ensures ret == 0 && Snapshot() == Inverted(old(Snapshot()), polarity)
    {
      var val := KeepBits(Readl(io, CTRL), 0xffff);
      if polarity {
        val := SetBits(val, CTRL_INVERT);
      } else {
        val := KeepBits(ClearBits(val, CTRL_INVERT), 0xffff);
      }
      io := Writel(io, val, CTRL);
      return 0;
    }
  }
}
