// The LS2X watchdog (drivers/watchdog/ls2x_wdt.c): a RESET register whose
// bit 1 enables the counter, a SET register that restarts it when written
// 1, and a TIMER register holding the timeout in clock ticks.

module Wdt {
  import opened Mmio

  const RESET_REG := 0x0
  const SET_REG := 0x4
  const TIMER_REG := 0x8

  const ENABLE: bv32 := 0x2
  const RESTART: bv32 := 0x1

  const MAX_COUNT := 0xffff_ffff
  const EINVAL := 22
  const U64 := 0x1_0000_0000_0000_0000

  /** The driver's private data: the registers and the clock rate. */
  datatype Dev = Dev(io: Io, clkRate: nat)

  /** ls2x_wdt_ping. */
  function Pinged(d: Dev): Dev
  {
    d.(io := Writel(d.io, RESTART, SET_REG))
  }

  /** ls2x_wdt_stop: ping, then `|= ENABLE` and `^= ENABLE` on RESET_REG. */
  function Stopped(d: Dev): Dev
  {
    var p := Pinged(d);
    var t := FlipBits(SetBits(Readl(p.io, RESET_REG), ENABLE), ENABLE);
    p.(io := Writel(p.io, t, RESET_REG))
  }

  /** The longest timeout in ms the 32-bit counter can hold at this rate. */
  function MaxMs(clk: int): int
    requires clk > 0
  {
    (MAX_COUNT / clk) * 1000
  }

  /** min(ms, MaxMs) * (clk / 1000), in 64-bit arithmetic. */
  function TimerTicks(clk: int, ms: int): (r: int)
    requires clk > 0 && ms >= 0
    ensures r >= 0
  {
    var realMs := if MaxMs(clk) <= ms then MaxMs(clk) else ms;
    MulNonNegative(realMs, clk / 1000);
    realMs * (clk / 1000)
  }

  lemma MulNonNegative(a: nat, b: nat)
    ensures a * b >= 0
  {
  }

  /**
   * ls2x_wdt_start: a zero timeout does nothing; otherwise stop, load the
   * timer, set the enable bit, ping. The rate is a divisor, so a nonzero
   * timeout needs a nonzero rate.
   */
  function Started(d: Dev, ms: int): Dev
    requires 0 <= ms < U64
    requires ms != 0 ==> d.clkRate != 0
  {
    if ms == 0 then d
    else
      var s := Stopped(d);
      var value := Trunc32(TimerTicks(d.clkRate, ms));
      var io1 := Writel(s.io, value, TIMER_REG);
      var t := SetBits(Readl(io1, RESET_REG), ENABLE);
      Pinged(s.(io := Writel(io1, t, RESET_REG)))
  }

  /** ls2x_wdt_reset: only a ping. */
  function Restarted(d: Dev): Dev
  {
    Pinged(d)
  }

  /**
   * ls2x_wdt_probe: a missing register window is -EINVAL; clock errors are
   * passed on; otherwise the rate is stored in 32 bits and the watchdog
   * is stopped.
   */
  function Probed(d: Dev, hasBase: bool, getRet: int, enableRet: int, rate: int): (int, Dev)
    requires 0 <= rate < U64
  {
    if !hasBase then (-EINVAL, d)
    else if getRet != 0 then (getRet, d)
    else if enableRet != 0 then (enableRet, d)
    else (0, Stopped(d.(clkRate := rate % U32)))
  }

  // ---- properties ----

  lemma MulMono(a: int, b: int, c: int)
    requires 0 <= a && 0 <= b <= c
    ensures a * b <= a * c
  {
  }

  /** q * 1000 * (clk / 1000) <= q * clk <= MAX_COUNT for q = MAX_COUNT / clk. */
  lemma ProductBound(clk: int, realMs: int)
    requires clk > 0 && 0 <= realMs <= MaxMs(clk)
    ensures realMs * (clk / 1000) <= MAX_COUNT
  {
    var q := MAX_COUNT / clk;
    var c := clk / 1000;
    assert 1000 * c <= clk;
    MulMono(c, realMs, q * 1000);
    assert realMs * c <= q * 1000 * c;
    MulMono(q, 1000 * c, clk);
    assert q * (1000 * c) <= q * clk;
    assert q * clk <= MAX_COUNT;
  }

  /**
   * The timer value never exceeds 0xffffffff, so storing it in the 32-bit
   * `value` loses nothing; it is the requested timeout in ms times
   * clk/1000 when that fits, never more than that, and 0 when the clock is
   * below 1 kHz.
   */
  lemma TimerFits(clk: int, ms: int)
    requires clk > 0 && 0 <= ms
    ensures 0 <= TimerTicks(clk, ms) <= MAX_COUNT
    ensures TimerTicks(clk, ms) <= ms * (clk / 1000)
    ensures ms <= MaxMs(clk) ==> TimerTicks(clk, ms) == ms * (clk / 1000)
    ensures clk < 1000 ==> TimerTicks(clk, ms) == 0
  {
    var realMs := if MaxMs(clk) <= ms then MaxMs(clk) else ms;
    ProductBound(clk, realMs);
    MulMono(clk / 1000, realMs, ms);
    assert realMs * (clk / 1000) <= ms * (clk / 1000);
  }

  /** A zero timeout returns at once and touches no register. */
  lemma StartZero(d: Dev)
    ensures Started(d, 0) == d
  {
  }

  /** stop pings, then writes RESET_REG once. */
  lemma StopWrites(d: Dev)
    ensures var r := Stopped(d);
      r.io.writes == d.io.writes + [Store(SET_REG, RESTART), Store(RESET_REG, Readl(r.io, RESET_REG))]
  {
  }

  /** stop clears only the enable bit; the timer and the rate are kept. */
  lemma StopEffect(d: Dev)
    ensures var r := Stopped(d);
      Readl(r.io, RESET_REG) == ClearBits(Readl(d.io, RESET_REG), ENABLE) &&
      Readl(r.io, TIMER_REG) == Readl(d.io, TIMER_REG) && r.clkRate == d.clkRate
  {
    var p := Pinged(d);
    assert Readl(p.io, RESET_REG) == Readl(d.io, RESET_REG);
    FlipAfterSet(Readl(d.io, RESET_REG), ENABLE);
  }

  /**
   * A nonzero start writes, in order: the stop's ping and RESET_REG, the
   * timer value, RESET_REG again, and a final ping.
   */
  lemma StartWrites(d: Dev, ms: int)
    requires 0 < ms < U64 && d.clkRate != 0
    ensures TimerTicks(d.clkRate, ms) < U32
    ensures var r := Started(d, ms); var s := Stopped(d);
      r.io.writes == d.io.writes + [Store(SET_REG, RESTART), Store(RESET_REG, Readl(s.io, RESET_REG)),
        Store(TIMER_REG, TimerTicks(d.clkRate, ms) as bv32),
        Store(RESET_REG, SetBits(Readl(s.io, RESET_REG), ENABLE)), Store(SET_REG, RESTART)]
  {
    TimerFits(d.clkRate, ms);
    StopWrites(d);
    var s := Stopped(d);
    var io1 := Writel(s.io, Trunc32(TimerTicks(d.clkRate, ms)), TIMER_REG);
    assert Readl(io1, RESET_REG) == Readl(s.io, RESET_REG);
  }

  /**
   * After a nonzero start the enable bit is set, the other RESET_REG bits
   * are as before, and the timer holds the computed value.
   */
  lemma StartEffect(d: Dev, ms: int)
    requires 0 < ms < U64 && d.clkRate != 0
    ensures TimerTicks(d.clkRate, ms) < U32
    ensures var r := Started(d, ms);
      Readl(r.io, RESET_REG) == SetBits(Readl(d.io, RESET_REG), ENABLE) &&
      Readl(r.io, TIMER_REG) == TimerTicks(d.clkRate, ms) as bv32 &&
      r.clkRate == d.clkRate
  {
    TimerFits(d.clkRate, ms);
    StopEffect(d);
    var s := Stopped(d);
    var value := Trunc32(TimerTicks(d.clkRate, ms));
    var io1 := Writel(s.io, value, TIMER_REG);
    assert Readl(io1, RESET_REG) == Readl(s.io, RESET_REG);
    SetAfterClear(Readl(d.io, RESET_REG), ENABLE);
  }

  /** Stopping a started watchdog restores RESET_REG with the enable bit clear. */
  lemma StartThenStop(d: Dev, ms: int)
    requires 0 < ms < U64 && d.clkRate != 0
    ensures Readl(Stopped(Started(d, ms)).io, RESET_REG) == ClearBits(Readl(d.io, RESET_REG), ENABLE)
  {
    StartEffect(d, ms);
    StopEffect(Started(d, ms));
    ClearAfterSet(Readl(d.io, RESET_REG), ENABLE);
  }

  /** reset writes 1 to SET_REG and nothing else. */
  lemma ResetPings(d: Dev)
    ensures Restarted(d).io.writes == d.io.writes + [Store(SET_REG, RESTART)]
    ensures forall o | o != SET_REG :: Readl(Restarted(d).io, o) == Readl(d.io, o)
    ensures Restarted(d).clkRate == d.clkRate
  {
  }

  /** A successful probe leaves the watchdog stopped at the stored rate. */
  lemma ProbeStops(d: Dev, hasBase: bool, getRet: int, enableRet: int, rate: int)
    requires 0 <= rate < U64
    ensures var (ret, r) := Probed(d, hasBase, getRet, enableRet, rate);
      (ret == 0 <==> hasBase && getRet == 0 && enableRet == 0) &&
      (ret != 0 ==> r == d) &&
      (!hasBase ==> ret == -EINVAL) &&
      (ret == 0 ==> r.clkRate == rate % U32 && Readl(r.io, RESET_REG) == ClearBits(Readl(d.io, RESET_REG), ENABLE))
  {
    if hasBase && getRet == 0 && enableRet == 0 {
      StopEffect(d.(clkRate := rate % U32));
    }
  }

  // ---- the driver ----

  class Ls2xWdt {
    var io: Io
    var clkRate: nat

    function Snapshot(): Dev
      reads this
    {
      Dev(io, clkRate)
    }

    /** The private data starts zeroed. */
    constructor(window: Io)
      ensures Snapshot() == Dev(window, 0)
    {
      io := window;
      clkRate := 0;
    }

    method Ping() returns (ret: int)
      modifies this
      ensures ret == 0 && Snapshot() == Pinged(old(Snapshot()))
    {
      io := Writel(io, RESTART, SET_REG);
      return 0;
    }

    method Stop() returns (ret: int)
      modifies this
      ensures ret == 0 && Snapshot() == Stopped(old(Snapshot()))
    {
      var _ := Ping();
      var temp := Readl(io, RESET_REG);
      temp := SetBits(temp, ENABLE);
      temp := FlipBits(temp, ENABLE);
      io := Writel(io, temp, RESET_REG);
      return 0;
    }

    method Start(ms: int) returns (ret: int)
      requires 0 <= ms < U64
      requires ms != 0 ==> clkRate != 0
      modifies this
      ensures ret == 0 && Snapshot() == Started(old(Snapshot()), ms)
    {
      if ms == 0 {
        return 0;
      }
      var _ := Stop();
      ghost var stopped := Snapshot();
      var maxMs := MAX_COUNT / clkRate;
      maxMs := maxMs * 1000;
      assert maxMs == MaxMs(clkRate);
      var realMs := if maxMs <= ms then maxMs else ms;
      MulNonNegative(realMs, clkRate / 1000);
      var value := Trunc32(realMs * (clkRate / 1000));
      assert value == Trunc32(TimerTicks(stopped.clkRate, ms));
      io := Writel(io, value, TIMER_REG);
      var temp := Readl(io, RESET_REG);
      temp := SetBits(temp, ENABLE);
      io := Writel(io, temp, RESET_REG);
      var _ := Ping();
      return 0;
    }

    method Reset() returns (ret: int)
      modifies this
      ensures ret == 0 && Snapshot() == Restarted(old(Snapshot()))
    {
      ret := Ping();
    }

    method Probe(hasBase: bool, getRet: int, enableRet: int, rate: int) returns (ret: int)
      requires 0 <= rate < U64
      modifies this
      ensures (ret, Snapshot()) == Probed(old(Snapshot()), hasBase, getRet, enableRet, rate)
    {
      if !hasBase {
        return -EINVAL;
      }
      if getRet != 0 {
        return getRet;
      }
      if enableRet != 0 {
        return enableRet;
      }
      clkRate := rate % U32;
      var _ := Stop();
      return 0;
    }
  }
}
