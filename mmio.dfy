// A device's memory-mapped register window as the drivers see it through
// readl/writel. Registers are modelled as memory: a read returns the value
// last written, or the window's initial contents (what the hardware holds).
// Every write is also appended to a log, so that a driver's exact write
// sequence, pulses included, can be stated.

module Mmio {
  /** One writel: the register's offset in the window and the 32-bit value. */
  datatype Store = Store(off: int, val: bv32)

  /** The register contents and every write so far, oldest first. */
  datatype Io = Io(mem: map<int, bv32>, writes: seq<Store>)

  /** readl; a register never written and not in the initial contents reads 0. */
  function Readl(io: Io, off: int): bv32
  {
    if off in io.mem then io.mem[off] else 0
  }

  /** writel(val, base + off): the register takes the value, the log grows by one. */
  function Writel(io: Io, val: bv32, off: int): (r: Io)
    ensures Readl(r, off) == val
    ensures forall o | o != off :: Readl(r, o) == Readl(io, o)
    ensures r.writes == io.writes + [Store(off, val)]
  {
    Io(io.mem[off := val], io.writes + [Store(off, val)])
  }

  // The bit operations of a read-modify-write, each behind a name so that
  // a write log can be compared entry by entry without bit reasoning.

  /** x |= m */
  function SetBits(x: bv32, m: bv32): bv32 { x | m }

  /** x &= ~m */
  function ClearBits(x: bv32, m: bv32): bv32 { x & !m }

  /** x ^= m */
  function FlipBits(x: bv32, m: bv32): bv32 { x ^ m }

  /** x &= m */
  function KeepBits(x: bv32, m: bv32): bv32 { x & m }

  // Each identity is proved once on the bare operators (the solver finds
  // those cheaply) and then restated on the named operations.

  lemma BvClearAfterSet(x: bv32, m: bv32)
    ensures (x | m) & !m == x & !m
  {
  }

  lemma ClearAfterSet(x: bv32, m: bv32)
    ensures ClearBits(SetBits(x, m), m) == ClearBits(x, m)
  {
    assert SetBits(x, m) == x | m;
    assert ClearBits(x | m, m) == (x | m) & !m;
    BvClearAfterSet(x, m);
  }

  lemma BvFlipAfterSet(x: bv32, m: bv32)
    ensures (x | m) ^ m == x & !m
  {
  }

  lemma FlipAfterSet(x: bv32, m: bv32)
    ensures FlipBits(SetBits(x, m), m) == ClearBits(x, m)
  {
    assert SetBits(x, m) == x | m;
    assert FlipBits(x | m, m) == (x | m) ^ m;
    BvFlipAfterSet(x, m);
  }

  lemma BvSetAfterClear(x: bv32, m: bv32)
    ensures (x & !m) | m == x | m
  {
  }

  lemma SetAfterClear(x: bv32, m: bv32)
    ensures SetBits(ClearBits(x, m), m) == SetBits(x, m)
  {
    assert ClearBits(x, m) == x & !m;
    assert SetBits(x & !m, m) == (x & !m) | m;
    BvSetAfterClear(x, m);
  }

  lemma BvClearTwice(x: bv32, m: bv32)
    ensures (x & !m) & !m == x & !m
  {
  }

  lemma ClearTwice(x: bv32, m: bv32)
    ensures ClearBits(ClearBits(x, m), m) == ClearBits(x, m)
  {
    assert ClearBits(x, m) == x & !m;
    assert ClearBits(x & !m, m) == (x & !m) & !m;
    BvClearTwice(x, m);
  }

  lemma BvSetKeeps(x: bv32, m: bv32)
    ensures (x | m) & m == m
  {
  }

  lemma SetKeeps(x: bv32, m: bv32)
    ensures KeepBits(SetBits(x, m), m) == m
  {
    assert SetBits(x, m) == x | m;
    assert KeepBits(x | m, m) == (x | m) & m;
    BvSetKeeps(x, m);
  }

  lemma BvClearKeeps(x: bv32, m: bv32)
    ensures (x & !m) & m == 0
  {
  }

  lemma ClearKeeps(x: bv32, m: bv32)
    ensures KeepBits(ClearBits(x, m), m) == 0
  {
    assert ClearBits(x, m) == x & !m;
    assert KeepBits(x & !m, m) == (x & !m) & m;
    BvClearKeeps(x, m);
  }

  lemma BvOrZero(x: bv32)
    ensures x | 0 == x
  {
  }

  lemma OrZero(x: bv32)
    ensures SetBits(x, 0) == x
  {
    assert SetBits(x, 0) == x | 0;
    BvOrZero(x);
  }

  lemma BvKeepOr(x: bv32, y: bv32, m: bv32)
    ensures (x | y) & m == (x & m) | (y & m)
  {
  }

  /** Masking distributes over OR. */
  lemma KeepOr(x: bv32, y: bv32, m: bv32)
    ensures KeepBits(SetBits(x, y), m) == SetBits(KeepBits(x, m), KeepBits(y, m))
  {
    assert KeepBits(x, m) == x & m;
    assert KeepBits(y, m) == y & m;
    assert SetBits(x & m, y & m) == (x & m) | (y & m);
    BvKeepOr(x, y, m);
    assert SetBits(x, y) == x | y;
    assert KeepBits(x | y, m) == (x | y) & m;
  }

  lemma BvKeepTwice(x: bv32, m: bv32)
    ensures (x & m) & m == x & m
  {
  }

  lemma KeepTwice(x: bv32, m: bv32)
    ensures KeepBits(KeepBits(x, m), m) == KeepBits(x, m)
  {
    assert KeepBits(x, m) == x & m;
    assert KeepBits(x & m, m) == (x & m) & m;
    BvKeepTwice(x, m);
  }

  lemma BvKeepDisjoint(x: bv32, a: bv32, b: bv32)
    requires a & b == 0
    ensures (x & a) & b == 0
  {
  }

  /** Bits kept by one mask are cleared by any mask disjoint from it. */
  lemma KeepDisjoint(x: bv32, a: bv32, b: bv32)
    requires a & b == 0
    ensures KeepBits(KeepBits(x, a), b) == 0
  {
    assert KeepBits(x, a) == x & a;
    assert KeepBits(x & a, b) == (x & a) & b;
    BvKeepDisjoint(x, a, b);
  }

  lemma BvClearOrInside(x: bv32, y: bv32, m: bv32)
    ensures (x | (y & m)) & !m == x & !m
  {
  }

  /** ORing in bits of a mask leaves the bits outside the mask alone. */
  lemma ClearOrInside(x: bv32, y: bv32, m: bv32)
    ensures ClearBits(SetBits(x, KeepBits(y, m)), m) == ClearBits(x, m)
  {
    assert ClearBits(x, m) == x & !m;
    BvClearOrInside(x, y, m);
    assert KeepBits(y, m) == y & m;
    assert SetBits(x, y & m) == x | (y & m);
    assert ClearBits(x | (y & m), m) == (x | (y & m)) & !m;
  }

  const U32 := 0x1_0000_0000

  /** Storing an unsigned value in a 32-bit variable keeps its low 32 bits. */
  function Trunc32(v: int): (r: bv32)
    requires v >= 0
    ensures v < U32 ==> r == v as bv32
  {
    (v % U32) as bv32
  }
}
