// The Loongson power controller (drivers/power/domain/loongson-pwrc.c):
// a device-tree node whose children are power domains, each with a DPM bit
// and an optional dpm-off mark, and whose grandchildren are devices with a
// clock-gate bit and an optional clock-gate-off mark. Probe writes the
// enable word, then the DPM word and the clock-gate word it accumulates by
// OR over that tree.

module Pwrc {
  import opened Opt
  import opened Mmio

  /** A shift the 32-bit words can take; a larger "bit" would be undefined behaviour in C. */
  type Bit = b: bv32 | b < 32

  /** A device node: its "bit" and whether it carries "clock-gate-off". */
  datatype Device = Device(bit: Bit, clockGateOff: bool)

  /** A domain node: its "bit", whether it carries "dpm-off", its devices. */
  datatype Domain = Domain(bit: Bit, dpmOff: bool, devices: seq<Device>)

  /** `pattern << bit` in 32 bits. */
  function Shl(pattern: bv32, bit: Bit): bv32
  {
    pattern << bit
  }

  /** The OR of `pattern << b` over the bits, accumulated left to right. */
  function BitsOr(bits: seq<Bit>, pattern: bv32): bv32
    decreases |bits|
  {
    if bits == [] then 0
    else SetBits(BitsOr(bits[..|bits| - 1], pattern), Shl(pattern, bits[|bits| - 1]))
  }

  /** The bits ls_pwrc_cg_off_in_domain ORs in: every device's. */
  function AllBits(devs: seq<Device>): (r: seq<Bit>)
    ensures |r| == |devs|
    ensures forall k | 0 <= k < |devs| :: r[k] == devs[k].bit
  {
    if devs == [] then [] else [devs[0].bit] + AllBits(devs[1..])
  }

  /** The bits ls_pwrc_get_cg ORs in: those of devices marked clock-gate-off. */
  function MarkedBits(devs: seq<Device>): seq<Bit>
  {
    if devs == [] then []
    else (if devs[0].clockGateOff then [devs[0].bit] else []) + MarkedBits(devs[1..])
  }

  /** A domain's clock-gate bits: all devices if dpm-off, else the marked ones. */
  function DomainCgBits(d: Domain): seq<Bit>
  {
    if d.dpmOff then AllBits(d.devices) else MarkedBits(d.devices)
  }

  /** A domain's DPM bits: its own if dpm-off, else none. */
  function DomainDpmBits(d: Domain): seq<Bit>
  {
    if d.dpmOff then [d.bit] else []
  }

  /** The clock-gate bits of the whole traversal, in visiting order. */
  function CgBits(ds: seq<Domain>): seq<Bit>
  {
    if ds == [] then [] else DomainCgBits(ds[0]) + CgBits(ds[1..])
  }

  /** The DPM bits: those of the domains marked dpm-off, in visiting order. */
  function DpmBits(ds: seq<Domain>): seq<Bit>
  {
    if ds == [] then [] else DomainDpmBits(ds[0]) + DpmBits(ds[1..])
  }

  const DPM_PATTERN: bv32 := 3
  const CG_PATTERN: bv32 := 1

  /** The controller's private data; the bit-width fields are never used. */
  datatype Priv = Priv(io: Io, enable: bv32, dpm: bv32, dpmOffset: bv32, cg: bv32, cgOffset: bv32)

  /** ls_pwrc_get_dpm: both words only gain bits. */
  function Traversed(s: Priv, ds: seq<Domain>): Priv
  {
    s.(dpm := SetBits(s.dpm, BitsOr(DpmBits(ds), DPM_PATTERN)),
       cg := SetBits(s.cg, BitsOr(CgBits(ds), CG_PATTERN)))
  }

  /** drv_ls_pwrc_probe. */
  function Probed(s: Priv, ds: seq<Domain>): Priv
  {
    var io1 := Writel(s.io, s.enable, 0);
    var t := Traversed(s.(io := io1), ds);
    t.(io := Writel(Writel(t.io, t.dpm, t.dpmOffset as int), t.cg, t.cgOffset as int))
  }

  /** drv_ls_pwrc_of_to_plat: a property that is absent leaves its field as it was. */
  function Platformed(s: Priv, enable: Option<bv32>, dpmOffset: Option<bv32>, cgOffset: Option<bv32>): Priv
  {
    s.(enable := if enable.Some? then enable.value else s.enable,
       dpmOffset := if dpmOffset.Some? then dpmOffset.value else s.dpmOffset,
       cgOffset := if cgOffset.Some? then cgOffset.value else s.cgOffset)
  }

  // ---- the OR of a run of bits ----

  lemma OrAssoc(a: bv32, b: bv32, c: bv32)
    ensures SetBits(SetBits(a, b), c) == SetBits(a, SetBits(b, c))
  {
    assert (a | b) | c == a | (b | c);
  }

  lemma OrComm(a: bv32, b: bv32)
    ensures SetBits(a, b) == SetBits(b, a)
  {
    assert a | b == b | a;
  }

  lemma ZeroOr(x: bv32)
    ensures SetBits(0, x) == x
  {
    assert 0 | x == x;
  }

  /** ORing in bits of m that are already in m changes nothing. */
  lemma OrKept(m: bv32, s: bv32)
    ensures SetBits(m, KeepBits(s, m)) == m
  {
    assert m | (s & m) == m;
  }

  /** Distinct single bits do not overlap. */
  lemma SingleBitsDisjoint(a: Bit, b: Bit)
    requires a != b
    ensures KeepBits(Shl(1, a), Shl(1, b)) == 0
  {
  }

  /** The OR over two runs of bits is the OR of the two ORs. */
  lemma {:induction false} BitsOrConcat(x: seq<Bit>, y: seq<Bit>, p: bv32)
    ensures BitsOr(x + y, p) == SetBits(BitsOr(x, p), BitsOr(y, p))
    decreases |y|
  {
    if y == [] {
      assert x + y == x;
      OrZero(BitsOr(x, p));
    } else {
      var y' := y[..|y| - 1];
      assert (x + y)[..|x + y| - 1] == x + y';
      assert (x + y)[|x + y| - 1] == y[|y| - 1];
      BitsOrConcat(x, y', p);
      OrAssoc(BitsOr(x, p), BitsOr(y', p), Shl(p, y[|y| - 1]));
    }
  }

  lemma MultisetRemove<T>(y: seq<T>, i: nat)
    requires i < |y|
    ensures multiset(y) == multiset(y[..i] + y[i + 1..]) + multiset{y[i]}
  {
    assert y == y[..i] + [y[i]] + y[i + 1..];
    assert multiset(y) == multiset(y[..i]) + multiset([y[i]]) + multiset(y[i + 1..]);
    assert multiset(y[..i] + y[i + 1..]) == multiset(y[..i]) + multiset(y[i + 1..]);
  }

  /** Taking x's head out of x and its match out of y keeps the multisets equal. */
  lemma RemoveMatching<T>(x: seq<T>, y: seq<T>, i: nat)
    requires |x| > 0 && i < |y| && y[i] == x[0] && multiset(x) == multiset(y)
    ensures multiset(x[1..]) == multiset(y[..i] + y[i + 1..])
  {
    MultisetRemove(y, i);
    assert x == [x[0]] + x[1..];
    assert multiset(x) == multiset(x[1..]) + multiset{x[0]};
    MultisetCancel(multiset(x[1..]), multiset(y[..i] + y[i + 1..]), x[0]);
  }

  lemma MultisetCancel<T>(a: multiset<T>, b: multiset<T>, e: T)
    requires a + multiset{e} == b + multiset{e}
    ensures a == b
  {
    assert a == (a + multiset{e}) - multiset{e};
    assert b == (b + multiset{e}) - multiset{e};
  }

  /** Every bit of the run has its pattern set in the OR. */
  lemma {:induction false} BitsOrHas(x: seq<Bit>, p: bv32, k: nat)
    requires k < |x|
    ensures KeepBits(BitsOr(x, p), Shl(p, x[k])) == Shl(p, x[k])
    decreases |x|
  {
    var x' := x[..|x| - 1];
    var s := Shl(p, x[|x| - 1]);
    if k == |x| - 1 {
      SetKeeps(BitsOr(x', p), s);
    } else {
      var m := Shl(p, x[k]);
      assert x'[k] == x[k];
      BitsOrHas(x', p, k);
      KeepOr(BitsOr(x', p), s, m);
      OrKept(m, s);
    }
  }

  /** With single bits, a bit outside the run is clear in the OR. */
  lemma {:induction false} BitsOrLacks(x: seq<Bit>, b: Bit)
    requires b !in x
    ensures KeepBits(BitsOr(x, 1), Shl(1, b)) == 0
    decreases |x|
  {
    var m := Shl(1, b);
    if x == [] {
      assert KeepBits(0, m) == 0;
    } else {
      var x' := x[..|x| - 1];
      var s := Shl(1, x[|x| - 1]);
      assert forall j | 0 <= j < |x'| :: x'[j] == x[j];
      BitsOrLacks(x', b);
      KeepOr(BitsOr(x', 1), s, m);
      SingleBitsDisjoint(x[|x| - 1], b);
      ZeroOr(0);
    }
  }

  /** With single bits, bit b of the OR is set exactly when b is in the run. */
  lemma BitsOrSingleBits(x: seq<Bit>, b: Bit)
    ensures KeepBits(BitsOr(x, 1), Shl(1, b)) == (if b in x then Shl(1, b) else 0)
  {
    if b in x {
      var k :| 0 <= k < |x| && x[k] == b;
      BitsOrHas(x, 1, k);
    } else {
      BitsOrLacks(x, b);
    }
  }

  // ---- the traversal's bit runs ----

  lemma {:induction false} CgBitsConcat(a: seq<Domain>, b: seq<Domain>)
    ensures CgBits(a + b) == CgBits(a) + CgBits(b)
    decreases |a|
  {
    if a == [] {
      assert a + b == b;
    } else {
      var h := DomainCgBits(a[0]);
      assert (a + b)[0] == a[0];
      assert (a + b)[1..] == a[1..] + b;
      CgBitsConcat(a[1..], b);
      assert CgBits(a + b) == h + (CgBits(a[1..]) + CgBits(b));
      assert h + (CgBits(a[1..]) + CgBits(b)) == (h + CgBits(a[1..])) + CgBits(b);
    }
  }

  lemma {:induction false} DpmBitsConcat(a: seq<Domain>, b: seq<Domain>)
    ensures DpmBits(a + b) == DpmBits(a) + DpmBits(b)
    decreases |a|
  {
    if a == [] {
      assert a + b == b;
    } else {
      var h := DomainDpmBits(a[0]);
      assert (a + b)[0] == a[0];
      assert (a + b)[1..] == a[1..] + b;
      DpmBitsConcat(a[1..], b);
      assert DpmBits(a + b) == h + (DpmBits(a[1..]) + DpmBits(b));
      assert h + (DpmBits(a[1..]) + DpmBits(b)) == (h + DpmBits(a[1..])) + DpmBits(b);
    }
  }

  /** One domain's part of the runs, between those of the domains around it. */
  lemma CgBitsSplit(ds: seq<Domain>, i: nat)
    requires i < |ds|
    ensures CgBits(ds) == CgBits(ds[..i]) + (DomainCgBits(ds[i]) + CgBits(ds[i + 1..]))
  {
    var t := ds[i..];
    assert ds == ds[..i] + t;
    CgBitsConcat(ds[..i], t);
    assert t[0] == ds[i] && t[1..] == ds[i + 1..];
    assert CgBits(t) == DomainCgBits(ds[i]) + CgBits(ds[i + 1..]);
  }

  lemma DpmBitsSplit(ds: seq<Domain>, i: nat)
    requires i < |ds|
    ensures DpmBits(ds) == DpmBits(ds[..i]) + (DomainDpmBits(ds[i]) + DpmBits(ds[i + 1..]))
  {
    var t := ds[i..];
    assert ds == ds[..i] + t;
    DpmBitsConcat(ds[..i], t);
    assert t[0] == ds[i] && t[1..] == ds[i + 1..];
    assert DpmBits(t) == DomainDpmBits(ds[i]) + DpmBits(ds[i + 1..]);
  }

  lemma {:induction false} AllBitsConcat(a: seq<Device>, b: seq<Device>)
    ensures AllBits(a + b) == AllBits(a) + AllBits(b)
  {
    assert forall k | 0 <= k < |a + b| :: AllBits(a + b)[k] == (AllBits(a) + AllBits(b))[k];
  }

  lemma {:induction false} MarkedBitsConcat(a: seq<Device>, b: seq<Device>)
    ensures MarkedBits(a + b) == MarkedBits(a) + MarkedBits(b)
    decreases |a|
  {
    if a == [] {
      assert a + b == b;
    } else {
      var h := if a[0].clockGateOff then [a[0].bit] else [];
      assert (a + b)[0] == a[0];
      assert (a + b)[1..] == a[1..] + b;
      MarkedBitsConcat(a[1..], b);
      assert MarkedBits(a + b) == h + (MarkedBits(a[1..]) + MarkedBits(b));
      assert h + (MarkedBits(a[1..]) + MarkedBits(b)) == (h + MarkedBits(a[1..])) + MarkedBits(b);
    }
  }

  /** One device's part of the runs, between those of the devices around it. */
  lemma AllBitsSplit(devs: seq<Device>, i: nat)
    requires i < |devs|
    ensures AllBits(devs) == AllBits(devs[..i]) + ([devs[i].bit] + AllBits(devs[i + 1..]))
  {
    var t := devs[i..];
    assert devs == devs[..i] + t;
    AllBitsConcat(devs[..i], t);
    assert t[0] == devs[i] && t[1..] == devs[i + 1..];
    assert AllBits(t) == [devs[i].bit] + AllBits(devs[i + 1..]);
  }

  lemma MarkedBitsSplit(devs: seq<Device>, i: nat)
    requires i < |devs|
    ensures MarkedBits(devs) ==
      MarkedBits(devs[..i]) + ((if devs[i].clockGateOff then [devs[i].bit] else []) + MarkedBits(devs[i + 1..]))
  {
    var t := devs[i..];
    assert devs == devs[..i] + t;
    MarkedBitsConcat(devs[..i], t);
    assert t[0] == devs[i] && t[1..] == devs[i + 1..];
  }

  lemma OrLeftSwap(a: bv32, h: bv32, c: bv32)
    ensures SetBits(a, SetBits(h, c)) == SetBits(h, SetBits(a, c))
  {
    assert a | (h | c) == h | (a | c);
  }

  /** The clock-gate word of a domain list depends only on which domains it holds. */
  lemma {:induction false} CgWordPermutation(x: seq<Domain>, y: seq<Domain>, p: bv32)
    requires multiset(x) == multiset(y)
    ensures BitsOr(CgBits(x), p) == BitsOr(CgBits(y), p)
    decreases |x|
  {
    if x == [] {
      assert |y| == |multiset(y)| == 0;
    } else {
      var d := x[0];
      assert d in multiset(y);
      var i :| 0 <= i < |y| && y[i] == d;
      var a, c := y[..i], y[i + 1..];
      RemoveMatching(x, y, i);
      CgWordPermutation(x[1..], a + c, p);
      CgBitsSplit(y, i);
      CgBitsConcat(a, c);
      var h := DomainCgBits(d);
      assert CgBits(x) == h + CgBits(x[1..]);
      BitsOrConcat(h, CgBits(x[1..]), p);
      BitsOrConcat(CgBits(a), CgBits(c), p);
      BitsOrConcat(CgBits(a), h + CgBits(c), p);
      BitsOrConcat(h, CgBits(c), p);
      OrLeftSwap(BitsOr(CgBits(a), p), BitsOr(h, p), BitsOr(CgBits(c), p));
    }
  }

  /** So does the DPM word. */
  lemma {:induction false} DpmWordPermutation(x: seq<Domain>, y: seq<Domain>, p: bv32)
    requires multiset(x) == multiset(y)
    ensures BitsOr(DpmBits(x), p) == BitsOr(DpmBits(y), p)
    decreases |x|
  {
    if x == [] {
      assert |y| == |multiset(y)| == 0;
    } else {
      var d := x[0];
      assert d in multiset(y);
      var i :| 0 <= i < |y| && y[i] == d;
      var a, c := y[..i], y[i + 1..];
      RemoveMatching(x, y, i);
      DpmWordPermutation(x[1..], a + c, p);
      DpmBitsSplit(y, i);
      DpmBitsConcat(a, c);
      var h := DomainDpmBits(d);
      assert DpmBits(x) == h + DpmBits(x[1..]);
      BitsOrConcat(h, DpmBits(x[1..]), p);
      BitsOrConcat(DpmBits(a), DpmBits(c), p);
      BitsOrConcat(DpmBits(a), h + DpmBits(c), p);
      BitsOrConcat(h, DpmBits(c), p);
      OrLeftSwap(BitsOr(DpmBits(a), p), BitsOr(h, p), BitsOr(DpmBits(c), p));
    }
  }

  /** The word over a device list depends only on which devices it holds. */
  lemma {:induction false} AllWordPermutation(x: seq<Device>, y: seq<Device>, p: bv32)
    requires multiset(x) == multiset(y)
    ensures BitsOr(AllBits(x), p) == BitsOr(AllBits(y), p)
    decreases |x|
  {
    if x == [] {
      assert |y| == |multiset(y)| == 0;
    } else {
      var e := x[0];
      assert e in multiset(y);
      var i :| 0 <= i < |y| && y[i] == e;
      var a, c := y[..i], y[i + 1..];
      RemoveMatching(x, y, i);
      AllWordPermutation(x[1..], a + c, p);
      AllBitsSplit(y, i);
      AllBitsConcat(a, c);
      var h := [e.bit];
      assert AllBits(x) == h + AllBits(x[1..]);
      BitsOrConcat(h, AllBits(x[1..]), p);
      BitsOrConcat(AllBits(a), AllBits(c), p);
      BitsOrConcat(AllBits(a), h + AllBits(c), p);
      BitsOrConcat(h, AllBits(c), p);
      OrLeftSwap(BitsOr(AllBits(a), p), BitsOr(h, p), BitsOr(AllBits(c), p));
    }
  }

  lemma {:induction false} MarkedWordPermutation(x: seq<Device>, y: seq<Device>, p: bv32)
    requires multiset(x) == multiset(y)
    ensures BitsOr(MarkedBits(x), p) == BitsOr(MarkedBits(y), p)
    decreases |x|
  {
    if x == [] {
      assert |y| == |multiset(y)| == 0;
    } else {
      var e := x[0];
      assert e in multiset(y);
      var i :| 0 <= i < |y| && y[i] == e;
      var a, c := y[..i], y[i + 1..];
      RemoveMatching(x, y, i);
      MarkedWordPermutation(x[1..], a + c, p);
      MarkedBitsSplit(y, i);
      MarkedBitsConcat(a, c);
      var h := if e.clockGateOff then [e.bit] else [];
      assert MarkedBits(x) == h + MarkedBits(x[1..]);
      BitsOrConcat(h, MarkedBits(x[1..]), p);
      BitsOrConcat(MarkedBits(a), MarkedBits(c), p);
      BitsOrConcat(MarkedBits(a), h + MarkedBits(c), p);
      BitsOrConcat(h, MarkedBits(c), p);
      OrLeftSwap(BitsOr(MarkedBits(a), p), BitsOr(h, p), BitsOr(MarkedBits(c), p));
    }
  }

  lemma AllBitsMember(devs: seq<Device>, b: Bit)
    ensures b in AllBits(devs) <==> exists j :: 0 <= j < |devs| && devs[j].bit == b
  {
    if b in AllBits(devs) {
      var j :| 0 <= j < |devs| && AllBits(devs)[j] == b;
    }
  }

  lemma {:induction false} MarkedBitsMember(devs: seq<Device>, b: Bit)
    ensures b in MarkedBits(devs) <==> exists j :: 0 <= j < |devs| && devs[j].bit == b && devs[j].clockGateOff
    decreases |devs|
  {
    if devs != [] {
      MarkedBitsMember(devs[1..], b);
      if b in MarkedBits(devs[1..]) {
        var j :| 0 <= j < |devs[1..]| && devs[1..][j].bit == b && devs[1..][j].clockGateOff;
        assert devs[j + 1] == devs[1..][j];
      }
      if exists j :: 0 <= j < |devs| && devs[j].bit == b && devs[j].clockGateOff {
        var j :| 0 <= j < |devs| && devs[j].bit == b && devs[j].clockGateOff;
        if j > 0 {
          assert devs[1..][j - 1] == devs[j];
        }
      }
    }
  }

  /** Which devices contribute a clock-gate bit, both directions. */
  lemma {:induction false} CgBitsMember(ds: seq<Domain>, b: Bit)
    ensures b in CgBits(ds) <==>
      exists k, j :: 0 <= k < |ds| && 0 <= j < |ds[k].devices| && ds[k].devices[j].bit == b &&
        (ds[k].dpmOff || ds[k].devices[j].clockGateOff)
    decreases |ds|
  {
    if ds != [] {
      var d := ds[0];
      CgBitsMember(ds[1..], b);
      AllBitsMember(d.devices, b);
      MarkedBitsMember(d.devices, b);
      assert CgBits(ds) == DomainCgBits(d) + CgBits(ds[1..]);
      if b in CgBits(ds[1..]) {
        var k, j :| 0 <= k < |ds[1..]| && 0 <= j < |ds[1..][k].devices| && ds[1..][k].devices[j].bit == b &&
          (ds[1..][k].dpmOff || ds[1..][k].devices[j].clockGateOff);
        assert ds[k + 1] == ds[1..][k];
      }
      if exists k, j :: 0 <= k < |ds| && 0 <= j < |ds[k].devices| && ds[k].devices[j].bit == b &&
          (ds[k].dpmOff || ds[k].devices[j].clockGateOff) {
        var k, j :| 0 <= k < |ds| && 0 <= j < |ds[k].devices| && ds[k].devices[j].bit == b &&
          (ds[k].dpmOff || ds[k].devices[j].clockGateOff);
        if k > 0 {
          assert ds[1..][k - 1] == ds[k];
        }
      }
    }
  }

  /** Which domains contribute a DPM pattern, both directions. */
  lemma {:induction false} DpmBitsMember(ds: seq<Domain>, b: Bit)
    ensures b in DpmBits(ds) <==> exists k :: 0 <= k < |ds| && ds[k].dpmOff && ds[k].bit == b
    decreases |ds|
  {
    if ds != [] {
      DpmBitsMember(ds[1..], b);
      assert DpmBits(ds) == DomainDpmBits(ds[0]) + DpmBits(ds[1..]);
      if b in DpmBits(ds[1..]) {
        var k :| 0 <= k < |ds[1..]| && ds[1..][k].dpmOff && ds[1..][k].bit == b;
        assert ds[k + 1] == ds[1..][k];
      }
      if exists k :: 0 <= k < |ds| && ds[k].dpmOff && ds[k].bit == b {
        var k :| 0 <= k < |ds| && ds[k].dpmOff && ds[k].bit == b;
        if k > 0 {
          assert ds[1..][k - 1] == ds[k];
        }
      }
    }
  }

  lemma KeepInOr(x: bv32, w: bv32, m: bv32)
    requires KeepBits(w, m) == m
    ensures KeepBits(SetBits(x, w), m) == m
  {
    KeepOr(x, w, m);
    AbsorbKept(x, m);
  }

  lemma AbsorbKept(x: bv32, m: bv32)
    ensures SetBits(KeepBits(x, m), m) == m
  {
    assert (x & m) | m == m;
  }

  lemma OrKeepsLeft(x: bv32, w: bv32)
    ensures KeepBits(SetBits(x, w), x) == x
  {
    assert (x | w) & x == x;
  }

  // ---- properties of the traversal and of probe ----

  /**
   * The traversal only ORs into dpm and cg: every bit they held is still
   * set, and nothing else of the private data changes.
   */
  lemma NeverCleared(s: Priv, ds: seq<Domain>)
    ensures var t := Traversed(s, ds);
      KeepBits(t.dpm, s.dpm) == s.dpm && KeepBits(t.cg, s.cg) == s.cg &&
      t.io == s.io && t.enable == s.enable && t.dpmOffset == s.dpmOffset && t.cgOffset == s.cgOffset
  {
    OrKeepsLeft(s.dpm, BitsOr(DpmBits(ds), DPM_PATTERN));
    OrKeepsLeft(s.cg, BitsOr(CgBits(ds), CG_PATTERN));
  }

  /**
   * A domain marked dpm-off sets both of its DPM bits, `3 << bit`, and
   * the clock-gate bit of every device in it, marked or not.
   */
  lemma DpmOffDomain(s: Priv, ds: seq<Domain>, k: nat)
    requires k < |ds| && ds[k].dpmOff
    ensures var t := Traversed(s, ds);
      KeepBits(t.dpm, Shl(3, ds[k].bit)) == Shl(3, ds[k].bit) &&
      forall j | 0 <= j < |ds[k].devices| ::
        KeepBits(t.cg, Shl(1, ds[k].devices[j].bit)) == Shl(1, ds[k].devices[j].bit)
  {
    DpmBitsSplit(ds, k);
    var x := DpmBits(ds);
    var n := |DpmBits(ds[..k])|;
    assert x[n] == ds[k].bit;
    BitsOrHas(x, DPM_PATTERN, n);
    KeepInOr(s.dpm, BitsOr(x, DPM_PATTERN), Shl(3, ds[k].bit));
    forall j | 0 <= j < |ds[k].devices|
      ensures KeepBits(Traversed(s, ds).cg, Shl(1, ds[k].devices[j].bit)) == Shl(1, ds[k].devices[j].bit)
    {
      DeviceBitSet(s, ds, k, j);
    }
  }

  /** A device that contributes its bit has it set in cg. */
  lemma DeviceBitSet(s: Priv, ds: seq<Domain>, k: nat, j: nat)
    requires k < |ds| && j < |ds[k].devices| && (ds[k].dpmOff || ds[k].devices[j].clockGateOff)
    ensures KeepBits(Traversed(s, ds).cg, Shl(1, ds[k].devices[j].bit)) == Shl(1, ds[k].devices[j].bit)
  {
    var b := ds[k].devices[j].bit;
    CgBitsMember(ds, b);
    var x := CgBits(ds);
    var n :| 0 <= n < |x| && x[n] == b;
    BitsOrHas(x, CG_PATTERN, n);
    KeepInOr(s.cg, BitsOr(x, CG_PATTERN), Shl(1, b));
  }

  /**
   * Starting from the zeroed private data, bit b of cg ends up set exactly
   * when some device with that bit sits in a dpm-off domain or is itself
   * marked clock-gate-off: in any other domain an unmarked device sets
   * nothing.
   */
  lemma CgBitIff(s: Priv, ds: seq<Domain>, b: Bit)
    requires s.cg == 0
    ensures KeepBits(Traversed(s, ds).cg, Shl(1, b)) != 0 <==>
      exists k, j :: 0 <= k < |ds| && 0 <= j < |ds[k].devices| && ds[k].devices[j].bit == b &&
        (ds[k].dpmOff || ds[k].devices[j].clockGateOff)
  {
    ZeroOr(BitsOr(CgBits(ds), CG_PATTERN));
    BitsOrSingleBits(CgBits(ds), b);
    CgBitsMember(ds, b);
    assert Shl(1, b) != 0;
  }

  /** The DPM word is the OR of `3 << bit` over exactly the dpm-off domains. */
  lemma DpmWord(s: Priv, ds: seq<Domain>)
    ensures Traversed(s, ds).dpm == SetBits(s.dpm, BitsOr(DpmBits(ds), DPM_PATTERN))
    ensures forall b: Bit :: b in DpmBits(ds) <==> exists k :: 0 <= k < |ds| && ds[k].dpmOff && ds[k].bit == b
  {
    forall b: Bit
      ensures b in DpmBits(ds) <==> exists k :: 0 <= k < |ds| && ds[k].dpmOff && ds[k].bit == b
    {
      DpmBitsMember(ds, b);
    }
  }

  /** The order of the domains does not matter: any rearrangement gives the same words. */
  lemma DomainOrderFree(s: Priv, x: seq<Domain>, y: seq<Domain>)
    requires multiset(x) == multiset(y)
    ensures Traversed(s, x) == Traversed(s, y)
  {
    CgWordPermutation(x, y, CG_PATTERN);
    DpmWordPermutation(x, y, DPM_PATTERN);
  }

  /** Nor does the order of the devices inside one domain. */
  lemma DeviceOrderFree(s: Priv, ds: seq<Domain>, k: nat, devs: seq<Device>)
    requires k < |ds| && multiset(ds[k].devices) == multiset(devs)
    ensures Traversed(s, ds) == Traversed(s, ds[k := ds[k].(devices := devs)])
  {
    var es := ds[k := ds[k].(devices := devs)];
    var p := CG_PATTERN;
    assert ds[..k] == es[..k] && ds[k + 1..] == es[k + 1..];
    CgBitsSplit(ds, k);
    CgBitsSplit(es, k);
    DpmBitsSplit(ds, k);
    DpmBitsSplit(es, k);
    assert DomainDpmBits(ds[k]) == DomainDpmBits(es[k]);
    AllWordPermutation(ds[k].devices, devs, p);
    MarkedWordPermutation(ds[k].devices, devs, p);
    var a, c := CgBits(ds[..k]), CgBits(ds[k + 1..]);
    BitsOrConcat(a, DomainCgBits(ds[k]) + c, p);
    BitsOrConcat(DomainCgBits(ds[k]), c, p);
    BitsOrConcat(a, DomainCgBits(es[k]) + c, p);
    BitsOrConcat(DomainCgBits(es[k]), c, p);
  }

  /**
   * probe writes the enable word to the base, and after the traversal the
   * DPM word at dpm_offset and the clock-gate word at cg_offset, in that
   * order and nothing else.
   */
  lemma ProbeWrites(s: Priv, ds: seq<Domain>)
    ensures var r := Probed(s, ds); var t := Traversed(s, ds);
      r.io.writes == s.io.writes + [Store(0, s.enable), Store(s.dpmOffset as int, t.dpm), Store(s.cgOffset as int, t.cg)]
  {
    var io1 := Writel(s.io, s.enable, 0);
    var t := Traversed(s.(io := io1), ds);
    assert t.dpm == Traversed(s, ds).dpm && t.cg == Traversed(s, ds).cg;
    assert t.io == io1;
  }

  /** After probe: cg holds the clock-gate word, dpm_offset the DPM word unless the two coincide. */
  lemma ProbeRegisters(s: Priv, ds: seq<Domain>)
    ensures var r := Probed(s, ds); var t := Traversed(s, ds);
      r.dpm == t.dpm && r.cg == t.cg && r.enable == s.enable &&
      r.dpmOffset == s.dpmOffset && r.cgOffset == s.cgOffset &&
      Readl(r.io, s.cgOffset as int) == t.cg &&
      (s.dpmOffset as int != s.cgOffset as int ==> Readl(r.io, s.dpmOffset as int) == t.dpm)
  {
    var o1, o2 := s.dpmOffset as int, s.cgOffset as int;
    var io1 := Writel(s.io, s.enable, 0);
    var t := Traversed(s.(io := io1), ds);
    assert t.dpm == Traversed(s, ds).dpm && t.cg == Traversed(s, ds).cg;
    assert t.io == io1;
    var io2 := Writel(io1, t.dpm, o1);
    var io3 := Writel(io2, t.cg, o2);
    assert Probed(s, ds).io == io3;
    assert Readl(io3, o2) == t.cg;
    assert Readl(io2, o1) == t.dpm;
    assert o1 != o2 ==> Readl(io3, o1) == Readl(io2, o1);
  }

  /** One more device ORs in its bit if it is marked. */
  lemma MarkedStep(devs: seq<Device>, j: nat)
    requires j < |devs|
    ensures MarkedBits(devs[..j + 1]) == MarkedBits(devs[..j]) + (if devs[j].clockGateOff then [devs[j].bit] else [])
  {
    assert devs[..j + 1] == devs[..j] + [devs[j]];
    MarkedBitsConcat(devs[..j], [devs[j]]);
    assert MarkedBits([devs[j]]) == (if devs[j].clockGateOff then [devs[j].bit] else []) + MarkedBits([]);
  }

  /** One more domain ORs in its own parts of the two words. */
  lemma TraversedStep(s: Priv, ds: seq<Domain>, i: nat)
    requires i < |ds|
    ensures var t := Traversed(s, ds[..i]); var d := ds[i];
      Traversed(s, ds[..i + 1]) ==
        t.(dpm := SetBits(t.dpm, BitsOr(DomainDpmBits(d), DPM_PATTERN)),
           cg := SetBits(t.cg, BitsOr(DomainCgBits(d), CG_PATTERN)))
  {
    var d := ds[i];
    assert ds[..i + 1] == ds[..i] + [d];
    CgBitsConcat(ds[..i], [d]);
    DpmBitsConcat(ds[..i], [d]);
    assert CgBits([d]) == DomainCgBits(d) + CgBits([]);
    assert DpmBits([d]) == DomainDpmBits(d) + DpmBits([]);
    assert CgBits([d]) == DomainCgBits(d);
    assert DpmBits([d]) == DomainDpmBits(d);
    BitsOrConcat(CgBits(ds[..i]), DomainCgBits(d), CG_PATTERN);
    BitsOrConcat(DpmBits(ds[..i]), DomainDpmBits(d), DPM_PATTERN);
    OrAssoc(s.cg, BitsOr(CgBits(ds[..i]), CG_PATTERN), BitsOr(DomainCgBits(d), CG_PATTERN));
    OrAssoc(s.dpm, BitsOr(DpmBits(ds[..i]), DPM_PATTERN), BitsOr(DomainDpmBits(d), DPM_PATTERN));
  }

  /** One more bit ORs in its pattern. */
  lemma BitsOrSnoc(x: seq<Bit>, b: Bit, p: bv32)
    ensures BitsOr(x + [b], p) == SetBits(BitsOr(x, p), Shl(p, b))
  {
    assert (x + [b])[..|x|] == x;
  }

  lemma BitsOrOne(b: Bit, p: bv32)
    ensures BitsOr([b], p) == Shl(p, b)
  {
    assert [b][..0] == [];
    ZeroOr(Shl(p, b));
  }

  /** One more device in cg_off_in_domain's loop ORs in its bit. */
  lemma AllBitsStep(c0: bv32, devs: seq<Device>, j: nat)
    requires j < |devs|
    ensures SetBits(SetBits(c0, BitsOr(AllBits(devs[..j]), CG_PATTERN)), Shl(1, devs[j].bit)) ==
      SetBits(c0, BitsOr(AllBits(devs[..j + 1]), CG_PATTERN))
  {
    var w := BitsOr(AllBits(devs[..j]), CG_PATTERN);
    var m := Shl(1, devs[j].bit);
    assert devs[..j + 1] == devs[..j] + [devs[j]];
    AllBitsConcat(devs[..j], [devs[j]]);
    BitsOrSnoc(AllBits(devs[..j]), devs[j].bit, CG_PATTERN);
    OrAssoc(c0, w, m);
  }

  /** One more device in get_cg's loop ORs in its bit when it is marked. */
  lemma MarkedBitsStep(c0: bv32, devs: seq<Device>, j: nat)
    requires j < |devs|
    ensures devs[j].clockGateOff ==>
      SetBits(SetBits(c0, BitsOr(MarkedBits(devs[..j]), CG_PATTERN)), Shl(1, devs[j].bit)) ==
        SetBits(c0, BitsOr(MarkedBits(devs[..j + 1]), CG_PATTERN))
    ensures !devs[j].clockGateOff ==>
      SetBits(c0, BitsOr(MarkedBits(devs[..j]), CG_PATTERN)) == SetBits(c0, BitsOr(MarkedBits(devs[..j + 1]), CG_PATTERN))
  {
    var w := BitsOr(MarkedBits(devs[..j]), CG_PATTERN);
    MarkedStep(devs, j);
    if devs[j].clockGateOff {
      var m := Shl(1, devs[j].bit);
      BitsOrSnoc(MarkedBits(devs[..j]), devs[j].bit, CG_PATTERN);
      OrAssoc(c0, w, m);
    } else {
      assert MarkedBits(devs[..j + 1]) == MarkedBits(devs[..j]);
    }
  }

  /** One more domain in get_dpm's loop, as the loop body takes it. */
  lemma DomainStep(s: Priv, ds: seq<Domain>, i: nat)
    requires i < |ds|
    ensures var t := Traversed(s, ds[..i]); var d := ds[i];
      Traversed(s, ds[..i + 1]) ==
        t.(dpm := if d.dpmOff then SetBits(t.dpm, Shl(3, d.bit)) else t.dpm,
           cg := SetBits(t.cg, BitsOr(if d.dpmOff then AllBits(d.devices) else MarkedBits(d.devices), CG_PATTERN)))
  {
    var d := ds[i];
    TraversedStep(s, ds, i);
    if d.dpmOff {
      BitsOrOne(d.bit, DPM_PATTERN);
    } else {
      OrZero(Traversed(s, ds[..i]).dpm);
    }
  }

  // ---- the driver ----

  class LsPwrc {
    var io: Io
    var enable: bv32
    var dpm: bv32
    var dpmOffset: bv32
    var cg: bv32
    var cgOffset: bv32

    function Snapshot(): Priv
      reads this
    {
      Priv(io, enable, dpm, dpmOffset, cg, cgOffset)
    }

    /** The private data starts zeroed. */
    constructor(window: Io)
      ensures Snapshot() == Priv(window, 0, 0, 0, 0, 0)
    {
      io := window;
      enable, dpm, dpmOffset, cg, cgOffset := 0, 0, 0, 0, 0;
    }

    /** drv_ls_pwrc_of_to_plat; each argument is the property if present. */
    method OfToPlat(enableProp: Option<bv32>, dpmProp: Option<bv32>, cgProp: Option<bv32>) returns (ret: int)
      modifies this
      ensures ret == 0 && Snapshot() == Platformed(old(Snapshot()), enableProp, dpmProp, cgProp)
    {
      if enableProp.Some? {
        enable := enableProp.value;
      }
      if dpmProp.Some? {
        dpmOffset := dpmProp.value;
      }
      if cgProp.Some? {
        cgOffset := cgProp.value;
      }
      return 0;
    }

    /** ls_pwrc_cg_off_in_domain */
    method CgOffInDomain(devs: seq<Device>) returns (ret: int)
      modifies this
      ensures ret == 0
      ensures Snapshot() == old(Snapshot()).(cg := SetBits(old(cg), BitsOr(AllBits(devs), CG_PATTERN)))
    {
      var j := 0;
      while j < |devs|
        invariant 0 <= j <= |devs|
        invariant cg == SetBits(old(cg), BitsOr(AllBits(devs[..j]), CG_PATTERN))
        invariant Snapshot() == old(Snapshot()).(cg := cg)
      {
        AllBitsStep(old(cg), devs, j);
        cg := SetBits(cg, Shl(1, devs[j].bit));
        j := j + 1;
      }
      assert devs[..j] == devs;
      return 0;
    }

    /** ls_pwrc_get_cg */
    method GetCg(devs: seq<Device>) returns (ret: int)
      modifies this
      ensures ret == 0
      ensures Snapshot() == old(Snapshot()).(cg := SetBits(old(cg), BitsOr(MarkedBits(devs), CG_PATTERN)))
    {
      var j := 0;
      while j < |devs|
        invariant 0 <= j <= |devs|
        invariant cg == SetBits(old(cg), BitsOr(MarkedBits(devs[..j]), CG_PATTERN))
        invariant Snapshot() == old(Snapshot()).(cg := cg)
      {
        MarkedBitsStep(old(cg), devs, j);
        if devs[j].clockGateOff {
          cg := SetBits(cg, Shl(1, devs[j].bit));
        }
        j := j + 1;
      }
      assert devs[..j] == devs;
      return 0;
    }

    /** ls_pwrc_get_dpm */
    method GetDpm(ds: seq<Domain>) returns (ret: int)
      modifies this
      ensures ret == 0 && Snapshot() == Traversed(old(Snapshot()), ds)
    {
      var i := 0;
      while i < |ds|
        invariant 0 <= i <= |ds|
        invariant Snapshot() == Traversed(old(Snapshot()), ds[..i])
      {
        var d := ds[i];
        DomainStep(old(Snapshot()), ds, i);
        if d.dpmOff {
          dpm := SetBits(dpm, Shl(3, d.bit));
          var _ := CgOffInDomain(d.devices);
        } else {
          var _ := GetCg(d.devices);
        }
        i := i + 1;
      }
      assert ds[..i] == ds;
      return 0;
    }

    /** drv_ls_pwrc_probe; `ds` is the controller node's subtree. */
    method Probe(ds: seq<Domain>) returns (ret: int)
      modifies this
      ensures ret == 0 && Snapshot() == Probed(old(Snapshot()), ds)
    {
      io := Writel(io, enable, 0);
      var _ := GetDpm(ds);
      io := Writel(io, dpm, dpmOffset as int);
      io := Writel(io, cg, cgOffset as int);
      return 0;
    }
  }
}
