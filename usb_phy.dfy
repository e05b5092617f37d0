// The LS2K USB PHY configuration register (drivers/phy/ls2k_usb_phy.c):
// thirteen tuning fields read from device-tree properties are packed into
// one 32-bit word whose bit 0 enables the PHY. The driver also keeps a
// cached copy of the word for power on and off.

module UsbPhy {
  import opened Mmio

  /** The register is the whole window. */
  const PHY_REG := 0

  const ENABLE_CFG_EN: bv32 := 0x1

  /** The entries of prop_info_set, in table order. */
  datatype Field =
    | CommonOnn | DmPullDown | DpPullDown | TxResTune | TxPreempPulseTune | TxPreempAmpTune
    | TxHsxvTune | TxRiseTune | TxVrefTune | TxFslsTune | SqRxTune | CompdisTune | OtgTune

  /** prop_info_set up to its NULL sentinel. */
  const PROP_INFO_SET: seq<Field> := [CommonOnn, DmPullDown, DpPullDown, TxResTune, TxPreempPulseTune,
    TxPreempAmpTune, TxHsxvTune, TxRiseTune, TxVrefTune, TxFslsTune, SqRxTune, CompdisTune, OtgTune]

  function PropName(f: Field): string
  {
    match f
    case CommonOnn => "common_onn"
    case DmPullDown => "dm_pull_down"
    case DpPullDown => "dp_pull_down"
    case TxResTune => "tx_res_tune"
    case TxPreempPulseTune => "tx_preemp_pulse_tune"
    case TxPreempAmpTune => "tx_preemp_amp_tune"
    case TxHsxvTune => "tx_hsxv_tune"
    case TxRiseTune => "tx_rise_tune"
    case TxVrefTune => "tx_vref_tune"
    case TxFslsTune => "tx_fsls_tune"
    case SqRxTune => "sq_rx_tune"
    case CompdisTune => "compdis_tune"
    case OtgTune => "otg_tune"
  }

  /** The field's lowest bit. */
  function Shift(f: Field): (r: nat)
    ensures r < 32
  {
    match f
    case CommonOnn => 29
    case DmPullDown => 28
    case DpPullDown => 27
    case TxResTune => 25
    case TxPreempPulseTune => 24
    case TxPreempAmpTune => 22
    case TxHsxvTune => 20
    case TxRiseTune => 18
    case TxVrefTune => 14
    case TxFslsTune => 10
    case SqRxTune => 7
    case CompdisTune => 4
    case OtgTune => 1
  }

  /** BIT(shift), or GENMASK(high, shift) for the wider fields. */
  function Mask(f: Field): bv32
  {
    match f
    case CommonOnn => 0x2000_0000          // bit 29
    case DmPullDown => 0x1000_0000         // bit 28
    case DpPullDown => 0x0800_0000         // bit 27
    case TxResTune => 0x0600_0000          // bits 26..25
    case TxPreempPulseTune => 0x0100_0000  // bit 24
    case TxPreempAmpTune => 0x00c0_0000    // bits 23..22
    case TxHsxvTune => 0x0030_0000         // bits 21..20
    case TxRiseTune => 0x000c_0000         // bits 19..18
    case TxVrefTune => 0x0003_c000         // bits 17..14
    case TxFslsTune => 0x0000_3c00         // bits 13..10
    case SqRxTune => 0x0000_0380           // bits 9..7
    case CompdisTune => 0x0000_0070        // bits 6..4
    case OtgTune => 0x0000_000e            // bits 3..1
  }

  /**
   * The u32 device-tree properties of the PHY node that are present, keyed
   * by the table entry whose PropName they carry.
   */
  type Props = map<Field, bv32>

  /** What one property adds to the word: (prop << shift) & mask, or nothing. */
  function Contribution(props: Props, f: Field): bv32
  {
    if f in props then KeepBits(props[f] << Shift(f), Mask(f)) else 0
  }

  /** read_param: an absent property is -2 and leaves the value alone. */
  function ReadParam(props: Props, f: Field, value: bv32): (int, bv32)
  {
    if f !in props then (-2, value)
    else (0, SetBits(value, KeepBits(props[f] << Shift(f), Mask(f))))
  }

  /** The probe loop from entry i on, with the value built so far. */
  function PackFrom(props: Props, i: nat, value: bv32): bv32
    requires i <= |PROP_INFO_SET|
    decreases |PROP_INFO_SET| - i
  {
    if i == |PROP_INFO_SET| then value
    else PackFrom(props, i + 1, ReadParam(props, PROP_INFO_SET[i], value).1)
  }

  /** The packed tuning word. */
  function Packed(props: Props): bv32
  {
    PackFrom(props, 0, 0)
  }

  /** The driver's private data: the register and the cached word. */
  datatype Phy = Phy(io: Io, usbPhyValue: bv32)

  /** ls2k_usb_phy_probe: writes the word with ENABLE only if it is nonzero. */
  function Probed(p: Phy, props: Props): Phy
  {
    var value := Packed(props);
    if value != 0 then p.(io := Writel(p.io, SetBits(value, ENABLE_CFG_EN), PHY_REG)) else p
  }

  /** phy_ls2k_usb_power_on. */
  function PoweredOn(p: Phy): Phy
  {
    var val := SetBits(p.usbPhyValue, ENABLE_CFG_EN);
    Phy(Writel(p.io, val, PHY_REG), val)
  }

  /** phy_ls2k_usb_power_off. */
  function PoweredOff(p: Phy): Phy
  {
    var val := ClearBits(p.usbPhyValue, ENABLE_CFG_EN);
    Phy(Writel(p.io, val, PHY_REG), val)
  }

  // ---- properties ----

  /** The table runs from the top bit down: each mask lies below the previous entry's shift. */
  lemma FieldBelowPrevious(i: nat)
    requires 0 < i < |PROP_INFO_SET|
    ensures Mask(PROP_INFO_SET[i]) < (1 as bv32) << Shift(PROP_INFO_SET[i - 1])
    ensures Shift(PROP_INFO_SET[i]) < Shift(PROP_INFO_SET[i - 1])
  {
  }

  lemma ShiftGrows(s: nat, t: nat)
    requires s <= t < 32
    ensures (1 as bv32) << s <= (1 as bv32) << t
  {
  }

  /** Every later entry's mask lies below an earlier entry's shift. */
  lemma {:induction false} FieldsDescend(i: nat, j: nat)
    requires i < j < |PROP_INFO_SET|
    ensures Mask(PROP_INFO_SET[j]) < (1 as bv32) << Shift(PROP_INFO_SET[i])
    ensures Shift(PROP_INFO_SET[j]) < Shift(PROP_INFO_SET[i])
    decreases j - i
  {
    FieldBelowPrevious(j);
    if i < j - 1 {
      FieldsDescend(i, j - 1);
      ShiftGrows(Shift(PROP_INFO_SET[j - 1]), Shift(PROP_INFO_SET[i]));
    }
  }

  /** A word clear below bit s shares no bit with a word below 2^s. */
  lemma BitsApart(m: bv32, x: bv32, s: nat)
    requires s < 32 && m & (((1 as bv32) << s) - 1) == 0 && x < (1 as bv32) << s
    ensures m & x == 0 && x & m == 0
  {
  }

  lemma MasksDisjointOrdered(f: Field, g: Field)
    requires Index(f) < Index(g)
    ensures Mask(f) & Mask(g) == 0 && Mask(g) & Mask(f) == 0
  {
    FieldsDescend(Index(f), Index(g));
    MasksAvoidEnable(f);
    BitsApart(Mask(f), Mask(g), Shift(f));
  }

  /**
   * The field masks are pairwise disjoint. Stated on the bare operator so
   * that its proof does not see every use of the named bit operations.
   */
  lemma MasksDisjoint(f: Field, g: Field)
    requires f != g
    ensures Mask(f) & Mask(g) == 0
  {
    if Index(f) < Index(g) {
      MasksDisjointOrdered(f, g);
    } else {
      MasksDisjointOrdered(g, f);
    }
  }

  /** No field covers bit 0, the enable bit; each mask starts at its shift. */
  lemma MasksAvoidEnable(f: Field)
    ensures KeepBits(Mask(f), ENABLE_CFG_EN) == 0
    ensures (Mask(f) >> Shift(f)) & 1 == 1
    ensures Mask(f) & ((1 << Shift(f)) - 1) == 0
  {
  }

  /** A contribution lies inside its own field. */
  lemma ContributionInField(props: Props, f: Field)
    ensures KeepBits(Contribution(props, f), Mask(f)) == Contribution(props, f)
  {
    if f in props {
      KeepTwice(props[f] << Shift(f), Mask(f));
    } else {
      assert KeepBits(0, Mask(f)) == 0;
    }
  }

  /**
   * read_param: absent means -2 and the value unchanged; present means 0
   * and the property ORed in at its field.
   */
  lemma ReadParamCases(props: Props, f: Field, value: bv32)
    ensures (ReadParam(props, f, value).0 == -2) <==> f !in props
    ensures f !in props ==> ReadParam(props, f, value).1 == value
    ensures f in props ==> ReadParam(props, f, value) == (0, SetBits(value, Contribution(props, f)))
  {
  }

  /** read_param changes no bit outside the entry's field. */
  lemma ReadParamOutside(props: Props, f: Field, value: bv32)
    ensures ClearBits(ReadParam(props, f, value).1, Mask(f)) == ClearBits(value, Mask(f))
  {
    if f in props {
      var s := Shift(f);
      ClearOrInside(value, props[f] << s, Mask(f));
    }
  }

  /** read_param adds exactly the contribution, present or not. */
  lemma ReadParamAdds(props: Props, f: Field, value: bv32)
    ensures ReadParam(props, f, value).1 == SetBits(value, Contribution(props, f))
  {
    if f !in props {
      OrZero(value);
    }
  }

  /**
   * Masking the OR of `value` and a contribution of field g with the mask
   * of f keeps the contribution exactly when g is f.
   */
  lemma OrField(props: Props, f: Field, g: Field, value: bv32)
    ensures KeepBits(SetBits(value, Contribution(props, g)), Mask(f)) ==
      SetBits(KeepBits(value, Mask(f)), if f == g then Contribution(props, f) else 0)
  {
    var c := Contribution(props, g);
    KeepOr(value, c, Mask(f));
    ContributionInField(props, g);
    if f != g {
      MasksDisjoint(g, f);
      KeepDisjoint(c, Mask(g), Mask(f));
    }
  }

  /** The entry's place in prop_info_set. */
  function Index(f: Field): (i: nat)
    ensures i < |PROP_INFO_SET| && PROP_INFO_SET[i] == f
  {
    match f
    case CommonOnn => 0
    case DmPullDown => 1
    case DpPullDown => 2
    case TxResTune => 3
    case TxPreempPulseTune => 4
    case TxPreempAmpTune => 5
    case TxHsxvTune => 6
    case TxRiseTune => 7
    case TxVrefTune => 8
    case TxFslsTune => 9
    case SqRxTune => 10
    case CompdisTune => 11
    case OtgTune => 12
  }

  lemma TableIndexed(i: nat)
    requires i < |PROP_INFO_SET|
    ensures Index(PROP_INFO_SET[i]) == i
  {
    assert i == 0 || i == 1 || i == 2 || i == 3 || i == 4 || i == 5 || i == 6 ||
      i == 7 || i == 8 || i == 9 || i == 10 || i == 11 || i == 12;
  }

  /**
   * One step of the fold seen through field f: the entry at hand adds c
   * when it is f, and f is ahead of that entry exactly when it is that
   * entry or ahead of the next one.
   */
  lemma PackStep(p: bv32, kv: bv32, x: bv32, c: bv32, hit: bool, ahead: bool, ahead1: bool)
    requires p == SetBits(kv, if ahead1 then c else 0)
    requires kv == SetBits(x, if hit then c else 0)
    requires ahead == (hit || ahead1) && !(hit && ahead1)
    ensures p == SetBits(x, if ahead then c else 0)
  {
    if hit {
      OrZero(SetBits(x, c));
    } else {
      OrZero(x);
    }
  }

  /**
   * From entry i on, field f of the result is field f of the start value
   * ORed with f's contribution when f is still ahead in the table.
   */
  lemma {:induction false} PackFromField(props: Props, f: Field, i: nat, value: bv32)
    requires i <= |PROP_INFO_SET|
    ensures KeepBits(PackFrom(props, i, value), Mask(f)) ==
      SetBits(KeepBits(value, Mask(f)), if i <= Index(f) then Contribution(props, f) else 0)
    decreases |PROP_INFO_SET| - i
  {
    if i == |PROP_INFO_SET| {
      OrZero(KeepBits(value, Mask(f)));
    } else {
      var v := ReadParam(props, PROP_INFO_SET[i], value).1;
      PackFromField(props, f, i + 1, v);
      PackFieldStep(props, f, i, value, v, PackFrom(props, i + 1, v));
    }
  }

  /** Entry i's step of PackFromField, given its claim from entry i + 1 on. */
  lemma PackFieldStep(props: Props, f: Field, i: nat, value: bv32, v: bv32, p: bv32)
    requires i < |PROP_INFO_SET| && v == ReadParam(props, PROP_INFO_SET[i], value).1
    requires KeepBits(p, Mask(f)) == SetBits(KeepBits(v, Mask(f)), if i + 1 <= Index(f) then Contribution(props, f) else 0)
    ensures KeepBits(p, Mask(f)) == SetBits(KeepBits(value, Mask(f)), if i <= Index(f) then Contribution(props, f) else 0)
  {
    var g := PROP_INFO_SET[i];
    TableIndexed(i);
    IndexAt(f, g);
    var hit := f == g;
    var ahead := i <= Index(f);
    var ahead1 := i + 1 <= Index(f);
    assert ahead == (hit || ahead1) && !(hit && ahead1);
    ReadParamAdds(props, g, value);
    OrField(props, f, g, value);
    var c := Contribution(props, f);
    assert KeepBits(v, Mask(f)) == SetBits(KeepBits(value, Mask(f)), if hit then c else 0);
    PackStep(KeepBits(p, Mask(f)), KeepBits(v, Mask(f)),
      KeepBits(value, Mask(f)), c, hit, ahead, ahead1);
  }

  /** Two fields share an index only when they are the same field. */
  lemma IndexAt(f: Field, g: Field)
    ensures Index(f) == Index(g) <==> f == g
  {
  }

  /**
   * Each property lands in its own field of the packed word and nowhere
   * else, and bit 0 of the word is clear.
   */
  lemma PackedFields(props: Props, f: Field)
    ensures KeepBits(Packed(props), Mask(f)) == Contribution(props, f)
  {
    PackFromField(props, f, 0, 0);
    var c := Contribution(props, f);
    assert KeepBits(0, Mask(f)) == 0;
    assert SetBits(0, c) == c;
  }

  /** Bit 0 is never set by the fold, from any start value with bit 0 clear. */
  lemma {:induction false} PackFromEnableClear(props: Props, i: nat, value: bv32)
    requires i <= |PROP_INFO_SET|
    requires KeepBits(value, ENABLE_CFG_EN) == 0
    ensures KeepBits(PackFrom(props, i, value), ENABLE_CFG_EN) == 0
    decreases |PROP_INFO_SET| - i
  {
    if i < |PROP_INFO_SET| {
      var g := PROP_INFO_SET[i];
      var v := ReadParam(props, g, value).1;
      if g in props {
        MasksAvoidEnable(g);
        var c := props[g] << Shift(g);
        assert Mask(g) & 1 == 0;
        assert (value | (c & Mask(g))) & 1 == (value & 1) | (c & (Mask(g) & 1));
      }
      PackFromEnableClear(props, i + 1, v);
    }
  }

  /**
   * probe writes the packed word with ENABLE set, once, only when the word
   * is nonzero, and never touches the cached value.
   */
  lemma ProbeWrites(p: Phy, props: Props)
    ensures KeepBits(Packed(props), ENABLE_CFG_EN) == 0
    ensures var r := Probed(p, props);
      r.usbPhyValue == p.usbPhyValue &&
      (Packed(props) == 0 ==> r.io == p.io) &&
      (Packed(props) != 0 ==> r.io.writes == p.io.writes + [Store(PHY_REG, SetBits(Packed(props), ENABLE_CFG_EN))])
  {
    PackFromEnableClear(props, 0, 0);
  }

  /**
   * power_on and power_off set and clear bit 0 of the cached word, write
   * the result, and keep it as the new cache; the other bits are kept.
   */
  lemma PowerCycle(p: Phy)
    ensures PoweredOn(p).io.writes == p.io.writes + [Store(PHY_REG, PoweredOn(p).usbPhyValue)]
    ensures KeepBits(PoweredOn(p).usbPhyValue, ENABLE_CFG_EN) == ENABLE_CFG_EN
    ensures PoweredOff(p).io.writes == p.io.writes + [Store(PHY_REG, PoweredOff(p).usbPhyValue)]
    ensures KeepBits(PoweredOff(p).usbPhyValue, ENABLE_CFG_EN) == 0
    ensures ClearBits(PoweredOn(p).usbPhyValue, ENABLE_CFG_EN) == ClearBits(p.usbPhyValue, ENABLE_CFG_EN)
    ensures ClearBits(PoweredOff(p).usbPhyValue, ENABLE_CFG_EN) == ClearBits(p.usbPhyValue, ENABLE_CFG_EN)
  {
    var x := p.usbPhyValue;
    SetKeeps(x, ENABLE_CFG_EN);
    ClearKeeps(x, ENABLE_CFG_EN);
    ClearAfterSet(x, ENABLE_CFG_EN);
    ClearTwice(x, ENABLE_CFG_EN);
  }

  /**
   * probe does not fill the cache, so on a freshly probed PHY power_on
   * writes ENABLE alone, whatever tuning word probe wrote.
   */
  lemma PowerOnAfterProbe(io: Io, props: Props)
    ensures var r := PoweredOn(Probed(Phy(io, 0), props));
      Readl(r.io, PHY_REG) == ENABLE_CFG_EN && r.usbPhyValue == ENABLE_CFG_EN
  {
    assert SetBits(0, ENABLE_CFG_EN) == ENABLE_CFG_EN;
  }

  // ---- the driver ----

  class Ls2kUsbPhy {
    var io: Io
    var usbPhyValue: bv32

    function Snapshot(): Phy
      reads this
    {
      Phy(io, usbPhyValue)
    }

    /** The private data starts zeroed. */
    constructor(window: Io)
      ensures Snapshot() == Phy(window, 0)
    {
      io := window;
      usbPhyValue := 0;
    }

    method Probe(props: Props) returns (ret: int)
      modifies this
      ensures ret == 0 && Snapshot() == Probed(old(Snapshot()), props)
    {
      var value: bv32 := 0;
      var i := 0;
      while i < |PROP_INFO_SET|
        invariant 0 <= i <= |PROP_INFO_SET|
        invariant PackFrom(props, i, value) == Packed(props)
        invariant Snapshot() == old(Snapshot())
      {
        var res := ReadParam(props, PROP_INFO_SET[i], value);
        value := res.1;
        i := i + 1;
      }
      if value != 0 {
        value := SetBits(value, ENABLE_CFG_EN);
        io := Writel(io, value, PHY_REG);
      }
      return 0;
    }

    method PowerOn() returns (ret: int)
      modifies this
      ensures ret == 0 && Snapshot() == PoweredOn(old(Snapshot()))
    {
      var val := usbPhyValue;
      val := SetBits(val, ENABLE_CFG_EN);
      io := Writel(io, val, PHY_REG);
      usbPhyValue := val;
      return 0;
    }

    method PowerOff() returns (ret: int)
      modifies this
      ensures ret == 0 && Snapshot() == PoweredOff(old(Snapshot()))
    {
      var val := usbPhyValue;
      val := ClearBits(val, ENABLE_CFG_EN);
      io := Writel(io, val, PHY_REG);
      usbPhyValue := val;
      return 0;
    }
  }
}
