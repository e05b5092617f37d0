// The endpoint record of general_load
// (board/loongson/common/general_load/gl_target.c, gl_target.h).
//
// A target names one end of a copy: its device class, the partition, the
// backend descriptor opened for it, a format code (filesystem type or
// network protocol) and a symbol (a file path), held in a char[32].

module GlTarget {
  import opened Opt
  import opened CStr
  import MtdGl

  /** enum gl_device_e */
  datatype DeviceType = NoDevice | Ram | Net | Blk | Mtd

  /** The block interface a blk_desc was looked up on. */
  datatype Iface = Mmc | Usb

  /** A partition table entry as part_get_info reports it. */
  datatype PartInfo = PartInfo(start: nat, blksz: nat)

  /**
   * A block device (struct blk_desc): its block size and the partitions
   * part_get_info finds on it; a partition number missing from `parts`
   * is one whose lookup fails.
   */
  datatype BlkDev = BlkDev(iface: Iface, devnum: int, blksz: MtdGl.pos, parts: map<int, PartInfo>)

  /** The backend descriptor behind the target's `void* desc`. */
  datatype Desc =
    | RamDesc                       // the constant (void*)0xff
    | NetDesc(ip: nat)              // struct net_gl_desc: the server address
    | BlkDesc(dev: BlkDev)
    | MtdDesc(mtd: MtdGl.MtdGlDesc)

  /**
   * The services set_device opens descriptors with: string_to_ip, the block
   * device lookup by interface and number, and the flash lookup (which also
   * wraps the device found in a fresh mtd_gl descriptor).
   */
  datatype Backends = Backends(
    stringToIp: string -> nat,
    blkLookup: (Iface, int) -> Option<BlkDev>,
    flashLookup: int -> Option<MtdGl.MtdGlDesc>)

  /** net_gl_init: an address that parses to 0.0.0.0 is refused. */
  function NetInit(b: Backends, ip: string): (r: Option<Desc>)
    ensures r.None? <==> b.stringToIp(ip) == 0
    ensures r.Some? ==> r.value == NetDesc(b.stringToIp(ip))
  {
    var addr := b.stringToIp(ip);
    if addr == 0 then None else Some(NetDesc(addr))
  }

  // ---- gl_atoi ----

  /** End of the run of decimal digits starting at `i`. */
  function DigitsEnd(s: string, i: nat): (j: nat)
    requires i <= |s|
    ensures i <= j <= |s| && AllDigits(s[i..j])
    ensures j == |s| || !IsDigit(s[j])
    decreases |s| - i
  {
    if i == |s| || !IsDigit(s[i]) then i
    else
      var j := DigitsEnd(s, i + 1);
      assert forall k | 0 <= k < j - i :: s[i..j][k] == (if k == 0 then s[i] else s[i + 1..j][k - 1]);
      j
  }

  /**
   * gl_atoi with the accumulator taken from 0: the value of the longest
   * run of digits starting at `start`, and the index of the first
   * character after it (the end of the string stands for its NUL).
   */
  method Atoi(s: string, start: nat) returns (value: nat, end: nat)
    requires start <= |s|
    ensures end == DigitsEnd(s, start)
    ensures value == DecimalValue(s[start..end])
  {
    var c := start;
    value := 0;
    while c < |s| && IsDigit(s[c])
      invariant start <= c <= |s| && AllDigits(s[start..c])
      invariant DigitsEnd(s, start) == DigitsEnd(s, c)
      invariant value == DecimalValue(s[start..c])
      decreases |s| - c
    {
      AtoiStep(s, start, c);
      value := value * 10 + DigitValue(s[c]);
      c := c + 1;
    }
    end := c;
  }

  /** One more digit: the digits read so far grow by it, and so does their value. */
  lemma AtoiStep(s: string, start: nat, c: nat)
    requires start <= c < |s| && IsDigit(s[c]) && AllDigits(s[start..c])
    ensures AllDigits(s[start..c + 1])
    ensures DecimalValue(s[start..c + 1]) == DecimalValue(s[start..c]) * 10 + DigitValue(s[c])
    ensures DigitsEnd(s, c + 1) == DigitsEnd(s, c)
  {
    assert s[start..c + 1] == s[start..c] + [s[c]];
    assert s[start..c + 1][..c - start] == s[start..c];
  }

  /**
   * gl_atoi as written: the accumulator `i` is never initialised, so the
   * digits are folded onto whatever `garbage` the stack slot held.
   */
  function AtoiAsWritten(garbage: int, s: string, i: nat): int
    requires i <= |s|
    decreases |s| - i
  {
    if i == |s| || !IsDigit(s[i]) then garbage
    else AtoiAsWritten(garbage * 10 + DigitValue(s[i]), s, i + 1)
  }

  /** With a stale 1 in the accumulator, "7" reads as 17. */
  lemma AtoiAsWrittenLeaksGarbage()
    ensures AtoiAsWritten(1, "7", 0) == 17
    ensures DecimalValue("7") == 7
  {
    assert "7"[..0] == [];
  }

  /** Digits then a non-digit: the value is the number the digits spell. */
  lemma {:induction false} DigitsEndOfDecimal(n: nat, rest: string)
    requires rest == [] || !IsDigit(rest[0])
    ensures DigitsEnd(DecimalString(n) + rest, 0) == |DecimalString(n)|
    ensures (DecimalString(n) + rest)[0..|DecimalString(n)|] == DecimalString(n)
  {
    var d := DecimalString(n);
    var s := d + rest;
    DigitsEndFrom(s, 0, |d|);
    assert s[0..|d|] == d;
  }

  lemma {:induction false} DigitsEndFrom(s: string, i: nat, j: nat)
    requires i <= j <= |s| && AllDigits(s[i..j]) && (j == |s| || !IsDigit(s[j]))
    ensures DigitsEnd(s, i) == j
    decreases j - i
  {
    if i < j {
      assert s[i] == s[i..j][0];
      assert s[i + 1..j] == s[i..j][1..];
      DigitsEndFrom(s, i + 1, j);
    }
  }

  // ---- gl_get_devnum ----

  /**
   * gl_get_devnum on "N[:P]": the device number N and the partition, which
   * is P after a ':' and the incoming `part` otherwise. A NULL text gives 0
   * and leaves the partition alone.
   */
  function Devnum(s: Option<string>, part: int): (r: (int, int))
  {
    match s
    case None => (0, part)
    case Some(t) =>
      var p := DigitsEnd(t, 0);
      var idx := DecimalValue(t[0..p]);
      if p < |t| && t[p] == ':' then
        var q := DigitsEnd(t, p + 1);
        (idx, DecimalValue(t[p + 1..q]))
      else (idx, part)
  }

  method GetDevnum(s: Option<string>, part: int) returns (idx: int, newPart: int)
    ensures (idx, newPart) == Devnum(s, part)
  {
    newPart := part;
    if s.None? {
      return 0, part;
    }
    var t := s.value;
    var p;
    idx, p := Atoi(t, 0);
    if p < |t| && t[p] == ':' {
      var q;
      newPart, q := Atoi(t, p + 1);
    }
  }

  /** gl_get_devnum on a text whose digit run ends at a ':' followed by a second run. */
  lemma DevnumAtColon(t: string, p: nat, q: nat, part: int)
    requires p < |t| && DigitsEnd(t, 0) == p && t[p] == ':' && DigitsEnd(t, p + 1) == q
    ensures Devnum(Some(t), part) == (DecimalValue(t[0..p]), DecimalValue(t[p + 1..q]))
  {
  }

  /** "N:P" gives back N and P. */
  lemma DevnumWithPart(n: nat, m: nat, part: int)
    ensures Devnum(Some(DecimalString(n) + ":" + DecimalString(m)), part) == (n, m)
  {
    var dn := DecimalString(n);
    var dm := DecimalString(m);
    var t := dn + ":" + dm;
    assert t == dn + (":" + dm);
    DigitsEndOfDecimal(n, ":" + dm);
    assert t[|dn|] == ':';
    assert t[|dn| + 1..] == dm;
    DigitsEndOfDecimal(m, []);
    assert dm + [] == dm;
    DigitsEndShift(t, |dn| + 1);
    DevnumAtColon(t, |dn|, |t|, part);
    assert t[|dn| + 1..|t|] == dm;
    DecimalRoundTrip(n);
    DecimalRoundTrip(m);
  }

  /** "N" alone gives back N and keeps the partition. */
  lemma DevnumWithoutPart(n: nat, part: int)
    ensures Devnum(Some(DecimalString(n)), part) == (n, part)
  {
    var dn := DecimalString(n);
    DigitsEndOfDecimal(n, []);
    assert dn + [] == dn;
    DecimalRoundTrip(n);
  }

  /** The digit run of a suffix is the digit run inside the whole string, shifted. */
  lemma {:induction false} DigitsEndShift(t: string, i: nat)
    requires i <= |t|
    ensures DigitsEnd(t, i) == i + DigitsEnd(t[i..], 0)
    ensures t[i..DigitsEnd(t, i)] == t[i..][0..DigitsEnd(t[i..], 0)]
  {
    var j := DigitsEnd(t[i..], 0);
    assert t[i..][0..j] == t[i..i + j];
    assert i + j == |t| || t[i + j] == t[i..][j];
    DigitsEndFrom(t, i, i + j);
  }

  // ---- the target record ----

  /** What set_device settles on for a known prefix: the class, partition and descriptor. */
  datatype Selection = Selection(kind: DeviceType, part: int, desc: Option<Desc>)

  /** The text after the first `n` characters (the C pointer `s + n`). */
  function After(s: string, n: nat): (r: string)
    ensures |s| >= n ==> r == s[n..]
    ensures |s| < n ==> r == []
  {
    if |s| >= n then s[n..] else []
  }

  /**
   * The prefix dispatch of m__target_set_device: "ram", "net" (the address
   * is read from byte 4 on), "mmc", "usb" (number and partition after 3
   * characters) and "flash" (after 5). Unknown prefixes give None.
   */
  function Select(ifPart: string, b: Backends, part: int): Option<Selection>
  {
    if StartsWith(ifPart, "ram") then Some(Selection(Ram, part, Some(RamDesc)))
    else if StartsWith(ifPart, "net") then Some(Selection(Net, part, NetInit(b, After(ifPart, 4))))
    else if StartsWith(ifPart, "mmc") then
      var (n, p) := Devnum(Some(ifPart[3..]), part);
      Some(Selection(Blk, p, BlkOf(b.blkLookup(Mmc, n))))
    else if StartsWith(ifPart, "usb") then
      var (n, p) := Devnum(Some(ifPart[3..]), part);
      Some(Selection(Blk, p, BlkOf(b.blkLookup(Usb, n))))
    else if StartsWith(ifPart, "flash") then
      var (n, p) := Devnum(Some(ifPart[5..]), part);
      Some(Selection(Mtd, p, MtdOf(b.flashLookup(n))))
    else None
  }

  function BlkOf(d: Option<BlkDev>): (r: Option<Desc>)
    ensures r.Some? <==> d.Some?
    ensures d.Some? ==> r == Some(BlkDesc(d.value))
  {
    if d.Some? then Some(BlkDesc(d.value)) else None
  }

  function MtdOf(d: Option<MtdGl.MtdGlDesc>): (r: Option<Desc>)
    ensures r.Some? <==> d.Some?
    ensures d.Some? ==> r == Some(MtdDesc(d.value))
  {
    if d.Some? then Some(MtdDesc(d.value)) else None
  }

  /** A descriptor of the kind the target's class uses. */
  predicate DescFits(kind: DeviceType, d: Desc)
  {
    match kind
    case NoDevice => false
    case Ram => d.RamDesc?
    case Net => d.NetDesc?
    case Blk => d.BlkDesc?
    case Mtd => d.MtdDesc?
  }

  /**
   * The class follows the prefix; a descriptor, when one was opened, is of
   * that class; and only the five listed prefixes are accepted.
   */
  lemma SelectKinds(ifPart: string, b: Backends, part: int)
    ensures Select(ifPart, b, part).Some? <==>
      StartsWith(ifPart, "ram") || StartsWith(ifPart, "net") || StartsWith(ifPart, "mmc") ||
      StartsWith(ifPart, "usb") || StartsWith(ifPart, "flash")
    ensures var s := Select(ifPart, b, part);
      s.Some? ==>
        s.value.kind != NoDevice &&
        (s.value.desc.Some? ==> DescFits(s.value.kind, s.value.desc.value)) &&
        (s.value.kind == Ram <==> StartsWith(ifPart, "ram")) &&
        (s.value.kind == Net <==> StartsWith(ifPart, "net")) &&
        (s.value.kind == Blk <==> StartsWith(ifPart, "mmc") || StartsWith(ifPart, "usb")) &&
        (s.value.kind == Mtd <==> StartsWith(ifPart, "flash"))
  {
    assert !(StartsWith(ifPart, "ram") && StartsWith(ifPart, "net"));
  }

  /** "mmcN:P" opens MMC device N at partition P. */
  lemma SelectMmc(n: nat, m: nat, b: Backends, part: int)
    ensures Select("mmc" + DecimalString(n) + ":" + DecimalString(m), b, part) ==
      Some(Selection(Blk, m, BlkOf(b.blkLookup(Mmc, n))))
  {
    var dn := DecimalString(n);
    var dm := DecimalString(m);
    SelectMmcText(dn, dm, b, part);
    DevnumWithPart(n, m, part);
  }

  /** Text pieces after "mmc" are what Devnum reads. */
  lemma SelectMmcText(dn: string, dm: string, b: Backends, part: int)
    ensures var (n, p) := Devnum(Some(dn + ":" + dm), part);
      Select("mmc" + dn + ":" + dm, b, part) == Some(Selection(Blk, p, BlkOf(b.blkLookup(Mmc, n))))
  {
    var s := "mmc" + dn + ":" + dm;
    assert s[3..] == dn + ":" + dm;
    assert s[..3] == "mmc";
    SelectMmcPrefix(s, b, part);
  }

  /** Any text starting "mmc" takes the MMC branch on what follows the prefix. */
  lemma SelectMmcPrefix(s: string, b: Backends, part: int)
    requires |s| >= 3 && s[..3] == "mmc"
    ensures var (n, p) := Devnum(Some(s[3..]), part);
      Select(s, b, part) == Some(Selection(Blk, p, BlkOf(b.blkLookup(Mmc, n))))
  {
    assert StartsWith(s, "mmc");
    assert !StartsWith(s, "ram") && !StartsWith(s, "net");
  }

  /**
   * "net:IP" opens a network descriptor for the server address IP parses
   * to, and none when that address is 0.0.0.0; the partition is kept.
   */
  lemma SelectNet(ip: string, b: Backends, part: int)
    ensures var a := b.stringToIp(ip);
      Select("net:" + ip, b, part) == Some(Selection(Net, part, if a == 0 then None else Some(NetDesc(a))))
  {
    var s := "net:" + ip;
    assert s[4..] == ip;
    assert s[..3] == "net" && s[..3] != "ram";
  }

  /** "flashN" opens flash device N and keeps the partition. */
  lemma SelectFlash(n: nat, b: Backends, part: int)
    ensures Select("flash" + DecimalString(n), b, part) == Some(Selection(Mtd, part, MtdOf(b.flashLookup(n))))
  {
    var s := "flash" + DecimalString(n);
    assert s[5..] == DecimalString(n);
    assert s[..5] == "flash";
    assert s[..3] == "fla";
    DevnumWithoutPart(n, part);
  }

  /** A released descriptor or target, in the order destroy_gl_target frees them. */
  datatype Freed = FreedMtd(d: MtdGl.MtdGlDesc) | FreedNet(ip: nat) | FreedTarget(t: Target)

  /** gl_target_s with its private part. */
  class Target {
    var kind: DeviceType
    var part: int
    var desc: Option<Desc>
    var fmt: int
    var symbol: string

    /** new_gl_target: calloc'd, so everything starts zero. */
    constructor ()
      ensures kind == NoDevice && part == 0 && desc.None? && fmt == 0 && symbol == ""
    {
      kind := NoDevice;
      part := 0;
      desc := None;
      fmt := 0;
      symbol := "";
    }

    /**
     * m__target_set_device: only once per target. An unknown prefix changes
     * nothing; a known one sets the class (and partition) even when the
     * descriptor then fails to open, which returns -1.
     */
    method SetDevice(ifPart: string, b: Backends) returns (ret: int)
      modifies this
      ensures old(kind) != NoDevice || old(desc).Some? ==>
        ret == -1 && kind == old(kind) && part == old(part) && desc == old(desc)
      ensures old(kind) == NoDevice && old(desc).None? ==>
        var s := Select(ifPart, b, old(part));
        (s.None? ==> ret == -1 && kind == old(kind) && part == old(part) && desc == old(desc)) &&
        (s.Some? ==> kind == s.value.kind && part == s.value.part && desc == s.value.desc &&
                     ret == (if desc.Some? then 0 else -1))
      ensures fmt == old(fmt) && symbol == old(symbol)
    {
      if kind != NoDevice || desc.Some? {
        return -1;
      }
      if StartsWith(ifPart, "ram") {
        kind := Ram;
        desc := Some(RamDesc);
      } else if StartsWith(ifPart, "net") {
        kind := Net;
        desc := NetInit(b, After(ifPart, 4));
      } else if StartsWith(ifPart, "mmc") {
        kind := Blk;
        var n;
        n, part := GetDevnum(Some(ifPart[3..]), part);
        desc := BlkOf(b.blkLookup(Mmc, n));
      } else if StartsWith(ifPart, "usb") {
        kind := Blk;
        var n;
        n, part := GetDevnum(Some(ifPart[3..]), part);
        desc := BlkOf(b.blkLookup(Usb, n));
      } else if StartsWith(ifPart, "flash") {
        kind := Mtd;
        var n;
        n, part := GetDevnum(Some(ifPart[5..]), part);
        desc := MtdOf(b.flashLookup(n));
      } else {
        return -1;
      }
      if desc.None? {
        return -1;
      }
      return 0;
    }

    /** m__target_set_fmt */
    method SetFmt(f: int)
      modifies this`fmt
      ensures fmt == f
    {
      fmt := f;
    }

    /** m__target_set_symbol: snprintf into char[32]. */
    method SetSymbol(sym: string)
      modifies this`symbol
      ensures symbol == Bounded(32, sym)
    {
      symbol := Bounded(32, sym);
    }
  }

  /**
   * destroy_gl_target: the backend descriptor is released only for flash and
   * network targets (the release functions ignore NULL), then the target.
   */
  function Destroy(t: Target?): (freed: seq<Freed>)
    reads t
    ensures t == null ==> freed == []
    ensures t != null ==> |freed| >= 1 && freed[|freed| - 1] == FreedTarget(t)
    ensures t != null && !(t.kind == Mtd || t.kind == Net) ==> freed == [FreedTarget(t)]
    ensures t != null && t.kind == Mtd && t.desc.Some? && t.desc.value.MtdDesc? ==>
      freed == [FreedMtd(t.desc.value.mtd), FreedTarget(t)]
    ensures t != null && t.kind == Net && t.desc.Some? && t.desc.value.NetDesc? ==>
      freed == [FreedNet(t.desc.value.ip), FreedTarget(t)]
  {
    if t == null then []
    else if t.kind == Mtd && t.desc.Some? && t.desc.value.MtdDesc? then [FreedMtd(t.desc.value.mtd), FreedTarget(t)]
    else if t.kind == Net && t.desc.Some? && t.desc.value.NetDesc? then [FreedNet(t.desc.value.ip), FreedTarget(t)]
    else [FreedTarget(t)]
  }

  /** A symbol set through set_symbol always fits its buffer. */
  lemma SymbolFits(sym: string)
    requires CString(sym)
    ensures Fits(Bounded(32, sym), 32)
    ensures |sym| <= 31 ==> Bounded(32, sym) == sym
  {
    CStringSlice(sym, 0, |Bounded(32, sym)|);
    assert sym[0..|Bounded(32, sym)|] == Bounded(32, sym);
  }
}
