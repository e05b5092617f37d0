// The argument interpreter of the `gl` command
// (board/loongson/common/general_load/cmd_gl_arg.c, cmd_gl_arg_default.h).
//
// The option automaton fills two records, one for the source (--if) and one
// for the destination (--of), each a device, a format and a symbol held in
// 32-byte buffers; the semantic pass completes them from the file name; the
// target step opens the two gl targets from them.

module GlArg {
  import opened Opt
  import opened CStr
  import opened GlTarget
  import GeneralLoad

  /** MAX_CMD_GL_ARGLEN: every record field is a char[32]. */
  const MAX_ARGLEN: nat := 32

  /** u-boot's net.h protocol numbers and fs.h filesystem types used here. */
  const TFTPGET: int := 3
  const DHCP: int := 4
  const FS_TYPE_ANY: int := 0
  const FS_TYPE_FAT: int := 1
  const FS_TYPE_EXT: int := 2

  /** struct cmd_gl_default_s: the defaults the semantic pass fills in. */
  datatype Defaults = Defaults(
    netProto: string, blkPrefix: string, bootDevice: string, rootDevice: string,
    kernelDevice: string, kernelFstype: string, kernelPrefix: string)

  /** The defaults on LS2K300 and LS2P500 boards. */
  const DefaultsEmmc := Defaults("tftp", "/update/", "flash0:1", "mmc0", "mmc0", "ext4", "/boot/")

  /** The defaults on the other boards. */
  const DefaultsScsi := Defaults("tftp", "/update/", "flash0:1", "scsi0", "scsi0", "ext4", "/boot/")

  /** The value of a cmd_gl_arg record. */
  datatype Arg = Arg(device: string, fmt: string, sym: string)

  const Blank := Arg("", "", "")

  predicate ArgFits(a: Arg)
  {
    Fits(a.device, MAX_ARGLEN) && Fits(a.fmt, MAX_ARGLEN) && Fits(a.sym, MAX_ARGLEN)
  }

  /** struct cmd_gl_arg: three char buffers filled in place. */
  class ArgBuf {
    var device: string
    var fmt: string
    var sym: string

    /** `cmd_gl_arg_t x = {0}` */
    constructor ()
      ensures device == "" && fmt == "" && sym == ""
    {
      device := "";
      fmt := "";
      sym := "";
    }

    function Value(): Arg
      reads this
    {
      Arg(device, fmt, sym)
    }
  }

  // ---- find_last_char and strip_file_path ----

  /** find_last_char: the index of the last `c` in the C string `s`, if any. */
  method FindLastChar(s: string, c: char) returns (last: Option<nat>)
    requires CString(s)
    ensures last.Some? ==> (last.value < |s| && s[last.value] == c &&
      forall k | last.value < k < |s| :: s[k] != c)
    ensures last.None? ==> forall k | 0 <= k < |s| :: s[k] != c
  {
    last := None;
    var p := 0;
    while p < |s| && s[p] != '\0'
      invariant p <= |s|
      invariant last.Some? ==> last.value < p && s[last.value] == c && forall k | last.value < k < p :: s[k] != c
      invariant last.None? ==> forall k | 0 <= k < p :: s[k] != c
    {
      if s[p] == c {
        last := Some(p);
      }
      p := p + 1;
    }
  }

  /** The file name of a path: what follows its last '/', or all of it. */
  function Basename(path: string): string
  {
    if path == [] then []
    else if path[|path| - 1] == '/' then []
    else Basename(path[..|path| - 1]) + [path[|path| - 1]]
  }

  /** The basename is what follows the last '/' of the path, and the whole path when it has none. */
  lemma {:induction false} BasenameIsTail(path: string)
    ensures '/' !in path ==> Basename(path) == path
    ensures '/' in path ==> exists k | 0 <= k < |path| :: path[k] == '/' && Basename(path) == path[k + 1..]
    ensures '/' !in Basename(path)
    decreases |path|
  {
    if path != [] {
      var init := path[..|path| - 1];
      var last := path[|path| - 1];
      assert path == init + [last];
      if last != '/' {
        BasenameIsTail(init);
        assert Basename(path) == Basename(init) + [last];
        if '/' in init {
          var k :| 0 <= k < |init| && init[k] == '/' && Basename(init) == init[k + 1..];
          assert path[k] == '/' && path[k + 1..] == init[k + 1..] + [last];
        } else {
          assert '/' !in path;
        }
      } else {
        assert Basename(path) == [] && path[|path| - 1 + 1..] == [];
      }
    }
  }

  /** The tail after the last '/' at `k` is the basename. */
  lemma {:induction false} BasenameAfter(path: string, k: nat)
    requires k < |path| && path[k] == '/' && forall j | k < j < |path| :: path[j] != '/'
    ensures Basename(path) == path[k + 1..]
    decreases |path|
  {
    if k < |path| - 1 {
      var init := path[..|path| - 1];
      BasenameAfter(init, k);
      assert path[k + 1..] == init[k + 1..] + [path[|path| - 1]];
    }
  }

  lemma {:induction false} BasenameWhole(path: string)
    requires forall j | 0 <= j < |path| :: path[j] != '/'
    ensures Basename(path) == path
    decreases |path|
  {
    if path != [] {
      BasenameWhole(path[..|path| - 1]);
      assert path == path[..|path| - 1] + [path[|path| - 1]];
    }
  }

  /**
   * strip_file_path: the file name after the last '/', or the whole path;
   * the result says whether a '/' was found.
   */
  method StripFilePath(path: string) returns (file: string, found: bool)
    requires CString(path)
    ensures file == Basename(path)
    ensures found <==> '/' in path
  {
    var last := FindLastChar(path, '/');
    if last.None? {
      BasenameWhole(path);
      return path, false;
    } else {
      BasenameAfter(path, last.value);
      return path[last.value + 1..], true;
    }
  }

  // ---- cmd_gl_arg_syntax ----

  /** Which record `t` points at. */
  datatype Focus = OnSrc | OnDst

  datatype State = State(src: Arg, dst: Arg, force: bool, extra: nat)

  datatype Parsed = Parsed(ret: int, st: State)

  /** `*extra |= flag` for the single-bit extras. */
  function OrFlag(extra: nat, flag: nat): (r: nat)
    requires flag == GeneralLoad.EXTRA_DECOMPRESS || flag == GeneralLoad.EXTRA_UBOOTSECURE
    ensures GeneralLoad.HasFlag(r, flag)
  {
    if GeneralLoad.HasFlag(extra, flag) then extra else extra + flag
  }

  function Focused(s: State, f: Focus): Arg
  {
    if f == OnSrc then s.src else s.dst
  }

  function Put(s: State, f: Focus, a: Arg): State
  {
    if f == OnSrc then s.(src := a) else s.(dst := a)
  }

  predicate IsOption(t: string)
  {
    t in {"--if", "--of", "--fmt", "--sym", "--decompress", "--ubootsecure", "--force"}
  }

  /**
   * The option automaton from the token cursor on, `f` being the record in
   * focus: --if/--of switch focus and set that record's device from the
   * next token, --fmt/--sym set the focused record's field, the three flag
   * options take no value. A missing value is an error (-1), except after
   * --sym where it ends parsing with 0; an unknown token is an error.
   */
  function Parse(args: seq<string>, f: Focus, s: State): Parsed
    decreases |args|
  {
    if args == [] then Parsed(0, s)
    else
      var t := args[0];
      if t == "--if" || t == "--of" then
        var g := if t == "--if" then OnSrc else OnDst;
        if |args| < 2 then Parsed(-1, s)
        else Parse(args[2..], g, Put(s, g, Focused(s, g).(device := args[1])))
      else if t == "--fmt" then
        if |args| < 2 then Parsed(-1, s)
        else Parse(args[2..], f, Put(s, f, Focused(s, f).(fmt := args[1])))
      else if t == "--sym" then
        if |args| < 2 then Parsed(0, s)
        else Parse(args[2..], f, Put(s, f, Focused(s, f).(sym := args[1])))
      else if t == "--decompress" then Parse(args[1..], f, s.(extra := OrFlag(s.extra, GeneralLoad.EXTRA_DECOMPRESS)))
      else if t == "--ubootsecure" then Parse(args[1..], f, s.(extra := OrFlag(s.extra, GeneralLoad.EXTRA_UBOOTSECURE)))
      else if t == "--force" then Parse(args[1..], f, s.(force := true))
      else Parsed(-1, s)
  }

  /** cmd_gl_arg_syntax: the goto automaton over the token cursor `a` and the focus pointer `t`. */
  method Syntax(args: seq<string>, ifArg: ArgBuf, ofArg: ArgBuf, force: bool, extra: nat)
    returns (ret: int, forceOut: bool, extraOut: nat)
    requires ifArg != ofArg
    modifies ifArg, ofArg
    ensures Parsed(ret, State(ifArg.Value(), ofArg.Value(), forceOut, extraOut)) ==
      Parse(args, OnSrc, State(old(ifArg.Value()), old(ofArg.Value()), force, extra))
  {
    ghost var whole := Parse(args, OnSrc, State(ifArg.Value(), ofArg.Value(), force, extra));
    var a := 0;
    var t := ifArg;
    forceOut, extraOut := force, extra;
    while a < |args|
      invariant a <= |args| && (t == ifArg || t == ofArg)
      invariant whole == Parse(args[a..], if t == ifArg then OnSrc else OnDst,
                               State(ifArg.Value(), ofArg.Value(), forceOut, extraOut))
      decreases |args| - a
    {
      var tok := args[a];
      assert args[a..][1..] == args[a + 1..];
      if tok == "--if" || tok == "--of" {
        t := if tok == "--if" then ifArg else ofArg;
        a := a + 1;
        if a >= |args| {
          return -1, forceOut, extraOut;
        }
        assert args[a - 1..][2..] == args[a + 1..];
        t.device := args[a];
        a := a + 1;
      } else if tok == "--fmt" {
        a := a + 1;
        if a >= |args| {
          return -1, forceOut, extraOut;
        }
        assert args[a - 1..][2..] == args[a + 1..];
        t.fmt := args[a];
        a := a + 1;
      } else if tok == "--sym" {
        a := a + 1;
        if a >= |args| {
          return 0, forceOut, extraOut;
        }
        assert args[a - 1..][2..] == args[a + 1..];
        t.sym := args[a];
        a := a + 1;
      } else if tok == "--decompress" {
        extraOut := OrFlag(extraOut, GeneralLoad.EXTRA_DECOMPRESS);
        a := a + 1;
      } else if tok == "--ubootsecure" {
        extraOut := OrFlag(extraOut, GeneralLoad.EXTRA_UBOOTSECURE);
        a := a + 1;
      } else if tok == "--force" {
        forceOut := true;
        a := a + 1;
      } else {
        return -1, forceOut, extraOut;
      }
    }
    return 0, forceOut, extraOut;
  }

  /** The automaton returns 0 or -1. */
  lemma {:induction false} ParseRet(args: seq<string>, f: Focus, s: State)
    ensures Parse(args, f, s).ret == 0 || Parse(args, f, s).ret == -1
    decreases |args|
  {
    if args != [] {
      var t := args[0];
      if t == "--if" || t == "--of" {
        if |args| >= 2 {
          var g := if t == "--if" then OnSrc else OnDst;
          ParseRet(args[2..], g, Put(s, g, Focused(s, g).(device := args[1])));
        }
      } else if t == "--fmt" || t == "--sym" {
        if |args| >= 2 {
          var a := if t == "--fmt" then Focused(s, f).(fmt := args[1]) else Focused(s, f).(sym := args[1]);
          ParseRet(args[2..], f, Put(s, f, a));
        }
      } else if t == "--decompress" {
        ParseRet(args[1..], f, s.(extra := OrFlag(s.extra, GeneralLoad.EXTRA_DECOMPRESS)));
      } else if t == "--ubootsecure" {
        ParseRet(args[1..], f, s.(extra := OrFlag(s.extra, GeneralLoad.EXTRA_UBOOTSECURE)));
      } else if t == "--force" {
        ParseRet(args[1..], f, s.(force := true));
      }
    }
  }

  /**
   * The record out of focus changes only after the option that switches to
   * it: with no --of token the destination record keeps its value, and
   * from the destination with no --if token the source record does.
   */
  lemma {:induction false} UnfocusedKept(args: seq<string>, f: Focus, s: State)
    requires f == OnSrc ==> "--of" !in args
    requires f == OnDst ==> "--if" !in args
    ensures f == OnSrc ==> Parse(args, f, s).st.dst == s.dst
    ensures f == OnDst ==> Parse(args, f, s).st.src == s.src
    decreases |args|
  {
    if args != [] {
      var t := args[0];
      if t == "--if" || t == "--of" {
        if |args| >= 2 {
          var g := if t == "--if" then OnSrc else OnDst;
          assert g == f;
          assert forall x | x in args[2..] :: x in args;
          UnfocusedKept(args[2..], g, Put(s, g, Focused(s, g).(device := args[1])));
        }
      } else if t == "--fmt" || t == "--sym" {
        if |args| >= 2 {
          assert forall x | x in args[2..] :: x in args;
          var a := if t == "--fmt" then Focused(s, f).(fmt := args[1]) else Focused(s, f).(sym := args[1]);
          UnfocusedKept(args[2..], f, Put(s, f, a));
        }
      } else {
        assert forall x | x in args[1..] :: x in args;
        UnfocusedKept(args[1..], f, s.(extra := OrFlag(s.extra, GeneralLoad.EXTRA_DECOMPRESS)));
        UnfocusedKept(args[1..], f, s.(extra := OrFlag(s.extra, GeneralLoad.EXTRA_UBOOTSECURE)));
        UnfocusedKept(args[1..], f, s.(force := true));
      }
    }
  }

  /** The flag options only ever add: the extras given and force stay set. */
  lemma {:induction false} FlagsKept(args: seq<string>, f: Focus, s: State, flag: nat)
    requires flag == GeneralLoad.EXTRA_DECOMPRESS || flag == GeneralLoad.EXTRA_UBOOTSECURE
    ensures GeneralLoad.HasFlag(s.extra, flag) ==> GeneralLoad.HasFlag(Parse(args, f, s).st.extra, flag)
    ensures s.force ==> Parse(args, f, s).st.force
    decreases |args|
  {
    if args != [] {
      var t := args[0];
      if t == "--if" || t == "--of" {
        if |args| >= 2 {
          var g := if t == "--if" then OnSrc else OnDst;
          FlagsKept(args[2..], g, Put(s, g, Focused(s, g).(device := args[1])), flag);
        }
      } else if t == "--fmt" || t == "--sym" {
        if |args| >= 2 {
          var a := if t == "--fmt" then Focused(s, f).(fmt := args[1]) else Focused(s, f).(sym := args[1]);
          FlagsKept(args[2..], f, Put(s, f, a), flag);
        }
      } else if t == "--decompress" {
        var e := OrFlag(s.extra, GeneralLoad.EXTRA_DECOMPRESS);
        OrKeeps(s.extra, GeneralLoad.EXTRA_DECOMPRESS, flag);
        FlagsKept(args[1..], f, s.(extra := e), flag);
      } else if t == "--ubootsecure" {
        var e := OrFlag(s.extra, GeneralLoad.EXTRA_UBOOTSECURE);
        OrKeeps(s.extra, GeneralLoad.EXTRA_UBOOTSECURE, flag);
        FlagsKept(args[1..], f, s.(extra := e), flag);
      } else if t == "--force" {
        FlagsKept(args[1..], f, s.(force := true), flag);
      }
    }
  }

  /** Setting one flag keeps the other. */
  lemma OrKeeps(extra: nat, given: nat, other: nat)
    requires given == GeneralLoad.EXTRA_DECOMPRESS || given == GeneralLoad.EXTRA_UBOOTSECURE
    requires other == GeneralLoad.EXTRA_DECOMPRESS || other == GeneralLoad.EXTRA_UBOOTSECURE
    ensures GeneralLoad.HasFlag(extra, other) ==> GeneralLoad.HasFlag(OrFlag(extra, given), other)
  {
    if !GeneralLoad.HasFlag(extra, given) && given != other {
      if given == GeneralLoad.EXTRA_DECOMPRESS {
        assert extra % 2 == 0;
        AddOneHalf(extra);
      } else {
        AddTwoParity(extra);
      }
    }
  }

  lemma AddOneHalf(e: nat)
    requires e % 2 == 0
    ensures (e + 1) / 2 == e / 2
  {
  }

  lemma AddTwoParity(e: nat)
    ensures (e + 2) / 1 % 2 == e / 1 % 2
  {
  }

  /** A flag option repeated right away changes nothing. */
  lemma RepeatedFlag(t: string, rest: seq<string>, f: Focus, s: State)
    requires t == "--decompress" || t == "--ubootsecure" || t == "--force"
    ensures Parse([t, t] + rest, f, s) == Parse([t] + rest, f, s)
  {
    assert ([t, t] + rest)[1..] == [t] + rest;
    assert ([t] + rest)[1..] == rest;
  }

  /** The options that want a value fail without one, except --sym. */
  lemma MissingValue(opt: string, f: Focus, s: State)
    requires opt == "--if" || opt == "--of" || opt == "--fmt" || opt == "--sym"
    ensures Parse([opt], f, s) == Parsed(if opt == "--sym" then 0 else -1, s)
  {
  }

  /** An unknown token fails at once, whatever follows it. */
  lemma UnknownToken(t: string, rest: seq<string>, f: Focus, s: State)
    requires !IsOption(t)
    ensures Parse([t] + rest, f, s) == Parsed(-1, s)
  {
  }

  /** --fmt and --sym write to the record --if or --of last put in focus, starting with the source. */
  lemma FocusExample(d: string, fm: string, sy: string, s: State)
    ensures Parse(["--fmt", fm, "--of", d, "--sym", sy], OnSrc, s) ==
      Parsed(0, s.(src := s.src.(fmt := fm), dst := s.dst.(device := d, sym := sy)))
  {
    var args := ["--fmt", fm, "--of", d, "--sym", sy];
    var s1 := s.(src := s.src.(fmt := fm));
    var s2 := s1.(dst := s.dst.(device := d));
    var s3 := s2.(dst := s.dst.(device := d, sym := sy));
    assert args[2..] == ["--of", d, "--sym", sy];
    assert args[2..][2..] == ["--sym", sy];
    assert args[2..][2..][2..] == [];
    assert Parse(["--sym", sy], OnDst, s2) == Parse([], OnDst, s3) == Parsed(0, s3);
    assert Parse(["--of", d, "--sym", sy], OnSrc, s1) == Parse(["--sym", sy], OnDst, s2);
  }

  // ---- load_from_external_device ----

  /**
   * What the fill consults: the serverip variable, whether usb device 0
   * and mmc device 1 exist and carry a partition table, and the name of the
   * filesystem fs_set_blk_dev finds on an interface and device.
   */
  datatype ExtEnv = ExtEnv(serverip: string, usb0: Option<bool>, mmc1: Option<bool>, fsTypeName: (string, string) -> string)

  /**
   * load_from_external_device: complete a network, usb or mmc record,
   * pointing a block device's symbol at the update directory.
   */
  function External(a: Arg, filename: string, d: Defaults, env: ExtEnv): (int, Arg)
  {
    if StartsWith(a.device, "net") then
      var dev := if |a.device| == 3 then "net:" + env.serverip else a.device;
      (0, a.(device := dev, fmt := if a.fmt == "" then d.netProto else a.fmt))
    else if StartsWith(a.device, "usb") then
      if |a.device| == 3 && env.usb0.None? then (-1, a)
      else
        var dev := if |a.device| == 3 then (if env.usb0.value then "usb0:1" else "usb0") else a.device;
        var fmt := if a.fmt == "" then env.fsTypeName("usb", dev[3..]) else a.fmt;
        (0, Arg(dev, fmt, Bounded(MAX_ARGLEN, d.blkPrefix + filename)))
    else if StartsWith(a.device, "mmc") then
      if |a.device| == 4 && env.mmc1.None? then (-1, a)
      else
        var dev := if |a.device| == 4 && env.mmc1.value then a.device + ":1" else a.device;
        var fmt := if a.fmt == "" then env.fsTypeName("mmc", dev[3..]) else a.fmt;
        (0, Arg(dev, fmt, Bounded(MAX_ARGLEN, d.blkPrefix + filename)))
    else (-1, a)
  }

  method ExternalFill(arg: ArgBuf, filename: string, d: Defaults, env: ExtEnv) returns (ret: int)
    modifies arg
    ensures (ret, arg.Value()) == External(old(arg.Value()), filename, d, env)
  {
    var dev := arg.device;
    if StartsWith(dev, "net") {
      if |dev| == 3 {
        arg.device := "net:" + env.serverip;
      }
      if arg.fmt == "" {
        arg.fmt := d.netProto;
      }
    } else if StartsWith(dev, "usb") {
      if |dev| == 3 {
        if env.usb0.None? {
          return -1;
        }
        arg.device := if env.usb0.value then "usb0:1" else "usb0";
      }
      if arg.fmt == "" {
        arg.fmt := env.fsTypeName("usb", arg.device[3..]);
      }
      arg.sym := Bounded(MAX_ARGLEN, d.blkPrefix + filename);
    } else if StartsWith(dev, "mmc") {
      if |dev| == 4 {
        if env.mmc1.None? {
          return -1;
        }
        if env.mmc1.value {
          arg.device := dev + ":1";
        }
      }
      if arg.fmt == "" {
        arg.fmt := env.fsTypeName("mmc", arg.device[3..]);
      }
      arg.sym := Bounded(MAX_ARGLEN, d.blkPrefix + filename);
    } else {
      return -1;
    }
    return 0;
  }

  /**
   * The fill's outcomes: a bare "net" gets the server address and an empty
   * format the default protocol, the symbol untouched; a bare "usb" becomes
   * "usb0" or "usb0:1" by the partition table, and fails with nothing
   * changed when there is no usb device; "mmcN" gains ":1" only with a
   * partition table; a block symbol becomes the update directory plus the
   * file name, cut to 31 characters; any other device fails unchanged.
   */
  lemma ExternalCases(a: Arg, filename: string, d: Defaults, env: ExtEnv)
    ensures var (r, b) := External(a, filename, d, env);
      (r == 0 || r == -1) && (r == -1 ==> b == a) &&
      (a.device == "net" ==> (r == 0 && b.device == "net:" + env.serverip && b.sym == a.sym &&
        b.fmt == (if a.fmt == "" then d.netProto else a.fmt))) &&
      (a.device == "usb" ==> ((r == -1 <==> env.usb0.None?) &&
        (r == 0 ==> b.device == (if env.usb0.value then "usb0:1" else "usb0")))) &&
      (StartsWith(a.device, "mmc") && |a.device| == 4 && env.mmc1.Some? ==>
        r == 0 && b.device == (if env.mmc1.value then a.device + ":1" else a.device)) &&
      ((StartsWith(a.device, "usb") || StartsWith(a.device, "mmc")) && r == 0 ==>
        b.sym == Bounded(MAX_ARGLEN, d.blkPrefix + filename) && |b.sym| < MAX_ARGLEN &&
        (|d.blkPrefix + filename| < MAX_ARGLEN ==> b.sym == d.blkPrefix + filename)) &&
      (!StartsWith(a.device, "net") && !StartsWith(a.device, "usb") && !StartsWith(a.device, "mmc") ==> r == -1)
  {
    assert StartsWith("net", "net") && StartsWith("usb", "usb");
  }

  // ---- cmd_gl_arg_semantic ----

  /** The recognised file names, tested in this order. */
  datatype Kind = Kernel | Rootfs | Uboot | Other

  /** strncmp over 6, 5 and 6 characters: "rootf" is enough for a root filesystem. */
  function KindOf(base: string): Kind
  {
    if StartsWith(base, "uImage") then Kernel
    else if StartsWith(base, "rootf") then Rootfs
    else if StartsWith(base, "u-boot") then Uboot
    else Other
  }

  datatype Sem = Sem(ret: int, src: Arg, dst: Arg)

  /** cmd_gl_arg_semantic on the two records' values. */
  function Semantic(src: Arg, dst: Arg, force: bool, d: Defaults, env: ExtEnv): Sem
  {
    if force then Sem(0, src, dst)
    else if src.sym == "" then Sem(-1, src, dst)
    else
      var base := Basename(src.sym);
      match KindOf(base)
      case Other => Sem(0, src, dst)
      case Kernel =>
        var kernel := Arg(d.kernelDevice, d.kernelFstype, Bounded(MAX_ARGLEN, d.kernelPrefix + base));
        if src.device == "" || src.device == d.kernelDevice then Sem(0, kernel, dst.(device := "ram"))
        else Sem(0, External(src, base, d, env).1, kernel)
      case Rootfs => Sem(0, External(src, base, d, env).1, Arg(d.rootDevice, "", ""))
      case Uboot => Sem(0, External(src, base, d, env).1, Arg(d.bootDevice, "", ""))
  }

  /** cmd_gl_arg_semantic, completing the records in place. */
  method SemanticFill(ifArg: ArgBuf, ofArg: ArgBuf, force: bool, d: Defaults, env: ExtEnv) returns (ret: int)
    requires ifArg != ofArg && Fits(ifArg.sym, MAX_ARGLEN)
    modifies ifArg, ofArg
    ensures Sem(ret, ifArg.Value(), ofArg.Value()) == Semantic(old(ifArg.Value()), old(ofArg.Value()), force, d, env)
  {
    if force {
      return 0;
    }
    if ifArg.sym == "" {
      return -1;
    }
    var sym, _ := StripFilePath(ifArg.sym);
    var kind := KindOf(sym);
    if kind == Other {
      return 0;
    }
    if kind == Kernel {
      var arg: ArgBuf;
      if ifArg.device == "" || ifArg.device == d.kernelDevice {
        arg := ifArg;
        ofArg.device := "ram";
      } else {
        arg := ofArg;
        var _ := ExternalFill(ifArg, sym, d, env);
      }
      arg.device := d.kernelDevice;
      arg.fmt := d.kernelFstype;
      arg.sym := Bounded(MAX_ARGLEN, d.kernelPrefix + sym);
      return 0;
    }
    ofArg.device := if kind == Rootfs then d.rootDevice else d.bootDevice;
    var _ := ExternalFill(ifArg, sym, d, env);
    ofArg.sym := "";
    ofArg.fmt := "";
    return 0;
  }

  /**
   * The semantic pass: force or an unrecognised file name changes nothing
   * and succeeds; an empty source symbol is the only failure; a kernel
   * loaded from the internal disk goes to RAM from the kernel device's
   * boot directory; a root filesystem or u-boot image is burned to the
   * default root or boot device with no format and no symbol.
   */
  lemma SemanticCases(src: Arg, dst: Arg, force: bool, d: Defaults, env: ExtEnv)
    ensures var r := Semantic(src, dst, force, d, env);
      (r.ret == -1 <==> !force && src.sym == "") && (r.ret == 0 || r.ret == -1) &&
      (force || r.ret == -1 ==> r.src == src && r.dst == dst) &&
      (!force && src.sym != "" ==>
        var base := Basename(src.sym);
        (KindOf(base) == Other ==> r.src == src && r.dst == dst) &&
        (KindOf(base) == Kernel && (src.device == "" || src.device == d.kernelDevice) ==>
          r.dst == dst.(device := "ram") &&
          r.src == Arg(d.kernelDevice, d.kernelFstype, Bounded(MAX_ARGLEN, d.kernelPrefix + base))) &&
        (KindOf(base) == Kernel && !(src.device == "" || src.device == d.kernelDevice) ==>
          r.dst == Arg(d.kernelDevice, d.kernelFstype, Bounded(MAX_ARGLEN, d.kernelPrefix + base)) &&
          r.src == External(src, base, d, env).1) &&
        (KindOf(base) == Rootfs ==> r.dst == Arg(d.rootDevice, "", "")) &&
        (KindOf(base) == Uboot ==> r.dst == Arg(d.bootDevice, "", "")))
  {
  }

  /** "rootf" is compared over five characters only, so "rootfoo" counts as a root filesystem. */
  lemma RootfsOverFive()
    ensures KindOf("rootfoo") == Rootfs && KindOf("uImag") == Other && KindOf("/uImage") == Other
  {
    assert "rootfoo"[..5] == "rootf";
    assert "rootfoo"[..6][0] == 'r';
    assert "/uImage"[..6][0] == '/' && "/uImage"[..5][0] == '/';
  }

  // ---- cmd_gl_arg_target ----

  /** The fmt text's protocol or filesystem code; None is "not supported". */
  function FmtCode(fmt: string): Option<int>
  {
    if fmt == "tftp" then Some(TFTPGET)
    else if fmt == "dhcp" then Some(DHCP)
    else if fmt == "ext4" then Some(FS_TYPE_EXT)
    else if fmt == "vfat" || fmt == "fat32" || fmt == "fat" then Some(FS_TYPE_FAT)
    else None
  }

  /** Only the six fmt names are accepted, onto four distinct codes. */
  lemma FmtCodes(fmt: string)
    ensures FmtCode(fmt).Some? <==> fmt in {"tftp", "dhcp", "ext4", "vfat", "fat32", "fat"}
    ensures FmtCode(fmt) == Some(FS_TYPE_FAT) <==> fmt in {"vfat", "fat32", "fat"}
    ensures FmtCode(fmt).Some? ==> FmtCode(fmt).value in {TFTPGET, DHCP, FS_TYPE_EXT, FS_TYPE_FAT}
  {
  }

  /**
   * cmd_gl_arg_target succeeds on a target in the state (kind, desc, part):
   * the target was not set yet, the device text has a known prefix whose
   * descriptor opens, and the fmt text is empty or supported.
   */
  predicate Opens(a: Arg, kind: DeviceType, desc: Option<Desc>, part: int, b: Backends)
  {
    var s := Select(a.device, b, part);
    kind == NoDevice && desc.None? && s.Some? && s.value.desc.Some? && (a.fmt == "" || FmtCode(a.fmt).Some?)
  }

  /**
   * The target as cmd_gl_arg_target leaves it from partition `part`, fmt
   * code `fmt` and symbol `sym`: class, partition and descriptor from the
   * device text, the fmt text's code unless empty, the symbol (cut to 31
   * characters) unless empty.
   */
  predicate Opened(a: Arg, t: Target, part: int, fmt: int, sym: string, b: Backends)
    reads t
  {
    var s := Select(a.device, b, part);
    s.Some? && t.kind == s.value.kind && t.part == s.value.part && t.desc == s.value.desc &&
    (a.fmt == "" ==> t.fmt == fmt) && (a.fmt != "" ==> FmtCode(a.fmt) == Some(t.fmt)) &&
    t.symbol == (if a.sym == "" then sym else Bounded(32, a.sym))
  }

  /**
   * cmd_gl_arg_target: open the target from the record's device, then set
   * its fmt code (when the text is not empty) and its symbol (when not
   * empty). An unsupported fmt fails after the device was already set.
   */
  method ArgTarget(a: Arg, target: Target, b: Backends) returns (ret: int)
    modifies target
    ensures ret == 0 || ret == -1
    ensures ret == 0 <==> Opens(a, old(target.kind), old(target.desc), old(target.part), b)
    ensures ret == 0 ==> Opened(a, target, old(target.part), old(target.fmt), old(target.symbol), b)
  {
    var r := target.SetDevice(a.device, b);
    if r != 0 {
      return -1;
    }
    if a.fmt != "" {
      var code := FmtCode(a.fmt);
      if code.None? {
        return -1;
      }
      target.SetFmt(code.value);
    }
    if a.sym != "" {
      target.SetSymbol(a.sym);
    }
    return 0;
  }

  // ---- cmd_gl_parse ----

  /**
   * cmd_gl_parse. `extra` is the caller's variable: the automaton ORs into
   * it whatever happens next.
   */
  method GlParse(args: seq<string>, src: Target, dest: Target, extra: nat, d: Defaults, env: ExtEnv, b: Backends)
    returns (ret: int, extraOut: nat)
    requires src != dest
    requires forall k | 0 <= k < |args| :: Fits(args[k], MAX_ARGLEN)
    modifies src, dest
    ensures ret == 0 || ret == -1
    ensures var p := Parse(args, OnSrc, State(Blank, Blank, false, extra));
      extraOut == p.st.extra &&
      (p.ret != 0 ==> ret == -1 && unchanged(src, dest)) &&
      (p.ret == 0 && Semantic(p.st.src, p.st.dst, p.st.force, d, env).ret != 0 ==> ret == -1 && unchanged(src, dest)) &&
      (ret == 0 ==> (p.ret == 0 &&
        var sem := Semantic(p.st.src, p.st.dst, p.st.force, d, env);
        sem.ret == 0 &&
        Select(sem.src.device, b, old(src.part)).Some? && src.kind == Select(sem.src.device, b, old(src.part)).value.kind &&
        Select(sem.dst.device, b, old(dest.part)).Some? && dest.kind == Select(sem.dst.device, b, old(dest.part)).value.kind))
    ensures var p := Parse(args, OnSrc, State(Blank, Blank, false, extra));
      var sem := Semantic(p.st.src, p.st.dst, p.st.force, d, env);
      ret == 0 <==>
        p.ret == 0 && sem.ret == 0 && Opens(sem.src, old(src.kind), old(src.desc), old(src.part), b) &&
        Opens(sem.dst, old(dest.kind), old(dest.desc), old(dest.part), b)
    ensures var p := Parse(args, OnSrc, State(Blank, Blank, false, extra));
      var sem := Semantic(p.st.src, p.st.dst, p.st.force, d, env);
      ret == 0 ==>
        Opened(sem.src, src, old(src.part), old(src.fmt), old(src.symbol), b) &&
        Opened(sem.dst, dest, old(dest.part), old(dest.fmt), old(dest.symbol), b)
  {
    var ifArg := new ArgBuf();
    var ofArg := new ArgBuf();
    var r, force;
    r, force, extraOut := Syntax(args, ifArg, ofArg, false, extra);
    if r != 0 {
      return -1, extraOut;
    }
    ParsedFits(args, OnSrc, State(Blank, Blank, false, extra));
    r := SemanticFill(ifArg, ofArg, force, d, env);
    if r != 0 {
      return -1, extraOut;
    }
    r := ArgTarget(ifArg.Value(), src, b);
    if r != 0 {
      return -1, extraOut;
    }
    r := ArgTarget(ofArg.Value(), dest, b);
    if r != 0 {
      return -1, extraOut;
    }
    return 0, extraOut;
  }

  /** Tokens that fit their buffers leave records whose fields fit. */
  lemma {:induction false} ParsedFits(args: seq<string>, f: Focus, s: State)
    requires forall k | 0 <= k < |args| :: Fits(args[k], MAX_ARGLEN)
    requires ArgFits(s.src) && ArgFits(s.dst)
    ensures ArgFits(Parse(args, f, s).st.src) && ArgFits(Parse(args, f, s).st.dst)
    decreases |args|
  {
    if args != [] {
      var t := args[0];
      if |args| >= 2 {
        assert forall k | 0 <= k < |args[2..]| :: args[2..][k] == args[k + 2];
      }
      assert forall k | 0 <= k < |args[1..]| :: args[1..][k] == args[k + 1];
      if t == "--if" || t == "--of" {
        if |args| >= 2 {
          var g := if t == "--if" then OnSrc else OnDst;
          ParsedFits(args[2..], g, Put(s, g, Focused(s, g).(device := args[1])));
        }
      } else if t == "--fmt" || t == "--sym" {
        if |args| >= 2 {
          var a := if t == "--fmt" then Focused(s, f).(fmt := args[1]) else Focused(s, f).(sym := args[1]);
          ParsedFits(args[2..], f, Put(s, f, a));
        }
      } else if t == "--decompress" {
        ParsedFits(args[1..], f, s.(extra := OrFlag(s.extra, GeneralLoad.EXTRA_DECOMPRESS)));
      } else if t == "--ubootsecure" {
        ParsedFits(args[1..], f, s.(extra := OrFlag(s.extra, GeneralLoad.EXTRA_UBOOTSECURE)));
      } else if t == "--force" {
        ParsedFits(args[1..], f, s.(force := true));
      }
    }
  }
}
