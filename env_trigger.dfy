// One-shot environment triggers. Each `ls_trigger_*` variable defaults to
// "0"; a different value asks for one action (select the boot medium,
// update kernel, rootfs or u-boot, or step the A/B fallback). The variable
// is reset to "0" and saved before the action runs, so the action happens
// once.

module EnvTrigger {
  import opened Opt
  import opened CStr
  import opened Platform
  import Syspart

  const NAMES: seq<string> := ["ls_trigger_boot", "ls_trigger_u_kernel", "ls_trigger_u_rootfs",
                               "ls_trigger_u_uboot", "ls_trigger_ab_sys_status"]
  const COUNT := 5
  const DEFAULT := "0"
  /** LS_WDT_DEFAULT_TIMEOUT_MS */
  const WDT_TIMEOUT_MS := 34000
  const BOOT := 0
  const KERNEL := 1
  const ROOTFS := 2
  const UBOOT := 3
  const AB := 4

  /** The boot scripts the board configuration may define (NAND_BOOT_ENV and friends). */
  datatype Scripts = Scripts(nand: Option<string>, sata: Option<string>, emmc: Option<string>, sdcard: Option<string>)

  /**
   * What the environment does not decide: the status `run_command` returns
   * for each command text, the env_save and bdinfo_save statuses the A/B
   * partition switch meets, and the configured scripts.
   */
  datatype Io = Io(rc: string -> int, envStatus: int, bdStatus: int, scripts: Scripts)

  // ---- the specification ----

  /**
   * trigger_first_check: copy the value into the 32-byte buffer; the default
   * gives 1; otherwise reset the variable to the default and save, giving 0
   * or -1 by the command's status (a failed save leaves the persisted copy).
   */
  function FirstCheck(i: nat, st: State, rc: string -> int): (int, string, State)
    requires i < COUNT && NAMES[i] in st.vars
  {
    var v := st.vars[NAMES[i]];
    if v == DEFAULT then (1, Bounded(32, v), st)
    else
      var c := SetSave(NAMES[i], DEFAULT);
      var r := rc(Text(c));
      (if r != 0 then -1 else 0, Bounded(32, v), Apply(st, c, r))
  }

  function BootScript(v: string, sc: Scripts): Option<string>
  {
    if v == "nand" then sc.nand
    else if v == "ssd" then sc.sata
    else if v == "mmc" then sc.emmc
    else if v == "mmc0" then sc.emmc
    else if v == "mmc1" then sc.sdcard
    else None
  }

  function KernelCommand(v: string): Option<string>
  {
    if v == "nandusb" then Some("loongson_update usb kernel nand")
    else if v == "nandtftp" then Some("loongson_update tftp kernel nand")
    else if v == "ssdusb" then Some("loongson_update usb kernel sata")
    else if v == "ssdtftp" then Some("loongson_update tftp kernel sata")
    else None
  }

  function RootfsCommand(v: string): Option<string>
  {
    if v == "nandusb" then Some("loongson_update usb rootfs nand")
    else if v == "nandtftp" then Some("loongson_update tftp rootfs nand")
    else if v == "ssdusb" then Some("recover usb")
    else if v == "ssdtftp" then Some("recover tftp")
    else None
  }

  function UbootCommand(v: string): Option<string>
  {
    if v == "usb" then Some("loongson_update usb uboot")
    else if v == "tftp" then Some("loongson_update tftp uboot")
    else None
  }

  /** Run the command of an accepted value; an unaccepted value gives -1. */
  function RunOpt(cmd: Option<string>, st: State, rc: string -> int): (int, State)
  {
    match cmd
    case None => (-1, st)
    case Some(t) => (rc(t), Apply(st, Shell(t), rc(t)))
  }

  /** The A/B status step after the reset. */
  function AbStep(v: string, st: State, io: Io): (int, State)
  {
    if v == "boot1" then
      var c := SetSave(NAMES[AB], "boot2");
      (io.rc(Text(c)), Apply(st, c, io.rc(Text(c))))
    else if v == "boot1_wdt" then
      var c := SetSave(NAMES[AB], "boot2");
      (io.rc(Text(c)), Apply(st.(wdt := st.wdt + [WDT_TIMEOUT_MS]), c, io.rc(Text(c))))
    else if v == "boot2" then
      var c := SetSave(NAMES[AB], "boot4");
      (io.rc(Text(c)), Apply(Syspart.Switch(st, io.envStatus, io.bdStatus).1, c, io.rc(Text(c))))
    else if v == "boot4" then (0, st)
    else (-1, st)
  }

  /** What the handler of trigger `i` does once the value is non-default. */
  function Act(i: nat, v: string, st: State, io: Io): (int, State)
    requires i < COUNT
  {
    if i == BOOT then RunOpt(BootScript(v, io.scripts), st, io.rc)
    else if i == KERNEL then RunOpt(KernelCommand(v), st, io.rc)
    else if i == ROOTFS then RunOpt(RootfsCommand(v), st, io.rc)
    else if i == UBOOT then
      (match UbootCommand(v)
       case None => (-1, st)
       case Some(t) => (io.rc("reset"), Apply(Apply(st, Shell(t), io.rc(t)), Shell("reset"), io.rc("reset"))))
    else AbStep(v, st, io)
  }

  /** The handler of trigger `i` (loongson_handle_*). */
  function Handle(i: nat, st: State, io: Io): (int, State)
    requires i < COUNT && NAMES[i] in st.vars
  {
    var (r, v, s) := FirstCheck(i, st, io.rc);
    if r == -1 then (-1, s) else if r == 1 then (0, s) else Act(i, v, s, io)
  }

  /** loongson_trigger_init over the first `k` names: (state, save_target). */
  function InitUpTo(st: State, k: nat, rc: string -> int): (State, bool)
    requires k <= COUNT
  {
    if k == 0 then (st, false)
    else
      var (s, f) := InitUpTo(st, k - 1, rc);
      if NAMES[k - 1] !in s.vars then
        var c := SetEnv(NAMES[k - 1], DEFAULT);
        (Apply(s, c, rc(Text(c))), true)
      else (s, f)
  }

  function Init(st: State, rc: string -> int): State
  {
    var (s, f) := InitUpTo(st, COUNT, rc);
    if f then Apply(s, SaveEnv, rc(Text(SaveEnv))) else s
  }

  /** do_loongson_env_trigger. */
  function Command(argv: seq<string>, st: State, io: Io): (int, State)
    requires |argv| == 2 && argv[1] in NAMES ==> argv[1] in st.vars
  {
    if |argv| != 2 then (-1, st)
    else if argv[1] == "init" then (0, Init(st, io.rc))
    else if argv[1] in NAMES then Handle(IndexOf(argv[1]), st, io)
    else (-1, st)
  }

  function IndexOf(n: string): (i: nat)
    requires n in NAMES
    ensures i < COUNT && NAMES[i] == n
    ensures forall j | 0 <= j < i :: NAMES[j] != n
  {
    if n == NAMES[0] then 0 else if n == NAMES[1] then 1 else if n == NAMES[2] then 2
    else if n == NAMES[3] then 3 else 4
  }

  // ---- properties ----

  /** A value at least 32 characters long never equals a short literal after the copy. */
  lemma BoundedLiteral(v: string, lit: string)
    requires |lit| < 31
    ensures Bounded(32, v) == lit <==> v == lit
  {
  }

  /** A trigger at its default does nothing and succeeds. */
  lemma DefaultDoesNothing(i: nat, st: State, io: Io)
    requires i < COUNT && NAMES[i] in st.vars && st.vars[NAMES[i]] == DEFAULT
    ensures Handle(i, st, io) == (0, st)
  {
  }

  lemma ActKeepsLog(i: nat, v: string, st: State, io: Io)
    requires i < COUNT
    ensures |Act(i, v, st, io).1.log| >= |st.log| && Act(i, v, st, io).1.log[..|st.log|] == st.log
  {
    var r := Act(i, v, st, io).1;
    if i == AB && v == "boot2" {
      assert Syspart.Switch(st, io.envStatus, io.bdStatus).1.log == st.log;
    }
    assert r.log[..|st.log|] == st.log;
  }

  /**
   * Any other value: the reset to "0" with save is the first command issued,
   * before any action; when that command fails, nothing else runs and -1 is
   * returned.
   */
  lemma ResetComesFirst(i: nat, st: State, io: Io)
    requires i < COUNT && NAMES[i] in st.vars && st.vars[NAMES[i]] != DEFAULT
    ensures var r := Handle(i, st, io).1;
      |r.log| > |st.log| && r.log[..|st.log| + 1] == st.log + [Text(SetSave(NAMES[i], DEFAULT))]
    ensures io.rc(Text(SetSave(NAMES[i], DEFAULT))) != 0 ==>
      Handle(i, st, io) == (-1, Apply(st, SetSave(NAMES[i], DEFAULT), io.rc(Text(SetSave(NAMES[i], DEFAULT)))))
  {
    var s := Apply(st, SetSave(NAMES[i], DEFAULT), io.rc(Text(SetSave(NAMES[i], DEFAULT))));
    if io.rc(Text(SetSave(NAMES[i], DEFAULT))) == 0 {
      ActKeepsLog(i, Bounded(32, st.vars[NAMES[i]]), s, io);
      assert Handle(i, st, io).1.log[..|s.log|] == s.log;
      assert Handle(i, st, io).1.log[..|st.log| + 1] == Handle(i, st, io).1.log[..|s.log|];
    }
  }

  /**
   * Once handled, the boot and update triggers read "0" in RAM, so handling
   * them again does nothing; the saved environment reads "0" too when the
   * reset's save succeeded, and is left as it was when it failed (so the
   * trigger fires again after a power cycle).
   */
  lemma FiresOnce(i: nat, st: State, io: Io)
    requires i < AB && NAMES[i] in st.vars
    ensures var r := Handle(i, st, io).1;
      NAMES[i] in r.vars && r.vars[NAMES[i]] == DEFAULT &&
      (st.vars[NAMES[i]] != DEFAULT && io.rc(Text(SetSave(NAMES[i], DEFAULT))) == 0 ==>
         NAMES[i] in r.saved && r.saved[NAMES[i]] == DEFAULT) &&
      (io.rc(Text(SetSave(NAMES[i], DEFAULT))) != 0 ==> r.saved == st.saved) &&
      Handle(i, r, io) == (0, r)
  {
    var v := st.vars[NAMES[i]];
    if v != DEFAULT {
      var rc := io.rc(Text(SetSave(NAMES[i], DEFAULT)));
      var s := Apply(st, SetSave(NAMES[i], DEFAULT), rc);
      assert s.vars == st.vars[NAMES[i] := DEFAULT];
      assert rc == 0 ==> s.saved == s.vars;
      assert rc != 0 ==> s.saved == st.saved;
      ActKeepsEnv(i, Bounded(32, v), s, io);
    }
    HandledIdle(i, Handle(i, st, io).1, io);
  }

  /** The actions of the boot and update triggers run commands and leave the environment alone. */
  lemma ActKeepsEnv(i: nat, v: string, st: State, io: Io)
    requires i < AB
    ensures Act(i, v, st, io).1.vars == st.vars && Act(i, v, st, io).1.saved == st.saved
  {
    if i == BOOT {
      RunOptKeepsEnv(BootScript(v, io.scripts), st, io.rc);
    } else if i == KERNEL {
      RunOptKeepsEnv(KernelCommand(v), st, io.rc);
    } else if i == ROOTFS {
      RunOptKeepsEnv(RootfsCommand(v), st, io.rc);
    } else if UbootCommand(v).Some? {
      var t := UbootCommand(v).value;
      assert Apply(Apply(st, Shell(t), io.rc(t)), Shell("reset"), io.rc("reset")).vars == st.vars;
    }
  }

  lemma RunOptKeepsEnv(cmd: Option<string>, st: State, rc: string -> int)
    ensures RunOpt(cmd, st, rc).1.vars == st.vars && RunOpt(cmd, st, rc).1.saved == st.saved
  {
  }

  /** A trigger reading "0" is left as it is. */
  lemma HandledIdle(i: nat, st: State, io: Io)
    requires i < COUNT && NAMES[i] in st.vars && st.vars[NAMES[i]] == DEFAULT
    ensures Handle(i, st, io) == (0, st)
  {
  }

  /**
   * The boot trigger accepts exactly nand, ssd, mmc, mmc0 and mmc1, with mmc
   * and mmc0 running the same script; any other value, or a value whose script
   * is not configured, gives -1 after the reset.
   */
  lemma BootValues(v: string, st: State, io: Io)
    ensures BootScript(Bounded(32, v), io.scripts).Some? <==>
      (v == "nand" && io.scripts.nand.Some?) || (v == "ssd" && io.scripts.sata.Some?) ||
      ((v == "mmc" || v == "mmc0") && io.scripts.emmc.Some?) || (v == "mmc1" && io.scripts.sdcard.Some?)
    ensures Act(BOOT, "mmc", st, io) == Act(BOOT, "mmc0", st, io)
    ensures BootScript(Bounded(32, v), io.scripts).None? ==> Act(BOOT, Bounded(32, v), st, io) == (-1, st)
  {
    BoundedLiteral(v, "nand");
    BoundedLiteral(v, "ssd");
    BoundedLiteral(v, "mmc");
    BoundedLiteral(v, "mmc0");
    BoundedLiteral(v, "mmc1");
  }

  /** The kernel and the rootfs triggers accept exactly nandusb, nandtftp, ssdusb and ssdtftp. */
  lemma UpdateValues(v: string)
    ensures KernelCommand(Bounded(32, v)).Some? <==> v in ["nandusb", "nandtftp", "ssdusb", "ssdtftp"]
    ensures RootfsCommand(Bounded(32, v)).Some? <==> v in ["nandusb", "nandtftp", "ssdusb", "ssdtftp"]
  {
    BoundedLiteral(v, "nandusb");
    BoundedLiteral(v, "nandtftp");
    BoundedLiteral(v, "ssdusb");
    BoundedLiteral(v, "ssdtftp");
  }

  /**
   * The u-boot trigger accepts usb and tftp; after the update it always runs
   * "reset" and returns the reset's status in place of the update's.
   */
  lemma UbootResets(v: string, st: State, io: Io)
    ensures UbootCommand(Bounded(32, v)).Some? <==> (v == "usb" || v == "tftp")
    ensures var (ret, r) := Act(UBOOT, Bounded(32, v), st, io);
      if v == "usb" || v == "tftp" then
        ret == io.rc("reset") && r.log == st.log + [UbootCommand(v).value, "reset"]
      else ret == -1 && r == st
  {
    BoundedLiteral(v, "usb");
    BoundedLiteral(v, "tftp");
  }

  /**
   * The A/B status steps: boot1 becomes boot2; boot1_wdt starts the 34 s
   * watchdog, then becomes boot2; boot2 switches the system partition, then
   * becomes boot4; boot4 stays at the "0" just written; anything else gives
   * -1. A step whose "setenv ...;saveenv" succeeds has persisted the whole
   * environment; one that fails has left the persisted copy as it was before
   * that command.
   */
  lemma AbTransitions(v: string, st: State, io: Io)
    ensures var (ret, r) := AbStep(v, st, io);
      (v == "boot1" ==> (r.vars[NAMES[AB]] == "boot2" && r.wdt == st.wdt &&
         (ret == 0 ==> r.saved == r.vars) && (ret != 0 ==> r.saved == st.saved))) &&
      (v == "boot1_wdt" ==> (r.vars[NAMES[AB]] == "boot2" && r.wdt == st.wdt + [34000] &&
         (ret == 0 ==> r.saved == r.vars) && (ret != 0 ==> r.saved == st.saved))) &&
      (v == "boot2" ==> (r.vars[NAMES[AB]] == "boot4" &&
         (ret == 0 ==> r.saved == r.vars) &&
         (ret != 0 ==> r.saved == Syspart.Switch(st, io.envStatus, io.bdStatus).1.saved) &&
         r.bdinfo == Syspart.Switch(st, io.envStatus, io.bdStatus).1.bdinfo &&
         r.bdSaved == Syspart.Switch(st, io.envStatus, io.bdStatus).1.bdSaved &&
         (Syspart.NAME in st.vars ==> r.vars[Syspart.NAME] == Syspart.Other(st.vars[Syspart.NAME])))) &&
      (v == "boot4" ==> ret == 0 && r == st) &&
      (v !in ["boot1", "boot1_wdt", "boot2", "boot4"] ==> ret == -1 && r == st)
  {
    if v == "boot2" {
      assert NAMES[AB] != Syspart.NAME;
    }
  }

  /** With the reset done, the A/B trigger returns to "0" after boot4. */
  lemma AbBoot4Ends(st: State, io: Io)
    requires NAMES[AB] in st.vars && st.vars[NAMES[AB]] == "boot4"
    requires io.rc(Text(SetSave(NAMES[AB], DEFAULT))) == 0
    ensures Handle(AB, st, io) == (0, Apply(st, SetSave(NAMES[AB], DEFAULT), 0))
    ensures Handle(AB, st, io).1.vars[NAMES[AB]] == DEFAULT
  {
  }

  /** The command texts init issues for the missing names among the first `k`. */
  function MissingCommands(vars: map<string, string>, k: nat): seq<string>
    requires k <= COUNT
  {
    if k == 0 then []
    else MissingCommands(vars, k - 1) + (if NAMES[k - 1] !in vars then ["setenv " + NAMES[k - 1] + " 0"] else [])
  }

  lemma NamesDistinct(j: nat, k: nat)
    requires j < COUNT && k < COUNT && j != k
    ensures NAMES[j] != NAMES[k]
  {
    assert NAMES[0][13] == 'o' && NAMES[1][13] == 'k' && NAMES[2][13] == 'r' && NAMES[3][13] == 'u' && NAMES[4][13] == '_';
  }

  /** Init only adds variables and logs commands. */
  lemma {:induction false} InitUpToFrame(st: State, k: nat, rc: string -> int)
    requires k <= COUNT
    ensures var s := InitUpTo(st, k, rc).0;
      (forall n | n in st.vars :: n in s.vars && s.vars[n] == st.vars[n]) &&
      s.saved == st.saved && s.bdinfo == st.bdinfo && s.bdSaved == st.bdSaved && s.wdt == st.wdt &&
      s.boardType == st.boardType
  {
    if k > 0 {
      InitUpToFrame(st, k - 1, rc);
    }
  }

  /** A name not yet processed is present exactly when it was present at the start. */
  lemma {:induction false} InitUpToLater(st: State, k: nat, m: nat, rc: string -> int)
    requires k <= m < COUNT
    ensures NAMES[m] in InitUpTo(st, k, rc).0.vars <==> NAMES[m] in st.vars
  {
    if k > 0 {
      InitUpToLater(st, k - 1, m, rc);
      NamesDistinct(k - 1, m);
    }
  }

  lemma {:induction false} InitUpToLog(st: State, k: nat, rc: string -> int)
    requires k <= COUNT
    ensures InitUpTo(st, k, rc).0.log == st.log + MissingCommands(st.vars, k)
    ensures InitUpTo(st, k, rc).1 <==> exists j | 0 <= j < k :: NAMES[j] !in st.vars
  {
    if k > 0 {
      InitUpToLog(st, k - 1, rc);
      InitUpToLater(st, k - 1, k - 1, rc);
      var (s, f) := InitUpTo(st, k - 1, rc);
      var (s', f') := InitUpTo(st, k, rc);
      InitLogStep(st, k, rc, s, f, s', f');
    }
  }

  /** One more name: its command is logged, and the flag set, exactly when it was missing. */
  lemma InitLogStep(st: State, k: nat, rc: string -> int, s: State, f: bool, s': State, f': bool)
    requires 0 < k <= COUNT
    requires (s, f) == InitUpTo(st, k - 1, rc) && (s', f') == InitUpTo(st, k, rc)
    requires s.log == st.log + MissingCommands(st.vars, k - 1)
    requires f <==> exists j | 0 <= j < k - 1 :: NAMES[j] !in st.vars
    requires NAMES[k - 1] in s.vars <==> NAMES[k - 1] in st.vars
    ensures s'.log == st.log + MissingCommands(st.vars, k)
    ensures f' <==> exists j | 0 <= j < k :: NAMES[j] !in st.vars
  {
    SetEnvText(NAMES[k - 1]);
    var extra := if NAMES[k - 1] !in st.vars then ["setenv " + NAMES[k - 1] + " 0"] else [];
    assert MissingCommands(st.vars, k) == MissingCommands(st.vars, k - 1) + extra;
    assert s'.log == s.log + extra;
    if f' && !f {
      assert NAMES[k - 1] !in st.vars;
    }
    if exists j | 0 <= j < k :: NAMES[j] !in st.vars {
      var j :| 0 <= j < k && NAMES[j] !in st.vars;
      if j < k - 1 {
        assert f;
      }
    }
  }

  lemma SetEnvText(n: string)
    ensures Text(SetEnv(n, DEFAULT)) == "setenv " + n + " 0"
  {
  }

  lemma {:induction false} InitUpToFills(st: State, k: nat, rc: string -> int)
    requires k <= COUNT
    ensures var s := InitUpTo(st, k, rc).0;
      forall j | 0 <= j < k :: NAMES[j] in s.vars && (NAMES[j] !in st.vars ==> s.vars[NAMES[j]] == DEFAULT)
  {
    if k > 0 {
      InitUpToFills(st, k - 1, rc);
      InitUpToLater(st, k - 1, k - 1, rc);
      var s := InitUpTo(st, k - 1, rc).0;
      forall j | 0 <= j < k - 1
        ensures NAMES[j] != NAMES[k - 1]
      {
        NamesDistinct(j, k - 1);
      }
    }
  }

  /**
   * init gives every missing trigger the value "0", keeps the present ones,
   * and saves exactly once, and only when at least one was missing; the
   * save persists the environment when "saveenv" succeeds and leaves the old
   * persisted copy when it fails.
   */
  lemma InitSpec(st: State, rc: string -> int)
    ensures var r := Init(st, rc);
      (forall j | 0 <= j < COUNT :: NAMES[j] in r.vars && (NAMES[j] !in st.vars ==> r.vars[NAMES[j]] == DEFAULT)) &&
      (forall n | n in st.vars :: n in r.vars && r.vars[n] == st.vars[n]) &&
      ((exists j | 0 <= j < COUNT :: NAMES[j] !in st.vars) ==>
         r.log == st.log + MissingCommands(st.vars, COUNT) + ["saveenv"] &&
         (rc("saveenv") == 0 ==> r.saved == r.vars) && (rc("saveenv") != 0 ==> r.saved == st.saved)) &&
      ((forall j | 0 <= j < COUNT :: NAMES[j] in st.vars) ==> r == st)
  {
    InitUpToFrame(st, COUNT, rc);
    InitUpToLog(st, COUNT, rc);
    InitUpToFills(st, COUNT, rc);
    if forall j | 0 <= j < COUNT :: NAMES[j] in st.vars {
      InitUpToUnchanged(st, COUNT, rc);
    }
  }

  lemma {:induction false} InitUpToUnchanged(st: State, k: nat, rc: string -> int)
    requires k <= COUNT && forall j | 0 <= j < COUNT :: NAMES[j] in st.vars
    ensures InitUpTo(st, k, rc) == (st, false)
  {
    if k > 0 {
      InitUpToUnchanged(st, k - 1, rc);
    }
  }

  /** The command fails for a wrong argument count or an unknown trigger name, changing nothing. */
  lemma CommandErrors(argv: seq<string>, st: State, io: Io)
    requires |argv| != 2 || (argv[1] != "init" && argv[1] !in NAMES)
    ensures Command(argv, st, io) == (-1, st)
  {
  }

  // ---- the code ----

  method TriggerFirstCheck(b: Board, i: nat, rc: string -> int) returns (ret: int, bak: string)
    requires i < COUNT && NAMES[i] in b.vars
    modifies b
    ensures (ret, bak, b.Snapshot()) == FirstCheck(i, old(b.Snapshot()), rc)
  {
    var name := NAMES[i];
    var v := b.vars[name];
    bak := Bounded(32, v);
    if v == DEFAULT {
      return 1, bak;
    }
    var r := b.RunCommand(SetSave(name, DEFAULT), rc);
    ret := if r != 0 then -1 else 0;
  }

  method HandleBootChange(b: Board, io: Io) returns (ret: int)
    requires NAMES[BOOT] in b.vars
    modifies b
    ensures (ret, b.Snapshot()) == Handle(BOOT, old(b.Snapshot()), io)
  {
    var r, v := TriggerFirstCheck(b, BOOT, io.rc);
    if r == -1 {
      return -1;
    } else if r == 1 {
      return 0;
    }
    var script := BootScript(v, io.scripts);
    if script.None? {
      return -1;
    }
    ret := b.RunCommand(Shell(script.value), io.rc);
  }

  method HandleUpdateKernelChange(b: Board, io: Io) returns (ret: int)
    requires NAMES[KERNEL] in b.vars
    modifies b
    ensures (ret, b.Snapshot()) == Handle(KERNEL, old(b.Snapshot()), io)
  {
    var r, v := TriggerFirstCheck(b, KERNEL, io.rc);
    if r == -1 {
      return -1;
    } else if r == 1 {
      return 0;
    }
    var cmd := KernelCommand(v);
    if cmd.None? {
      return -1;
    }
    ret := b.RunCommand(Shell(cmd.value), io.rc);
  }

  method HandleUpdateRootfsChange(b: Board, io: Io) returns (ret: int)
    requires NAMES[ROOTFS] in b.vars
    modifies b
    ensures (ret, b.Snapshot()) == Handle(ROOTFS, old(b.Snapshot()), io)
  {
    var r, v := TriggerFirstCheck(b, ROOTFS, io.rc);
    if r == -1 {
      return -1;
    } else if r == 1 {
      return 0;
    }
    var cmd := RootfsCommand(v);
    if cmd.None? {
      return -1;
    }
    ret := b.RunCommand(Shell(cmd.value), io.rc);
  }

  method HandleUpdateUbootChange(b: Board, io: Io) returns (ret: int)
    requires NAMES[UBOOT] in b.vars
    modifies b
    ensures (ret, b.Snapshot()) == Handle(UBOOT, old(b.Snapshot()), io)
  {
    var r, v := TriggerFirstCheck(b, UBOOT, io.rc);
    if r == -1 {
      return -1;
    } else if r == 1 {
      return 0;
    }
    var cmd := UbootCommand(v);
    if cmd.None? {
      return -1;
    }
    ret := b.RunCommand(Shell(cmd.value), io.rc);
    ret := b.RunCommand(Shell("reset"), io.rc);
  }

  method HandleAbSysStatusChange(b: Board, io: Io) returns (ret: int)
    requires NAMES[AB] in b.vars
    modifies b
    ensures (ret, b.Snapshot()) == Handle(AB, old(b.Snapshot()), io)
  {
    var r, v := TriggerFirstCheck(b, AB, io.rc);
    if r == -1 {
      return -1;
    } else if r == 1 {
      return 0;
    }
    ret := 0;
    if v == "boot1" {
      ret := b.RunCommand(SetSave(NAMES[AB], "boot2"), io.rc);
    } else if v == "boot1_wdt" {
      b.WdtStart(WDT_TIMEOUT_MS);
      ret := b.RunCommand(SetSave(NAMES[AB], "boot2"), io.rc);
    } else if v == "boot2" {
      var _ := Syspart.SwitchSyspart(b, io.envStatus, io.bdStatus);
      ret := b.RunCommand(SetSave(NAMES[AB], "boot4"), io.rc);
    } else if v == "boot4" {
      ret := 0;
    } else {
      return -1;
    }
  }

  method TriggerInit(b: Board, rc: string -> int)
    modifies b
    ensures b.Snapshot() == Init(old(b.Snapshot()), rc)
  {
    var saveTarget := false;
    for index := 0 to COUNT
      invariant (b.Snapshot(), saveTarget) == InitUpTo(old(b.Snapshot()), index, rc)
    {
      var v := b.EnvGet(NAMES[index]);
      if v.None? {
        var _ := b.RunCommand(SetEnv(NAMES[index], DEFAULT), rc);
        saveTarget := true;
      }
    }
    if saveTarget {
      var _ := b.RunCommand(SaveEnv, rc);
    }
  }

  method Dispatch(b: Board, i: nat, io: Io) returns (ret: int)
    requires i < COUNT && NAMES[i] in b.vars
    modifies b
    ensures (ret, b.Snapshot()) == Handle(i, old(b.Snapshot()), io)
  {
    if i == BOOT {
      ret := HandleBootChange(b, io);
    } else if i == KERNEL {
      ret := HandleUpdateKernelChange(b, io);
    } else if i == ROOTFS {
      ret := HandleUpdateRootfsChange(b, io);
    } else if i == UBOOT {
      ret := HandleUpdateUbootChange(b, io);
    } else {
      ret := HandleAbSysStatusChange(b, io);
    }
  }

  method DoLoongsonEnvTrigger(b: Board, argv: seq<string>, io: Io) returns (ret: int)
    requires |argv| == 2 && argv[1] in NAMES ==> argv[1] in b.vars
    modifies b
    ensures (ret, b.Snapshot()) == Command(argv, old(b.Snapshot()), io)
  {
    ret := -1;
    if |argv| != 2 {
      return;
    }
    if argv[1] == "init" {
      TriggerInit(b, io.rc);
      ret := 0;
    } else {
      var index := 0;
      while index < COUNT
        invariant 0 <= index <= COUNT
        invariant forall j | 0 <= j < index :: NAMES[j] != argv[1]
        invariant b.Snapshot() == old(b.Snapshot()) && ret == -1
      {
        if argv[1] == NAMES[index] {
          ret := Dispatch(b, index, io);
          return;
        }
        index := index + 1;
      }
    }
  }
}
