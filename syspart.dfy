// The A/B system-partition manager: which of the two root partitions ("1"
// or "4") boots, kept in the u-boot environment (`syspart`, `syspart_last`,
// `syspart_ch`) and mirrored into the board-info store.

module Syspart {
  import opened Opt
  import opened Platform

  const FIRST := "1"
  const SECOND := "4"
  const NAME := "syspart"
  const LAST_NAME := "syspart_last"
  const CH_NAME := "syspart_ch"
  const CH_DISABLE := "0"

  /** The partition that is not `p`: "4" for "1", "1" for anything else. */
  function Other(p: string): (r: string)
    ensures r == FIRST || r == SECOND
    ensures r != p
  {
    if p == FIRST then SECOND else FIRST
  }

  // `es` and `bs` are what env_save and bdinfo_save report; the code ignores
  // both, so they decide only whether the write persists.

  /** setup_syspart_uboot_env on a target: three env writes, then one save. */
  function SetupUboot(st: State, target: string, es: int): State
  {
    SaveVars(SetVar(SetVar(SetVar(st, NAME, target), LAST_NAME, Other(target)), CH_NAME, "0"), es)
  }

  /** setup_syspart_nvme_env on a target: board-info write, then save. */
  function SetupNvme(st: State, target: string, bs: int): State
  {
    SaveBdinfo(st.(bdinfo := st.bdinfo[BdiSyspart := target]), bs)
  }

  /** switch_syspart: unset `syspart` fails with nothing written. */
  function Switch(st: State, es: int, bs: int): (int, State)
  {
    if NAME !in st.vars then (-1, st)
    else
      var t := Other(st.vars[NAME]);
      (0, SetupNvme(SetupUboot(st, t, es), t, bs))
  }

  function SetupCur(st: State, syspart: Option<string>, es: int, bs: int): (int, State)
  {
    match syspart
    case None => (-1, st)
    case Some(t) => (0, SetupNvme(SetupUboot(st, t, es), t, bs))
  }

  function Detect(st: State, bs: int): (int, State)
  {
    if CH_NAME !in st.vars then (-1, st)
    else if st.vars[CH_NAME] == CH_DISABLE then (0, st)
    else if NAME !in st.vars then (-1, st)
    else (0, SetupNvme(st, st.vars[NAME], bs))
  }

  // ---- properties ----

  /**
   * Setting up a target writes syspart = target, syspart_last = the other
   * partition, syspart_ch = "0", persists the whole environment when the
   * save succeeds and keeps the old persisted copy when it fails, and
   * touches nothing else.
   */
  lemma SetupUbootWrites(st: State, target: string, es: int)
    ensures var r := SetupUboot(st, target, es);
      r.vars == st.vars[NAME := target][LAST_NAME := (if target == "1" then "4" else "1")][CH_NAME := "0"] &&
      (es == 0 ==> r.saved == r.vars) && (es != 0 ==> r.saved == st.saved) &&
      r.vars[NAME] != r.vars[LAST_NAME] &&
      r.bdinfo == st.bdinfo && r.bdSaved == st.bdSaved && r.log == st.log && r.wdt == st.wdt
  {
  }

  /** An unset syspart: -1 and nothing written. */
  lemma SwitchUnset(st: State, es: int, bs: int)
    requires NAME !in st.vars
    ensures Switch(st, es, bs) == (-1, st)
  {
  }

  /**
   * A switch maps "1" to "4" and anything else to "1", afterwards syspart
   * and syspart_last differ, and board info records the new partition; each
   * store persists exactly when its own save succeeds, and the result is 0
   * either way, since neither save status is checked.
   */
  lemma SwitchFlips(st: State, es: int, bs: int)
    requires NAME in st.vars
    ensures var (ret, r) := Switch(st, es, bs);
      ret == 0 &&
      r.vars[NAME] == (if st.vars[NAME] == "1" then "4" else "1") &&
      r.vars[NAME] != r.vars[LAST_NAME] && r.vars[CH_NAME] == "0" &&
      (es == 0 ==> r.saved == r.vars) && (es != 0 ==> r.saved == st.saved) &&
      r.bdinfo == st.bdinfo[BdiSyspart := r.vars[NAME]] &&
      (bs == 0 ==> r.bdSaved == r.bdinfo) && (bs != 0 ==> r.bdSaved == st.bdSaved) &&
      r.log == st.log
  {
  }

  /** Two switches from "1" or "4" give the starting partition back. */
  lemma SwitchTwice(st: State, es: int, bs: int, es': int, bs': int)
    requires NAME in st.vars && (st.vars[NAME] == "1" || st.vars[NAME] == "4")
    ensures var r := Switch(Switch(st, es, bs).1, es', bs').1;
      r.vars[NAME] == st.vars[NAME] && r.bdinfo[BdiSyspart] == st.vars[NAME]
  {
    SwitchFlips(st, es, bs);
    SwitchFlips(Switch(st, es, bs).1, es', bs');
  }

  /** Any other value is not restored: a second switch lands on "4". */
  lemma SwitchTwiceFromOther(st: State, es: int, bs: int, es': int, bs': int)
    requires NAME in st.vars && st.vars[NAME] == "2"
    ensures Switch(Switch(st, es, bs).1, es', bs').1.vars[NAME] == "4"
  {
    SwitchFlips(st, es, bs);
    SwitchFlips(Switch(st, es, bs).1, es', bs');
  }

  /**
   * setup_cur_syspart fails only on NULL; otherwise both stores take the
   * target in RAM, and each persists it exactly when its save succeeds.
   */
  lemma SetupCurCases(st: State, syspart: Option<string>, es: int, bs: int)
    ensures SetupCur(st, syspart, es, bs).0 == -1 <==> syspart.None?
    ensures syspart.None? ==> SetupCur(st, syspart, es, bs).1 == st
    ensures syspart.Some? ==> (SetupCur(st, syspart, es, bs).1.vars[NAME] == syspart.value &&
      SetupCur(st, syspart, es, bs).1.bdinfo[BdiSyspart] == syspart.value)
    ensures syspart.Some? && es == 0 ==> SetupCur(st, syspart, es, bs).1.saved[NAME] == syspart.value
    ensures syspart.Some? && es != 0 ==> SetupCur(st, syspart, es, bs).1.saved == st.saved
    ensures syspart.Some? && bs == 0 ==> SetupCur(st, syspart, es, bs).1.bdSaved[BdiSyspart] == syspart.value
    ensures syspart.Some? && bs != 0 ==> SetupCur(st, syspart, es, bs).1.bdSaved == st.bdSaved
  {
  }

  /**
   * detect_user_change_syspart: unset syspart_ch fails, "0" changes nothing,
   * otherwise board info takes the current syspart (persisted exactly when
   * bdinfo_save succeeds) and the env is untouched.
   */
  lemma DetectCases(st: State, bs: int)
    ensures CH_NAME !in st.vars ==> Detect(st, bs) == (-1, st)
    ensures CH_NAME in st.vars && st.vars[CH_NAME] == "0" ==> Detect(st, bs) == (0, st)
    ensures CH_NAME in st.vars && st.vars[CH_NAME] != "0" && NAME in st.vars ==>
      var (ret, r) := Detect(st, bs);
      ret == 0 && r.vars == st.vars && r.saved == st.saved &&
      r.bdinfo == st.bdinfo[BdiSyspart := st.vars[NAME]] &&
      (bs == 0 ==> r.bdSaved == r.bdinfo) && (bs != 0 ==> r.bdSaved == st.bdSaved)
  {
  }

  // ---- the code ----

  /** `es` is what env_save reports; the code ignores it. */
  method SetupSyspartUbootEnv(b: Board, syspart: Option<string>, es: int) returns (ret: int)
    modifies b
    ensures syspart.None? ==> ret == -1 && b.Snapshot() == old(b.Snapshot())
    ensures syspart.Some? ==> ret == 0 && b.Snapshot() == SetupUboot(old(b.Snapshot()), syspart.value, es)
  {
    if syspart.None? {
      return -1;
    }
    var t := syspart.value;
    b.EnvSet(NAME, t);
    if t == FIRST {
      b.EnvSet(LAST_NAME, SECOND);
    } else {
      b.EnvSet(LAST_NAME, FIRST);
    }
    b.EnvSet(CH_NAME, "0");
    var _ := b.EnvSave(es);
    return 0;
  }

  /** `bs` is what bdinfo_save reports; the code ignores it. */
  method SetupSyspartNvmeEnv(b: Board, syspart: Option<string>, bs: int) returns (ret: int)
    modifies b
    ensures syspart.None? ==> ret == -1 && b.Snapshot() == old(b.Snapshot())
    ensures syspart.Some? ==> ret == 0 && b.Snapshot() == SetupNvme(old(b.Snapshot()), syspart.value, bs)
  {
    if syspart.None? {
      return -1;
    }
    b.BdinfoSet(BdiSyspart, syspart.value);
    var _ := b.BdinfoSave(bs);
    return 0;
  }

  method SwitchSyspart(b: Board, es: int, bs: int) returns (ret: int)
    modifies b
    ensures (ret, b.Snapshot()) == Switch(old(b.Snapshot()), es, bs)
  {
    var v := b.EnvGet(NAME);
    if v.None? {
      return -1;
    }
    var t := if v.value == FIRST then SECOND else FIRST;
    ret := SetupSyspartUbootEnv(b, Some(t), es);
    ret := SetupSyspartNvmeEnv(b, Some(t), bs);
    ret := if ret != 0 then -1 else 0;
  }

  method SetupCurSyspart(b: Board, syspart: Option<string>, es: int, bs: int) returns (ret: int)
    modifies b
    ensures (ret, b.Snapshot()) == SetupCur(old(b.Snapshot()), syspart, es, bs)
  {
    if syspart.None? {
      return -1;
    }
    ret := SetupSyspartUbootEnv(b, syspart, es);
    ret := SetupSyspartNvmeEnv(b, syspart, bs);
    ret := if ret != 0 then -1 else 0;
  }

  method DetectUserChangeSyspart(b: Board, bs: int) returns (ret: int)
    modifies b
    ensures (ret, b.Snapshot()) == Detect(old(b.Snapshot()), bs)
  {
    var ch := b.EnvGet(CH_NAME);
    if ch.None? {
      return -1;
    }
    if ch.value == CH_DISABLE {
      return 0;
    }
    var v := b.EnvGet(NAME);
    if v.None? {
      return -1;
    }
    ret := SetupSyspartNvmeEnv(b, v, bs);
    ret := if ret != 0 then -1 else 0;
  }
}
