// The firmware services the board logic drives: the u-boot environment
// (RAM copy and persisted copy), the board-info store, shell commands run by
// `run_command`, the watchdog start hook and the global board type.
//
// `run_command` is interpreted only for the `setenv`/`saveenv` strings the
// board code builds itself; every command is logged, and its return value is
// an input (`rc`), since the shell is not part of this model. A save
// persists the RAM copy only when its status is 0; a failed one leaves the
// persisted copy as it was.

module Platform {
  import opened Opt

  /** Keys of the board-info store this model uses. */
  datatype BdiId = BdiName | BdiSyspart

  /** Commands given to `run_command`. */
  datatype Command =
    | SetSave(name: string, value: string)   // "setenv N V;saveenv"
    | SetEnv(name: string, value: string)    // "setenv N V"
    | SaveEnv                                // "saveenv"
    | Shell(text: string)                    // any other command text

  function Text(c: Command): string
  {
    match c
    case SetSave(n, v) => "setenv " + n + " " + v + ";saveenv"
    case SetEnv(n, v) => "setenv " + n + " " + v
    case SaveEnv => "saveenv"
    case Shell(t) => t
  }

  /** Everything the board logic can change. */
  datatype State = State(
    vars: map<string, string>, saved: map<string, string>,
    bdinfo: map<BdiId, string>, bdSaved: map<BdiId, string>,
    log: seq<string>, wdt: seq<int>, boardType: int)

  function SetVar(st: State, name: string, value: string): (r: State)
    ensures r.vars == st.vars[name := value]
  {
    st.(vars := st.vars[name := value])
  }

  /** env_save with the status the storage reports: only a save that succeeds persists. */
  function SaveVars(st: State, status: int): (r: State)
    ensures status == 0 ==> r.saved == st.vars
    ensures status != 0 ==> r.saved == st.saved
    ensures r.vars == st.vars && r.bdinfo == st.bdinfo && r.bdSaved == st.bdSaved && r.log == st.log
  {
    if status == 0 then st.(saved := st.vars) else st
  }

  /** bdinfo_save with the status the storage reports. */
  function SaveBdinfo(st: State, status: int): (r: State)
    ensures status == 0 ==> r.bdSaved == st.bdinfo
    ensures status != 0 ==> r.bdSaved == st.bdSaved
    ensures r.vars == st.vars && r.saved == st.saved && r.bdinfo == st.bdinfo && r.log == st.log
  {
    if status == 0 then st.(bdSaved := st.bdinfo) else st
  }

  /**
   * The effect of a command whose run returned `rc`: it is logged, and the
   * env commands act on the env. The `setenv` of "setenv N V;saveenv" is
   * taken to succeed, so a nonzero `rc` is its save failing.
   */
  function Apply(st: State, c: Command, rc: int): (r: State)
    ensures r.log == st.log + [Text(c)]
    ensures r.bdinfo == st.bdinfo && r.bdSaved == st.bdSaved && r.wdt == st.wdt && r.boardType == st.boardType
  {
    var s := st.(log := st.log + [Text(c)]);
    match c
    case SetSave(n, v) => SaveVars(SetVar(s, n, v), rc)
    case SetEnv(n, v) => SetVar(s, n, v)
    case SaveEnv => SaveVars(s, rc)
    case Shell(_) => s
  }

  class Board {
    var vars: map<string, string>
    var saved: map<string, string>
    var bdinfo: map<BdiId, string>
    var bdSaved: map<BdiId, string>
    var log: seq<string>
    var wdt: seq<int>
    /** gd->board_type */
    var boardType: int

    constructor (vars: map<string, string>, bdinfo: map<BdiId, string>)
      ensures Snapshot() == State(vars, vars, bdinfo, bdinfo, [], [], 0)
    {
      this.vars := vars;
      saved := vars;
      this.bdinfo := bdinfo;
      bdSaved := bdinfo;
      log := [];
      wdt := [];
      boardType := 0;
    }

    function Snapshot(): State
      reads this
    {
      State(vars, saved, bdinfo, bdSaved, log, wdt, boardType)
    }

    /** env_get: the value, or None (NULL) when unset. */
    function EnvGet(name: string): Option<string>
      reads this
    {
      if name in vars then Some(vars[name]) else None
    }

    method EnvSet(name: string, value: string)
      modifies this
      ensures Snapshot() == SetVar(old(Snapshot()), name, value)
    {
      vars := vars[name := value];
    }

    /** env_save; its status comes from the storage and is an input. */
    method EnvSave(status: int) returns (ret: int)
      modifies this
      ensures ret == status
      ensures Snapshot() == SaveVars(old(Snapshot()), status)
    {
      if status == 0 {
        saved := vars;
      }
      ret := status;
    }

    function BdinfoGet(id: BdiId): Option<string>
      reads this
    {
      if id in bdinfo then Some(bdinfo[id]) else None
    }

    method BdinfoSet(id: BdiId, value: string)
      modifies this
      ensures Snapshot() == old(Snapshot()).(bdinfo := old(bdinfo)[id := value])
    {
      bdinfo := bdinfo[id := value];
    }

    /** bdinfo_save; its status comes from the storage and is an input. */
    method BdinfoSave(status: int) returns (ret: int)
      modifies this
      ensures ret == status
      ensures Snapshot() == SaveBdinfo(old(Snapshot()), status)
    {
      if status == 0 {
        bdSaved := bdinfo;
      }
      ret := status;
    }

    method RunCommand(c: Command, rc: string -> int) returns (ret: int)
      modifies this
      ensures ret == rc(Text(c))
      ensures Snapshot() == Apply(old(Snapshot()), c, ret)
    {
      ret := rc(Text(c));
      log := log + [Text(c)];
      match c {
        case SetSave(n, v) =>
          vars := vars[n := v];
          if ret == 0 {
            saved := vars;
          }
        case SetEnv(n, v) =>
          vars := vars[n := v];
        case SaveEnv =>
          if ret == 0 {
            saved := vars;
          }
        case Shell(_) =>
      }
    }

    /** ls_wdt_start(ms): recorded; its result is not used by the callers modelled. */
    method WdtStart(ms: int)
      modifies this
      ensures Snapshot() == old(Snapshot()).(wdt := old(wdt) + [ms])
    {
      wdt := wdt + [ms];
    }

    method SetBoardType(t: int)
      modifies this
      ensures Snapshot() == old(Snapshot()).(boardType := t)
    {
      boardType := t;
    }
  }
}
