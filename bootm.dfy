// The LoongArch `bootm` back end: the legacy command-line tokeniser, the
// `name=value` environment block handed to the kernel, the kernel-name
// classifier that picks the argument convention, and the `bootm` state-flag
// dispatch.
//
// The boot-parameter area is modelled as addresses plus the bytes written
// into it: the `argv` pointer array of `MAX_ARGS` slots at `bootParams`, the
// argument strings packed after it, then (rounded up to 16) the `envp`
// pointer array of `MAX_ENVS` slots and the environment strings after that.

module Bootm {
  import opened Opt
  import opened CStr

  const MAX_ARGS := 256
  const MAX_ENVS := 256
  /** sizeof(char *) on LoongArch64. */
  const PTR := 8

  // ---- the tokeniser ----

  predicate Continues(quote: int, next: int)
  {
    next != -1 && quote != -1 && quote < next
  }

  /**
   * The inner quote-matching loop: while a quote comes before the blank,
   * jump to the matching quote and look for the next quote and blank after it.
   * The result is the blank that ends the token, or -1 when none does.
   */
  function Skip(s: string, cur: nat, quote: int, next: int): (r: int)
    requires quote == -1 || (cur <= quote < |s| && s[quote] == '"')
    requires next == -1 || (cur <= next < |s| && s[next] == ' ')
    ensures r == -1 || (cur <= r < |s| && s[r] == ' ')
    decreases if quote == -1 then 0 else |s| - quote
  {
    if Continues(quote, next) then
      var close := Find(s, '"', quote + 1);
      if close != -1 then Skip(s, cur, Find(s, '"', close + 1), Find(s, ' ', close + 1)) else -1
    else next
  }

  /** Where the token that starts at `cur` ends: a separating blank, or the end. */
  function Cut(s: string, cur: nat): (r: nat)
    requires cur < |s|
    ensures cur <= r <= |s| && (r < |s| ==> s[r] == ' ')
  {
    var e := Skip(s, cur, Find(s, '"', cur), Find(s, ' ', cur));
    if e == -1 then |s| else e
  }

  /** Where scanning resumes: one blank after the token is skipped. */
  function Resume(s: string, cur: nat): (r: nat)
    requires cur < |s|
    ensures cur < r <= |s|
  {
    var c := Cut(s, cur);
    if c < |s| then c + 1 else c
  }

  /** The tokens stored from `cur` on when `argc` slots are already used. */
  function Tokens(s: string, cur: nat, argc: int): seq<string>
    requires cur <= |s|
    decreases |s| - cur
  {
    if cur < |s| && argc < MAX_ARGS then [s[cur..Cut(s, cur)]] + Tokens(s, Resume(s, cur), argc + 1)
    else []
  }

  lemma TokensStep(s: string, cur: nat, argc: int)
    requires cur < |s| && argc < MAX_ARGS
    ensures Tokens(s, cur, argc) == [s[cur..Cut(s, cur)]] + Tokens(s, Resume(s, cur), argc + 1)
  {
  }

  lemma Assoc(a: seq<string>, b: seq<string>, c: seq<string>)
    ensures (a + b) + c == a + (b + c)
  {
  }

  /** The tokens `linux_cmdline_legacy` stores for `bootargs` (slot 0 is NULL). */
  function CmdlineTokens(s: string): seq<string>
  {
    Tokens(s, 0, 1)
  }

  /** The tokens joined with single blanks. */
  function Join(ts: seq<string>): string
  {
    if |ts| == 0 then "" else if |ts| == 1 then ts[0] else ts[0] + " " + Join(ts[1..])
  }

  lemma {:induction false} TokensBound(s: string, cur: nat, argc: int)
    requires cur <= |s| && argc <= MAX_ARGS
    ensures |Tokens(s, cur, argc)| <= MAX_ARGS - argc
    decreases |s| - cur
  {
    if cur < |s| && argc < MAX_ARGS {
      TokensBound(s, Resume(s, cur), argc + 1);
    }
  }

  /** At most 255 tokens are stored, since slot 0 is taken by NULL. */
  lemma CmdlineTokensBound(s: string)
    ensures |CmdlineTokens(s)| <= MAX_ARGS - 1
  {
    TokensBound(s, 0, 1);
  }

  lemma JoinCons(t: string, rest: seq<string>)
    ensures Join([t] + rest) == (if rest == [] then t else t + " " + Join(rest))
  {
    assert ([t] + rest)[1..] == rest;
  }

  lemma SplitAtBlank(s: string, cur: nat, c: nat)
    requires cur <= c < |s| && s[c] == ' '
    ensures s[cur..] == s[cur..c] + " " + s[c + 1..]
  {
  }

  lemma TokensEmpty(s: string, cur: nat, argc: int)
    requires cur <= |s|
    ensures Tokens(s, cur, argc) == [] <==> (cur == |s| || argc >= MAX_ARGS)
  {
  }

  /** A token followed by a blank and a tail that joins the remaining tokens. */
  lemma JoinedStep(whole: string, t: string, tail: string, rest: seq<string>)
    requires whole == t + " " + tail
    requires rest == [] ==> tail == ""
    requires tail == Join(rest) || tail == Join(rest) + " "
    ensures whole == Join([t] + rest) || whole == Join([t] + rest) + " "
  {
    JoinCons(t, rest);
  }

  /** The token at `cur` ends at a blank, and what follows joins back by hypothesis. */
  lemma JoinAtBlank(s: string, cur: nat, argc: int)
    requires cur < |s| && argc < MAX_ARGS && Cut(s, cur) < |s|
    requires argc + 1 + |Tokens(s, Resume(s, cur), argc + 1)| < MAX_ARGS
    requires s[Resume(s, cur)..] == Join(Tokens(s, Resume(s, cur), argc + 1)) ||
      s[Resume(s, cur)..] == Join(Tokens(s, Resume(s, cur), argc + 1)) + " "
    ensures s[cur..] == Join(Tokens(s, cur, argc)) || s[cur..] == Join(Tokens(s, cur, argc)) + " "
  {
    var c := Cut(s, cur);
    var r := Resume(s, cur);
    var rest := Tokens(s, r, argc + 1);
    TokensStep(s, cur, argc);
    TokensEmpty(s, r, argc + 1);
    SplitAtBlank(s, cur, c);
    assert r == c + 1;
    JoinedStep(s[cur..], s[cur..c], s[r..], rest);
  }

  /** The token at `cur` runs to the end of the string. */
  lemma JoinAtEnd(s: string, cur: nat, argc: int)
    requires cur < |s| && argc < MAX_ARGS && Cut(s, cur) == |s|
    ensures s[cur..] == Join(Tokens(s, cur, argc))
  {
    var r := Resume(s, cur);
    TokensStep(s, cur, argc);
    assert r == |s|;
    TokensEmpty(s, r, argc + 1);
    JoinCons(s[cur..], []);
  }

  lemma {:induction false} TokensJoin(s: string, cur: nat, argc: int)
    requires cur <= |s| && argc + |Tokens(s, cur, argc)| < MAX_ARGS
    ensures s[cur..] == Join(Tokens(s, cur, argc)) || s[cur..] == Join(Tokens(s, cur, argc)) + " "
    decreases |s| - cur
  {
    if cur < |s| {
      TokensStep(s, cur, argc);
      if Cut(s, cur) < |s| {
        TokensJoin(s, Resume(s, cur), argc + 1);
        JoinAtBlank(s, cur, argc);
      } else {
        JoinAtEnd(s, cur, argc);
      }
    }
  }

  /**
   * Below the slot limit nothing is lost: joining the tokens with single
   * blanks gives `bootargs` back, minus at most one trailing blank.
   */
  lemma CmdlineJoin(s: string)
    requires |CmdlineTokens(s)| < MAX_ARGS - 1
    ensures s == Join(CmdlineTokens(s)) || s == Join(CmdlineTokens(s)) + " "
  {
    TokensJoin(s, 0, 1);
  }

  /** A blank where a token starts gives an empty token: doubled blanks yield "". */
  lemma BlankGivesEmptyToken(s: string, cur: nat)
    requires cur < |s| && s[cur] == ' '
    ensures Cut(s, cur) == cur
  {
  }

  /** Without quotes a token is the run up to the first blank. */
  lemma QuoteFreeCut(s: string, cur: nat)
    requires cur < |s| && Find(s, '"', cur) == -1
    ensures Cut(s, cur) == (if Find(s, ' ', cur) == -1 then |s| else Find(s, ' ', cur))
    ensures forall i | cur <= i < Cut(s, cur) :: s[i] != ' '
  {
    forall i | cur <= i < Cut(s, cur)
      ensures s[i] != ' '
    {
      if s[i] == ' ' {
        FindFirst(s, ' ', cur, i);
      }
    }
  }

  /** A quote before the blank with no matching quote extends the token to the end. */
  lemma UnmatchedQuoteRunsToEnd(s: string, cur: nat)
    requires cur < |s|
    requires var q := Find(s, '"', cur); var n := Find(s, ' ', cur);
      q != -1 && (n == -1 || q < n) && Find(s, '"', q + 1) == -1
    ensures Cut(s, cur) == |s|
  {
  }

  /**
   * A quote before the blank with a matching quote keeps the whole quoted
   * text, blanks included, inside the token.
   */
  lemma MatchedQuoteStaysInToken(s: string, cur: nat)
    requires cur < |s|
    requires var q := Find(s, '"', cur); var n := Find(s, ' ', cur);
      q != -1 && n != -1 && q < n && Find(s, '"', q + 1) != -1
    ensures Cut(s, cur) > Find(s, '"', Find(s, '"', cur) + 1)
  {
    var q := Find(s, '"', cur);
    var close := Find(s, '"', q + 1);
    SkipPast(s, cur, Find(s, '"', close + 1), Find(s, ' ', close + 1), close);
  }

  lemma {:induction false} SkipPast(s: string, cur: nat, quote: int, next: int, bound: int)
    requires quote == -1 || (cur <= quote < |s| && s[quote] == '"')
    requires next == -1 || (cur <= next < |s| && s[next] == ' ')
    requires quote == -1 || quote > bound
    requires next == -1 || next > bound
    ensures Skip(s, cur, quote, next) == -1 || Skip(s, cur, quote, next) > bound
    decreases if quote == -1 then 0 else |s| - quote
  {
    if Continues(quote, next) {
      var close := Find(s, '"', quote + 1);
      if close != -1 {
        SkipPast(s, cur, Find(s, '"', close + 1), Find(s, ' ', close + 1), bound);
      }
    }
  }

  lemma QuotedExample()
    ensures CmdlineTokens("\"a b\" c") == ["\"a b\"", "c"]
  {
    var s := "\"a b\" c";
    FindFirst(s, ' ', 0, 2);
    FindFirst(s, '"', 1, 4);
    assert Find(s, ' ', 0) == 2;
    assert Find(s, '"', 1) == 4;
    assert Find(s, '"', 5) == -1;
    assert Find(s, ' ', 5) == 5;
    assert Cut(s, 0) == 5;
    assert Find(s, '"', 6) == -1;
    assert Cut(s, 6) == 7;
    TokensStep(s, 0, 1);
    TokensStep(s, 6, 2);
    assert s[0..5] == "\"a b\"" && s[6..7] == "c";
    assert Tokens(s, 7, 3) == [];
  }

  lemma DoubledBlankExample()
    ensures CmdlineTokens("a  b") == ["a", "", "b"]
  {
    var s := "a  b";
    assert Find(s, '"', 0) == -1;
    FindFirst(s, ' ', 0, 1);
    assert Cut(s, 0) == 1;
    assert Cut(s, 2) == 2;
    assert Find(s, '"', 3) == -1;
    assert Cut(s, 3) == 4;
    TokensStep(s, 0, 1);
    TokensStep(s, 2, 2);
    TokensStep(s, 3, 3);
    assert s[0..1] == "a" && s[2..2] == "" && s[3..4] == "b";
    assert Tokens(s, 4, 4) == [];
  }

  // ---- packing strings into the parameter area ----

  /** Each string copied NUL-terminated directly after the previous one. */
  function Layout(ts: seq<string>): seq<char>
  {
    if ts == [] then [] else ts[0] + ['\0'] + Layout(ts[1..])
  }

  /** The addresses of the strings packed from `start` on. */
  function Offsets(start: int, ts: seq<string>): (r: seq<int>)
    ensures |r| == |ts|
    decreases |ts|
  {
    if ts == [] then [] else [start] + Offsets(start + |ts[0]| + 1, ts[1..])
  }

  /** Reading a C string at `off`: the characters up to the next NUL. */
  function ReadAt(area: seq<char>, off: nat): string
    decreases |area| - off
  {
    if off >= |area| || area[off] == '\0' then "" else [area[off]] + ReadAt(area, off + 1)
  }

  lemma {:induction false} LayoutAppend(ts: seq<string>, t: string)
    ensures Layout(ts + [t]) == Layout(ts) + t + ['\0']
  {
    if ts != [] {
      assert (ts + [t])[1..] == ts[1..] + [t];
      LayoutAppend(ts[1..], t);
    } else {
      assert [t][1..] == [];
    }
  }

  lemma {:induction false} OffsetsAppend(start: int, ts: seq<string>, t: string)
    ensures Offsets(start, ts + [t]) == Offsets(start, ts) + [start + |Layout(ts)|]
    decreases |ts|
  {
    if ts != [] {
      assert (ts + [t])[1..] == ts[1..] + [t];
      OffsetsAppend(start + |ts[0]| + 1, ts[1..], t);
    } else {
      assert [t][1..] == [];
    }
  }

  lemma {:induction false} ReadString(area: seq<char>, off: nat, t: string)
    requires CString(t) && off + |t| < |area| && area[off..off + |t|] == t && area[off + |t|] == '\0'
    ensures ReadAt(area, off) == t
    decreases |t|
  {
    if t != [] {
      assert area[off] == t[0];
      assert area[off + 1..off + 1 + |t[1..]|] == t[1..];
      ReadString(area, off + 1, t[1..]);
    }
  }

  lemma {:induction false} ReadShift(a: seq<char>, b: seq<char>, off: nat)
    ensures ReadAt(a + b, |a| + off) == ReadAt(b, off)
    decreases |b| - off
  {
    if off < |b| && b[off] != '\0' {
      assert (a + b)[|a| + off] == b[off];
      ReadShift(a, b, off + 1);
    } else if off < |b| {
      assert (a + b)[|a| + off] == b[off];
    }
  }

  /**
   * Every packed string reads back from the address recorded for it: the
   * pointer array and the packed area agree.
   */
  lemma {:induction false} LayoutReadBack(start: int, ts: seq<string>, i: nat)
    requires i < |ts| && forall k | 0 <= k < |ts| :: CString(ts[k])
    ensures Offsets(start, ts)[i] - start >= 0
    ensures ReadAt(Layout(ts), Offsets(start, ts)[i] - start) == ts[i]
    decreases i
  {
    if i == 0 {
      LayoutReadFirst(ts);
    } else {
      var rest := ts[1..];
      assert forall k | 0 <= k < |rest| :: CString(rest[k]) by {
        forall k | 0 <= k < |rest| ensures CString(rest[k]) {
          assert rest[k] == ts[k + 1];
        }
      }
      LayoutReadBack(start + |ts[0]| + 1, rest, i - 1);
      LayoutReadStep(start, ts, i);
    }
  }

  /** Seen past the first string, the area and its addresses are those of the rest. */
  lemma LayoutReadStep(start: int, ts: seq<string>, i: nat)
    requires 0 < i < |ts|
    requires Offsets(start + |ts[0]| + 1, ts[1..])[i - 1] - (start + |ts[0]| + 1) >= 0
    requires ReadAt(Layout(ts[1..]), Offsets(start + |ts[0]| + 1, ts[1..])[i - 1] - (start + |ts[0]| + 1)) == ts[1..][i - 1]
    ensures Offsets(start, ts)[i] - start >= 0
    ensures ReadAt(Layout(ts), Offsets(start, ts)[i] - start) == ts[i]
  {
    var head := ts[0] + ['\0'];
    var rest := ts[1..];
    assert Layout(ts) == head + Layout(rest);
    assert Offsets(start, ts)[i] == Offsets(start + |head|, rest)[i - 1];
    var off := Offsets(start + |head|, rest)[i - 1] - (start + |head|);
    ReadShift(head, Layout(rest), off);
  }

  lemma LayoutReadFirst(ts: seq<string>)
    requires ts != [] && CString(ts[0])
    ensures ReadAt(Layout(ts), 0) == ts[0]
  {
    var t := ts[0];
    assert Layout(ts) == t + ['\0'] + Layout(ts[1..]);
    assert Layout(ts)[..|t|] == t;
    ReadString(Layout(ts), 0, t);
  }

  /** `(x + 15) & ~15`: `x` rounded up to a multiple of 16. */
  function RoundUp16(x: nat): (r: nat)
    ensures r % 16 == 0 && x <= r < x + 16
  {
    (x + 15) - (x + 15) % 16
  }

  /** The values `linux_env_legacy` formats before storing them. */
  datatype EnvValues = EnvValues(
    memsize: string, initrdStart: string, initrdSize: string,
    flashStart: string, flashSize: string,
    ethaddr: Option<string>, eth1addr: Option<string>)

  predicate EnvValuesOk(v: EnvValues)
  {
    CString(v.memsize) && CString(v.initrdStart) && CString(v.initrdSize) &&
    CString(v.flashStart) && CString(v.flashSize) &&
    (v.ethaddr.Some? ==> CString(v.ethaddr.value)) &&
    (v.eth1addr.Some? ==> CString(v.eth1addr.value))
  }

  function Entry(name: string, value: string): string
  {
    name + "=" + value
  }

  /** The entries `linux_env_legacy` stores, in order. */
  function LegacyEntries(v: EnvValues): seq<string>
  {
    FixedEntries(v) + OptionalEntry("ethaddr", v.ethaddr) + OptionalEntry("eth1addr", v.eth1addr)
  }

  /** The five entries that are always stored. */
  function FixedEntries(v: EnvValues): seq<string>
  {
    [Entry("memsize", v.memsize), Entry("initrd_start", v.initrdStart),
     Entry("initrd_size", v.initrdSize), Entry("flash_start", v.flashStart),
     Entry("flash_size", v.flashSize)]
  }

  /** An entry stored only when the variable is set. */
  function OptionalEntry(name: string, value: Option<string>): seq<string>
  {
    if value.Some? then [Entry(name, value.value)] else []
  }

  // ---- kernel name and bootm flags ----

  /** 0 selects the old argument convention, 1 the new one. */
  function JudgeBootParamType(name: string): (r: int)
    ensures r == 0 || r == 1
  {
    if StrnEq(name, "Linux-5.10.0", 12) then 0
    else if StrnEq(name, "Linux-5.10.97", 12) then 0
    else if StrnEq(name, "Linux-4", 7) then 0
    else 1
  }

  /**
   * The old convention is chosen exactly for names starting with
   * "Linux-5.10.0", "Linux-5.10.9" (the second literal is compared over 12
   * characters only) or "Linux-4".
   */
  lemma JudgeCases(name: string)
    ensures JudgeBootParamType(name) == 0 <==>
      (StartsWith(name, "Linux-5.10.0") || StartsWith(name, "Linux-5.10.9") || StartsWith(name, "Linux-4"))
  {
    StrnEqPrefix(name, "Linux-5.10.0");
    StrnEqPrefix(name, "Linux-4");
    assert Take("Linux-5.10.97", 12) == "Linux-5.10.9";
    StrnEqPrefix(name, "Linux-5.10.9");
  }

  /** Any 5.10.9x kernel, not only 5.10.97, takes the old convention. */
  lemma JudgeTruncatedLiteral()
    ensures JudgeBootParamType("Linux-5.10.99") == 0
    ensures JudgeBootParamType("Linux-6.6.0") == 1
  {
    JudgeCases("Linux-5.10.99");
    JudgeCases("Linux-6.6.0");
    assert "Linux-5.10.99"[..12] == "Linux-5.10.9";
    assert "Linux-6.6.0"[6] == '6';
  }

  const OS_CMDLINE: bv32 := 0x40
  const OS_BD_T: bv32 := 0x80
  const OS_PREP: bv32 := 0x100
  const OS_FAKE_GO: bv32 := 0x200
  const OS_GO: bv32 := 0x400

  datatype Action = Refuse | CmdlineOnly | Prep | Jump | NoAction

  /** Which branch `do_bootm_linux` takes for `flag`. */
  function BootmAction(flag: bv32): Action
  {
    if flag & OS_BD_T != 0 then Refuse
    else if flag & OS_CMDLINE != 0 then CmdlineOnly
    else if flag & OS_PREP != 0 then Prep
    else if flag & (OS_GO | OS_FAKE_GO) != 0 then Jump
    else NoAction
  }

  function BootmRet(a: Action): int
  {
    match a
    case Refuse => -1
    case NoAction => 1
    case _ => 0
  }

  /**
   * The result is -1 exactly when OS_BD_T is set, 1 exactly when none of
   * the five handled flags is set, 0 otherwise; preparation runs only when
   * OS_PREP is set and neither OS_BD_T nor OS_CMDLINE is.
   */
  lemma BootmDispatch(flag: bv32)
    ensures BootmRet(BootmAction(flag)) == -1 <==> flag & OS_BD_T != 0
    ensures BootmRet(BootmAction(flag)) == 1 <==>
      flag & (OS_BD_T | OS_CMDLINE | OS_PREP | OS_GO | OS_FAKE_GO) == 0
    ensures BootmAction(flag) == Prep <==>
      (flag & OS_PREP != 0 && flag & (OS_BD_T | OS_CMDLINE) == 0)
    ensures BootmAction(flag) == Jump ==> flag & (OS_GO | OS_FAKE_GO) != 0
  {
  }

  // ---- the parameter area ----

  class Linux {
    /** gd->bd->bi_boot_params: where the argv array starts. */
    const bootParams: nat
    var argc: int
    var argv: seq<int>
    /** The bytes written after the argv array. */
    var argArea: seq<char>
    ghost var args: seq<string>
    /** linux_env: where the envp array starts. */
    var env: nat
    var envIdx: int
    var envv: seq<int>
    /** The bytes written after the envp array. */
    var envArea: seq<char>
    ghost var entries: seq<string>

    constructor (bootParams: nat)
      ensures this.bootParams == bootParams
      ensures argc == 0 && argv == [] && argArea == [] && env == 0 && envIdx == 0 && envv == [] && envArea == []
    {
      this.bootParams := bootParams;
      argc := 0;
      argv := [];
      argArea := [];
      args := [];
      env := 0;
      envIdx := 0;
      envv := [];
      envArea := [];
      entries := [];
    }

    function ArgStart(): nat
    {
      bootParams + PTR * MAX_ARGS
    }

    /** linux_argp: the next free byte after the packed arguments. */
    function Argp(): nat
      reads this
    {
      ArgStart() + |argArea|
    }

    function EnvStart(): nat
      reads this
    {
      env + PTR * MAX_ENVS
    }

    /** linux_env_p: the next free byte after the packed entries. */
    function EnvP(): nat
      reads this
    {
      EnvStart() + |envArea|
    }

    /** The environment side of the area, as one value. */
    ghost function EnvState(): (nat, int, seq<int>, seq<char>, seq<string>)
      reads this
    {
      (env, envIdx, envv, envArea, entries)
    }

    /** The argument side of the area, as one value. */
    ghost function ArgState(): (int, seq<int>, seq<char>, seq<string>)
      reads this
    {
      (argc, argv, argArea, args)
    }

    /** argv[0] is NULL and argv[1..argc] point at the packed arguments. */
    ghost predicate CmdlineValid()
      reads this
    {
      argc == 1 + |args| && argc <= MAX_ARGS &&
      (forall k | 0 <= k < |args| :: CString(args[k])) &&
      argv == [0] + Offsets(ArgStart(), args) && argArea == Layout(args)
    }

    /** envp[0..idx] point at the packed entries and envp[idx] is NULL. */
    ghost predicate EnvValid()
      reads this
    {
      envIdx == |entries| && envIdx < MAX_ENVS &&
      (forall k | 0 <= k < |entries| :: CString(entries[k])) &&
      envv == Offsets(EnvStart(), entries) + [0] && envArea == Layout(entries)
    }

    method CmdlineInit()
      modifies this
      ensures CmdlineValid() && args == []
      ensures argc == 1 && argv == [0] && argArea == []
      ensures EnvState() == old(EnvState())
    {
      argc := 1;
      argv := [0];
      argArea := [];
      args := [];
    }

    /** Stores the first `len` characters of `value` as the next argument. */
    method CmdlineSet(value: string, len: nat)
      requires CmdlineValid() && argc < MAX_ARGS
      requires len <= |value| && CString(value[..len])
      modifies this
      ensures CmdlineValid() && args == old(args) + [value[..len]]
      ensures argv == old(argv) + [old(Argp())]
      ensures argArea == old(argArea) + value[..len] + ['\0']
      ensures Argp() == old(Argp()) + len + 1
      ensures EnvState() == old(EnvState())
    {
      var t := value[..len];
      OffsetsAppend(ArgStart(), args, t);
      LayoutAppend(args, t);
      argv := argv + [Argp()];
      argArea := argArea + t + ['\0'];
      args := args + [t];
      argc := argc + 1;
    }

    /** linux_cmdline_legacy on the value of `bootargs` (None when unset). */
    method CmdlineLegacy(bootargs: Option<string>)
      requires bootargs.Some? ==> CString(bootargs.value)
      modifies this
      ensures CmdlineValid()
      ensures args == (if bootargs.None? then [] else CmdlineTokens(bootargs.value))
      ensures EnvState() == old(EnvState())
    {
      CmdlineInit();
      if bootargs.None? {
        return;
      }
      var s := bootargs.value;
      var cur := 0;
      while cur < |s| && argc < MAX_ARGS
        invariant 0 <= cur <= |s| && CmdlineValid()
        invariant args + Tokens(s, cur, argc) == CmdlineTokens(s)
        invariant EnvState() == old(EnvState())
        decreases |s| - cur
      {
        ghost var before := args;
        TokensStep(s, cur, argc);
        var next := NextToken(s, cur);
        Assoc(before, [s[cur..Cut(s, cur)]], Tokens(s, Resume(s, cur), argc));
        cur := next;
      }
    }

    /** One round of the tokeniser: store the token at `cur`, return where the next starts. */
    method NextToken(s: string, cur: nat) returns (next: nat)
      requires CString(s) && cur < |s|
      requires CmdlineValid() && argc < MAX_ARGS
      modifies this
      ensures CmdlineValid() && args == old(args) + [s[cur..Cut(s, cur)]]
      ensures next == Resume(s, cur)
      ensures EnvState() == old(EnvState())
    {
      var e := TokenEnd(s, cur);
      CStringSlice(s, cur, e);
      assert s[cur..][..e - cur] == s[cur..e];
      CmdlineSet(s[cur..], e - cur);
      next := e;
      if next < |s| {
        next := next + 1;
      }
    }

    /**
     * The quote-matching search for the end of the token at `cur`: the
     * blank that ends it, or the end of the string.
     */
    static method TokenEnd(s: string, cur: nat) returns (next: int)
      requires cur < |s|
      ensures next == Cut(s, cur)
    {
      var quote := Find(s, '"', cur);
      next := Find(s, ' ', cur);
      ghost var target := Skip(s, cur, quote, next);
      while next != -1 && quote != -1 && quote < next
        invariant quote == -1 || (cur <= quote < |s| && s[quote] == '"')
        invariant next == -1 || (cur <= next < |s| && s[next] == ' ')
        invariant Skip(s, cur, quote, next) == target
        decreases if next == -1 || quote == -1 then 0 else |s| - quote + 1
      {
        next := Find(s, '"', quote + 1);
        if next != -1 {
          quote := Find(s, '"', next + 1);
          next := Find(s, ' ', next + 1);
        }
      }
      if next == -1 {
        next := |s|;
      }
    }

    method EnvInit()
      modifies this
      ensures EnvValid() && entries == []
      ensures env == RoundUp16(old(Argp())) && envIdx == 0 && envv == [0] && envArea == []
      ensures ArgState() == old(ArgState())
    {
      env := RoundUp16(Argp());
      envv := [0];
      envArea := [];
      envIdx := 0;
      entries := [];
    }

    /** Appends "name=value" while fewer than 255 entries are stored; else nothing. */
    method EnvSet(name: string, value: string)
      requires EnvValid() && CString(name) && CString(value)
      modifies this
      ensures EnvValid()
      ensures old(envIdx) < MAX_ENVS - 1 ==>
        entries == old(entries) + [Entry(name, value)] &&
        envv == old(envv)[..old(envIdx)] + [old(EnvP()), 0] &&
        envArea == old(envArea) + Entry(name, value) + ['\0'] && envIdx == old(envIdx) + 1
      ensures old(envIdx) >= MAX_ENVS - 1 ==>
        entries == old(entries) && envv == old(envv) && envArea == old(envArea) && envIdx == old(envIdx)
      ensures env == old(env)
      ensures ArgState() == old(ArgState())
    {
      if envIdx < MAX_ENVS - 1 {
        var e := Entry(name, value);
        CStringConcat(name, "=");
        CStringConcat(name + "=", value);
        OffsetsAppend(EnvStart(), entries, e);
        LayoutAppend(entries, e);
        assert envv[..envIdx] == Offsets(EnvStart(), entries);
        envv := envv[..envIdx] + [EnvP(), 0];
        envArea := envArea + e + ['\0'];
        entries := entries + [e];
        envIdx := envIdx + 1;
      }
    }

    /** linux_env_legacy with its formatted values supplied. */
    method EnvLegacy(v: EnvValues)
      requires EnvValuesOk(v)
      modifies this
      ensures EnvValid() && entries == LegacyEntries(v)
      ensures env == RoundUp16(old(Argp()))
      ensures ArgState() == old(ArgState())
    {
      EnvInit();
      EnvSet("memsize", v.memsize);
      EnvSet("initrd_start", v.initrdStart);
      EnvSet("initrd_size", v.initrdSize);
      EnvSet("flash_start", v.flashStart);
      EnvSet("flash_size", v.flashSize);
      assert entries == FixedEntries(v);
      if v.ethaddr.Some? {
        EnvSet("ethaddr", v.ethaddr.value);
      }
      assert entries == FixedEntries(v) + OptionalEntry("ethaddr", v.ethaddr);
      if v.eth1addr.Some? {
        EnvSet("eth1addr", v.eth1addr.value);
      }
    }

    /**
     * do_bootm_linux. Preparation without a device tree builds the legacy
     * command line and environment; with one it only relocates the tree,
     * which is not modelled. The jump to the kernel is not modelled.
     */
    method DoBootmLinux(flag: bv32, ftLen: nat, bootargs: Option<string>, v: EnvValues) returns (ret: int)
      requires bootargs.Some? ==> CString(bootargs.value)
      requires EnvValuesOk(v)
      modifies this
      ensures ret == BootmRet(BootmAction(flag))
      ensures BootmAction(flag) == Prep && ftLen == 0 ==>
        CmdlineValid() && EnvValid() &&
        args == (if bootargs.None? then [] else CmdlineTokens(bootargs.value)) &&
        entries == LegacyEntries(v) && env == RoundUp16(Argp())
      ensures !(BootmAction(flag) == Prep && ftLen == 0) ==>
        argc == old(argc) && argv == old(argv) && argArea == old(argArea) &&
        env == old(env) && envIdx == old(envIdx) && envv == old(envv) && envArea == old(envArea)
    {
      var a := BootmAction(flag);
      if a == Prep && ftLen == 0 {
        CmdlineLegacy(bootargs);
        EnvLegacy(v);
      }
      ret := BootmRet(a);
    }
  }

  /** Below the limit every stored entry reads back from its envp slot. */
  lemma EnvReadBack(l: Linux, i: nat)
    requires l.EnvValid() && i < l.envIdx
    ensures l.envv[i] - l.EnvStart() >= 0 && ReadAt(l.envArea, l.envv[i] - l.EnvStart()) == l.entries[i]
  {
    LayoutReadBack(l.EnvStart(), l.entries, i);
  }

  /** Every stored argument reads back from its argv slot. */
  lemma ArgReadBack(l: Linux, i: nat)
    requires l.CmdlineValid() && 1 <= i < l.argc
    ensures l.argv[i] - l.ArgStart() >= 0 && ReadAt(l.argArea, l.argv[i] - l.ArgStart()) == l.args[i - 1]
  {
    LayoutReadBack(l.ArgStart(), l.args, i - 1);
  }
}
