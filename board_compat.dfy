// Multi-board support (board/loongson/common/multi_boards_compat.c): the
// board id kept in board info picks the board type, the board type picks the
// FIT configuration (device tree), and a board without a stored id is chosen
// by number on the serial console.

module BoardCompat {
  import opened Opt
  import opened CStr
  import opened Platform

  /** BOARD_TYPE_UNKNOWN */
  const UNKNOWN := 0
  const ENOENT := 2
  const EINVAL := 22
  /** The id of a board nobody has chosen. */
  const UNKNOWN_ID := "unknown"
  /** `char input[8]` of user_select_board_id. */
  const INPUT_SIZE := 8

  /** The default device trees of the SoCs that have a board table. */
  const LS2K500_DEFAULT_DTB := "ls2k500_default"
  const LS2K1000_DEFAULT_DTB := "ls2k1000_default"

  /** struct ls_board */
  datatype LsBoard = LsBoard(bdtype: int, showName: string, dtbName: string, boardid: string)

  /** BOARD_TYPE_MAX: the enum lists the boards of the table after UNKNOWN. */
  function MaxType(boards: seq<LsBoard>): int
  {
    |boards| + 1
  }

  /** The table's boards have types 1, 2, ... in table order, as the enum declares them. */
  predicate Enumerated(boards: seq<LsBoard>)
  {
    forall i | 0 <= i < |boards| :: boards[i].bdtype == i + 1
  }

  function Types(boards: seq<LsBoard>): (r: seq<int>)
    ensures |r| == |boards| && forall i | 0 <= i < |boards| :: r[i] == boards[i].bdtype
  {
    seq(|boards|, i requires 0 <= i < |boards| => boards[i].bdtype)
  }

  function Ids(boards: seq<LsBoard>): (r: seq<string>)
    ensures |r| == |boards| && forall i | 0 <= i < |boards| :: r[i] == boards[i].boardid
  {
    seq(|boards|, i requires 0 <= i < |boards| => boards[i].boardid)
  }

  /** The first index at or after `from` holding `x`, or -1: the table loops' `break`. */
  function IndexOf<T(==)>(xs: seq<T>, x: T, from: nat): (r: int)
    requires from <= |xs|
    ensures r == -1 || (from <= r < |xs| && xs[r] == x)
    decreases |xs| - from
  {
    if from == |xs| then -1 else if xs[from] == x then from else IndexOf(xs, x, from + 1)
  }

  lemma {:induction false} IndexOfFirst<T>(xs: seq<T>, x: T, from: nat)
    requires from <= |xs|
    ensures IndexOf(xs, x, from) == -1 <==> forall j | from <= j < |xs| :: xs[j] != x
    ensures IndexOf(xs, x, from) != -1 ==> forall j | from <= j < IndexOf(xs, x, from) :: xs[j] != x
    decreases |xs| - from
  {
    if from < |xs| && xs[from] != x {
      IndexOfFirst(xs, x, from + 1);
    }
  }

  // ---- board_fit_config_name_match ----

  /** 0 when `name` is the device tree of the current board type, -ENOENT otherwise. */
  function FitConfigNameMatch(boardType: int, name: string, boards: seq<LsBoard>, defaultDtb: string): int
  {
    if boardType == UNKNOWN && StrnEq(name, defaultDtb, |name|) then 0
    else
      var i := IndexOf(Types(boards), boardType, 0);
      if i == -1 || boards[i].dtbName == "" then -ENOENT
      else if name == boards[i].dtbName then 0 else -ENOENT
  }

  /** strncmp over the name's own length: the name is a prefix of the other string. */
  lemma StrnEqOwnLength(name: string, s: string)
    ensures StrnEq(name, s, |name|) <==> StartsWith(s, name)
  {
    if StartsWith(s, name) {
      assert Take(s, |name|) == s[..|name|];
    }
  }

  /**
   * For an unknown board any prefix of the default device tree matches, ""
   * included; for a board of the table only its own non-empty device tree
   * name matches; any other type matches nothing. The result is 0 or -ENOENT.
   */
  lemma FitSpec(boardType: int, name: string, boards: seq<LsBoard>, defaultDtb: string)
    requires Enumerated(boards)
    ensures var r := FitConfigNameMatch(boardType, name, boards, defaultDtb);
      (r == 0 || r == -ENOENT) &&
      (boardType == UNKNOWN ==> (r == 0 <==> StartsWith(defaultDtb, name))) &&
      (1 <= boardType <= |boards| ==>
        (r == 0 <==> name == boards[boardType - 1].dtbName && name != "")) &&
      (boardType != UNKNOWN && !(1 <= boardType <= |boards|) ==> r == -ENOENT)
  {
    StrnEqOwnLength(name, defaultDtb);
    var ts := Types(boards);
    IndexOfFirst(ts, boardType, 0);
    if 1 <= boardType <= |boards| {
      assert ts[boardType - 1] == boardType;
      var i := IndexOf(ts, boardType, 0);
      assert i == boardType - 1;
    } else if boardType == UNKNOWN {
      assert forall j | 0 <= j < |ts| :: ts[j] != boardType;
    } else {
      assert forall j | 0 <= j < |ts| :: ts[j] != boardType;
    }
  }

  /** With the LS2K500 default, "ls2k500" and "" match an unknown board, "ls2k500_evb" does not. */
  lemma FitDefaultExamples(boards: seq<LsBoard>)
    ensures FitConfigNameMatch(UNKNOWN, "ls2k500", boards, LS2K500_DEFAULT_DTB) == 0
    ensures FitConfigNameMatch(UNKNOWN, "", boards, LS2K500_DEFAULT_DTB) == 0
    ensures Enumerated(boards) ==> FitConfigNameMatch(UNKNOWN, "ls2k500_evb", boards, LS2K500_DEFAULT_DTB) == -ENOENT
  {
    StrnEqOwnLength("ls2k500", LS2K500_DEFAULT_DTB);
    StrnEqOwnLength("", LS2K500_DEFAULT_DTB);
    StrnEqOwnLength("ls2k500_evb", LS2K500_DEFAULT_DTB);
    assert LS2K500_DEFAULT_DTB[..7] == "ls2k500";
    assert LS2K500_DEFAULT_DTB[..11][8] != "ls2k500_evb"[8];
    if Enumerated(boards) {
      FitSpec(UNKNOWN, "ls2k500_evb", boards, LS2K500_DEFAULT_DTB);
    }
  }

  // ---- the console choice ----

  /** What a run of console keys leads to. */
  datatype Pick =
    | Waiting                // the keys ran out before a decision
    | Unknown                // Enter on an empty buffer: the id stays "unknown"
    | Chosen(index: int)     // the board at this table index
    | WriteOverflow(at: int) // a digit would be stored at input[at], past the buffer

  const ZEROS: seq<char> := ['\0', '\0', '\0', '\0', '\0', '\0', '\0', '\0']

  /**
   * user_select_board_id as written, from key `pos` with buffer `buf` and
   * write index `id`: Enter parses the buffer and re-prompts, keeping both
   * the buffer and `id` = value - 1, when that index is at least `cnt`.
   */
  function SessionAsWritten(keys: string, cnt: int, buf: seq<char>, id: int, pos: nat): Pick
    requires |buf| == INPUT_SIZE && pos <= |keys|
    decreases |keys| - pos
  {
    if pos == |keys| then Waiting
    else
      var c := keys[pos];
      if c == '\n' || c == '\r' then
        if buf[0] == '\0' then Unknown
        else
          var v := DecimalValue(DigitPrefix(buf)) - 1;
          if v >= cnt then SessionAsWritten(keys, cnt, buf, v, pos + 1) else Chosen(v)
      else if IsDigit(c) then
        if 0 <= id < INPUT_SIZE then SessionAsWritten(keys, cnt, buf[id := c], id + 1, pos + 1)
        else WriteOverflow(id)
      else SessionAsWritten(keys, cnt, ZEROS, 0, pos + 1)
  }

  /**
   * The selection as evidently intended, from key `pos` with the digits
   * typed so far: at most 7 digits are kept, so the buffer stays
   * terminated; a number outside 1..cnt clears the buffer and re-prompts.
   */
  function Session(keys: string, cnt: int, digits: string, pos: nat): Pick
    requires pos <= |keys| && AllDigits(digits)
    decreases |keys| - pos
  {
    if pos == |keys| then Waiting
    else
      var c := keys[pos];
      if c == '\n' || c == '\r' then
        if digits == [] then Unknown
        else
          var v := DecimalValue(digits);
          if 1 <= v <= cnt then Chosen(v - 1) else Session(keys, cnt, [], pos + 1)
      else if IsDigit(c) then
        Session(keys, cnt, if |digits| < INPUT_SIZE - 1 then digits + [c] else digits, pos + 1)
      else Session(keys, cnt, [], pos + 1)
  }

  /** The digits of a buffer are read up to the first character that is not one. */
  lemma {:induction false} DigitPrefixStops(d: string, rest: string)
    requires AllDigits(d) && (rest == [] || !IsDigit(rest[0]))
    ensures DigitPrefix(d + rest) == d
    decreases |d|
  {
    if d != [] {
      assert (d + rest)[1..] == d[1..] + rest;
      DigitPrefixStops(d[1..], rest);
    } else {
      assert d + rest == rest;
    }
  }

  /** The corrected selection only ever picks an index of the table. */
  lemma {:induction false} SessionSpec(keys: string, cnt: int, digits: string, pos: nat)
    requires pos <= |keys| && AllDigits(digits)
    ensures !Session(keys, cnt, digits, pos).WriteOverflow?
    ensures Session(keys, cnt, digits, pos).Chosen? ==> 0 <= Session(keys, cnt, digits, pos).index < cnt
    decreases |keys| - pos
  {
    if pos < |keys| {
      var c := keys[pos];
      if c == '\n' || c == '\r' {
        if digits != [] {
          SessionSpec(keys, cnt, [], pos + 1);
        }
      } else if IsDigit(c) {
        SessionSpec(keys, cnt, if |digits| < INPUT_SIZE - 1 then digits + [c] else digits, pos + 1);
      } else {
        SessionSpec(keys, cnt, [], pos + 1);
      }
    }
  }

  /**
   * On one line of 1 to 7 digits naming a board (1-based), followed by
   * Enter, the code as written picks the board at index value - 1 ...
   */
  lemma {:induction false} LineAsWritten(line: string, cnt: int, pos: nat)
    requires 1 <= |line| < INPUT_SIZE && AllDigits(line) && 1 <= DecimalValue(line) <= cnt
    requires pos <= |line|
    ensures SessionAsWritten(line + "\r", cnt, line[..pos] + ZEROS[pos..], pos, pos) == Chosen(DecimalValue(line) - 1)
    decreases |line| - pos
  {
    if pos == |line| {
      LineEndAsWritten(line, cnt, pos);
    } else {
      LineAsWritten(line, cnt, pos + 1);
      LineStepAsWritten(line, cnt, pos);
    }
  }

  /** At the Enter key, the buffer holds the whole line. */
  lemma LineEndAsWritten(line: string, cnt: int, pos: nat)
    requires 1 <= |line| < INPUT_SIZE && AllDigits(line) && 1 <= DecimalValue(line) <= cnt && pos == |line|
    ensures SessionAsWritten(line + "\r", cnt, line[..pos] + ZEROS[pos..], pos, pos) == Chosen(DecimalValue(line) - 1)
  {
    assert line[..pos] == line;
    assert (line + "\r")[pos] == '\r';
    assert ZEROS[pos..][0] == '\0';
    DigitPrefixStops(line, ZEROS[pos..]);
  }

  /** A digit of the line goes into the buffer at its own position. */
  lemma LineStepAsWritten(line: string, cnt: int, pos: nat)
    requires 1 <= |line| < INPUT_SIZE && AllDigits(line) && pos < |line|
    requires SessionAsWritten(line + "\r", cnt, line[..pos + 1] + ZEROS[pos + 1..], pos + 1, pos + 1) == Chosen(DecimalValue(line) - 1)
    ensures SessionAsWritten(line + "\r", cnt, line[..pos] + ZEROS[pos..], pos, pos) == Chosen(DecimalValue(line) - 1)
  {
    var buf := line[..pos] + ZEROS[pos..];
    assert (line + "\r")[pos] == line[pos];
    assert IsDigit(line[pos]);
    assert buf[pos := line[pos]] == line[..pos + 1] + ZEROS[pos + 1..];
  }

  /** ... and so does the corrected selection. */
  lemma {:induction false} LineCorrected(line: string, cnt: int, pos: nat)
    requires 1 <= |line| < INPUT_SIZE && AllDigits(line) && 1 <= DecimalValue(line) <= cnt
    requires pos <= |line|
    ensures Session(line + "\r", cnt, line[..pos], pos) == Chosen(DecimalValue(line) - 1)
    decreases |line| - pos
  {
    var keys := line + "\r";
    assert keys[pos] == if pos == |line| then '\r' else line[pos];
    if pos == |line| {
      assert line[..pos] == line;
    } else {
      LineCorrected(line, cnt, pos + 1);
      assert line[..pos] + [line[pos]] == line[..pos + 1];
    }
  }

  /** As written, choice "0" passes the `id >= cnt` check and indexes the table at -1. */
  lemma ZeroChoiceAsWritten(cnt: int)
    requires cnt >= 1
    ensures SessionAsWritten("0\r", cnt, ZEROS, 0, 0) == Chosen(-1)
    ensures Session("0\r", cnt, [], 0) == Waiting
  {
    var buf := ZEROS[0 := '0'];
    DigitPrefixStops("0", buf[1..]);
    assert buf == "0" + buf[1..];
    assert SessionAsWritten("0\r", cnt, buf, 1, 1) == Chosen(-1);
    assert Session("0\r", cnt, "0", 1) == Session("0\r", cnt, [], 2);
    assert [] + ['0'] == "0";
  }

  /**
   * As written, a re-prompt keeps the old buffer and writes the next digit
   * at input[value - 1]: with four boards, "5" then "2" re-prompts again
   * instead of choosing board 2.
   */
  lemma RepromptKeepsInputAsWritten()
    ensures SessionAsWritten("5\r2\r", 4, ZEROS, 0, 0) == Waiting
  {
    var keys := "5\r2\r";
    var b1 := ZEROS[0 := '5'];
    var b2 := b1[4 := '2'];
    FiveFirst(b1);
    FiveFirst(b2);
    assert SessionAsWritten(keys, 4, b2, 4, 4) == Waiting;
    assert SessionAsWritten(keys, 4, b2, 5, 3) == Waiting;
    assert SessionAsWritten(keys, 4, b1, 4, 2) == Waiting;
    assert SessionAsWritten(keys, 4, b1, 1, 1) == Waiting;
  }

  /** A buffer holding "5" then NUL reads as 5. */
  lemma FiveFirst(buf: seq<char>)
    requires |buf| == INPUT_SIZE && buf[0] == '5' && buf[1] == '\0'
    ensures DecimalValue(DigitPrefix(buf)) == 5
  {
    DigitPrefixStops("5", buf[1..]);
    assert buf == "5" + buf[1..];
  }

  /** The corrected selection re-prompts cleanly and takes board 2. */
  lemma RepromptCorrected()
    ensures Session("5\r2\r", 4, [], 0) == Chosen(1)
  {
    var keys := "5\r2\r";
    assert keys[0] == '5' && keys[1] == '\r' && keys[2] == '2' && keys[3] == '\r';
    assert [] + ['5'] == "5" && [] + ['2'] == "2";
    OneDigit('5');
    OneDigit('2');
    SessionKey(keys, 4, [], 0, "5");
    SessionEnter(keys, 4, "5", 1);
    SessionKey(keys, 4, [], 2, "2");
    SessionEnter(keys, 4, "2", 3);
  }

  lemma OneDigit(c: char)
    requires IsDigit(c)
    ensures DecimalValue([c]) == DigitValue(c)
  {
    assert [c][..0] == [];
  }

  /** As written, the ninth digit before Enter is stored at input[8], past the buffer. */
  lemma NinthDigitAsWritten(cnt: int)
    ensures SessionAsWritten("123456789\r", cnt, ZEROS, 0, 0) == WriteOverflow(8)
    ensures !Session("123456789\r", cnt, [], 0).WriteOverflow?
  {
    SessionSpec("123456789\r", cnt, [], 0);
  }

  // ---- the board-info effects ----

  /**
   * The chosen board's id, or "unknown", and its effect: the id is written to
   * board info, which is saved with the status `status` (printed on failure,
   * otherwise ignored). `spl` is CONFIG_SPL: the selection then runs in the
   * SPL stage, which writes board info but does not save it.
   */
  function Select(st: State, boards: seq<LsBoard>, p: Pick, status: int, spl: bool): (Option<string>, State)
    requires p.Chosen? ==> 0 <= p.index < |boards|
  {
    match p
    case Chosen(i) =>
      var written := st.(bdinfo := st.bdinfo[BdiName := boards[i].boardid]);
      (Some(boards[i].boardid), if spl then written else SaveBdinfo(written, status))
    case Waiting => (None, st)
    case _ => (Some(UNKNOWN_ID), st)
  }

  /** A stored id that is missing or "unknown" sends detection to the console. */
  predicate NeedsSelect(st: State)
  {
    BdiName !in st.bdinfo || st.bdinfo[BdiName] == UNKNOWN_ID
  }

  /** do_board_detect: the type of the first board whose id matches, else UNKNOWN. */
  function Detect(st: State, boards: seq<LsBoard>, keys: string, status: int, spl: bool): State
    requires NeedsSelect(st) ==> !Session(keys, |boards|, [], 0).Waiting?
  {
    var (id, s) :=
      if NeedsSelect(st) then
        SessionSpec(keys, |boards|, [], 0);
        Select(st, boards, Session(keys, |boards|, [], 0), status, spl)
      else (Some(st.bdinfo[BdiName]), st);
    var i := IndexOf(Ids(boards), id.value, 0);
    s.(boardType := if i == -1 then UNKNOWN else boards[i].bdtype)
  }

  /**
   * `t` is the type do_board_detect's lookup gives for `id`: the type of the
   * first board carrying that id, or UNKNOWN when none does.
   */
  predicate FirstWith(boards: seq<LsBoard>, id: string, t: int)
  {
    (t != UNKNOWN <==> exists j | 0 <= j < |boards| :: boards[j].boardid == id) &&
    (t != UNKNOWN ==>
       1 <= t <= |boards| && boards[t - 1].boardid == id && forall j | 0 <= j < t - 1 :: boards[j].boardid != id)
  }

  /**
   * Detection: only board info and the type can change. A stored id other
   * than "unknown" is kept and the type is that of the first board with the
   * id; after an "unknown" answer at the console the type is that of the
   * first board whose id is "unknown". A chosen board's id is written to
   * board info, and board info is persisted exactly when its save succeeds,
   * never in a CONFIG_SPL build; the type is that of the first board with
   * the chosen id, which is the chosen board when the ids differ.
   */
  lemma DetectSpec(st: State, boards: seq<LsBoard>, keys: string, status: int, spl: bool)
    requires Enumerated(boards)
    requires NeedsSelect(st) ==> !Session(keys, |boards|, [], 0).Waiting?
    ensures Session(keys, |boards|, [], 0).Chosen? ==> 0 <= Session(keys, |boards|, [], 0).index < |boards|
    ensures var r := Detect(st, boards, keys, status, spl);
      var c := Session(keys, |boards|, [], 0);
      r.vars == st.vars && r.saved == st.saved && r.log == st.log && r.wdt == st.wdt &&
      (!NeedsSelect(st) ==>
        r == st.(boardType := r.boardType) && FirstWith(boards, st.bdinfo[BdiName], r.boardType)) &&
      (NeedsSelect(st) && c.Unknown? ==>
        r == st.(boardType := r.boardType) && FirstWith(boards, UNKNOWN_ID, r.boardType)) &&
      (NeedsSelect(st) && c.Chosen? ==>
        var id := boards[c.index].boardid;
        r.bdinfo == st.bdinfo[BdiName := id] &&
        (!spl && status == 0 ==> r.bdSaved == r.bdinfo) && (spl || status != 0 ==> r.bdSaved == st.bdSaved) &&
        FirstWith(boards, id, r.boardType) && r.boardType <= c.index + 1 &&
        ((forall j, k | 0 <= j < k < |boards| :: boards[j].boardid != boards[k].boardid) ==> r.boardType == c.index + 1))
  {
    SessionSpec(keys, |boards|, [], 0);
    var ids := Ids(boards);
    if !NeedsSelect(st) {
      IndexOfFirst(ids, st.bdinfo[BdiName], 0);
    } else if Session(keys, |boards|, [], 0).Chosen? {
      var i := Session(keys, |boards|, [], 0).index;
      IndexOfFirst(ids, boards[i].boardid, 0);
    } else {
      IndexOfFirst(ids, UNKNOWN_ID, 0);
    }
  }

  /** multi_boards_check_store: the board type handed over by the SPL, saved as the board id. */
  function CheckStore(st: State, handoff: Option<int>, boards: seq<LsBoard>, status: int): (int, State)
  {
    if handoff.None? || handoff.value >= MaxType(boards) then (-EINVAL, st.(boardType := UNKNOWN))
    else
      var s := st.(boardType := handoff.value);
      var i := IndexOf(Types(boards), handoff.value, 0);
      if i == -1 then (0, s)
      else
        var id := boards[i].boardid;
        if BdiName !in s.bdinfo || s.bdinfo[BdiName] != id then
          // bdinfo_save's status is returned when it fails, and 0 is its success
          (status, SaveBdinfo(s.(bdinfo := s.bdinfo[BdiName := id]), status))
        else (0, s)
  }

  /**
   * A missing handoff or a type at or above MAX gives UNKNOWN and -EINVAL;
   * a type below 1 (UNKNOWN or negative) is taken with nothing written and
   * 0; otherwise the type is taken, the board's id is in board info
   * afterwards, and board info is written (and its save status returned)
   * only when it held another id; that write persists exactly when the save
   * succeeds.
   */
  lemma CheckStoreSpec(st: State, handoff: Option<int>, boards: seq<LsBoard>, status: int)
    requires Enumerated(boards)
    ensures var (ret, r) := CheckStore(st, handoff, boards, status);
      (handoff.None? || handoff.value > |boards| ==> ret == -EINVAL && r == st.(boardType := UNKNOWN)) &&
      (handoff.Some? && handoff.value < 1 ==> ret == 0 && r == st.(boardType := handoff.value)) &&
      (handoff.Some? && 1 <= handoff.value <= |boards| ==>
        var id := boards[handoff.value - 1].boardid;
        r.boardType == handoff.value && BdiName in r.bdinfo && r.bdinfo[BdiName] == id &&
        (BdiName in st.bdinfo && st.bdinfo[BdiName] == id ==> ret == 0 && r == st.(boardType := handoff.value)) &&
        (!(BdiName in st.bdinfo && st.bdinfo[BdiName] == id) ==>
          ret == status && r.bdinfo == st.bdinfo[BdiName := id] &&
          (status == 0 ==> r.bdSaved == r.bdinfo) && (status != 0 ==> r.bdSaved == st.bdSaved)))
  {
    if handoff.Some? && handoff.value < 1 {
      IndexOfFirst(Types(boards), handoff.value, 0);
    }
    if handoff.Some? && 1 <= handoff.value <= |boards| {
      var ts := Types(boards);
      IndexOfFirst(ts, handoff.value, 0);
      assert ts[handoff.value - 1] == handoff.value;
      assert IndexOf(ts, handoff.value, 0) == handoff.value - 1;
    }
  }

  // ---- the code ----

  /** One of the table loops of do_board_detect and multi_boards_check_store. */
  method Lookup<T(==)>(xs: seq<T>, x: T) returns (i: int)
    ensures i == IndexOf(xs, x, 0)
  {
    i := 0;
    while i < |xs|
      invariant 0 <= i <= |xs|
      invariant IndexOf(xs, x, i) == IndexOf(xs, x, 0)
      decreases |xs| - i
    {
      if xs[i] == x {
        return;
      }
      i := i + 1;
    }
    i := -1;
  }

  /** The input buffer holds `id` digits and then NULs to its end. */
  predicate Buffered(input: seq<char>, id: int)
  {
    |input| == INPUT_SIZE && 0 <= id < INPUT_SIZE &&
    AllDigits(input[..id]) && forall k | id <= k < INPUT_SIZE :: input[k] == '\0'
  }

  /** Its first byte is NUL exactly when no digit was typed, and its number is theirs. */
  lemma BufferRead(input: seq<char>, id: int)
    requires Buffered(input, id)
    ensures input[0] == '\0' <==> input[..id] == []
    ensures DecimalValue(DigitPrefix(input)) == DecimalValue(input[..id])
  {
    if id > 0 {
      assert input[..id][0] == input[0];
    }
    DigitPrefixStops(input[..id], input[id..]);
    assert input == input[..id] + input[id..];
  }

  /** A digit stored while there is room is appended to the typed ones. */
  lemma BufferPush(input: seq<char>, id: int, c: char)
    requires Buffered(input, id) && IsDigit(c) && id < INPUT_SIZE - 1
    ensures Buffered(input[id := c], id + 1) && input[id := c][..id + 1] == input[..id] + [c]
  {
    assert input[id := c][..id + 1] == input[..id] + [c];
  }

  /** A cleared buffer holds no digit. */
  lemma BufferClear(input: seq<char>)
    requires |input| == INPUT_SIZE && forall k | 0 <= k < INPUT_SIZE :: input[k] == '\0'
    ensures Buffered(input, 0) && input[..0] == []
  {
  }

  /** An Enter key decides on the digits typed so far, or clears them. */
  lemma SessionEnter(keys: string, cnt: int, d: string, pos: nat)
    requires pos < |keys| && (keys[pos] == '\n' || keys[pos] == '\r') && AllDigits(d)
    ensures d == [] ==> Session(keys, cnt, d, pos) == Unknown
    ensures d != [] && 1 <= DecimalValue(d) <= cnt ==> Session(keys, cnt, d, pos) == Chosen(DecimalValue(d) - 1)
    ensures d != [] && !(1 <= DecimalValue(d) <= cnt) ==> Session(keys, cnt, d, pos) == Session(keys, cnt, [], pos + 1)
  {
  }

  /** Any other key leaves `d'` typed: one digit more while there is room, none after a non-digit. */
  lemma SessionKey(keys: string, cnt: int, d: string, pos: nat, d': string)
    requires pos < |keys| && keys[pos] != '\n' && keys[pos] != '\r' && AllDigits(d)
    requires d' == if IsDigit(keys[pos]) then (if |d| < INPUT_SIZE - 1 then d + [keys[pos]] else d) else []
    ensures AllDigits(d') && Session(keys, cnt, d, pos) == Session(keys, cnt, d', pos + 1)
  {
  }

  /** memset(input, 0, sizeof(input)) */
  method ClearInput(input: array<char>)
    requires input.Length == INPUT_SIZE
    modifies input
    ensures Buffered(input[..], 0) && input[..0] == []
  {
    forall k | 0 <= k < INPUT_SIZE {
      input[k] := '\0';
    }
    BufferClear(input[..]);
  }

  /** The chosen board's id goes to board info, which is saved with the status `status` unless `spl`. */
  method StoreChoice(b: Board, boards: seq<LsBoard>, v: int, status: int, spl: bool) returns (boardid: Option<string>)
    requires 1 <= v <= |boards|
    modifies b
    ensures (boardid, b.Snapshot()) == Select(old(b.Snapshot()), boards, Chosen(v - 1), status, spl)
  {
    boardid := Some(boards[v - 1].boardid);
    b.BdinfoSet(BdiName, boards[v - 1].boardid);
    if !spl {
      var _ := b.BdinfoSave(status);
    }
  }

  /**
   * user_select_board_id, corrected: the keys arrive one by one; the result
   * is the chosen id or "unknown", or None when the keys run out first.
   * A chosen id is saved only when `spl` (CONFIG_SPL) is off.
   */
  method UserSelectBoardId(b: Board, boards: seq<LsBoard>, keys: string, status: int, spl: bool) returns (boardid: Option<string>)
    modifies b
    ensures Session(keys, |boards|, [], 0).Chosen? ==> 0 <= Session(keys, |boards|, [], 0).index < |boards|
    ensures (boardid, b.Snapshot()) == Select(old(b.Snapshot()), boards, Session(keys, |boards|, [], 0), status, spl)
  {
    SessionSpec(keys, |boards|, [], 0);
    ghost var goal := Session(keys, |boards|, [], 0);
    var input := new char[INPUT_SIZE];
    ClearInput(input);
    var id := 0;
    var pos := 0;
    while pos < |keys|
      invariant pos <= |keys| && Buffered(input[..], id)
      invariant Session(keys, |boards|, input[..id], pos) == goal
      invariant b.Snapshot() == old(b.Snapshot())
      decreases |keys| - pos
    {
      var c := keys[pos];
      if c == '\n' || c == '\r' {
        BufferRead(input[..], id);
        SessionEnter(keys, |boards|, input[..id], pos);
        pos := pos + 1;
        if input[0] == '\0' {
          return Some(UNKNOWN_ID);
        }
        var v := DecimalValue(DigitPrefix(input[..]));
        if 1 <= v <= |boards| {
          boardid := StoreChoice(b, boards, v, status, spl);
          return;
        }
        ClearInput(input);
        id := 0;
      } else if IsDigit(c) {
        SessionKey(keys, |boards|, input[..id], pos,
          if id < INPUT_SIZE - 1 then input[..id] + [c] else input[..id]);
        pos := pos + 1;
        if id < INPUT_SIZE - 1 {
          BufferPush(input[..], id, c);
          input[id] := c;
          id := id + 1;
        }
      } else {
        SessionKey(keys, |boards|, input[..id], pos, []);
        pos := pos + 1;
        ClearInput(input);
        id := 0;
      }
    }
    return None;
  }

  /**
   * do_board_detect on the board: the console is asked only when the stored
   * id is missing or "unknown", and then must come to a decision.
   */
  method DoBoardDetect(b: Board, boards: seq<LsBoard>, keys: string, status: int, spl: bool)
    requires NeedsSelect(b.Snapshot()) ==> !Session(keys, |boards|, [], 0).Waiting?
    modifies b
    ensures b.Snapshot() == Detect(old(b.Snapshot()), boards, keys, status, spl)
  {
    b.SetBoardType(UNKNOWN);
    var id := b.BdinfoGet(BdiName);
    if id.None? || id.value == UNKNOWN_ID {
      id := UserSelectBoardId(b, boards, keys, status, spl);
    }
    var i := Lookup(Ids(boards), id.value);
    if i != -1 {
      b.SetBoardType(boards[i].bdtype);
    }
  }

  method MultiBoardsCheckStore(b: Board, handoff: Option<int>, boards: seq<LsBoard>, status: int) returns (ret: int)
    modifies b
    ensures (ret, b.Snapshot()) == CheckStore(old(b.Snapshot()), handoff, boards, status)
  {
    if handoff.None? || handoff.value >= MaxType(boards) {
      b.SetBoardType(UNKNOWN);
      return -EINVAL;
    }
    b.SetBoardType(handoff.value);
    var i := Lookup(Types(boards), handoff.value);
    if i != -1 {
      var id := boards[i].boardid;
      var name := b.BdinfoGet(BdiName);
      if name.None? || name.value != id {
        b.BdinfoSet(BdiName, id);
        ret := b.BdinfoSave(status);
        if ret != 0 {
          return ret;
        }
      }
    }
    return 0;
  }
}
