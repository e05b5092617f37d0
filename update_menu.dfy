// The ANSI update menu (board/loongson/common/loongson_update_menu.c): the
// option table of the chosen update type becomes a list of numbered entries
// plus a trailing "Return" entry; arrow keys move the highlighted entry and
// Enter selects it.

module UpdateMenu {
  import opened Opt
  import opened CStr

  /** Maximum number of menu entries. */
  const MAX_COUNT := 99
  /** UPDATEMENU_END */
  const END_TITLE := "Return"
  /** UPDATEMENU_RETURN_CONSOLE and UPDATEMENU_RETURN_MENU. */
  const RETURN_CONSOLE := 0
  const RETURN_MENU := 1

  const ESC: char := 27 as char

  /** The build options the option tables depend on. */
  datatype Config = Config(generalLoad: bool, usbStorage: bool, mmc: bool, boardMmcFs: bool)

  /** The update types, named by update_typename_str. */
  datatype UpdateType = Kernel | Rootfs | Uboot | Dtb | System | BootSelect | Resolution

  function TypeName(t: UpdateType): string
  {
    match t
    case Kernel => "kernel"
    case Rootfs => "rootfs"
    case Uboot => "uboot"
    case Dtb => "dtb"
    case System => "system"
    case BootSelect => "bootselect"
    case Resolution => "resolution"
  }

  /** A built-in option "title=command", kept as its two halves. */
  datatype MenuOption = Choice(title: string, command: string)

  function Text(o: MenuOption): string
  {
    o.title + "=" + o.command
  }

  function Texts(os: seq<MenuOption>): (r: seq<string>)
    ensures |r| == |os| && forall j | 0 <= j < |os| :: r[j] == Text(os[j])
  {
    seq(|os|, j requires 0 <= j < |os| => Text(os[j]))
  }

  function When(b: bool, o: MenuOption): seq<MenuOption>
  {
    if b then [o] else []
  }

  const K_USB := Choice("Update kernel (uImage) (by usb)", "general_load --if usb --sym uImage")
  const K_MMC := Choice("Update kernel (uImage) (by mmc)", "general_load --if mmc1 --sym uImage")
  const K_TFTP := Choice("Update kernel (uImage) (by tftp)", "general_load --if net --sym uImage")
  const R_USB := Choice("Update rootfs (rootfs.img) (by usb)", "general_load --if usb --sym rootfs.img --decompress;")
  const R_TFTP := Choice("Update rootfs (rootfs.img) (by tftp)", "general_load --if net --sym rootfs.img --decompress;")
  const R_MMC := Choice("Update rootfs (rootfs.img) (by mmc)", "general_load --if mmc1 --sym rootfs.img --decompress;")
  const U_USB := Choice("Update u-boot to spi flash (by usb)", "loongson_update usb uboot")
  const U_MMC := Choice("Update u-boot to spi flash (by mmc)", "loongson_update mmc uboot")
  const U_TFTP := Choice("Update u-boot to spi flash (by tftp)", "loongson_update tftp uboot")
  const D_USB := Choice("Update DTB (dtb.bin) to spi flash (by usb)", "loongson_update usb dtb")
  const D_MMC := Choice("Update DTB (dtb.bin) to spi flash (by mmc)", "loongson_update mmc dtb")
  const D_TFTP := Choice("Update DTB (dtb.bin) to spi flash (by tftp)", "loongson_update tftp dtb")
  const D_CLEAN := Choice("Clean  DTB parts", "mtd erase dtb")
  const S_USB := Choice("System install to mmc device (by usb)", "recover_cmd usb 1 mmc")
  const S_TFTP := Choice("System install to mmc device (by tftp)", "recover_cmd tftp 1 mmc")
  const S_MMC := Choice("System install to mmc device (by mmc)", "recover_cmd mmc 1 mmc")
  const B_EMMC := Choice("System Boot from emmc", "loongson_boot emmc")
  const B_SDCARD := Choice("System Boot from sdcard", "loongson_boot sdcard")

  /**
   * The NULL-terminated option table of a built-in type, without its NULL.
   */
  function BuiltIn(cfg: Config, t: UpdateType): seq<MenuOption>
    requires t != Resolution
  {
    match t
    case Kernel =>
      if !cfg.generalLoad then []
      else (When(cfg.usbStorage, K_USB) +
        When(cfg.mmc, K_MMC) +
        [K_TFTP])
    case Rootfs =>
      if !cfg.generalLoad then []
      else (When(cfg.usbStorage, R_USB) +
        [R_TFTP] +
        When(cfg.mmc, R_MMC))
    case Uboot =>
      [U_USB] +
        When(cfg.mmc, U_MMC) +
        [U_TFTP]
    case Dtb =>
      [D_USB] +
        When(cfg.mmc, D_MMC) +
        [D_TFTP, D_CLEAN]
    case System =>
      if !cfg.boardMmcFs then []
      else ([S_USB,
             S_TFTP] +
        When(cfg.mmc, S_MMC))
    case BootSelect =>
      if !cfg.mmc then [] else [B_EMMC, B_SDCARD]
  }

  /** The option table of a type; the resolution table comes from the video code and is an input. */
  function Table(cfg: Config, t: UpdateType, resolution: seq<string>): seq<string>
  {
    if t == Resolution then resolution else Texts(BuiltIn(cfg, t))
  }

  /** updatemenu_getoption: NULL above MAX_COUNT and at the table's end. */
  function GetOption(table: seq<string>, n: nat): (r: Option<string>)
    ensures r.Some? <==> n <= MAX_COUNT && n < |table|
    ensures r.Some? ==> r.value == table[n]
  {
    if n > MAX_COUNT then None else if n < |table| then Some(table[n]) else None
  }

  // ---- menu entries ----

  datatype Entry = Entry(num: nat, key: string, title: string, command: string)

  /** The title and command of an option, split at its first '='; None without one. */
  function Split(option: string): Option<(string, string)>
  {
    var sep := Find(option, '=', 0);
    if sep == -1 then None else Some((option[..sep], option[sep + 1..]))
  }

  /** Option `i` as a menu entry: its number, the number in decimal as its key, its title and command. */
  function OptionEntry(i: nat, title: string, command: string): Entry
  {
    Entry(i, DecimalString(i), title, command)
  }

  /** The entries the option loop of updatemenu_create builds from option `i` on. */
  function Collect(table: seq<string>, i: nat): seq<Entry>
    requires i < MAX_COUNT - 1
    decreases MAX_COUNT - 1 - i
  {
    match GetOption(table, i)
    case None => []
    case Some(o) =>
      match Split(o)
      case None => []
      case Some((t, c)) =>
        [OptionEntry(i, t, c)] + (if i + 1 == MAX_COUNT - 1 then [] else Collect(table, i + 1))
  }

  function ReturnCommand(ret: int): string
  {
    if ret == RETURN_MENU then "bootmenu" else ""
  }

  /** The whole list: the options then the Return entry. */
  function Entries(table: seq<string>, ret: int): seq<Entry>
  {
    var es := Collect(table, 0);
    es + [Entry(|es|, DecimalString(|es|), END_TITLE, ReturnCommand(ret))]
  }

  /** The entries are numbered from 0 and keyed by their number in decimal. */
  predicate Numbered(es: seq<Entry>)
  {
    forall j | 0 <= j < |es| :: es[j].num == j && es[j].key == DecimalString(j)
  }

  // ---- the key decoder ----

  datatype Key = KeyNone | KeyUp | KeyDown | KeySelect

  /**
   * One character through updatemenu_loop: the new escape state and key.
   * The escape states are 0 (idle), 1 (ESC seen), 2 (ESC '[' seen) and 3
   * (ESC '[' '1' seen).
   */
  function Decode(esc: int, key: Key, c: char): (int, Key)
  {
    var (e, k) :=
      if esc == 0 then (if c == ESC then (1, KeyNone) else (0, key))
      else if esc == 1 then (if c == '[' then (2, KeyNone) else (0, key))
      else if esc == 2 || esc == 3 then
        if esc == 2 && c == '1' then (3, KeyNone)
        else (0, if c == 'A' then KeyUp else if c == 'B' then KeyDown else KeyNone)
      else (esc, key);
    if c == '\r' then (e, KeySelect) else (e, k)
  }

  /** Feed a string to the decoder. */
  function DecodeAll(esc: int, key: Key, s: string): (int, Key)
    decreases |s|
  {
    if s == [] then (esc, key) else
      var (e, k) := Decode(esc, key, s[0]);
      DecodeAll(e, k, s[1..])
  }

  /** What updatemenu_choice_entry gives back. */
  datatype Outcome =
    | Pending                          // the input ran out while waiting for a key
    | Redraw(used: nat)                // NULL after an arrow key: redraw the menu
    | Selected(key: string, used: nat) // Enter chose the entry with this key

  /**
   * updatemenu_choice_entry from input position `pos`: the outcome and the
   * new active entry.
   */
  function Choose(es: seq<Entry>, active: int, count: int, esc: int, key: Key, input: string, pos: nat): (Outcome, int)
    requires 0 <= active < |es| && pos <= |input|
    decreases |input| - pos
  {
    if pos == |input| then (Pending, active)
    else
      var (e, k) := Decode(esc, key, input[pos]);
      match k
      case KeyUp => (Redraw(pos + 1), if active > 0 then active - 1 else active)
      case KeyDown => (Redraw(pos + 1), if active < count - 1 then active + 1 else active)
      case KeySelect => (Selected(es[active].key, pos + 1), active)
      case KeyNone => Choose(es, active, count, e, k, input, pos + 1)
  }

  /** The option loop of updatemenu_create. */
  method CollectOptions(table: seq<string>) returns (es: seq<Entry>)
    ensures es == Collect(table, 0)
  {
    es := [];
    var i := 0;
    while i < MAX_COUNT - 1
      invariant 0 <= i <= MAX_COUNT - 1
      invariant CollectedSoFar(es, table, i)
      decreases MAX_COUNT - 1 - i
    {
      var option := GetOption(table, i);
      if option.None? {
        CollectStops(es, table, i);
        break;
      }
      var split := Split(option.value);
      if split.None? {
        CollectStops(es, table, i);
        break;
      }
      CollectNext(es, table, i);
      es := es + [OptionEntry(i, split.value.0, split.value.1)];
      i := i + 1;
    }
  }

  /** The loop invariant: the entries so far followed by those still to come are all of them. */
  predicate CollectedSoFar(es: seq<Entry>, table: seq<string>, i: nat)
  {
    i <= MAX_COUNT - 1 &&
    (i < MAX_COUNT - 1 ==> es + Collect(table, i) == Collect(table, 0)) &&
    (i == MAX_COUNT - 1 ==> es == Collect(table, 0))
  }

  lemma CollectNext(es: seq<Entry>, table: seq<string>, i: nat)
    requires i < MAX_COUNT - 1 && CollectedSoFar(es, table, i)
    requires GetOption(table, i).Some? && Split(GetOption(table, i).value).Some?
    ensures var sp := Split(GetOption(table, i).value).value;
      CollectedSoFar(es + [OptionEntry(i, sp.0, sp.1)], table, i + 1)
  {
    var o := GetOption(table, i).value;
    var sep := Find(o, '=', 0);
    var e := OptionEntry(i, o[..sep], o[sep + 1..]);
    CollectGoesOn(table, i);
    CollectAppend(es, e, table, i);
  }

  lemma CollectStops(es: seq<Entry>, table: seq<string>, i: nat)
    requires i < MAX_COUNT - 1
    requires GetOption(table, i).None? || Split(GetOption(table, i).value).None?
    requires CollectedSoFar(es, table, i)
    ensures es == Collect(table, 0)
  {
    assert Collect(table, i) == [];
    assert es + [] == es;
  }

  lemma CollectGoesOn(table: seq<string>, i: nat)
    requires i < MAX_COUNT - 1
    requires GetOption(table, i).Some? && Find(GetOption(table, i).value, '=', 0) != -1
    ensures var o := GetOption(table, i).value; var sep := Find(o, '=', 0);
      Collect(table, i) == [OptionEntry(i, o[..sep], o[sep + 1..])] +
        (if i + 1 == MAX_COUNT - 1 then [] else Collect(table, i + 1))
  {
  }

  lemma CollectAppend(es: seq<Entry>, e: Entry, table: seq<string>, i: nat)
    requires i < MAX_COUNT - 1
    requires Collect(table, i) == [e] + (if i + 1 == MAX_COUNT - 1 then [] else Collect(table, i + 1))
    ensures i + 1 == MAX_COUNT - 1 ==> es + Collect(table, i) == es + [e]
    ensures i + 1 < MAX_COUNT - 1 ==> es + Collect(table, i) == (es + [e]) + Collect(table, i + 1)
  {
  }

  // ---- properties ----

  /** Split cuts at the first '=': the title has none and title '=' command is the option. */
  lemma SplitSpec(option: string)
    ensures Split(option).None? <==> '=' !in option
    ensures Split(option).Some? ==>
      var (t, c) := Split(option).value;
      option == t + "=" + c && '=' !in t
  {
    var sep := Find(option, '=', 0);
    if sep == -1 {
      if '=' in option {
        var i :| 0 <= i < |option| && option[i] == '=';
        FindFirst(option, '=', 0, i);
      }
    } else {
      if '=' in option[..sep] {
        var i :| 0 <= i < sep && option[i] == '=';
        FindFirst(option, '=', 0, i);
      }
      assert option == option[..sep] + "=" + option[sep + 1..];
    }
  }

  /**
   * The option loop: at most 98 entries, numbered from `i` and keyed by
   * their number, each holding the split of the option with that number.
   */
  lemma {:induction false} CollectShape(table: seq<string>, i: nat)
    requires i < MAX_COUNT - 1
    ensures var es := Collect(table, i);
      |es| <= MAX_COUNT - 1 - i &&
      forall j | 0 <= j < |es| ::
        es[j].num == i + j && es[j].key == DecimalString(i + j) && i + j < |table| &&
        Split(table[i + j]) == Some((es[j].title, es[j].command))
    decreases MAX_COUNT - 1 - i
  {
    if i < |table| && Split(table[i]).Some? {
      var (t, c) := Split(table[i]).value;
      var head := OptionEntry(i, t, c);
      if i + 1 < MAX_COUNT - 1 {
        CollectShape(table, i + 1);
        ShapeStep(table, i, head, Collect(table, i + 1));
      } else {
        ShapeStep(table, i, head, []);
      }
    }
  }

  /** The entry for option i, followed by entries shaped from option i + 1 on, are shaped from i on. */
  lemma ShapeStep(table: seq<string>, i: nat, head: Entry, rest: seq<Entry>)
    requires i < MAX_COUNT - 1 && i < |table|
    requires head.num == i && head.key == DecimalString(i) && Split(table[i]) == Some((head.title, head.command))
    requires |rest| <= MAX_COUNT - 2 - i
    requires forall j | 0 <= j < |rest| ::
      rest[j].num == i + 1 + j && rest[j].key == DecimalString(i + 1 + j) && i + 1 + j < |table| &&
      Split(table[i + 1 + j]) == Some((rest[j].title, rest[j].command))
    ensures var es := [head] + rest;
      |es| <= MAX_COUNT - 1 - i &&
      forall j | 0 <= j < |es| ::
        es[j].num == i + j && es[j].key == DecimalString(i + j) && i + j < |table| &&
        Split(table[i + j]) == Some((es[j].title, es[j].command))
  {
    var es := [head] + rest;
    forall j | 0 <= j < |es|
      ensures es[j].num == i + j && es[j].key == DecimalString(i + j) && i + j < |table| &&
        Split(table[i + j]) == Some((es[j].title, es[j].command))
    {
      if j > 0 {
        assert es[j] == rest[j - 1] && i + 1 + (j - 1) == i + j;
      }
    }
  }

  /** The option loop takes every option up to the first one without '=' or the 98th. */
  lemma {:induction false} CollectLength(table: seq<string>, i: nat, n: nat)
    requires i <= n < MAX_COUNT - 1 && n <= |table|
    requires forall j | i <= j < n :: Split(table[j]).Some?
    requires n == |table| || Split(table[n]).None?
    ensures |Collect(table, i)| == n - i
    decreases n - i
  {
    if i < n {
      CollectLength(table, i + 1, n);
    }
  }

  /** A full table fills 98 entries; the Return entry makes the 99th. */
  lemma {:induction false} CollectFull(table: seq<string>, i: nat)
    requires i < MAX_COUNT - 1 && MAX_COUNT - 1 <= |table|
    requires forall j | i <= j < MAX_COUNT - 1 :: Split(table[j]).Some?
    ensures |Collect(table, i)| == MAX_COUNT - 1 - i
    decreases MAX_COUNT - 1 - i
  {
    if i + 1 < MAX_COUNT - 1 {
      CollectFull(table, i + 1);
    }
  }

  /**
   * The finished list: between 1 and 99 entries, numbered and keyed in
   * order, with distinct keys that fit `char key[3]`, the option entries
   * first and the Return entry last, whose command depends on the return
   * mode.
   */
  lemma EntriesShape(table: seq<string>, ret: int)
    ensures var es := Entries(table, ret);
      1 <= |es| <= MAX_COUNT && Numbered(es) &&
      (forall j | 0 <= j < |es| - 1 :: j < |table| && Split(table[j]) == Some((es[j].title, es[j].command))) &&
      es[|es| - 1].title == END_TITLE &&
      es[|es| - 1].command == (if ret == RETURN_MENU then "bootmenu" else "")
  {
    CollectShape(table, 0);
  }

  lemma SepIn(title: string, command: string)
    ensures Split(title + "=" + command).Some?
  {
    FindFirst(title + "=" + command, '=', 0, |title|);
  }

  /**
   * With a built-in table, the menu lists every option, in table order,
   * then the Return entry.
   */
  lemma BuiltInEntries(cfg: Config, t: UpdateType, res: seq<string>, ret: int)
    requires t != Resolution
    ensures |Table(cfg, t, res)| <= 4
    ensures |Entries(Table(cfg, t, res), ret)| == |Table(cfg, t, res)| + 1
  {
    var table := Table(cfg, t, res);
    forall j | 0 <= j < |table|
      ensures Split(table[j]).Some?
    {
      SepIn(BuiltIn(cfg, t)[j].title, BuiltIn(cfg, t)[j].command);
    }
    CollectLength(table, 0, |table|);
  }

  /** Every key fits the three-byte key buffer. */
  lemma {:induction false} KeyFits(n: nat)
    requires n < MAX_COUNT
    ensures Fits(DecimalString(n), 3)
  {
    if n >= 10 {
      assert DecimalString(n) == DecimalString(n / 10) + [DigitChar(n % 10)];
    }
  }

  lemma KeysDistinct(table: seq<string>, ret: int, j: nat, k: nat)
    requires j < k < |Entries(table, ret)|
    ensures Entries(table, ret)[j].key != Entries(table, ret)[k].key
  {
    EntriesShape(table, ret);
    if DecimalString(j) == DecimalString(k) {
      DecimalStringInjective(j, k);
    }
  }

  /**
   * The decoder's escape state stays in 0..3, Enter always selects, and an
   * arrow key comes only from 'A' or 'B' after ESC '['. The key carried into
   * a step is always KeyNone, since any other key ends the choice.
   */
  lemma DecodeStates(esc: int, key: Key, c: char)
    requires 0 <= esc <= 3 && key == KeyNone
    ensures 0 <= Decode(esc, key, c).0 <= 3
    ensures c == '\r' ==> Decode(esc, key, c).1 == KeySelect
    ensures Decode(esc, key, c).1 == KeyUp ==> c == 'A' && (esc == 2 || esc == 3)
    ensures Decode(esc, key, c).1 == KeyDown ==> c == 'B' && (esc == 2 || esc == 3)
  {
  }

  /** ESC [ A and ESC [ 1 A are Up, ESC [ B and ESC [ 1 B are Down, from idle. */
  lemma ArrowSequences(key: Key)
    ensures DecodeAll(0, KeyNone, [ESC, '[', 'A']) == (0, KeyUp)
    ensures DecodeAll(0, KeyNone, [ESC, '[', '1', 'A']) == (0, KeyUp)
    ensures DecodeAll(0, KeyNone, [ESC, '[', 'B']) == (0, KeyDown)
    ensures DecodeAll(0, KeyNone, [ESC, '[', '1', 'B']) == (0, KeyDown)
    ensures DecodeAll(0, KeyNone, [ESC, 'A']) == (0, KeyNone)
  {
    Arrow('A', KeyUp);
    Arrow('B', KeyDown);
    assert [ESC, 'A'][1..] == ['A'];
    assert ['A'][1..] == [];
  }

  lemma Arrow(c: char, k: Key)
    requires (c == 'A' && k == KeyUp) || (c == 'B' && k == KeyDown)
    ensures DecodeAll(0, KeyNone, [ESC, '[', c]) == (0, k)
    ensures DecodeAll(0, KeyNone, [ESC, '[', '1', c]) == (0, k)
  {
    assert DecodeAll(0, k, []) == (0, k);
    assert [c][1..] == [];
    assert DecodeAll(2, KeyNone, [c]) == (0, k);
    assert DecodeAll(3, KeyNone, [c]) == (0, k);
    assert ['1', c][1..] == [c];
    assert DecodeAll(2, KeyNone, ['1', c]) == (0, k);
    assert ['[', c][1..] == [c];
    assert ['[', '1', c][1..] == ['1', c];
    assert DecodeAll(1, KeyNone, ['[', c]) == (0, k);
    assert DecodeAll(1, KeyNone, ['[', '1', c]) == (0, k);
    assert [ESC, '[', c][1..] == ['[', c];
    assert [ESC, '[', '1', c][1..] == ['[', '1', c];
  }

  /**
   * Up and Down keep the active entry inside 0..count-1, moving it by at
   * most one; Enter returns the key of the active entry, which is its number.
   */
  lemma {:induction false} ChooseSpec(es: seq<Entry>, active: int, esc: int, key: Key, input: string, pos: nat)
    requires 0 <= active < |es| && pos <= |input| && Numbered(es)
    ensures var (o, a) := Choose(es, active, |es|, esc, key, input, pos);
      0 <= a < |es| && active - 1 <= a <= active + 1 &&
      (o.Selected? ==> a == active && o.key == DecimalString(active)) &&
      (o.Pending? ==> a == active) &&
      (o.Redraw? || o.Selected? ==> pos < o.used <= |input|)
    decreases |input| - pos
  {
    if pos < |input| {
      var (e, k) := Decode(esc, key, input[pos]);
      if k == KeyNone {
        ChooseSpec(es, active, e, k, input, pos + 1);
      }
    }
  }

  /** Enter selects wherever the escape decoder is. */
  lemma EnterSelects(es: seq<Entry>, active: int, esc: int, key: Key, input: string, pos: nat)
    requires 0 <= active < |es| && pos < |input| && input[pos] == '\r'
    ensures Choose(es, active, |es|, esc, key, input, pos) == (Selected(es[active].key, pos + 1), active)
  {
    assert Decode(esc, key, input[pos]).1 == KeySelect;
  }

  // ---- do_updatemenu's arguments ----

  /** The first type whose name is `s` (the loop over update_typename_str). */
  function TypeByName(s: string): (r: Option<UpdateType>)
    ensures r.Some? ==> TypeName(r.value) == s
  {
    if s == "kernel" then Some(Kernel) else if s == "rootfs" then Some(Rootfs)
    else if s == "uboot" then Some(Uboot) else if s == "dtb" then Some(Dtb)
    else if s == "system" then Some(System) else if s == "bootselect" then Some(BootSelect)
    else if s == "resolution" then Some(Resolution) else None
  }

  /** simple_strtol(s, NULL, 10): an optional '-' and the leading digits. */
  function Strtol(s: string): int
  {
    if |s| > 0 && s[0] == '-' then -(DecimalValue(DigitPrefix(s[1..])) as int)
    else DecimalValue(DigitPrefix(s))
  }

  /** The `(int)` cast on LP64: the low 32 bits, as a signed value. */
  function ToInt32(v: int): (r: int)
    ensures -0x8000_0000 <= r < 0x8000_0000
    ensures (r - v) % 0x1_0000_0000 == 0
  {
    var m := v % 0x1_0000_0000;
    if m < 0x8000_0000 then m else m - 0x1_0000_0000
  }

  /** The return mode an argument string selects. */
  function ReturnMode(arg: Option<string>): int
  {
    match arg
    case None => RETURN_CONSOLE
    case Some(s) =>
      var v := ToInt32(Strtol(s));
      if v < 0 || v > 1 then RETURN_CONSOLE else v
  }

  /**
   * How an updatemenu command line ends before the menu is shown. More than
   * two arguments are refused by U-Boot with the usage text, as the command
   * table's maxargs is 3. With no argument the source hands argv[1], which is
   * NULL, to strcmp; the model marks that call `NoType` and gives it no
   * outcome. An unknown name returns -1; a known one shows the menu for
   * that type with the return mode the second argument selects.
   */
  datatype Invocation = Usage | NoType | UnknownType | Show(t: UpdateType, mode: int)

  /** do_updatemenu up to the menu. */
  function Args(argv: seq<string>): Invocation
  {
    if |argv| > 3 then Usage
    else if |argv| < 2 then NoType
    else match TypeByName(argv[1])
      case None => UnknownType
      case Some(t) => Show(t, ReturnMode(if |argv| == 3 then Some(argv[2]) else None))
  }

  /**
   * A command line of one to three words: the type is the one named by the
   * first argument, unknown names fail; the return mode is MENU exactly when
   * the second argument reads as 1 after the cast, and CONSOLE otherwise or
   * when it is missing. A bare `updatemenu` is the NULL case, and more than
   * two arguments give the usage text.
   */
  lemma ArgsSpec(argv: seq<string>, t: UpdateType)
    ensures Args(argv).Usage? <==> |argv| > 3
    ensures Args(argv).NoType? <==> |argv| < 2
    ensures 2 <= |argv| <= 3 ==> (Args(argv).Show? <==> exists u: UpdateType :: TypeName(u) == argv[1])
    ensures 2 <= |argv| <= 3 && argv[1] == TypeName(t) ==> Args(argv).Show? && Args(argv).t == t
    ensures Args(argv).Show? ==>
      Args(argv).mode == (if |argv| == 3 && ToInt32(Strtol(argv[2])) == 1 then RETURN_MENU else RETURN_CONSOLE)
  {
    if 2 <= |argv| <= 3 {
      TypeByNameSpec(argv[1]);
      NameTypeRoundTrip(t);
    }
  }

  /** Every type's name reads back as that type. */
  lemma NameTypeRoundTrip(t: UpdateType)
    ensures TypeByName(TypeName(t)) == Some(t)
  {
    match t
    case Kernel => assert TypeName(t) == "kernel";
    case Rootfs => assert TypeName(t) == "rootfs";
    case Uboot => assert TypeName(t) == "uboot";
    case Dtb => assert TypeName(t) == "dtb";
    case System => assert TypeName(t) == "system";
    case BootSelect => assert TypeName(t) == "bootselect";
    case Resolution => assert TypeName(t) == "resolution";
  }

  /** A name reads as a type exactly when it is a type's name. */
  lemma TypeByNameSpec(s: string)
    ensures TypeByName(s).Some? <==> exists u: UpdateType :: TypeName(u) == s
  {
    if exists u: UpdateType :: TypeName(u) == s {
      var u: UpdateType :| TypeName(u) == s;
      NameTypeRoundTrip(u);
    }
  }

  /** The return argument is read as a number: "1" and "01" pick the menu, "2" and "x" the console. */
  lemma ReturnModeExamples()
    ensures ReturnMode(Some("1")) == RETURN_MENU
    ensures ReturnMode(Some("01")) == RETURN_MENU
    ensures ReturnMode(Some("2")) == RETURN_CONSOLE
    ensures ReturnMode(Some("x")) == RETURN_CONSOLE
    ensures ReturnMode(Some("-1")) == RETURN_CONSOLE
  {
    assert DigitPrefix("1") == "1";
    assert DigitPrefix("01") == "01" by { assert DigitPrefix("1") == "1"; }
    assert DigitPrefix("2") == "2";
    assert DigitPrefix("-1"[1..]) == "1";
  }

  // ---- the menu ----

  class Menu {
    var delay: int
    var active: int
    var count: int
    /** The entry list, first to last (menu->first and the next links). */
    var entries: seq<Entry>

    predicate Valid()
      reads this
    {
      count == |entries| && 1 <= count <= MAX_COUNT && 0 <= active < count && Numbered(entries)
    }

    /** updatemenu_create for an option table and a return mode. */
    constructor (table: seq<string>, ret: int)
      ensures entries == Entries(table, ret) && count == |entries| && active == 0 && delay == 0
      ensures Valid()
    {
      var es := CollectOptions(table);
      var i := |es|;
      CollectShape(table, 0);
      var act := 0;
      if i <= MAX_COUNT - 1 {
        es := es + [Entry(i, DecimalString(i), END_TITLE, ReturnCommand(ret))];
        i := i + 1;
      }
      if act >= i || act < 0 {
        act := 0;
      }
      delay := 0;
      active := act;
      count := i;
      entries := es;
      new;
      EntriesShape(table, ret);
    }

    /**
     * updatemenu_choice_entry over the keys in `input`: the outcome, with
     * the active entry moved as the spec says; the list is not changed.
     */
    method ChoiceEntry(input: string) returns (r: Outcome)
      requires Valid()
      modifies this
      ensures entries == old(entries) && count == old(count) && delay == old(delay)
      ensures (r, active) == Choose(entries, old(active), count, 0, KeyNone, input, 0)
      ensures Valid()
    {
      ChooseSpec(entries, active, 0, KeyNone, input, 0);
      var esc := 0;
      var key := KeyNone;
      var i := 0;
      while i < |input|
        invariant 0 <= i <= |input|
        invariant Choose(entries, active, count, esc, key, input, i) == Choose(entries, active, count, 0, KeyNone, input, 0)
        decreases |input| - i
      {
        var c := input[i];
        var (e, k) := Decode(esc, key, c);
        esc, key := e, k;
        i := i + 1;
        match key {
          case KeyUp =>
            if active > 0 {
              active := active - 1;
            }
            return Redraw(i);
          case KeyDown =>
            if active < count - 1 {
              active := active + 1;
            }
            return Redraw(i);
          case KeySelect =>
            return Selected(entries[active].key, i);
          case KeyNone =>
        }
      }
      return Pending;
    }
  }
}
