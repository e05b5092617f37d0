# Loongson u-boot board logic and drivers, modelled in Dafny

This project models the Loongson-specific logic of a u-boot tree for the
LoongArch LS2K/LS2P boards, and proves properties of that model.

- **general_load**: the `gl` copy pipeline.
  - The argument interpreter fills a source record and a destination record (device, format, symbol) from the option tokens, then completes them from the file name.
  - The endpoint record parses `ram`, `net:IP`, `mmcN[:P]`, `usbN[:P]` and `flashN[:P]` and opens one backend descriptor.
  - The orchestrator picks a load function, a burn function and their finalisers from the two targets. It then copies chunk after chunk from offset 0.
  - The raw-flash layer adds a running bad-block skip to every address. It also holds the gzip-to-flash writer, which frames a member of the format of RFC 1952.
- **bootm**: the LoongArch kernel hand-off.
  - The quote-aware tokeniser packs the command line into the boot-parameter area.
  - The `name=value` environment block follows it.
  - The kernel-name classifier picks the argument convention, and the state-flag dispatch runs the boot steps.
- **One-shot environment triggers** (`ls_trigger_*`) and the **A/B system-partition manager**. Both run over the u-boot environment and the board-info store.
- **The update menu**: the option table becomes numbered entries plus "Return", and the ANSI arrow-key decoder moves the cursor.
- **Board identification**: the board id picks the board type, the board type picks the FIT configuration, and the board name is looked up from the description.
- **Drivers**, over a memory-mapped register window:
  - the LS2K PWM;
  - the LS2X watchdog;
  - the SD/MMC host (prescaler, command and data words, programmed-I/O transfer);
  - the LS2K USB PHY field packing;
  - the power-domain controller's clock-gate and DPM words.

How the pieces are modelled:

- Code that updates state in place is a class per source object. Its methods are proved against specification functions of the old state, and lemmas prove the source's promises about those functions.
- Registers are a map from offset to `bv32` plus a log of every write (module `Mmio`), so that an exact write sequence can be stated.
- The firmware services the board code drives are in module `Platform`. These are the environment, the board-info store, `run_command` and the watchdog start hook.
- Block, flash, network, filesystem, inflate and crc32 services are oracles passed in as parameters.

## Model

| member | source | states |
|---|---|---|
| EnvTrigger.IndexOf | board/loongson/common/loongson_env_trigger.c:388-396 | the index the name lookup stops at: the first entry of the name table equal to the argument |
| EnvTrigger.BoundedLiteral | board/loongson/common/loongson_env_trigger.c:85-86 | copying a value into the 32-byte buffer keeps its comparison with any literal shorter than 31 characters |
| EnvTrigger.DefaultDoesNothing | board/loongson/common/loongson_env_trigger.c:88-89 | a trigger whose value is its default "0" ends at once with 0 and no command |
| EnvTrigger.ActKeepsLog | board/loongson/common/loongson_env_trigger.c:113-315 | a trigger action only appends commands |
| EnvTrigger.ResetComesFirst | board/loongson/common/loongson_env_trigger.c:91-99 | for a non-default value the first command is "setenv N 0;saveenv"; if it fails the handler returns -1 with nothing else run |
| EnvTrigger.FiresOnce | board/loongson/common/loongson_env_trigger.c:102-270 | after a boot, kernel, rootfs or u-boot trigger is handled its value is "0" in RAM, so handling it again does nothing; the saved copy reads "0" when it was not "0" and the reset command succeeded, and is unchanged when that command failed |
| EnvTrigger.BootValues | board/loongson/common/loongson_env_trigger.c:113-151 | the boot trigger accepts exactly nand, ssd, mmc, mmc0, mmc1 when their scripts are configured; mmc and mmc0 act alike; other values give -1 |
| EnvTrigger.UpdateValues | board/loongson/common/loongson_env_trigger.c:177-231 | the kernel and rootfs triggers accept exactly nandusb, nandtftp, ssdusb, ssdtftp |
| EnvTrigger.UbootResets | board/loongson/common/loongson_env_trigger.c:258-269 | the u-boot trigger accepts usb and tftp, always runs "reset" afterwards and returns the reset's status |
| EnvTrigger.AbTransitions | board/loongson/common/loongson_env_trigger.c:292-314 | boot1 -> boot2, boot1_wdt starts the 34 s watchdog -> boot2, boot2 switches the system partition -> boot4, boot4 stays, anything else -1; a step whose "setenv ...;saveenv" succeeds has persisted the whole environment, and one that fails leaves the saved copy as it was before that command; boot2 leaves board info as the switch does |
| EnvTrigger.AbBoot4Ends | board/loongson/common/loongson_env_trigger.c:308-310 | a boot4 state returns 0 and is left at "0" by the reset |
| EnvTrigger.NamesDistinct | board/loongson/common/loongson_env_trigger.c:44-50 | the five trigger names are pairwise different |
| EnvTrigger.InitUpToFrame | board/loongson/common/loongson_env_trigger.c:353-368 | the init loop only adds variables |
| EnvTrigger.InitUpToLater | board/loongson/common/loongson_env_trigger.c:353-368 | a name not yet visited is set exactly when it was set at the start |
| EnvTrigger.InitUpToLog | board/loongson/common/loongson_env_trigger.c:358-363 | the init loop issues one "setenv N 0" per missing name, in table order, and asks for a save exactly when one was missing |
| EnvTrigger.InitUpToFills | board/loongson/common/loongson_env_trigger.c:358-363 | every visited name is set, the missing ones to "0" |
| EnvTrigger.InitUpToUnchanged | board/loongson/common/loongson_env_trigger.c:364-367 | with every name present the loop changes nothing |
| EnvTrigger.InitSpec | board/loongson/common/loongson_env_trigger.c:345-371 | init gives every missing trigger "0", keeps the present values, saves once exactly when one was missing (the saved copy taking RAM exactly when that save succeeds), and otherwise changes nothing |
| EnvTrigger.CommandErrors | board/loongson/common/loongson_env_trigger.c:378-405 | a wrong argument count or an unknown name returns -1 and changes nothing |
| EnvTrigger.TriggerFirstCheck | board/loongson/common/loongson_env_trigger.c:70-100 | returns 1 for the default, otherwise issues the reset command and returns -1 or 0 by its status, the saved environment taking the reset only when the command succeeded; the value is copied bounded to 32 bytes |
| EnvTrigger.HandleBootChange | board/loongson/common/loongson_env_trigger.c:102-152 | the boot handler's return value and new state |
| EnvTrigger.HandleUpdateKernelChange | board/loongson/common/loongson_env_trigger.c:166-193 | the kernel handler's return value and new state |
| EnvTrigger.HandleUpdateRootfsChange | board/loongson/common/loongson_env_trigger.c:206-234 | the rootfs handler's return value and new state |
| EnvTrigger.HandleUpdateUbootChange | board/loongson/common/loongson_env_trigger.c:247-270 | the u-boot handler's return value and new state |
| EnvTrigger.HandleAbSysStatusChange | board/loongson/common/loongson_env_trigger.c:281-315 | the A/B handler's return value and new state |
| EnvTrigger.TriggerInit | board/loongson/common/loongson_env_trigger.c:345-371 | the loop's final state is the init specification (see InitSpec) |
| EnvTrigger.Dispatch | board/loongson/common/loongson_env_trigger.c:52-58 | the handler table: index i runs the i-th handler |
| EnvTrigger.DoLoongsonEnvTrigger | board/loongson/common/loongson_env_trigger.c:373-406 | the command's return value and new state: init, one handler by name, or -1 |
| Syspart.Other | board/loongson/common/loongson_boot_syspart_manager.c:46-49 | the other partition is "1" or "4" and never the given one |
| Syspart.SetupUbootWrites | board/loongson/common/loongson_boot_syspart_manager.c:8-23 | setup writes syspart, syspart_last (the other one) and syspart_ch = "0" and saves the environment, which persists exactly when the save succeeds; nothing else changes |
| Syspart.SwitchUnset | board/loongson/common/loongson_boot_syspart_manager.c:42-44 | an unset syspart gives -1 and no write |
| Syspart.SwitchFlips | board/loongson/common/loongson_boot_syspart_manager.c:36-58 | a switch maps "1" to "4" and anything else to "1", leaves syspart and syspart_last different and records the target in board info; the environment and board info each persist exactly when their save succeeds |
| Syspart.SwitchTwice | board/loongson/common/loongson_boot_syspart_manager.c:36-58 | two switches from "1" or "4" restore the partition |
| Syspart.SwitchTwiceFromOther | board/loongson/common/loongson_boot_syspart_manager.c:46-49 | from any other value two switches end on "4" |
| Syspart.SetupCurCases | board/loongson/common/loongson_boot_syspart_manager.c:60-74 | only a NULL target fails, changing nothing; otherwise env and board info take the target, each persisted exactly when its save succeeds |
| Syspart.DetectCases | board/loongson/common/loongson_boot_syspart_manager.c:76-96 | unset syspart_ch fails, "0" changes nothing, otherwise board info takes the current syspart (persisted exactly when its save succeeds) and the env is untouched |
| Syspart.SetupSyspartUbootEnv | board/loongson/common/loongson_boot_syspart_manager.c:8-23 | NULL gives -1 with nothing written, otherwise the setup state of SetupUbootWrites |
| Syspart.SetupSyspartNvmeEnv | board/loongson/common/loongson_boot_syspart_manager.c:25-34 | NULL gives -1, otherwise board info takes the target and is saved, persisting exactly when the save succeeds; the save status is not returned |
| Syspart.SwitchSyspart | board/loongson/common/loongson_boot_syspart_manager.c:36-58 | return value and new state as SwitchFlips and SwitchUnset state them |
| Syspart.SetupCurSyspart | board/loongson/common/loongson_boot_syspart_manager.c:60-74 | return value and new state as SetupCurCases states them |
| Syspart.DetectUserChangeSyspart | board/loongson/common/loongson_boot_syspart_manager.c:76-96 | return value and new state as DetectCases states them |
| UpdateMenu.GetOption | board/loongson/common/loongson_update_menu.c:150-179 | an option exists exactly for numbers up to 99 inside the table, and it is that table entry |
| UpdateMenu.CollectOptions | board/loongson/common/loongson_update_menu.c:361-407 | the option loop builds exactly the entries of the Collect definition |
| UpdateMenu.SplitSpec | board/loongson/common/loongson_update_menu.c:362-389 | an option splits exactly when it holds '='; the title holds no '=' and title "=" command is the option |
| UpdateMenu.CollectShape | board/loongson/common/loongson_update_menu.c:361-407 | at most 98 option entries, numbered and keyed by their index, each the split of the option with that number |
| UpdateMenu.CollectLength | board/loongson/common/loongson_update_menu.c:361-366 | the loop takes every option up to the table's end or the first one without '=' |
| UpdateMenu.CollectFull | board/loongson/common/loongson_update_menu.c:405-406 | a table of 98 or more valid options gives exactly 98 option entries |
| UpdateMenu.EntriesShape | board/loongson/common/loongson_update_menu.c:342-463 | the finished menu has 1 to 99 entries numbered in order, the options first, then "Return" whose command is "bootmenu" in menu return mode and "" otherwise |
| UpdateMenu.SepIn | board/loongson/common/loongson_update_menu.c:21-92 | every built-in "title=command" option splits |
| UpdateMenu.BuiltInEntries | board/loongson/common/loongson_update_menu.c:21-92 | a built-in table has at most 4 options and the menu lists all of them plus "Return" |
| UpdateMenu.KeyFits | board/loongson/common/loongson_update_menu.c:120-130 | every entry number below 99 prints in the 3-byte key buffer with its NUL |
| UpdateMenu.KeysDistinct | board/loongson/common/loongson_update_menu.c:391-393 | two entries never share a key |
| UpdateMenu.DecodeStates | board/loongson/common/loongson_update_menu.c:243-286 | the escape state stays in 0..3, '\r' always selects, Up and Down come only from 'A'/'B' after ESC '[' |
| UpdateMenu.ArrowSequences | board/loongson/common/loongson_update_menu.c:243-282 | ESC [ A and ESC [ 1 A mean Up, ESC [ B and ESC [ 1 B mean Down, ESC A means nothing |
| UpdateMenu.Arrow | board/loongson/common/loongson_update_menu.c:260-281 | the three- and four-character arrow sequences decode from idle to the arrow key |
| UpdateMenu.ChooseSpec | board/loongson/common/loongson_update_menu.c:297-320 | an arrow moves the active entry by at most one and keeps it in the menu; Enter returns the active entry's key, its number |
| UpdateMenu.EnterSelects | board/loongson/common/loongson_update_menu.c:284-286 | Enter selects the active entry whatever the escape state |
| UpdateMenu.TypeByName | board/loongson/common/loongson_update_menu.c:546-550 | a type found by name has that name |
| UpdateMenu.ToInt32 | board/loongson/common/loongson_update_menu.c:561 | the `(int)` cast gives a 32-bit signed value congruent to the long |
| UpdateMenu.ArgsSpec | board/loongson/common/loongson_update_menu.c:539-579 | for one or two arguments the type is the one the first argument names, unknown names fail; the return mode is MENU exactly when the second argument reads as 1; a bare `updatemenu` is the NULL-argument case, and more than two arguments give the usage text |
| UpdateMenu.ReturnModeExamples | board/loongson/common/loongson_update_menu.c:557-565 | "1" and "01" select the menu; "2", "x" and "-1" the console |
| UpdateMenu.Menu.constructor | board/loongson/common/loongson_update_menu.c:342-463 | the new menu holds exactly the Entries list, with entry 0 active |
| UpdateMenu.Menu.ChoiceEntry | board/loongson/common/loongson_update_menu.c:289-325 | the outcome and the new active entry are those of the Choose definition; the entry list is unchanged |
| BoardCompat.IndexOf | board/loongson/common/multi_boards_compat.c:136-141 | a table search's result is -1 or an index holding the key |
| BoardCompat.IndexOfFirst | board/loongson/common/multi_boards_compat.c:170-175 | -1 exactly when no entry matches, otherwise the first match |
| BoardCompat.StrnEqOwnLength | board/loongson/common/multi_boards_compat.c:166 | `strncmp(name, dtb, strlen(name)) == 0` holds exactly when name is a prefix of dtb |
| BoardCompat.FitSpec | board/loongson/common/multi_boards_compat.c:160-188 | an unknown board matches exactly the prefixes of the default device tree; a table board matches exactly its own non-empty device tree name; anything else gives -ENOENT |
| BoardCompat.FitDefaultExamples | board/loongson/common/multi_boards_compat.c:165-167 | for an unknown LS2K500 board "ls2k500" and "" match and "ls2k500_evb" does not |
| BoardCompat.DigitPrefixStops | board/loongson/common/multi_boards_compat.c:100 | simple_strtoul reads the digits up to the first non-digit |
| BoardCompat.SessionSpec | board/loongson/common/multi_boards_compat.c:67-118 | the corrected selection never writes past the buffer and picks only an index of the table |
| BoardCompat.LineAsWritten | board/loongson/common/multi_boards_compat.c:83-107 | a line of 1 to 7 digits naming board n, then Enter, picks index n-1 as written |
| BoardCompat.LineCorrected | board/loongson/common/multi_boards_compat.c:83-107 | the corrected selection picks the same index on such a line |
| BoardCompat.ZeroChoiceAsWritten | board/loongson/common/multi_boards_compat.c:99-107 | as written, choice "0" passes the `id >= cnt` test and indexes the table at -1; the corrected selection re-prompts |
| BoardCompat.RepromptKeepsInputAsWritten | board/loongson/common/multi_boards_compat.c:82-105 | as written, after an out-of-range choice the buffer and the write index are kept, so "5" then "2" with four boards re-prompts again |
| BoardCompat.FiveFirst | board/loongson/common/multi_boards_compat.c:100 | a buffer "5" then NUL reads as 5 |
| BoardCompat.RepromptCorrected | board/loongson/common/multi_boards_compat.c:82-105 | the corrected selection re-prompts with a clean buffer and "5" then "2" picks board 2 |
| BoardCompat.OneDigit | board/loongson/common/multi_boards_compat.c:100 | one digit reads as its value |
| BoardCompat.NinthDigitAsWritten | board/loongson/common/multi_boards_compat.c:88-89 | as written, a ninth digit is stored at input[8], past the 8-byte buffer; the corrected selection never does |
| BoardCompat.DetectSpec | board/loongson/common/multi_boards_compat.c:120-142 | only board info and the type change; a stored id other than "unknown" is kept and the type is that of the first board with that id (UNKNOWN if none); after an "unknown" answer the type is that of the first board with id "unknown"; a chosen board's id is written to board info, persisted exactly when its save succeeds and never in a CONFIG_SPL build, and the type is that of the first board with the chosen id, the chosen board itself when the ids differ |
| BoardCompat.CheckStoreSpec | board/loongson/common/multi_boards_compat.c:212-248 | no handoff or a type of BOARD_TYPE_MAX or more (past the table) gives UNKNOWN and -EINVAL; a type below 1 is taken with 0 and nothing written; otherwise the type is taken, board info holds the board's id afterwards and, only when it held another id, is written with the save status returned, persisting exactly when that save succeeds |
| BoardCompat.Lookup | board/loongson/common/multi_boards_compat.c:136-141 | the table loop returns the first matching index, or -1 |
| BoardCompat.UserSelectBoardId | board/loongson/common/multi_boards_compat.c:67-118 | the corrected selection loop returns the chosen id (written to board info, persisted exactly when its save succeeds, not saved in a CONFIG_SPL build), "unknown", or nothing when the keys run out |
| BoardCompat.DoBoardDetect | board/loongson/common/multi_boards_compat.c:120-142 | the new state is the detection specification (see DetectSpec) |
| BoardCompat.MultiBoardsCheckStore | board/loongson/common/multi_boards_compat.c:212-248 | return value and new state as CheckStoreSpec states them |
| BoardInfo.SearchSpec | board/loongson/common/loongson_board_info.c:24-30 | the search finds nothing exactly when no later description matches, and otherwise returns the name beside the first match |
| BoardInfo.BoardNameByDescSpec | board/loongson/common/loongson_board_info.c:19-32 | NULL gives NULL; the result is NULL exactly when the description is not listed, else the name at its first occurrence |
| BoardInfo.FirstEntryWins | board/loongson/common/loongson_board_info.c:26-29 | a description listed twice gives the first entry's name |
| GlTarget.DigitsEnd | board/loongson/common/general_load/gl_target.c:22-27 | the scan stops at the end or at the first non-digit, and everything it passed is a digit |
| GlTarget.Atoi | board/loongson/common/general_load/gl_target.c:17-33 | with the accumulator started at 0: the end pointer is the first non-digit and the value is the number the digits spell (exact below 2^31; see Left out for a longer run) |
| GlTarget.AtoiAsWrittenLeaksGarbage | board/loongson/common/general_load/gl_target.c:20-26 | as written the accumulator is uninitialised: a stale 1 makes "7" read as 17 |
| GlTarget.DigitsEndOfDecimal | board/loongson/common/general_load/gl_target.c:22-27 | a printed number followed by a non-digit scans to the number's end |
| GlTarget.DigitsEndFrom | board/loongson/common/general_load/gl_target.c:22-27 | a run of digits ending at a non-digit is where the scan stops |
| GlTarget.GetDevnum | board/loongson/common/general_load/gl_target.c:35-51 | the device number before an optional ':' and the partition after it (kept otherwise); NULL gives 0 |
| GlTarget.DevnumWithPart | board/loongson/common/general_load/gl_target.c:34-51 | "N:P" gives back N and P |
| GlTarget.DevnumWithoutPart | board/loongson/common/general_load/gl_target.c:43-46 | "N" gives back N and keeps the partition |
| GlTarget.DigitsEndShift | board/loongson/common/general_load/gl_target.c:46 | scanning from p+1 is the scan of the suffix, shifted |
| GlTarget.SelectKinds | board/loongson/common/general_load/gl_target.c:104-131 | exactly the prefixes ram, net, mmc, usb and flash are accepted; the class follows the prefix and an opened descriptor is of that class |
| GlTarget.SelectMmc | board/loongson/common/general_load/gl_target.c:112-116 | "mmcN:P" opens MMC device N at partition P |
| GlTarget.SelectNet | board/loongson/common/general_load/gl_target.c:108-111 | "net:IP" takes the network class and keeps the partition; the descriptor holds the address IP parses to, and none is opened when that address is 0.0.0.0 |
| GlTarget.SelectFlash | board/loongson/common/general_load/gl_target.c:122-126 | "flashN" opens flash device N and keeps the partition |
| GlTarget.Target.constructor | board/loongson/common/general_load/gl_target.c:175-193 | a new target is all zero: no device, partition 0, no descriptor, format 0, empty symbol |
| GlTarget.Target.SetDevice | board/loongson/common/general_load/gl_target.c:94-137 | a target already set is refused with -1; an unknown prefix changes nothing; a known one sets class, partition and descriptor and returns -1 exactly when the descriptor failed to open |
| GlTarget.Target.SetFmt | board/loongson/common/general_load/gl_target.c:154-158 | the format is stored |
| GlTarget.Target.SetSymbol | board/loongson/common/general_load/gl_target.c:164-168 | the symbol is stored cut to 31 characters |
| GlTarget.Destroy | board/loongson/common/general_load/gl_target.c:195-211 | NULL frees nothing; a flash target frees its flash descriptor and a network target its network descriptor first; every other class frees only the target, which is always freed last |
| GlTarget.SymbolFits | board/loongson/common/general_load/gl_target.c:167 | a stored symbol always fits `char symbol[32]` and a short one is kept whole |
| MtdGl.MtdInfo.WriteBlock | board/loongson/common/general_load/device/mtd.c:76-77 | one mtd_write of an erase block is recorded and reports the bytes the flash transferred |
| MtdGl.MtdInfo.ReadBlock | board/loongson/common/general_load/device/mtd.c:101-104 | one mtd_read of an erase block is recorded; a failing block gives a negative status |
| MtdGl.WriteLoopMarkStep | board/loongson/common/general_load/device/mtd.c:67-73 | a block whose erase fails is marked bad; a failed mark ends the loop with -1, otherwise the same offset is retried one block further |
| MtdGl.WriteLoopAdvance | board/loongson/common/general_load/device/mtd.c:76-81 | an erased block is written and the loop advances one erase block |
| MtdGl.ReadLoopSkip | board/loongson/common/general_load/device/mtd.c:98-99 | a bad block is skipped and the same offset retried one block further |
| MtdGl.ReadLoopReadStep | board/loongson/common/general_load/device/mtd.c:101-108 | a good block is read; a failed read ends the loop with -1 |
| MtdGl.WriteLoopBadsize | board/loongson/common/general_load/device/mtd.c:39-47 | after a write loop, the skip has grown by one erase block per block marked bad |
| MtdGl.WriteLoopMapped | board/loongson/common/general_load/device/mtd.c:63-82 | every write goes to addr + buffer offset + the skip in force at that point |
| MtdGl.WriteLoopErases | board/loongson/common/general_load/device/mtd.c:67-77 | every write is immediately preceded by a successful erase of the same block |
| MtdGl.WriteLoopCovers | board/loongson/common/general_load/device/mtd.c:63-84 | a write loop returning 0 wrote each erase-sized piece of the request exactly once, in order |
| MtdGl.ReadLoopMapped | board/loongson/common/general_load/device/mtd.c:96-109 | every read comes from addr + buffer offset + the skip in force at that point |
| MtdGl.ReadLoopAvoidsBad | board/loongson/common/general_load/device/mtd.c:98-102 | no read touches a block the device reports bad |
| MtdGl.ReadLoopBadsize | board/loongson/common/general_load/device/mtd.c:25-37 | after a read loop, the skip has grown by one erase block per bad block met |
| MtdGl.ReadLoopCovers | board/loongson/common/general_load/device/mtd.c:96-110 | a read loop returning 0 read each erase-sized piece of the request exactly once, in order |
| MtdGl.MtdGlDesc.constructor | board/loongson/common/general_load/device/mtd.c:160-175 | a new descriptor wraps the device with no skip |
| MtdGl.MtdGlDesc.EraseMapped | board/loongson/common/general_load/device/mtd.c:10-23 | erases the block at addr + skip and reports the erase status |
| MtdGl.MtdGlDesc.IsBadMapped | board/loongson/common/general_load/device/mtd.c:25-37 | asks about the block at addr + skip and grows the skip by one erase block exactly when it is bad |
| MtdGl.MtdGlDesc.MarkBadMapped | board/loongson/common/general_load/device/mtd.c:39-47 | marks the block at addr + skip and grows the skip whether or not the mark succeeds |
| MtdGl.MtdGlDesc.ClearBad | board/loongson/common/general_load/device/mtd.c:49-52 | the skip returns to 0 |
| MtdGl.MtdGlDesc.WriteMapped | board/loongson/common/general_load/device/mtd.c:54-85 | status, bytes written, final skip and flash calls are those of the write-loop definition |
| MtdGl.MtdGlDesc.ReadMapped | board/loongson/common/general_load/device/mtd.c:87-111 | status, bytes read, final skip and flash calls are those of the read-loop definition |
| MtdGl.MtdGlDesc.Remain | board/loongson/common/general_load/device/mtd.c:113-137 | a missing partition gives 0; inside the partition the rest is size - offset - skip; the u64 result stays below 2^64 |
| MtdGl.MtdGlDesc.Offset | board/loongson/common/general_load/device/mtd.c:139-158 | the partition's start on the device, 0 for part 0 or a missing partition |
| MtdGl.Destroy | board/loongson/common/general_load/device/mtd.c:176-180 | NULL releases nothing, a descriptor releases itself |
| MtdGl.RemainReachesPartitionEnd | board/loongson/common/general_load/device/mtd.c:113-158 | inside a partition, offset + position + skip + rest is the partition's physical end |
| MtdGl.RemainWraps | board/loongson/common/general_load/device/mtd.c:136 | past the partition end the u64 subtraction wraps to 2^64 minus the overshoot |
| GzWrite.SkipString | board/loongson/common/general_load/device/mtd.c:237-241 | the scan of a NUL-terminated field always moves past the start |
| GzWrite.ParseHeader | board/loongson/common/general_load/device/mtd.c:227-248 | an accepted header leaves the data start between the 10 fixed bytes and the 8-byte trailer |
| GzWrite.FlagBits | board/loongson/common/general_load/device/mtd.c:185-189 | the FLG bits of a written header decode back to the fields present, with no reserved bit |
| GzWrite.SkipStringOver | board/loongson/common/general_load/device/mtd.c:237-238 | a field without NUL bytes followed by its NUL is skipped exactly |
| GzWrite.ExtraStage | board/loongson/common/general_load/device/mtd.c:234-235 | the FEXTRA length is read little-endian from bytes 10 and 11 and the field is stepped over exactly |
| GzWrite.StringStage | board/loongson/common/general_load/device/mtd.c:236-241 | an FNAME or FCOMMENT field is stepped over exactly |
| GzWrite.HeaderRoundTrip | board/loongson/common/general_load/device/mtd.c:227-248 | a header written per RFC 1952 section 2.3.1, followed by data and the trailer, is skipped exactly: the data starts right after it |
| GzWrite.HeaderEndEncoded | board/loongson/common/general_load/device/mtd.c:228-243 | each optional field of a written header is stepped over exactly |
| GzWrite.FieldsEnd | board/loongson/common/general_load/device/mtd.c:234-243 | the optional fields end where their encodings say |
| GzWrite.MagicNotChecked | board/loongson/common/general_load/device/mtd.c:228-233 | the ID1/ID2 magic bytes are never looked at: any first two bytes pass the header skip |
| GzWrite.DeviceCheckMixesUnits | board/loongson/common/general_load/device/mtd.c:263-267 | as written, the size check compares pages with bytes: a 4-page image passes on a 2-page device |
| GzWrite.FitsDeviceMeansOnDevice | board/loongson/common/general_load/device/mtd.c:263-267 | the check evidently intended keeps every page of the image on the device |
| GzWrite.Prepare | board/loongson/common/general_load/device/mtd.c:210-267 | an image that passes every check before inflating has its data start between the header and the trailer |
| GzWrite.ReadTrailer | board/loongson/common/general_load/device/mtd.c:250-262 | the trailer gives the CRC-32 and ISIZE words little-endian; a zero expected size is taken from ISIZE; a non-zero one must equal ISIZE in its low 32 bits, and is refused exactly when it does not |
| GzWrite.PrepareAccepts | board/loongson/common/general_load/device/mtd.c:210-267 | an accepted image has a whole number (at least 1) of pages per buffer, a start page at or below the offset, and the trailer's crc and size |
| GzWrite.PrepareRejects | board/loongson/common/general_load/device/mtd.c:210-267 | any single failing check rejects the image |
| GzWrite.DrainAccepts | board/loongson/common/general_load/device/mtd.c:307-332 | an accepted call adds its output to the crc and the total, writes the pages it filled, and the loop goes on unless Ctrl-C was pressed |
| GzWrite.DrainAccounts | board/loongson/common/general_load/device/mtd.c:285-334 | the final crc and total cover exactly the output of the accepted calls, in order |
| GzWrite.DrainPassesErrors | board/loongson/common/general_load/device/mtd.c:302-305 | a failing inflate code is returned unchanged |
| GzWrite.OutcomeZero | board/loongson/common/general_load/device/mtd.c:336-349 | a 0 result means either a drained stream whose size and crc match the trailer, or a Ctrl-C abort after a Z_OK call |
| GzWrite.AbortReportsOk | board/loongson/common/general_load/device/mtd.c:327-330 | Ctrl-C right after a Z_OK call stops the loop and reads as success |
| GzWrite.GzWriteMtd | board/loongson/common/general_load/device/mtd.c:192-350 | a rejected image or a failed inflateInit2 returns -1 with nothing written; otherwise the result, retsize = szexpected, the skip and the flash calls are those of the Drain definition |
| GzWrite.InflateOut | board/loongson/common/general_load/device/mtd.c:284-349 | the nested inflate/write loops end with the result, skip and flash calls of the Drain definition |
| GeneralLoad.BurnTable | board/loongson/common/general_load/general_load.c:355-390 | only RAM, block and flash destinations get a burn function; the gzip burns are chosen exactly when DECOMPRESS is set on a raw block or flash destination; the secure burn only on flash with UBOOTSECURE and without DECOMPRESS; a filesystem destination ignores the flags |
| GeneralLoad.OnceOnlyCases | board/loongson/common/general_load/general_load.c:398-403 | once_only holds iff there are extra flags, or the source is the network or RAM, or the destination is RAM; a block-to-network or flash-to-block copy without flags loops |
| GeneralLoad.ChoicesFit | board/loongson/common/general_load/general_load.c:325-390 | for opened targets the chosen load and burn functions only dereference descriptors of their own class; a flash destination holds a flash descriptor |
| GeneralLoad.BlkPartitionOffset | board/loongson/common/general_load/general_load.c:51-67 | 0 for the whole disk or a partition the lookup fails on; otherwise the partition's start block times its block size, in u64 |
| GeneralLoad.BlkRequestCovers | board/loongson/common/general_load/general_load.c:93-123 | the raw block request asks for one block more than the size fills, starts at or before the byte offset, and from an aligned offset covers the whole requested range |
| GeneralLoad.BlkUnalignedFallsShort | board/loongson/common/general_load/general_load.c:100-103 | from an unaligned offset the request can stop short: 100 bytes at byte 500 of a 512-byte-block disk read block 0 only |
| GeneralLoad.MtdLen | board/loongson/common/general_load/general_load.c:187-188 | the flash chunk is no longer than the request or the partition's remainder, and equals one of them |
| GeneralLoad.MtdChunkInPartition | board/loongson/common/general_load/general_load.c:184-188 | with the offset and the bad-block skip inside the partition, a flash chunk ends at or before the partition's physical end |
| GeneralLoad.CInt | board/loongson/common/general_load/general_load.c:216 | the u64 size passed as gzwrite's `int` length keeps its low 32 bits, two's complement; sizes below 2^31 pass unchanged |
| GeneralLoad.LoadFailures | board/loongson/common/general_load/general_load.c:69-147 | only the network and filesystem loads can fail; a RAM load reports the whole buffer; a network load fails iff net_loop fails; a filesystem load that hits the file's end succeeds with 0 bytes |
| GeneralLoad.BurnFailures | board/loongson/common/general_load/general_load.c:86-175 | among the RAM, block and filesystem burns only a failed fs_write fails, with -1; the block gzip burn reports the whole chunk or leaves brsize unchanged |
| GeneralLoad.EraseLoopFails | board/loongson/common/general_load/general_load.c:257-269 | erase-rest returns 0 or -1, and -1 only after a failed bad-block mark, which is its last call |
| GeneralLoad.EraseLoopErases | board/loongson/common/general_load/general_load.c:257-269 | a successful erase-rest erases once per erase unit below the remainder |
| GeneralLoad.EraseLoopMarks | board/loongson/common/general_load/general_load.c:262-267 | in a successful erase-rest every bad-block mark succeeded |
| GeneralLoad.EraseLoopSkipsAfterMark | board/loongson/common/general_load/general_load.c:261-268 | after a block is marked the skip grows, so the next erase lands two erase blocks on: the unit right after the marked block is never erased |
| GeneralLoad.EraseRest | board/loongson/common/general_load/general_load.c:245-274 | the loop performs exactly the erase-rest call sequence from the final offset, returns its result, and drops the skip when it succeeds |
| GeneralLoad.RunOutcome | board/loongson/common/general_load/general_load.c:285-323 | a run returns 0 or -1; 0 iff both finalisers ran, once each and last, the burn finaliser at the start offset plus every byte burned; a -1 run ran neither |
| GeneralLoad.OnceBurnsOnce | board/loongson/common/general_load/general_load.c:315-316 | with once_only the loop burns at most once |
| GeneralLoad.NextLoadAtBurnedOffset | board/loongson/common/general_load/general_load.c:309-313 | the next load starts where the previous burn ended, moved by the burned size and not the loaded size |
| GeneralLoad.OffsetByBurnExample | board/loongson/common/general_load/general_load.c:302-320 | a 16-byte load burned as 10 bytes moves the next load to offset 10, and the burn finaliser runs at 10 |
| GeneralLoad.Ldbr.constructor | board/loongson/common/general_load/general_load.c:443-446 | the ldbr starts with both finalisers the no-ops, no functions chosen and once_only clear |
| GeneralLoad.Ldbr.InitLd | board/loongson/common/general_load/general_load.c:325-353 | sets the load function the table gives for the source's class and format (and the clear-bad finaliser for flash), or returns -1 and changes nothing |
| GeneralLoad.Ldbr.InitBr | board/loongson/common/general_load/general_load.c:355-390 | sets the burn function the table gives for the destination and flags (and erase-rest for flash), or returns -1 and changes nothing |
| GeneralLoad.Ldbr.Init | board/loongson/common/general_load/general_load.c:392-412 | sets once_only by the rule, then returns 0 iff both sides have a function, with the functions and finalisers the tables give; a failed load side leaves the burn side untouched |
| GeneralLoad.Ldbr.Load | board/loongson/common/general_load/general_load.c:69-189 | a load returns the code and ldsize its function gives (LoadOutcome) from the offset, the size, the ldsize before the call and the source's skip at the call: the oracle results for RAM, network and block, and for flash the mapped read of min(size, remain) at the partition's offset |
| GeneralLoad.Ldbr.Burn | board/loongson/common/general_load/general_load.c:86-234 | a burn returns the code and brsize its function gives (BurnOutcome) from the loaded size, the brsize before the call and the destination's skip: the secure burn refuses an image uboot_secure rejects with -1 before touching the flash; the plain flash write is the mapped write of min(size, remain); the flash gzip burn is gzwrite_mtd_gl on the buffer image |
| GeneralLoad.Ldbr.RunLdFin | board/loongson/common/general_load/general_load.c:236-243 | the flash load finaliser drops the skip; the no-op changes nothing |
| GeneralLoad.Ldbr.RunBrFin | board/loongson/common/general_load/general_load.c:245-283 | the flash burn finaliser is erase-rest at the final offset; the no-op returns 0 and changes nothing |
| GeneralLoad.Ldbr.Stop | board/loongson/common/general_load/general_load.c:319-322 | a stopped loop runs the load finaliser, then the burn finaliser at the final offset, and the whole run returns 0; afterwards a flash source's skip is 0, and a flash destination holds the erase-rest ops from the final offset over what remains of its partition, starting from its skip (0 when it shares the source's flash), with the skip reset unless a mark failed; no-op finalisers change nothing |
| GeneralLoad.Ldbr.Round | board/loongson/common/general_load/general_load.c:304-309 | a round loads at the offset and burns exactly when the load succeeded with something loaded, the burn taking the loaded size; each call returns what its function gives from the sizes the round before left and the target's skip at the call |
| GeneralLoad.Ldbr.Rounds | board/loongson/common/general_load/general_load.c:302-317 | the loop's rounds: all but the last kept the loop going to the offset reached; a failed load or burn ends a run returning -1; a round that loaded or burned nothing, or ended a once-only copy, stops the loop with the offset the finalisers get; every call returned what its function gives |
| GeneralLoad.Ldbr.Run | board/loongson/common/general_load/general_load.c:285-323 | the calls the loop makes form a whole run with the result it returns, or, when the round bound runs out, a prefix of rounds that all kept the loop going; every call returned what its function gives, the first load from the source's skip at the start; after a run returning 0 the burn finaliser was the last call, a flash source's skip is 0 and a flash destination was erased from the final offset to its partition end |
| GeneralLoad.GeneralLoadRun | board/loongson/common/general_load/general_load.c:441-451 | returns -1 iff no load or no burn function fits, touching nothing; otherwise runs the copy with once_only by the rule and returns 0 whatever the copy's result; every call of the copy returned what the chosen functions give, and a copy returning 0 dropped a flash source's skip and erased a flash destination from the final offset to its partition end |
| GlArg.ArgBuf.constructor | board/loongson/common/general_load/cmd_gl_arg.c:347-348 | a fresh record has all three fields empty |
| GlArg.FindLastChar | board/loongson/common/general_load/cmd_gl_arg.c:17-26 | a found index holds the character and no later position does; no result means the character does not occur |
| GlArg.BasenameIsTail | board/loongson/common/general_load/cmd_gl_arg.c:28-42 | the file name is the whole path without a '/', otherwise the tail after some '/', and never contains a '/' |
| GlArg.StripFilePath | board/loongson/common/general_load/cmd_gl_arg.c:28-42 | the copied file name is what follows the last '/', or the whole path; the result is true iff the path has a '/' |
| GlArg.OrFlag | board/loongson/common/general_load/cmd_gl_arg.c:190-199 | after ORing a flag into extra the flag is set |
| GlArg.Syntax | board/loongson/common/general_load/cmd_gl_arg.c:118-205 | the goto automaton leaves the two records, force and extra exactly as the option grammar gives them, with the same return code |
| GlArg.ParseRet | board/loongson/common/general_load/cmd_gl_arg.c:118-205 | the option parser returns 0 or -1 |
| GlArg.UnfocusedKept | board/loongson/common/general_load/cmd_gl_arg.c:129-138 | with no --of the destination record keeps its value, and from the destination with no --if the source record does |
| GlArg.FlagsKept | board/loongson/common/general_load/cmd_gl_arg.c:192-204 | the flag options only add: a flag already in extra, and force once set, stay set |
| GlArg.OrKeeps | board/loongson/common/general_load/cmd_gl_arg.c:192-199 | setting one extra flag keeps the other |
| GlArg.RepeatedFlag | board/loongson/common/general_load/cmd_gl_arg.c:147-155 | repeating a flag option at once changes nothing |
| GlArg.MissingValue | board/loongson/common/general_load/cmd_gl_arg.c:162-186 | --if, --of and --fmt without a value fail with -1, --sym without one ends parsing with 0, and nothing is changed |
| GlArg.UnknownToken | board/loongson/common/general_load/cmd_gl_arg.c:156-159 | an unknown token fails at once, whatever follows, leaving the records as they were |
| GlArg.FocusExample | board/loongson/common/general_load/cmd_gl_arg.c:122-189 | --fmt and --sym write to the record last put in focus, the source to begin with: `--fmt F --of D --sym S` sets the source's format and the destination's device and symbol |
| GlArg.ExternalFill | board/loongson/common/general_load/cmd_gl_arg.c:44-116 | the in-place fill leaves the record and return code the external-device rules give, for a set serverip |
| GlArg.ExternalCases | board/loongson/common/general_load/cmd_gl_arg.c:44-116 | a bare "net" gets the (set) server address and, if empty, the default protocol; a bare "usb" becomes usb0 or usb0:1 by the partition table and fails, unchanged, without a usb device; "mmcN" gains ":1" only with a partition table; a block record's symbol is the update prefix plus the file name, cut to 31 characters; other devices fail unchanged |
| GlArg.SemanticFill | board/loongson/common/general_load/cmd_gl_arg.c:231-297 | the in-place semantic pass leaves both records and the return code the semantic rules give |
| GlArg.SemanticCases | board/loongson/common/general_load/cmd_gl_arg.c:231-297 | force or an unrecognised file name changes nothing; an empty source symbol is the only failure; a kernel from the internal disk is loaded to RAM from the kernel device's boot directory, one from elsewhere is burned there after the external fill; a root filesystem or u-boot image is burned to the default root or boot device with no format and no symbol |
| GlArg.RootfsOverFive | board/loongson/common/general_load/cmd_gl_arg.c:247-258 | "rootf" is compared over five characters only, so "rootfoo" is taken for a root filesystem, while "uImag" and "/uImage" are not kernels |
| GlArg.FmtCodes | board/loongson/common/general_load/cmd_gl_arg.c:309-332 | exactly the six format names are accepted; vfat, fat32 and fat all mean FAT; each accepted name maps to one of the four codes |
| GlArg.ArgTarget | board/loongson/common/general_load/cmd_gl_arg.c:299-341 | returns 0 iff the device opens and the format is empty or supported; then the target has the selected device, the format code when one was given, and the symbol cut to 31 characters when one was given |
| GlArg.GlParse | board/loongson/common/general_load/cmd_gl_arg.c:343-370 | -1 or 0; a syntax or semantic failure returns -1 with both targets untouched; 0 exactly when both passes succeed and each completed record opens its not-yet-set target with an empty or supported format; then both targets hold the device, partition, descriptor, format code and symbol their records name; `extra` is what the automaton ORed into it |
| GlArg.ParsedFits | board/loongson/common/general_load/cmd_gl_arg.c:160-189 | tokens that fit the 32-byte fields leave records whose fields fit |
| Bootm.Skip | arch/loongarch/lib/bootm.c:106-116 | the quote-matching loop ends on a blank at or after the token's start, or finds none |
| Bootm.Cut | arch/loongarch/lib/bootm.c:103-119 | a token ends at a blank or at the end of the string, never before it starts |
| Bootm.Resume | arch/loongarch/lib/bootm.c:123-126 | scanning resumes strictly after the token's start, skipping at most one blank |
| Bootm.TokensBound | arch/loongarch/lib/bootm.c:102 | the loop never stores more tokens than the slots left |
| Bootm.CmdlineTokensBound | arch/loongarch/lib/bootm.c:63-102 | at most 255 arguments are stored, slot 0 being NULL |
| Bootm.TokensJoin | arch/loongarch/lib/bootm.c:102-127 | below the slot limit the tokens from the cursor rejoined with single blanks give the rest of the string, minus at most one trailing blank |
| Bootm.CmdlineJoin | arch/loongarch/lib/bootm.c:90-128 | below the slot limit nothing of bootargs is lost: the stored arguments rejoined with single blanks give it back, minus at most one trailing blank |
| Bootm.SplitAtBlank | arch/loongarch/lib/bootm.c:123-124 | a string splits at a blank into the part before it, the blank and the rest |
| Bootm.BlankGivesEmptyToken | arch/loongarch/lib/bootm.c:104-121 | a blank where a token starts ends it at once: a doubled blank stores an empty argument |
| Bootm.QuoteFreeCut | arch/loongarch/lib/bootm.c:103-119 | without quotes a token runs to the first blank, or to the end, and holds no blank |
| Bootm.UnmatchedQuoteRunsToEnd | arch/loongarch/lib/bootm.c:106-119 | a quote before the blank without a matching quote makes the token run to the end of the string |
| Bootm.MatchedQuoteStaysInToken | arch/loongarch/lib/bootm.c:106-116 | a quote before the blank with a matching quote keeps the whole quoted text, blanks included, in the token |
| Bootm.SkipPast | arch/loongarch/lib/bootm.c:111-114 | the blank the quote loop ends on lies after any bound that the starting quote and blank both lie after |
| Bootm.QuotedExample | arch/loongarch/lib/bootm.c:102-127 | the bootargs `"a b" c` give the two arguments `"a b"` and `c` |
| Bootm.DoubledBlankExample | arch/loongarch/lib/bootm.c:102-127 | the bootargs `a  b` give three arguments, the middle one empty |
| Bootm.LayoutAppend | arch/loongarch/lib/bootm.c:72-75 | packing one more string appends it and its NUL to the area |
| Bootm.OffsetsAppend | arch/loongarch/lib/bootm.c:71-75 | the next string's address is the start plus the bytes already packed |
| Bootm.ReadString | arch/loongarch/lib/bootm.c:72-73 | a string followed by its NUL reads back at its address |
| Bootm.ReadShift | arch/loongarch/lib/bootm.c:72-75 | reading past a prefix of the area is reading the rest at the shifted address |
| Bootm.LayoutReadBack | arch/loongarch/lib/bootm.c:69-77 | every packed string reads back from the address recorded for it |
| Bootm.LayoutReadFirst | arch/loongarch/lib/bootm.c:71-73 | the first packed string reads back at the start of the area |
| Bootm.RoundUp16 | arch/loongarch/lib/bootm.c:154 | the envp array starts at the first multiple of 16 at or after the end of the arguments |
| Bootm.JudgeBootParamType | arch/loongarch/lib/bootm.c:269-282 | the argument convention is 0 or 1 |
| Bootm.JudgeCases | arch/loongarch/lib/bootm.c:274-281 | the old convention is chosen exactly for names starting with "Linux-5.10.0", "Linux-5.10.9" or "Linux-4" |
| Bootm.JudgeTruncatedLiteral | arch/loongarch/lib/bootm.c:276 | the twelve-character compare makes "Linux-5.10.99" take the old convention too, while "Linux-6.6.0" takes the new one |
| Bootm.BootmDispatch | arch/loongarch/lib/bootm.c:374-401 | -1 exactly when OS_BD_T is set, 1 exactly when none of the five handled flags is set, else 0; preparation runs only with OS_PREP and neither OS_BD_T nor OS_CMDLINE; a jump needs OS_GO or OS_FAKE_GO |
| Bootm.Linux.constructor | arch/loongarch/lib/bootm.c:29-38 | the boot parameter address is stored and nothing is written yet |
| Bootm.Linux.CmdlineInit | arch/loongarch/lib/bootm.c:61-67 | one slot, argv[0], is used and holds NULL; the environment side is unchanged |
| Bootm.Linux.CmdlineSet | arch/loongarch/lib/bootm.c:69-77 | the next slot points at the old packing address, the string and its NUL are appended, the packing address moves by len + 1 |
| Bootm.Linux.CmdlineLegacy | arch/loongarch/lib/bootm.c:90-128 | no arguments when bootargs is unset, else exactly the tokeniser's tokens; the environment side is unchanged |
| Bootm.Linux.NextToken | arch/loongarch/lib/bootm.c:103-126 | one round stores the token at the cursor and returns where the next starts |
| Bootm.Linux.TokenEnd | arch/loongarch/lib/bootm.c:103-119 | the inner loop returns the end of the token at the cursor |
| Bootm.Linux.EnvInit | arch/loongarch/lib/bootm.c:152-158 | envp starts at the arguments' end rounded up to 16, holds only the NULL terminator, and no entry is stored |
| Bootm.Linux.EnvSet | arch/loongarch/lib/bootm.c:160-175 | below 255 entries "name=value" and its NUL are appended, its slot points at them and the next slot is NULL; at the limit nothing changes |
| Bootm.Linux.EnvLegacy | arch/loongarch/lib/bootm.c:177-219 | the entries are memsize, initrd_start, initrd_size, flash_start, flash_size, then ethaddr and eth1addr when set, in that order, after the arguments rounded up to 16 |
| Bootm.Linux.DoBootmLinux | arch/loongarch/lib/bootm.c:374-401 | returns the dispatch result; preparation without a device tree leaves exactly the tokenised bootargs and the legacy entries; any other path leaves the area untouched |
| Bootm.EnvReadBack | arch/loongarch/lib/bootm.c:160-175 | every stored entry reads back from its envp slot |
| Bootm.ArgReadBack | arch/loongarch/lib/bootm.c:69-77 | every stored argument reads back from its argv slot |
| Pwm.TicksFit | drivers/pwm/pwm-ls2k.c:165-175 | for a time of at most one second the 64-bit product never wraps and the tick count lies between 1 and the clock rate (1 for a zero rate), so the 32-bit period and duty lose nothing |
| Pwm.ConfigRange | drivers/pwm/pwm-ls2k.c:161-162 | set_config returns -ERANGE exactly when the period or the duty exceeds one second, and then changes nothing |
| Pwm.ConfigWrites | drivers/pwm/pwm-ls2k.c:161-193 | in range it returns 0, writes the duty ticks to LOW_BUFFER and then the period ticks to FULL_BUFFER, caches the same two values, and leaves CTRL and the rate alone |
| Pwm.DisableWrites | drivers/pwm/pwm-ls2k.c:84-128 | disable writes LOW_BUFFER = 1, FULL_BUFFER = 10000 only when no period is cached, then pulses RST (set, then clear) and finally clears EN, in that order |
| Pwm.DisableEffect | drivers/pwm/pwm-ls2k.c:84-128 | after disable CTRL has RST and EN clear and every other bit as before, LOW_BUFFER holds 1, FULL_BUFFER holds 10000 if no period was cached, and the cache is untouched |
| Pwm.EnableWrites | drivers/pwm/pwm-ls2k.c:130-142 | enable writes the cached low and full values back and sets EN, keeping the other CTRL bits and the cache |
| Pwm.EnableAfterDisable | drivers/pwm/pwm-ls2k.c:84-194 | configure, disable, enable: the counter runs again with the configured duty and period, EN set and RST clear |
| Pwm.InvertBits | drivers/pwm/pwm-ls2k.c:68-82 | set_invert writes CTRL once: bit 9 ends equal to the polarity, bits 0-15 otherwise keep their value, and bits 16 and up are written as 0 |
| Pwm.InvertDropsHighBits | drivers/pwm/pwm-ls2k.c:72-80 | the 16-bit variable drops bit 16: a CTRL of 0x10001 is written back as 0x201 or 0x1 |
| Pwm.ProbeCases | drivers/pwm/pwm-ls2k.c:197-218 | probe returns 0 iff the window, the clock lookup and the clock enable all succeed, then stores the rate in 32 bits; a missing window is -EINVAL; any failure changes nothing |
| Pwm.PwmChip.constructor | drivers/pwm/pwm-ls2k.c:57-66 | the private data starts zeroed over the register window |
| Pwm.PwmChip.Probe | drivers/pwm/pwm-ls2k.c:197-218 | the chip's new state and the return code are those of the probe rules |
| Pwm.PwmChip.SetConfig | drivers/pwm/pwm-ls2k.c:154-194 | the chip's new state and the return code are those of the configuration rules |
| Pwm.PwmChip.Disable | drivers/pwm/pwm-ls2k.c:84-128 | returns 0 and leaves the registers as the disable sequence does |
| Pwm.PwmChip.Enable | drivers/pwm/pwm-ls2k.c:130-142 | returns 0 and leaves the registers as the enable sequence does |
| Pwm.PwmChip.SetEnable | drivers/pwm/pwm-ls2k.c:144-150 | enable or disable by the flag, returning 0 |
| Pwm.PwmChip.SetInvert | drivers/pwm/pwm-ls2k.c:68-82 | returns 0 and leaves CTRL as the invert rule does |
| Wdt.TimerTicks | drivers/watchdog/ls2x_wdt.c:54-59 | the tick count is never negative |
| Wdt.TimerFits | drivers/watchdog/ls2x_wdt.c:54-61 | the timer value never exceeds 0xffffffff, so the 32-bit `value` loses nothing; it is the timeout times clk/1000 when that fits, never more, and 0 for a clock below 1 kHz |
| Wdt.StartZero | drivers/watchdog/ls2x_wdt.c:49-50 | a zero timeout returns at once and touches no register |
| Wdt.StopWrites | drivers/watchdog/ls2x_wdt.c:72-85 | stop pings, then writes RESET_REG once |
| Wdt.StopEffect | drivers/watchdog/ls2x_wdt.c:77-82 | stop clears only the enable bit of RESET_REG; the timer and the rate are kept |
| Wdt.StartWrites | drivers/watchdog/ls2x_wdt.c:41-70 | a nonzero start writes, in order, the stop's ping and RESET_REG, the timer value, RESET_REG with the enable bit, and a final ping |
| Wdt.StartEffect | drivers/watchdog/ls2x_wdt.c:41-70 | after a nonzero start the enable bit is set, the other RESET_REG bits are as before, and the timer holds the computed value |
| Wdt.StartThenStop | drivers/watchdog/ls2x_wdt.c:41-85 | stopping a started watchdog restores RESET_REG with the enable bit clear |
| Wdt.ResetPings | drivers/watchdog/ls2x_wdt.c:87-94 | reset writes 1 to SET_REG and nothing else |
| Wdt.ProbeStops | drivers/watchdog/ls2x_wdt.c:96-119 | probe returns 0 iff the window, the clock lookup and the clock enable succeed, then stores the rate in 32 bits and leaves the watchdog stopped; a missing window is -EINVAL; a failure changes nothing |
| Wdt.Ls2xWdt.constructor | drivers/watchdog/ls2x_wdt.c:20-23 | the private data starts zeroed over the register window |
| Wdt.Ls2xWdt.Ping | drivers/watchdog/ls2x_wdt.c:34-39 | returns 0 after the restart write |
| Wdt.Ls2xWdt.Stop | drivers/watchdog/ls2x_wdt.c:72-85 | returns 0 and leaves the registers as the stop sequence does |
| Wdt.Ls2xWdt.Start | drivers/watchdog/ls2x_wdt.c:41-70 | returns 0 and leaves the registers as the start sequence does |
| Wdt.Ls2xWdt.Reset | drivers/watchdog/ls2x_wdt.c:87-94 | returns 0 after a ping |
| Wdt.Ls2xWdt.Probe | drivers/watchdog/ls2x_wdt.c:96-119 | the new state and the return code are those of the probe rules |
| UsbPhy.Shift | drivers/phy/ls2k_usb_phy.c:39-76 | every field's shift is below 32 |
| UsbPhy.MasksDisjoint | drivers/phy/ls2k_usb_phy.c:39-97 | the thirteen field masks of the table are pairwise disjoint |
| UsbPhy.MasksAvoidEnable | drivers/phy/ls2k_usb_phy.c:39-101 | no field covers bit 0, the enable bit, and each mask starts exactly at its shift |
| UsbPhy.ContributionInField | drivers/phy/ls2k_usb_phy.c:153-154 | a property shifted and masked lies inside its own field |
| UsbPhy.ReadParamCases | drivers/phy/ls2k_usb_phy.c:142-157 | an absent property returns -2 and leaves the value alone; a present one returns 0 and ORs the property in at its field |
| UsbPhy.ReadParamOutside | drivers/phy/ls2k_usb_phy.c:153-155 | read_param changes no bit outside its entry's field |
| UsbPhy.ReadParamAdds | drivers/phy/ls2k_usb_phy.c:149-155 | read_param adds exactly the entry's contribution, which is nothing when the property is absent |
| UsbPhy.OrField | drivers/phy/ls2k_usb_phy.c:155 | masking with one field's mask keeps another field's contribution only when it is the same field |
| UsbPhy.TableIndexed | drivers/phy/ls2k_usb_phy.c:84-98 | the table's entries are distinct |
| UsbPhy.PackFromField | drivers/phy/ls2k_usb_phy.c:168-173 | from each table entry on, the word's field f is its starting field f ORed with f's contribution when f is still ahead |
| UsbPhy.PackedFields | drivers/phy/ls2k_usb_phy.c:159-173 | each property lands in its own field of the packed word, whatever the other properties are |
| UsbPhy.PackFromEnableClear | drivers/phy/ls2k_usb_phy.c:168-173 | the property loop never sets bit 0 |
| UsbPhy.ProbeWrites | drivers/phy/ls2k_usb_phy.c:159-181 | probe writes the packed word with ENABLE set, once, only when the word is nonzero, and leaves the cached value alone |
| UsbPhy.PowerCycle | drivers/phy/ls2k_usb_phy.c:109-135 | power_on and power_off each write once the cached word with bit 0 set or cleared, keep it as the new cache, and keep the other bits |
| UsbPhy.PowerOnAfterProbe | drivers/phy/ls2k_usb_phy.c:109-181 | probe does not fill the cache, so power_on on a freshly probed PHY writes ENABLE alone, whatever tuning word probe wrote |
| UsbPhy.Ls2kUsbPhy.constructor | drivers/phy/ls2k_usb_phy.c:103-107 | the private data starts zeroed over the register window |
| UsbPhy.Ls2kUsbPhy.Probe | drivers/phy/ls2k_usb_phy.c:159-181 | the loop over the table builds the packed word, probe returns 0 and the registers are as the probe rule gives |
| UsbPhy.Ls2kUsbPhy.PowerOn | drivers/phy/ls2k_usb_phy.c:109-121 | returns 0 and leaves the register and the cache as power_on does |
| UsbPhy.Ls2kUsbPhy.PowerOff | drivers/phy/ls2k_usb_phy.c:123-135 | returns 0 and leaves the register and the cache as power_off does |
| Pwrc.AllBits | drivers/power/domain/loongson-pwrc.c:51-53 | cg_off_in_domain takes the bit of every device, in order |
| Pwrc.SingleBitsDisjoint | drivers/power/domain/loongson-pwrc.c:53 | the single-bit patterns of two distinct bits do not overlap |
| Pwrc.BitsOrConcat | drivers/power/domain/loongson-pwrc.c:51-54 | ORing the patterns over two runs of bits is ORing the two results |
| Pwrc.BitsOrHas | drivers/power/domain/loongson-pwrc.c:46-92 | every bit of a run has its pattern set in the result |
| Pwrc.BitsOrLacks | drivers/power/domain/loongson-pwrc.c:53 | with single bits, a bit outside the run stays clear |
| Pwrc.BitsOrSingleBits | drivers/power/domain/loongson-pwrc.c:46-71 | with single bits, bit b of the result is set exactly when b is in the run |
| Pwrc.CgBitsConcat | drivers/power/domain/loongson-pwrc.c:78-89 | the clock-gate bits of two domain lists in a row are the two runs in a row |
| Pwrc.DpmBitsConcat | drivers/power/domain/loongson-pwrc.c:78-89 | the DPM bits of two domain lists in a row are the two runs in a row |
| Pwrc.CgWordPermutation | drivers/power/domain/loongson-pwrc.c:78-89 | the clock-gate word depends only on which domains are visited, not their order |
| Pwrc.DpmWordPermutation | drivers/power/domain/loongson-pwrc.c:78-89 | the DPM word depends only on which domains are visited, not their order |
| Pwrc.AllWordPermutation | drivers/power/domain/loongson-pwrc.c:51-54 | the word over a domain's devices depends only on which devices it holds |
| Pwrc.MarkedWordPermutation | drivers/power/domain/loongson-pwrc.c:64-68 | so does the word over the marked devices |
| Pwrc.AllBitsMember | drivers/power/domain/loongson-pwrc.c:51-53 | a bit is taken iff some device of the domain carries it |
| Pwrc.MarkedBitsMember | drivers/power/domain/loongson-pwrc.c:64-67 | a bit is taken iff some device carrying it is marked clock-gate-off |
| Pwrc.CgBitsMember | drivers/power/domain/loongson-pwrc.c:78-89 | a clock-gate bit is taken iff some device carrying it sits in a dpm-off domain or is itself marked, both directions |
| Pwrc.DpmBitsMember | drivers/power/domain/loongson-pwrc.c:78-84 | a DPM bit is taken iff some domain carrying it is marked dpm-off |
| Pwrc.NeverCleared | drivers/power/domain/loongson-pwrc.c:73-92 | the traversal only ORs into dpm and cg: every bit they held stays set and nothing else of the private data changes |
| Pwrc.DpmOffDomain | drivers/power/domain/loongson-pwrc.c:80-84 | a domain marked dpm-off sets both of its DPM bits and the clock-gate bit of every device in it, marked or not |
| Pwrc.DeviceBitSet | drivers/power/domain/loongson-pwrc.c:46-89 | a device in a dpm-off domain, or marked clock-gate-off, has its bit set in cg |
| Pwrc.CgBitIff | drivers/power/domain/loongson-pwrc.c:73-92 | from a zero cg, bit b of cg ends set iff some device with that bit sits in a dpm-off domain or is marked clock-gate-off |
| Pwrc.DpmWord | drivers/power/domain/loongson-pwrc.c:78-89 | the DPM word is the old one ORed with `3 << bit` over exactly the dpm-off domains |
| Pwrc.DomainOrderFree | drivers/power/domain/loongson-pwrc.c:78-89 | rearranging the domains gives the same private data |
| Pwrc.DeviceOrderFree | drivers/power/domain/loongson-pwrc.c:46-71 | rearranging the devices of one domain gives the same private data |
| Pwrc.ProbeWrites | drivers/power/domain/loongson-pwrc.c:109-122 | probe writes the enable word at the base, then the DPM word at dpm_offset and the clock-gate word at cg_offset, in that order and nothing else |
| Pwrc.ProbeRegisters | drivers/power/domain/loongson-pwrc.c:114-119 | after probe cg_offset holds the clock-gate word, and dpm_offset the DPM word unless the two offsets coincide |
| Pwrc.TraversedStep | drivers/power/domain/loongson-pwrc.c:78-89 | one more domain ORs in its own parts of the two words |
| Pwrc.LsPwrc.constructor | drivers/power/domain/loongson-pwrc.c:33-44 | the private data starts zeroed over the register window |
| Pwrc.LsPwrc.OfToPlat | drivers/power/domain/loongson-pwrc.c:94-107 | returns 0; each present property sets its field, an absent one leaves it as it was |
| Pwrc.LsPwrc.CgOffInDomain | drivers/power/domain/loongson-pwrc.c:46-57 | returns 0 and ORs into cg the bit of every device, nothing else changing |
| Pwrc.LsPwrc.GetCg | drivers/power/domain/loongson-pwrc.c:59-71 | returns 0 and ORs into cg the bits of the devices marked clock-gate-off, nothing else changing |
| Pwrc.LsPwrc.GetDpm | drivers/power/domain/loongson-pwrc.c:73-92 | returns 0 and leaves the private data as the traversal rule gives |
| Pwrc.LsPwrc.Probe | drivers/power/domain/loongson-pwrc.c:109-122 | returns 0 and leaves the registers and private data as the probe rule gives |
| SdCard.PrescalerFrom | drivers/mmc/ls_sdcard.c:590-595 | the for loop from a divider on ends on a divider between that one and 255 |
| SdCard.PrescalerFromLeast | drivers/mmc/ls_sdcard.c:590-595 | the loop ends on the first divider at or after its start that brings the clock down, or on 255 |
| SdCard.PrescalerLeast | drivers/mmc/ls_sdcard.c:590-595 | set_ios picks the smallest divider in 1..254 that brings the reference clock at or below the requested one, and 255 when none does |
| SdCard.DivAntitone | drivers/mmc/ls_sdcard.c:591 | a smaller divider never gives a lower approximate clock |
| SdCard.PrescalerRunsOut | drivers/mmc/ls_sdcard.c:590-595 | when no divider from the start on is enough, the loop runs out at 255 |
| SdCard.ProbeClock | drivers/mmc/ls_sdcard.c:681-724 | at the lowest clock probe configures, 200 MHz / 256, no divider up to 254 is enough, so the prescaler is 255 and the card runs slightly above the clock asked for |
| SdCard.PrescaledWordBits | drivers/mmc/ls_sdcard.c:597-598 | set_ios changes only the scale byte of SDIPRE, to the prescaler |
| SdCard.CommandIdle | drivers/mmc/ls_sdcard.c:237-256 | the command wait succeeds exactly when CMDFIN is set; without it a timeout bit gives -ETIMEDOUT, and -1 can then only be a response CRC error |
| SdCard.DataWords | drivers/mmc/ls_sdcard.c:398-419 | BSIZE holds the low 12 bits of the block size; DATCON the low 12 bits of the block count, WIDEMD exactly for a 4-bit bus, DSTART always, and no other bit |
| SdCard.CommandBaseBits | drivers/mmc/ls_sdcard.c:528-529 | the base command word holds the index byte with SENDERHOST forced on and CMDSTART, and no response bit |
| SdCard.CommandWordBits | drivers/mmc/ls_sdcard.c:528-543 | the command word holds the low byte of the index with SENDERHOST forced on, CMDSTART always, WAITRSP exactly when a response is expected, CHECKCRC exactly when its CRC is checked, LONGRSP exactly for a 136-bit response, and no other bit |
| SdCard.Chunk | drivers/mmc/ls_sdcard.c:269-293 | each FIFO word carries 1 to 4 bytes: exactly what remains when that is fewer than 4 |
| SdCard.LeValue | drivers/mmc/ls_sdcard.c:272-290 | a little-endian read of n bytes is below 256^n |
| SdCard.Unpack | drivers/mmc/ls_sdcard.c:323-343 | a little-endian store of n bytes stores n bytes |
| SdCard.UnpackLeValue | drivers/mmc/ls_sdcard.c:272-343 | storing back the value read from some bytes gives those bytes |
| SdCard.FifoWordsFit | drivers/mmc/ls_sdcard.c:269-294 | every word write_data sends fits the 32-bit FIFO register |
| SdCard.FifoWordsCount | drivers/mmc/ls_sdcard.c:269-301 | write_data sends ceil(sz / 4) words |
| SdCard.FifoReadsCount | drivers/mmc/ls_sdcard.c:318-353 | read_data reads ceil(sz / 4) words for a positive size, and one word for a size that is not positive, the loop being a do-while |
| SdCard.FifoBytesCount | drivers/mmc/ls_sdcard.c:318-353 | read_data stores exactly sz bytes for a positive size, and four bytes otherwise |
| SdCard.FifoRoundTrip | drivers/mmc/ls_sdcard.c:260-360 | reading back the words write_data sends gives the bytes sent: the two transfer directions are inverses |
| SdCard.PushWordsLog | drivers/mmc/ls_sdcard.c:294 | each word is written to SDIWRDAT in order, as its low 32 bits, after the writes before |
| SdCard.SendFails | drivers/mmc/ls_sdcard.c:547-552 | the command fails exactly when CMDFIN is not set, with -ETIMEDOUT or -1, before any response is read or data moves; its last write acknowledges the wait mask |
| SdCard.IssuedLog | drivers/mmc/ls_sdcard.c:516-550 | the command's writes are, in order: all interrupts cleared, BSIZE and DATCON when there is data, the argument, the command word, the acknowledge of the wait mask |
| SdCard.SendResponses | drivers/mmc/ls_sdcard.c:554-563 | a successful command hands back no response, RSP0, or RSP0-RSP3 for a 136-bit response, as the registers held them |
| SdCard.SendWrites | drivers/mmc/ls_sdcard.c:567-577 | a successful write command sends the buffer as ceil(sz / 4) little-endian words through SDIWRDAT, then clears BSIZE and DATCON |
| SdCard.SendReads | drivers/mmc/ls_sdcard.c:567-577 | a successful read command stores the bytes the FIFO words carry, then clears BSIZE and DATCON |
| SdCard.ReadStep | drivers/mmc/ls_sdcard.c:319-344 | one pass of read_data's inner loop stores one word's bytes and leaves enough words for the rest |
| SdCard.LsMmc.constructor | drivers/mmc/ls_sdcard.c:681-688 | of_to_plat fixes the reference clock at 200 MHz |
| SdCard.LsMmc.SetIos | drivers/mmc/ls_sdcard.c:582-608 | returns 0 and leaves SDIPRE as the prescaler rule gives |
| SdCard.LsMmc.IntIdle | drivers/mmc/ls_sdcard.c:237-256 | acknowledges the mask and returns the wait's outcome for the status seen |
| SdCard.LsMmc.SetupData | drivers/mmc/ls_sdcard.c:398-419 | returns 0 and writes BSIZE and DATCON as the data set-up rule gives |
| SdCard.LsMmc.WriteData | drivers/mmc/ls_sdcard.c:260-308 | the loop pushes exactly the FIFO words for the transfer size, then clears BSIZE and DATCON, and returns 0 |
| SdCard.LsMmc.ReadData | drivers/mmc/ls_sdcard.c:310-360 | the loop stores exactly the bytes the FIFO words carry for the transfer size, then clears BSIZE and DATCON, and returns 0 |
| SdCard.LsMmc.SendCmd | drivers/mmc/ls_sdcard.c:504-666 | records the bus width, then returns, hands back and leaves in the registers what the send_cmd rule gives |

## Left out

- Foreign services are oracles passed in as parameters, not models:
  - block and filesystem I/O and `part_get_info`;
  - flash read, write, erase, bad-block check and mark;
  - `net_loop`, zlib `inflate`, `crc32`, u-boot's `gzwrite`, `uboot_secure` and `ctrlc`;
  - the shell behind `run_command`, whose return code is an input.
- The network client (device/net.c) is reduced to its all-zero-address check and its positive-result-becomes-size rule.
- The LMB buffer sizing in `ldbr_run` is not modelled; the load buffer has the 16 MiB size used without LMB.
- The MTD device enumeration loop of `gl_flash_init` is not modelled; the flash descriptor it finds, or none, is an input (GlTarget.MtdOf).
- `cmd_general_load.c` is command-line glue and is not modelled.
- The gl_target getters are plain field reads of the `Target` class and have no members of their own.
- Pointers are object references or values in the model, so they are never NULL. Where the source tests a pointer for NULL (a NULL description, an unset variable, a missing property), the model has an `Option` value. Failed allocations are the exception; they are listed next.
- GlTarget.NetInit: the `calloc` failure of `net_gl_init` (device/net.c:38-40) is not modelled; only the all-zero address gives no descriptor.
- GlTarget.MtdOf: the `calloc` failure of `gl_flash_init` (device/mtd.c:162-164) is not modelled; the flash descriptor found, or none, is an input.
- GlTarget.Target.constructor: the `calloc` failure of `create_gl_target` (gl_target.c:177-179) is not modelled; a target is always created.
- UpdateMenu.Menu.constructor: the `malloc`/`calloc` failures of the menu set-up (loongson_update_menu.c:353-467) are not modelled; the menu and its entries are always allocated.
- Registers read back the last value written to them (module `Mmio`). Bits the hardware sets or clears by itself are not modelled; where a driver polls or reads a status word or FIFO, that value is a parameter.
- The 32-byte record buffers are filled by unchecked `strcpy` in the source. The argument members require every token to fit, because a longer one overflows the buffer.
- GeneralLoad.Ldbr.Run: bounded by a `fuel` number of rounds, because the copy loop ends only when an oracle returns 0. A run that is still going after `fuel` rounds returns None with its events so far.
- GeneralLoad.Ldbr.Run: the skip each call started from is a ghost output. The contract pins it for the first load (the source's skip at the start) and, for the erase-rest, only when load and burn share one flash (0). Elsewhere it is the skip the previous calls left, which the contract does not name.
- Platform.Apply: a `setenv …;saveenv` command with a nonzero return code is modelled as the variable set in RAM and the saved copy unchanged. The command's text is taken to reach `saveenv`, so a failure is taken to be the save's.
- GeneralLoad.Image: the burn buffer is modelled as the loaded bytes followed by zeros. What RAM held beyond the loaded bytes is not modelled.
- GeneralLoad.BlkRequestCovers: requires the block counts to fit 32 bits, where the source truncates them silently.
- MtdGl.MtdGlDesc.ReadMapped: `retsize` is an unbounded integer; its u64 wrap-around is not modelled. `Remain` does model the wrap (MtdGl.RemainWraps).
- bootm's `boot_jump_linux` is not modelled: the new-convention command-line string, the kernel entry call and the stack read.
- The device-tree relocation and setup calls of bootm are not modelled; the PREP step is a flag.
- Bootm.Linux.DoBootmLinux: the legacy command line and environment are built for a boot without a device tree as in a build with `CONFIG_LOONGARCH_BOOT_CMDLINE_LEGACY` (arch/loongarch/lib/bootm.c:255-260). Without that option the source leaves the area untouched.
- Bootm.Linux.EnvLegacy: takes the environment values already formatted, because the `sprintf` formatting of the memory sizes and addresses is not part of this model.
- EnvTrigger: an unset trigger variable makes the source dereference NULL (`strcmp` of `env_get`). The handlers therefore require the variable to be set.
- GlArg.ExternalFill: `load_from_external_device` copies `env_get("serverip")` into a bare "net" device with no NULL test (cmd_gl_arg.c:49-51). An unset serverip makes the source dereference NULL, so `ExtEnv.serverip` is a string and the model always has an address to copy.
- GlArg.ExternalCases: states the bare "net" case only for a set serverip, for the same reason as ExternalFill.
- UpdateMenu.ArgsSpec: a bare `updatemenu` makes `do_updatemenu` pass `argv[1]`, which is NULL, to `strcmp` (loongson_update_menu.c:546-548). That is undefined in C, so the model marks the call `NoType` and gives it no return code or menu.
- GlTarget.Atoi: `gl_atoi` accumulates in a C `int` (gl_target.c:20-26). A digit run above 2147483647 overflows, which is undefined in C, so the model's unbounded value is exact only below 2^31.
- UpdateMenu: rendering, `tstc`/`getchar` waits and the timeout countdown are not modelled. Keys are given one by one.
- BoardCompat.Session: the key loop (multi_boards_compat.c:82-97) is written `while (!tstc())`. As written, it keeps reading keys only while `tstc` reports none pending, so a key that arrives during the 10 ms delay ends the loop unread, before Enter. The model reads the keys one by one and leaves the loop only on Enter, or waits when the keys run out.
- The shell-script modules are not modelled, because they only build `run_command` strings: `loongson_update.c`, `recover.c`, `loongson_boot.c`, `loongson_img_fdisk.c` and `loongson_wdt_setup.c`.
- Board bring-up, SPL, clock, I2C, video, button and beeper code is not modelled, and neither is the eMMC host. They are timing-bound or depend on tables outside the core.
- BoardInfo: the description and name tables come from a SoC header that is not part of this model, so they are parameters.
- All `udelay`/`mdelay`, `WATCHDOG_RESET`, `printf`/`puts` and progress output are left out.
- Clock-framework calls (`clk_get_by_index`, `clk_enable`, `clk_get_rate`) become return-code and rate parameters.
- Wdt.Started: requires a nonzero clock rate for a nonzero timeout, because the source divides by it.
- Pwm: the clock lookups of probe are return-code and rate parameters. The 64-bit product clock * ns is an unbounded integer, proven below 2^64 for the times up to 10^9 ns that reach it (Pwm.TicksFit).
- UsbPhy: `read_param`'s -1 return for a missing device node is not modelled; the device node is always present.
- The `remove` callback and the `phy_ls2k_usb_init` helper loops are not modelled.
- Pwrc: a domain or device without a "bit" property is a simplification in the model: no bit is ORed for it. The source ORs `1 << bit` (or `3 << bit`) all the same, with `bit` left from the previous node's read or uninitialised for the first (loongson-pwrc.c:48-53, 61-67, 75-82). The bit must be below 32, since a larger shift is undefined behaviour in C. The bitwidth properties are read but unused by the source and are not modelled.
- GlArg.ExternalFill: the `run_command("usb reset", 0)` before the USB lookup (cmd_gl_arg.c:60) is not a separate event. The bus reset is folded into the `usb0` oracle, which stands for what `blk_get_devnum_by_type` finds after it.
- GlArg.FmtCodes: "dhcp" is accepted as in a build with `CONFIG_CMD_DHCP` (cmd_gl_arg.c:315-319); without that option the source rejects it as unsupported.
- SdCard.LsMmc.ReadData: stores exactly the bytes the transfer size needs. In the source the inner loop goes on reading while the FIFO reports RXFULL, even after `sz` reached 0, and then stores past the buffer (ls_sdcard.c:319-346). That overrun is not modelled.
- SdCard:
  - The hardware polls are left out. The `int_idle` loop takes the status word it finally sees, the BUSYFIN and FIFO-full polls are dropped, and the words read from the FIFO are given as values.
  - The DMA transfer code under `#if 0` and `#else` is not modelled, nor is `core_init`.
  - `of_to_plat` is modelled only as far as the fixed reference clock, and `bind` is not modelled.
  - The MMC core constants from include/mmc.h are taken as given, since that header is not part of this model.
  - Response entries the command does not read are left as they were.

## Findings

| source | as written | input that shows it | evidently intended | confidence | as-written member | corrected member |
|---|---|---|---|---|---|---|
| board/loongson/common/general_load/gl_target.c:20-26 | the digit accumulator `i` of `gl_atoi` is never initialised, so the digits are folded onto a stale stack value | a stale 1 in the accumulator and the text "7" give 17 | the accumulator starts at 0 and the result is the number the digits spell | not executed | GlTarget.AtoiAsWrittenLeaksGarbage | GlTarget.Atoi |
| board/loongson/common/multi_boards_compat.c:99-107 | the chosen number minus 1 is checked only against the board count, so the choice "0" gives index -1 and passes | four boards and the keys "0" then Enter | only 1 to the board count is accepted; anything else re-prompts | not executed | BoardCompat.ZeroChoiceAsWritten | BoardCompat.SessionSpec |
| board/loongson/common/multi_boards_compat.c:82-105 | a re-prompt keeps the input buffer and continues writing at index value - 1 | four boards and the keys "5", Enter, "2", Enter re-prompt a second time | a re-prompt starts from an empty buffer, and "2" then chooses board 2 | not executed | BoardCompat.RepromptKeepsInputAsWritten | BoardCompat.RepromptCorrected |
| board/loongson/common/multi_boards_compat.c:88-89 | digits are stored with no bound check on the 8-byte input buffer | nine digits before Enter store the ninth at input[8] | at most seven digits are kept, so the buffer stays NUL-terminated | not executed | BoardCompat.NinthDigitAsWritten | BoardCompat.SessionSpec |
