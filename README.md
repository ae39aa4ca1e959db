# System monitor dashboard — a Dafny model

The system monitor is an interactive terminal dashboard. It lists the running
processes, with a header and a footer. Each refresh cycle takes a fresh snapshot of the
processes, sorts it (by CPU share or resident memory, both descending, or by pid
ascending), clamps the selection and scrolls the table so that the selected row is on
screen, and draws the rows. Between refreshes it polls the keyboard every 100 ms:

- the arrows move the selection without wrapping;
- `c`/`m`/`p` pick the ordering and return the selection to the top;
- `+` adds one second to the refresh interval while it is below 30, and `-` takes one
  second off while it is above 1 (an interval above 30 set with `-i` can only come down);
- Enter opens a detail popup;
- `k`/`K` ask for confirmation before sending SIGTERM or SIGKILL to the selected process;
- `q` quits.

The command line sets the initial interval (`-i`) and ordering (`-s`), or asks for help.

The model is in six modules, one per file:

| file | module | what it holds |
|---|---|---|
| `wrappers.dfy` | `Wrappers` | `Option`, the 32-bit `Int32` range and two's-complement wrap-around |
| `processes.dfy` | `Processes` | the `Process` record, the three comparators, the in-place sort of a copied snapshot proved equal to the function `SortedOf`, and the uniqueness of the sorted order when keys are distinct |
| `text.dfy` | `Text` | `PadOrTrim` (fitting the command name to its column) and `SecondsToHms`, each with a partner: the characterising predicate `IsFitted`, and the parser `ParseHms` |
| `ui_rules.dfy` | `UiRules` | the dashboard rules as functions of the state (`Dispatch` for one key, `Respond` for the dialogs, `Redraw` for the clamp, `Replay` for a key sequence, the poll budget) and the lemmas about them |
| `dashboard.dfy` | `Dashboard` | the `Ui` class with its four fields, `HandleInput`, `DrawProcesses` and `Run`, carried out step by step and proved against the rules; the `Terminal` class (pending keys and window size); the two dialogs |
| `cli.dfy` | `Cli` | the argument loop `ParseArgs`, proved against the recursive scan `Scan`, the sort-flag mapping, and the start-up `Launch` |

Inputs and outputs are made explicit:

- The keyboard is the `pending` key sequence of a `Terminal`. A read with nothing
  pending returns `Err`, the ncurses "no key". The blocking reads of the two dialogs take
  the next pending key too.
- Sending a signal is a parameter `kill: (pid, SignalKind) -> bool`: did the OS accept it?
- The snapshots taken at the start of each cycle are an input of `Run`, one per cycle.
- Text-to-number conversion for `-i` is a parameter `stoi: string -> Option<Int32>`.
  `None` means the conversion throws.
- Screen output is the list of `Paint`s (row and line) that `DrawProcesses` returns.

## Model

| member | source | states |
|---|---|---|
| Processes.Sort | system-monitor/system-monitor/src/Ui.cpp:94-109 | the buffer ends holding SortedOf of what it held, one fixed order for a given input, ties included; that order is sorted by the mode's comparator and a permutation (same multiset) of the input |
| Processes.SiftLeft | system-monitor/system-monitor/src/Ui.cpp:94-109 | one pass of the sort moves the next element left past exactly the sorted elements it comes before, which is Insert |
| Processes.SortedOfIsSortedView | system-monitor/system-monitor/src/Ui.cpp:94-109 | the sort's order is sorted by the comparator and a permutation of the snapshot |
| Processes.InsertSorted | system-monitor/system-monitor/src/Ui.cpp:94-109 | inserting into a sorted sequence keeps it sorted |
| Processes.InsertPermutes | system-monitor/system-monitor/src/Ui.cpp:94-109 | insertion adds exactly the inserted element to the multiset |
| Processes.SortedView | system-monitor/system-monitor/src/Ui.cpp:91-109 | the sorted copy of the snapshot is SortedOf(mode, snapshot), the same for the same snapshot and mode, and a permutation of it; CPU order is non-increasing in cpu share, MEM order non-increasing in memory, PID order non-decreasing in pid |
| Processes.SortedMeaning | system-monitor/system-monitor/src/Ui.cpp:94-109 | being sorted by each strict comparator is exactly the key being monotone in that direction, both ways |
| Processes.SortedViewsAgree | system-monitor/system-monitor/src/Ui.cpp:94-109 | when no two processes share a key, any two sorted permutations of the snapshot are equal, so the unstable sort still has one possible outcome |
| Processes.DistinctKeysPermutation | system-monitor/system-monitor/src/Ui.cpp:94-109 | key distinctness survives any permutation, the sort included |
| Processes.PidViewStrictlyIncreasing | system-monitor/system-monitor/src/Ui.cpp:105-108 | with unique pids the PID order is strictly increasing |
| Processes.ExampleCpuOrder | system-monitor/system-monitor/src/Ui.cpp:95-98 | the snapshot {pid 10, cpu 5, mem 200}, {20, 50, 100}, {30, 10, 500} is listed 20, 30, 10 by CPU |
| Processes.ExampleMemOrder | system-monitor/system-monitor/src/Ui.cpp:100-103 | the same snapshot is listed 30, 10, 20 by memory |
| Processes.ExamplePidOrder | system-monitor/system-monitor/src/Ui.cpp:105-108 | the same snapshot is listed 10, 20, 30 by pid |
| Text.PadOrTrim | system-monitor/system-monitor/src/Ui.cpp:61-66 | the result is fitted: too long gives the first width-3 characters and "..." (the whole string and "..." below width 3, where width-3 wraps); otherwise the string padded with spaces to exactly width; the length is width whenever width >= 3 |
| Text.FittedUnique | system-monitor/system-monitor/src/Ui.cpp:61-66 | a string has exactly one fitted form per width |
| Text.FittedIdempotent | system-monitor/system-monitor/src/Ui.cpp:61-66 | fitting already-fitted text again (width >= 3) gives it back unchanged |
| Text.DecimalRoundTrip | system-monitor/system-monitor/src/Ui.cpp:38-39 | the decimal digits written for a number read back as that number |
| Text.TwoDigitsShape | system-monitor/system-monitor/src/Ui.cpp:38-39 | a minute or second field below 60 is two digits with the field's value |
| Text.SecondsToHms | system-monitor/system-monitor/src/Ui.cpp:32-41 | the text has at least four characters, and ":" sits before the two-digit seconds |
| Text.HmsRoundTrip | system-monitor/system-monitor/src/Ui.cpp:32-41 | parsing the formatted time gives back the number of seconds; an hours field appears exactly when the time is at least 3600 s; the last field is the two-digit seconds of the minute |
| Text.HoursFields | system-monitor/system-monitor/src/Ui.cpp:34-38 | from one hour on, the text is hours ":" mm ":" ss: the last two-digit field is total % 60, the one before it (total % 3600) / 60, and in front total / 3600 in decimal without a leading zero |
| Text.MinutesFields | system-monitor/system-monitor/src/Ui.cpp:34-39 | below one hour, the text is minutes ":" ss: the two-digit field is total % 60 and in front total / 60 in decimal without a leading zero |
| Text.DecimalNoLeadingZero | system-monitor/system-monitor/src/Ui.cpp:38-39 | the decimal rendering of a number is non-empty digits with no leading zero |
| UiRules.DispatchWellformed | system-monitor/system-monitor/src/Ui.cpp:224-295 | every key keeps the interval a positive int and the selection >= -1 |
| UiRules.OtherKeysChangeNothing | system-monitor/system-monitor/src/Ui.cpp:293-294 | ERR, Enter, k/K and every unlisted key leave all four fields unchanged |
| UiRules.QuitStops | system-monitor/system-monitor/src/Ui.cpp:225-228 | q/Q clears the running flag and changes nothing else |
| UiRules.ArrowsDoNotWrap | system-monitor/system-monitor/src/Ui.cpp:229-234 | Up decrements the selection only when it is > 0, Down increments it only when selection+1 < count; at the ends they leave it; no other field changes |
| UiRules.SortKeysStartOver | system-monitor/system-monitor/src/Ui.cpp:243-257 | c/C, m/M, p/P set CPU, MEM, PID (exactly those keys) and reset the selection to 0, keeping interval and running flag |
| UiRules.ExampleSortSwitch | system-monitor/system-monitor/src/Ui.cpp:248-252 | in the example snapshot, with pid 20 selected at the top of the CPU order, `m` leaves row 0 selected, which is now pid 30, while pid 20 moves to row 2 |
| UiRules.SpeedKeys | system-monitor/system-monitor/src/Ui.cpp:258-263 | `+` adds one only below 30, `-` subtracts one only above 1; nothing else changes |
| UiRules.IntervalStaysInRange | system-monitor/system-monitor/src/Ui.cpp:258-263 | from an interval in [1, 30], every key sequence keeps it in [1, 30] |
| UiRules.PlusPresses | system-monitor/system-monitor/src/Ui.cpp:258-260 | k presses of `+` from an interval i <= 30 give min(i + k, 30) |
| UiRules.PlusFromInitial | system-monitor/system-monitor/src/Ui.cpp:258-260 | from the initial 2, fifteen `+` give 17 and thirty stop at 30 |
| UiRules.SelectionStaysInTable | system-monitor/system-monitor/src/Ui.cpp:229-234 | a selection on a row of the table stays on a row under every key sequence |
| UiRules.StoppedIsFinal | system-monitor/system-monitor/src/Ui.cpp:225-228 | once stopped, no key sequence restarts the dashboard |
| UiRules.KillNeedsConfirmation | system-monitor/system-monitor/src/Ui.cpp:264-291 | k/K opens the prompt exactly when a row is selected (else nothing happens, one key read); the target is the selected row of the sorted view; k means SIGTERM and K SIGKILL; a signal is sent exactly when the answer is y/Y, to the target's pid, with the OS's result reported |
| UiRules.FailedSignalIsReported | system-monitor/system-monitor/src/Ui.cpp:277-288 | a signal the OS refuses is reported as not delivered, and the dashboard state is left as it was |
| UiRules.DetailViewSignals | system-monitor/system-monitor/src/Ui.cpp:169-184 | Enter shows the popup for the selected row exactly when there is one; inside it k/K (and only those) send a signal, k SIGTERM and K SIGKILL |
| UiRules.OnlyDialogKeysReadMore | system-monitor/system-monitor/src/Ui.cpp:235-242 | a key reads more than itself exactly when it opens a dialog; 3 keys exactly when a signal was sent |
| UiRules.ClampSelection | system-monitor/system-monitor/src/Ui.cpp:113-115 | the clamped selection is in [0, n-1] for a non-empty table and -1 for an empty one; an in-range selection is kept, a negative one becomes 0, one past the end becomes n-1 |
| UiRules.SelectedRowVisible | system-monitor/system-monitor/src/Ui.cpp:117-122 | after the clamp, offset <= selection < offset + max_display, the window does not run past the table, and a scrolled window has the selection on its last row |
| UiRules.RedrawWellformed | system-monitor/system-monitor/src/Ui.cpp:111-115 | drawing changes only the selection, keeps the state's bounds, and leaves an in-range selection as it is |
| UiRules.PollBudgetAlwaysPolls | system-monitor/system-monitor/src/Ui.cpp:48-55 | a cycle of interval >= 1 has at least ten 100 ms polls, which together take interval*1000 ms |
| UiRules.MsTotalOverflows | system-monitor/system-monitor/src/Ui.cpp:48 | the 32-bit product refresh_interval*1000 equals the true product exactly for intervals up to 2147483, and is negative for 3000000 |
| UiRules.ElapsedClosedForm | system-monitor/system-monitor/src/Ui.cpp:50-55 | after k passes of the loop, the 32-bit `elapsed` (0, then += 100 with wrap-around) holds the 32-bit wrap of 100*k |
| UiRules.FirstEnd | system-monitor/system-monitor/src/Ui.cpp:51 | the search returns a count at which the loop condition first fails |
| UiRules.PollsAsWritten | system-monitor/system-monitor/src/Ui.cpp:48-56 | with the 32-bit cycle length and the 32-bit `elapsed`, the loop without a quit ends, after the count at which `elapsed < ms_total` first fails, and that count is at most interval*10 |
| UiRules.PollsAsWrittenCases | system-monitor/system-monitor/src/Ui.cpp:48-56 | the loop as written polls zero times when the 32-bit length is <= 0, ceil(length / 100) times when it is at most 2147483600 ms, and more than 21474836 times (only after `elapsed` has wrapped) above that |
| UiRules.PollsAsWrittenDiverge | system-monitor/system-monitor/src/Ui.cpp:48-56 | the 32-bit loop polls interval*10 times up to 2147483 s; it polls zero times for 3000000 s where 30000000 were meant, and 8 times for 4294968 s, whose length wraps to 704 ms, where 42949680 were meant |
| Dashboard.Terminal.GetCh | system-monitor/system-monitor/src/Ui.cpp:201-202 | returns the next pending key and removes it, or ERR with nothing pending |
| Dashboard.ShowProcessPopup | system-monitor/system-monitor/src/Ui.cpp:169-186 | reads one key; on k/K sends SIGTERM/SIGKILL to the process's pid and reads one more key; otherwise closes |
| Dashboard.ConfirmSignal | system-monitor/system-monitor/src/Ui.cpp:276-288 | reads one key; on y/Y sends the chosen signal to the target pid and reads one more key; otherwise cancels |
| Dashboard.PaintWindow | system-monitor/system-monitor/src/Ui.cpp:122-136 | paints min(max_display, n - offset) rows from row 4, each showing the process at offset + i, numbered idx + 1, highlighted exactly on the selection, with its formatted time and its name fitted to cols - 50 |
| Dashboard.ClearRows | system-monitor/system-monitor/src/Ui.cpp:139-143 | clears exactly the rows 4 + i for i from its start up to max_display, in order |
| Dashboard.HighlightedRow | system-monitor/system-monitor/src/Ui.cpp:122-136 | in a painted table whose scroll window holds the selection, some row is highlighted and every highlighted row shows the selected process of the view |
| Dashboard.DialogTargetIsHighlighted | system-monitor/system-monitor/src/Ui.cpp:203-221 | for a key read after a redraw of the same snapshot, Enter or k/K opens its dialog on exactly the process the table shows highlighted, because both sort the snapshot into the same order |
| Dashboard.PaintRows | system-monitor/system-monitor/src/Ui.cpp:122-143 | paints exactly max_display rows from row 4 in order: the processes of the scroll window, numbered from 1 and highlighted on the selection, with time and fitted name, then cleared rows from min(n, max_display) on |
| Dashboard.Ui.constructor | system-monitor/src/Ui.h:21-28 | the new dashboard sorts by CPU, selects row 0, refreshes every 2 s and is running |
| Dashboard.Ui.SetSortMode | system-monitor/src/Ui.h:16 | only the sort mode changes; unlike the sort keys the selection is kept |
| Dashboard.Ui.SetRefreshInterval | system-monitor/src/Ui.h:17 | the interval becomes exactly s when s >= 1, above 30 too; otherwise nothing changes, so the interval stays >= 1 |
| Dashboard.Ui.DrawProcesses | system-monitor/system-monitor/src/Ui.cpp:90-144 | with rows-6 < 1 nothing is painted and nothing changes; otherwise the selection is clamped (Redraw) and the table painted is the screen of SortedOf(sort mode, snapshot) |
| Dashboard.Ui.HandleInput | system-monitor/system-monitor/src/Ui.cpp:200-296 | the fields change as Dispatch prescribes for the key read; ERR does nothing else; any other key acts (including its dialog and signal) on SortedOf(mode, snapshot) for the mode in force when it was read, the order DrawProcesses paints for the same snapshot and mode |
| Dashboard.Ui.ApplyKey | system-monitor/system-monitor/src/Ui.cpp:224-263 | the field-updating cases of the key switch change the fields exactly as Dispatch prescribes and keep the state's bounds |
| Dashboard.Ui.OpenDialog | system-monitor/system-monitor/src/Ui.cpp:235-291 | with a row selected, Enter or k/K leave the four fields as they were and produce the dialog, signal and key consumption that Respond prescribes |
| Dashboard.Ui.Run | system-monitor/system-monitor/src/Ui.cpp:43-59 | with the cycle length as an unbounded integer (the corrected cadence of the Findings), every cycle without a quit polls exactly interval*10 times with a sleep after each; a quit ends the cycle at that poll with no sleep after it and ends the loop; each cycle reads the interval once, so `+`/`-` apply from the next cycle |
| Cli.SortModeOf | system-monitor/system-monitor/src/main.cpp:27-29 | "cpu" gives CPU and "mem" gives MEM, case-sensitively; every other flag gives PID |
| Cli.ParseArgs | system-monitor/system-monitor/src/main.cpp:7-21 | the loop's result is the scan from argv[1] with interval 2 and flag "cpu"; a parsed interval is >= 1 |
| Cli.StartUi | system-monitor/system-monitor/src/main.cpp:24-30 | the started dashboard has the flag's sort mode, row 0, the parsed interval and is running |
| Cli.Launch | system-monitor/system-monitor/src/main.cpp:6-37 | help exits 0 before a dashboard exists; a value of -i that does not convert terminates the program, with no exit status of 1; otherwise the dashboard runs with the parsed interval and the program exits 0 |
| Cli.NoArgumentsDefaults | system-monitor/system-monitor/src/main.cpp:7-8 | with no arguments the interval is 2 and the flag "cpu", which selects CPU |
| Cli.ScanIntervalPositive | system-monitor/system-monitor/src/main.cpp:12-14 | the scan never produces an interval below 1 |
| Cli.OptionValueIsConsumed | system-monitor/system-monitor/src/main.cpp:12-16 | the argument after -i/-s is always taken as its value, even if it looks like an option; -i v continues with max(v, 1), no upper bound; a failed conversion is reported |
| Cli.LaterOptionOverrides | system-monitor/system-monitor/src/main.cpp:10-21 | at a later -i or -s, the value held so far has no influence on the result |
| Cli.SkippedArguments | system-monitor/system-monitor/src/main.cpp:10-21 | a trailing -i or -s without a value is ignored, and so is every unknown argument |
| Cli.HelpIgnoresLaterArguments | system-monitor/system-monitor/src/main.cpp:17-19 | once the scan reaches -h/--help it returns usage whatever arguments follow |
| Cli.FlagComesFromArguments | system-monitor/system-monitor/src/main.cpp:15-16 | the resulting flag is the default or the verbatim value of some -s |
| Cli.ExampleArguments | system-monitor/system-monitor/src/main.cpp:10-29 | `-i 100` is kept as 100; the last -s wins; "MEM" and "x" select PID; `-s -h` records "-h" as a flag; `--help -i` is usage |

## Left out

- Terminal output is left out, because it is ncurses I/O: screen set-up and colours, the
  header (including the CPU and memory totals), the footer, the popup's window geometry
  and texts, and the printf layout of the rows. The renderer's output is reduced to the
  `Line` datatype of each row.
- `SystemMonitor.cpp` is not part of this model. It is the macOS process sampler, and
  its snapshots are inputs. The sampler reports a CPU share of 0.0 for every process, so
  in practice the CPU order compares ties only. The model keeps the share as an abstract
  `real`.
- Dashboard.Ui.Run: the cycle length `refresh_interval * 1000` is an unbounded integer, so for intervals above 2147483 s Run follows the intended cadence and not the 32-bit one; UiRules.PollsAsWritten models the loop as written (see Findings). The `usleep` pauses are counted, not timed. Run handles a finite list
  of snapshots, one per cycle, and stops when they are used up even if no quit key was
  read. Run states each cycle's cadence and how cycles chain. It does not restate the
  key-by-key state changes of the polls; HandleInput states those.
- Signals: `kill()`, `errno` and the result messages are reduced to the `bool` that the
  signal parameter returns.
- `getch` delay modes: the non-blocking poll and the blocking dialog reads both take the
  next pending key, and an empty queue reads as ERR.
- Cli.Launch: `std::stoi` is an abstract parameter, including its partial-prefix parsing.
  Both of its exceptions appear as `None`. Because the conversion happens outside the
  `try`, a failed conversion is modelled as termination and not as exit status 1. The
  model's dashboard start cannot fail, so the `catch` path that returns 1 is not modelled.
- Text.SecondsToHms: the argument is a whole number of seconds (`nat`). The rounding of
  the source's floating-point input and negative times are left out.
- Dashboard.Ui.DrawProcesses: requires at least 50 columns, and so do Dashboard.Ui.HandleInput,
  Dashboard.Ui.Run and Cli.Launch, which redraw through it. Below 50, `(size_t)cols - 50`
  wraps to a huge width. The cases with `width < 3` are still modelled in `Text.PadOrTrim`.
- Text.PadOrTrim: a `char` stands for a byte. `std::string::size` and `substr` count bytes,
  so a process name with multi-byte UTF-8 characters is cut and padded by bytes in the
  source, possibly inside a character, while the model counts characters.
- Processes.Sort: the sort is an insertion sort, which keeps tied processes in snapshot
  order. `std::sort` is also deterministic for a given input, but its order among ties
  is left to the library. What the model proves is that the renderer and the key handler
  see the same order, not which tied process the library puts first.
- Dashboard.DialogTargetIsHighlighted: it covers a key read right after a redraw. An arrow
  or sort key changes the selection or the order without a redraw, as in the source, so a
  later Enter or k/K in the same cycle targets the new selection and not the row still
  highlighted on screen.
- Window resizing between the renderer and the key handler is not modelled: the
  `Terminal` size is constant.
- The unused `Process` fields (`utime`, `stime`, `vsize`, `starttime`) are left out.
- Only the `int` overflows of the polling loop, which the argument scan can reach, are
  modelled (see Findings). UiRules.PollsAsWrittenCases does not give the exact count for a
  wrapped length above 2147483600 ms, only that it is more than 21474836 and at most
  interval*10. Other 32-bit limits are not modelled: a snapshot of more than 2^31 processes, and selection or
  row arithmetic near `INT_MAX`.

## Findings

| source | as written | input that shows it | evidently intended | confidence | as-written member | corrected member |
|---|---|---|---|---|---|---|
| system-monitor/system-monitor/src/Ui.cpp:48 | `int ms_total = refresh_interval * 1000;` is computed in 32-bit `int`. The command line accepts any interval >= 1 with no upper bound (main.cpp:13-14), so for intervals above 2147483 s the product overflows. Signed overflow is undefined behaviour; on the usual two's-complement wrap, 3000000 gives a negative `ms_total`. The polling loop then never runs: no key, quit included, is ever read, and the dashboard redraws without pause. A wrap to a small positive length shortens the cycle instead: 4294968 s gives 704 ms and 8 polls. | `monitor -i 3000000` | a cycle lasts `refresh_interval` seconds, polled 10 times per second, so a quit is always read | not executed | UiRules.PollsAsWrittenDiverge (over UiRules.MsTotalAsWritten and UiRules.PollsAsWritten) | Dashboard.Ui.Run (its CycleCadence: every quit-free cycle polls exactly PollBudget(interval) = interval*10 times, the cycle length being an unbounded integer; UiRules.PollBudgetAlwaysPolls adds that this is at least ten polls) |
