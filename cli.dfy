/**
 * The program's entry point: the scan of the command line (`-i seconds`, `-s cpu|mem|pid`,
 * `-h`/`--help`), the mapping of the sort flag to a sort mode, and the start of the
 * dashboard with the options found.
 */
module Cli {

  import opened Wrappers
  import opened Processes
  import opened UiRules
  import opened Dashboard

  /** The text-to-`int` conversion applied to the value of `-i`: a number, or a failure
      (the conversion throws). */
  type Stoi = string -> Option<Int32>

  /** What the argument scan decides. */
  datatype Command =
    | Usage                                   // -h or --help: print usage and exit 0
    | Malformed(value: string)                // the value of -i did not convert
    | Options(interval: Int32, sortFlag: string)

  /** How the program ends: with an exit status, or terminated by an uncaught exception. */
  datatype Exit = ExitCode(code: int) | Terminated(value: string)

  /** The sort mode a `-s` value selects: "cpu" and "mem" exactly, anything else pid. */
  function SortModeOf(flag: string): (m: SortMode)
    ensures m == Cpu <==> flag == "cpu"
    ensures m == Mem <==> flag == "mem"
    ensures m == Pid <==> flag != "cpu" && flag != "mem"
  {
    if flag == "cpu" then Cpu else if flag == "mem" then Mem else Pid
  }

  /**
   * The scan of `argv` from position `i` with the interval and sort flag found so far.
   * An option that needs a value consumes the next argument whatever it is; an option
   * in last position, and any argument that is not an option, is skipped.
   */
  function Scan(argv: seq<string>, i: nat, interval: Int32, flag: string, stoi: Stoi): Command
    decreases |argv| - i
  {
    if i >= |argv| then Options(interval, flag)
    else if argv[i] == "-i" && i + 1 < |argv| then
      match stoi(argv[i + 1])
      case None => Malformed(argv[i + 1])
      case Some(v) => Scan(argv, i + 2, if v < 1 then 1 else v, flag, stoi)
    else if argv[i] == "-s" && i + 1 < |argv| then
      Scan(argv, i + 2, interval, argv[i + 1], stoi)
    else if argv[i] == "-h" || argv[i] == "--help" then Usage
    else Scan(argv, i + 1, interval, flag, stoi)
  }

  /** The defaults the scan starts from: a 2 second interval and the flag "cpu". */
  function ParseResult(argv: seq<string>, stoi: Stoi): Command
  {
    Scan(argv, 1, 2, "cpu", stoi)
  }

  /** The argument loop of the entry point; `argv[0]` is the program name. */
  method ParseArgs(argv: seq<string>, stoi: Stoi) returns (cmd: Command)
    ensures cmd == ParseResult(argv, stoi)
    ensures cmd.Options? ==> cmd.interval >= 1
  {
    var defaultInterval: Int32 := 2;
    var sortFlag := "cpu";
    var i := 1;
    while i < |argv|
      invariant 1 <= i
      invariant defaultInterval >= 1
      invariant Scan(argv, i, defaultInterval, sortFlag, stoi) == ParseResult(argv, stoi)
      decreases |argv| - i
    {
      var a := argv[i];
      if a == "-i" && i + 1 < |argv| {
        i := i + 1;
        var v := stoi(argv[i]);
        if v.None? {
          return Malformed(argv[i]);
        }
        defaultInterval := v.value;
        if defaultInterval < 1 {
          defaultInterval := 1;
        }
      } else if a == "-s" && i + 1 < |argv| {
        i := i + 1;
        sortFlag := argv[i];
      } else if a == "-h" || a == "--help" {
        return Usage;
      }
      i := i + 1;
    }
    return Options(defaultInterval, sortFlag);
  }

  /** Builds the dashboard and applies the parsed options to it. */
  method StartUi(interval: Int32, flag: string) returns (ui: Ui)
    requires interval >= 1
    ensures fresh(ui) && ui.Valid()
    ensures ui.State() == UiState(SortModeOf(flag), 0, interval, true)
  {
    ui := new Ui();
    if flag == "cpu" {
      ui.SetSortMode(Cpu);
    } else if flag == "mem" {
      ui.SetSortMode(Mem);
    } else {
      ui.SetSortMode(Pid);
    }
    ui.SetRefreshInterval(interval);
  }

  /**
   * The entry point: usage exits 0 before anything is built; a value of `-i` that does
   * not convert terminates the program (the conversion happens outside the handler that
   * would turn errors into exit status 1); otherwise the dashboard runs and the program
   * exits 0.
   */
  method Launch(argv: seq<string>, stoi: Stoi, term: Terminal, snapshots: seq<seq<Process>>, kill: Signaller)
    returns (exit: Exit, report: seq<Cycle>)
    requires term.cols >= 50
    modifies term
    ensures var cmd := ParseResult(argv, stoi);
      && (cmd.Usage? ==> exit == ExitCode(0) && report == [] && unchanged(term))
      && (cmd.Malformed? ==> exit == Terminated(cmd.value) && report == [] && unchanged(term))
      && (cmd.Options? ==> exit == ExitCode(0) && |report| <= |snapshots|)
      && (cmd.Options? && snapshots != [] ==> report != [] && report[0].interval == cmd.interval)
      && (cmd.Options? ==> |report| == |snapshots| || report[|report| - 1].quit)
  {
    var cmd := ParseArgs(argv, stoi);
    match cmd {
      case Usage =>
        return ExitCode(0), [];
      case Malformed(v) =>
        return Terminated(v), [];
      case Options(interval, flag) =>
        var ui := StartUi(interval, flag);
        report := ui.Run(term, snapshots, kill);
        return ExitCode(0), report;
    }
  }

  // ---------------------------------------------------------------------------
  // What the scan promises
  // ---------------------------------------------------------------------------

  /** With no arguments the interval is 2 seconds and the order is by CPU. */
  lemma NoArgumentsDefaults(prog: string, stoi: Stoi)
    ensures ParseResult([prog], stoi) == Options(2, "cpu")
    ensures ParseResult([], stoi) == Options(2, "cpu")
    ensures SortModeOf("cpu") == Cpu
  {
  }

  /** The scan never yields an interval below one second. */
  lemma {:induction false} ScanIntervalPositive(argv: seq<string>, i: nat, interval: Int32, flag: string, stoi: Stoi)
    requires interval >= 1
    ensures var cmd := Scan(argv, i, interval, flag, stoi); cmd.Options? ==> cmd.interval >= 1
    decreases |argv| - i
  {
    if i < |argv| {
      if argv[i] == "-i" && i + 1 < |argv| {
        match stoi(argv[i + 1])
        case None =>
        case Some(v) => ScanIntervalPositive(argv, i + 2, if v < 1 then 1 else v, flag, stoi);
      } else if argv[i] == "-s" && i + 1 < |argv| {
        ScanIntervalPositive(argv, i + 2, interval, argv[i + 1], stoi);
      } else if !(argv[i] == "-h" || argv[i] == "--help") {
        ScanIntervalPositive(argv, i + 1, interval, flag, stoi);
      }
    }
  }

  /** Once help is reached, the arguments after it are never looked at. */
  lemma {:induction false} HelpIgnoresLaterArguments(argv: seq<string>, extra: seq<string>, i: nat,
                                                     interval: Int32, flag: string, stoi: Stoi)
    requires Scan(argv, i, interval, flag, stoi) == Usage
    ensures Scan(argv + extra, i, interval, flag, stoi) == Usage
    decreases |argv| - i
  {
    var all := argv + extra;
    assert i < |argv|;
    assert all[i] == argv[i];
    if argv[i] == "-i" && i + 1 < |argv| {
      assert all[i + 1] == argv[i + 1];
      match stoi(argv[i + 1])
      case None =>
      case Some(v) => HelpIgnoresLaterArguments(argv, extra, i + 2, if v < 1 then 1 else v, flag, stoi);
    } else if argv[i] == "-s" && i + 1 < |argv| {
      assert all[i + 1] == argv[i + 1];
      HelpIgnoresLaterArguments(argv, extra, i + 2, interval, argv[i + 1], stoi);
    } else if argv[i] == "-h" || argv[i] == "--help" {
    } else {
      HelpIgnoresLaterArguments(argv, extra, i + 1, interval, flag, stoi);
    }
  }

  /**
   * The argument after `-i` or `-s` is taken as the value, even when it looks like an
   * option (so `-s -h` sorts by pid instead of printing help); the value of `-i` is
   * raised to 1 when smaller and kept as it is above 30.
   */
  lemma OptionValueIsConsumed(argv: seq<string>, i: nat, interval: Int32, flag: string, stoi: Stoi)
    requires i + 1 < |argv|
    ensures argv[i] == "-s" ==>
      Scan(argv, i, interval, flag, stoi) == Scan(argv, i + 2, interval, argv[i + 1], stoi)
    ensures argv[i] == "-i" && stoi(argv[i + 1]).Some? ==>
      var v := stoi(argv[i + 1]).value;
      Scan(argv, i, interval, flag, stoi) == Scan(argv, i + 2, if v < 1 then 1 else v, flag, stoi)
    ensures argv[i] == "-i" && stoi(argv[i + 1]).None? ==>
      Scan(argv, i, interval, flag, stoi) == Malformed(argv[i + 1])
  {
  }

  /**
   * A later `-i` or `-s` overrides an earlier one: at an option that sets a value, the
   * value held so far does not matter.
   */
  lemma LaterOptionOverrides(argv: seq<string>, i: nat, interval: Int32, other: Int32,
                             flag: string, otherFlag: string, stoi: Stoi)
    requires i + 1 < |argv|
    ensures argv[i] == "-s" ==>
      Scan(argv, i, interval, flag, stoi) == Scan(argv, i, interval, otherFlag, stoi)
    ensures argv[i] == "-i" ==>
      Scan(argv, i, interval, flag, stoi) == Scan(argv, i, other, flag, stoi)
  {
  }

  /** An option without a value in last position, and an unknown argument, are skipped. */
  lemma SkippedArguments(argv: seq<string>, i: nat, interval: Int32, flag: string, stoi: Stoi)
    requires i < |argv|
    ensures i == |argv| - 1 && (argv[i] == "-i" || argv[i] == "-s") ==>
      Scan(argv, i, interval, flag, stoi) == Options(interval, flag)
    ensures argv[i] !in {"-i", "-s", "-h", "--help"} ==>
      Scan(argv, i, interval, flag, stoi) == Scan(argv, i + 1, interval, flag, stoi)
  {
  }

  /** The flag the scan ends with is the one it started with or a value given to `-s`. */
  lemma {:induction false} FlagComesFromArguments(argv: seq<string>, i: nat, interval: Int32, flag: string, stoi: Stoi)
    ensures var cmd := Scan(argv, i, interval, flag, stoi);
      cmd.Options? ==>
        cmd.sortFlag == flag
        || exists k :: i <= k && k + 1 < |argv| && argv[k] == "-s" && argv[k + 1] == cmd.sortFlag
    decreases |argv| - i
  {
    if i < |argv| {
      if argv[i] == "-i" && i + 1 < |argv| {
        match stoi(argv[i + 1])
        case None =>
        case Some(v) => FlagComesFromArguments(argv, i + 2, if v < 1 then 1 else v, flag, stoi);
      } else if argv[i] == "-s" && i + 1 < |argv| {
        FlagComesFromArguments(argv, i + 2, interval, argv[i + 1], stoi);
      } else if !(argv[i] == "-h" || argv[i] == "--help") {
        FlagComesFromArguments(argv, i + 1, interval, flag, stoi);
      }
    }
  }

  /** `-i 100` is accepted as it is, and the flag is case-sensitive. */
  lemma ExampleArguments(stoi: Stoi)
    requires stoi("100") == Some(100)
    ensures ParseResult(["monitor", "-i", "100"], stoi) == Options(100, "cpu")
    ensures ParseResult(["monitor", "-s", "mem", "-s", "MEM"], stoi) == Options(2, "MEM")
    ensures SortModeOf("MEM") == Pid && SortModeOf("x") == Pid && SortModeOf("mem") == Mem
    ensures ParseResult(["monitor", "-s", "-h"], stoi) == Options(2, "-h")
    ensures ParseResult(["monitor", "--help", "-i"], stoi) == Usage
  {
  }
}
