/**
 * The dashboard object: its four fields, the key handler, the process-table renderer and
 * the refresh loop, carried out step by step on the fields as the rules of module
 * UiRules prescribe.
 *
 * The terminal is reduced to what these steps observe: a queue of pending key events
 * and the window size. Sending a signal is a function from pid and signal kind to the
 * operating system's yes or no. Each refresh cycle's fresh snapshot is an input.
 */
module Dashboard {

  import opened Wrappers
  import opened Processes
  import opened Text
  import opened UiRules

  /** Signal delivery: true when the operating system accepted the signal. */
  type Signaller = (int, SignalKind) -> bool

  /** One line of the process table as the renderer leaves it. */
  datatype Line =
    | ProcessRow(number: int, pid: int, user: string, cpuPercent: real, time: string,
                 memKb: nat, name: string, highlighted: bool)
    | Cleared

  /** Writing `line` at screen row `row`. */
  datatype Paint = Paint(row: int, line: Line)

  /** `line` shows process `p`, which stands at index `idx` of the sorted view. */
  predicate ShowsProcess(line: Line, p: Process, idx: int, sel: int, cols: int)
    requires cols >= 50
  {
    && line.ProcessRow?
    && line == ProcessRow(idx + 1, p.pid, p.user, p.cpuPercent, SecondsToHms(p.timeSeconds),
                          p.memKb, line.name, idx == sel)
    && IsFitted(p.name, cols - 50, line.name)
  }

  /** Row `i` of the table drawn from `view`: a process of the scroll window, or cleared. */
  predicate TableRow(view: seq<Process>, sel: int, maxDisplay: int, cols: int, i: int, paint: Paint)
    requires cols >= 50
  {
    var off := ScrollOffset(sel, maxDisplay);
    && paint.row == 4 + i
    && if i < Min(|view|, maxDisplay) then
         0 <= off + i < |view| && ShowsProcess(paint.line, view[off + i], off + i, sel, cols)
       else
         paint.line == Cleared
  }

  /**
   * The process table drawn from `view`: rows 4, 5, ... up to `maxDisplay` of them, each
   * written once and in order; the first min(n, maxDisplay) show the processes of the
   * scroll window with the selected one highlighted, and the rest are cleared.
   */
  predicate PaintsTable(view: seq<Process>, sel: int, maxDisplay: int, cols: int, paints: seq<Paint>)
    requires cols >= 50
  {
    && |paints| == maxDisplay
    && forall i :: 0 <= i < |paints| ==> TableRow(view, sel, maxDisplay, cols, i, paints[i])
  }

  /** What the key handler did with the first of `keys`, given the view it sorted. */
  predicate Handled(s: UiState, keys: seq<Key>, view: seq<Process>, kill: Signaller,
                    effect: Effect, rest: seq<Key>)
  {
    var r := Respond(s, keys, view, kill);
    effect == r.effect && rest == Drop(keys, r.consumed)
  }

  /** One pass of the refresh loop: the interval it read, its polls and sleeps, whether
      it ended on a quit, and the interval in force when it ended. */
  datatype Cycle = Cycle(interval: int, polls: nat, sleeps: nat, quit: bool, endInterval: int)

  /**
   * The cadence of a cycle: without a quit, exactly PollBudget(interval) polls, each
   * followed by a sleep; a quit ends the cycle at the poll that read it, with no sleep
   * after it.
   */
  predicate CycleCadence(c: Cycle)
  {
    && c.interval >= 1
    && if c.quit then 1 <= c.polls <= PollBudget(c.interval) && c.sleeps == c.polls - 1
       else c.polls == PollBudget(c.interval) && c.sleeps == c.polls
  }

  /** The keyboard and the window size. */
  class Terminal {
    var pending: seq<Key>
    const rows: int
    const cols: int

    constructor (keys: seq<Key>, rows: int, cols: int)
      ensures pending == keys && this.rows == rows && this.cols == cols
    {
      pending := keys;
      this.rows := rows;
      this.cols := cols;
    }

    /** Reads the next key event; with nothing pending, no key (ERR). */
    method GetCh() returns (k: Key)
      modifies this
      ensures k == KeyAt(old(pending), 0)
      ensures pending == Drop(old(pending), 1)
    {
      if pending == [] {
        k := Err;
      } else {
        k := pending[0];
        pending := pending[1..];
      }
    }
  }

  /**
   * The detail popup for `p`: it waits for one key; k sends SIGTERM and K sends SIGKILL
   * to `p.pid`, after which one more key dismisses the report; any other key closes it.
   */
  method ShowProcessPopup(term: Terminal, p: Process, kill: Signaller) returns (effect: Effect)
    modifies term
    ensures var ch := KeyAt(old(term.pending), 0);
      if IsKillKey(ch) then
        effect == Details(p, Some(Delivery(p.pid, KindOf(ch), kill(p.pid, KindOf(ch)))))
        && term.pending == Drop(old(term.pending), 2)
      else
        effect == Details(p, None) && term.pending == Drop(old(term.pending), 1)
  {
    var ch := term.GetCh();
    if ch == Char('k') || ch == Char('K') {
      var sig := if ch == Char('k') then Term else Kill;
      var ret := kill(p.pid, sig);
      effect := Details(p, Some(Delivery(p.pid, sig, ret)));
      var _ := term.GetCh();
    } else {
      effect := Details(p, None);
    }
  }

  /**
   * The kill prompt for `p`: it waits for one key; y/Y sends `sig` to `p.pid`, after
   * which one more key dismisses the report; any other key cancels.
   */
  method ConfirmSignal(term: Terminal, p: Process, sig: SignalKind, kill: Signaller) returns (effect: Effect)
    modifies term
    ensures if IsConfirmKey(KeyAt(old(term.pending), 0)) then
        effect == Confirm(p, sig, Some(Delivery(p.pid, sig, kill(p.pid, sig))))
        && term.pending == Drop(old(term.pending), 2)
      else
        effect == Confirm(p, sig, None) && term.pending == Drop(old(term.pending), 1)
  {
    var c := term.GetCh();
    if c == Char('y') || c == Char('Y') {
      var ret := kill(p.pid, sig);
      effect := Confirm(p, sig, Some(Delivery(p.pid, sig, ret)));
      var _ := term.GetCh();
    } else {
      effect := Confirm(p, sig, None);
    }
  }

  /**
   * The first row loop of the renderer: the processes of the window starting at
   * `offset`, one per row from row 4, while rows and processes last.
   */
  method PaintWindow(view: seq<Process>, offset: int, sel: int, maxDisplay: int, cols: int)
    returns (paints: seq<Paint>)
    requires cols >= 50 && 0 <= offset <= |view| && maxDisplay >= 0
    ensures |paints| == Min(maxDisplay, |view| - offset)
    ensures forall k :: 0 <= k < |paints| ==>
      paints[k].row == 4 + k && ShowsProcess(paints[k].line, view[offset + k], offset + k, sel, cols)
  {
    paints := [];
    var i := 0;
    while i < maxDisplay && i + offset < |view|
      invariant 0 <= i <= Min(maxDisplay, |view| - offset)
      invariant |paints| == i
      invariant forall k :: 0 <= k < i ==>
        paints[k].row == 4 + k && ShowsProcess(paints[k].line, view[offset + k], offset + k, sel, cols)
    {
      var idx := i + offset;
      var p := view[idx];
      var name := PadOrTrim(p.name, cols - 50);
      var line := ProcessRow(idx + 1, p.pid, p.user, p.cpuPercent, SecondsToHms(p.timeSeconds),
                             p.memKb, name, idx == sel);
      assert ShowsProcess(line, p, idx, sel, cols);
      paints := paints + [Paint(4 + i, line)];
      i := i + 1;
    }
  }

  /** The second row loop of the renderer: rows `4 + from` up to `4 + maxDisplay` cleared. */
  method ClearRows(from: int, maxDisplay: int) returns (paints: seq<Paint>)
    requires 0 <= from <= maxDisplay
    ensures |paints| == maxDisplay - from
    ensures forall k :: 0 <= k < |paints| ==> paints[k] == Paint(4 + from + k, Cleared)
  {
    paints := [];
    var i := from;
    while i < maxDisplay
      invariant from <= i <= maxDisplay
      invariant |paints| == i - from
      invariant forall k :: 0 <= k < |paints| ==> paints[k] == Paint(4 + from + k, Cleared)
    {
      paints := paints + [Paint(4 + i, Cleared)];
      i := i + 1;
    }
  }

  /** The window starting at `offset` holds min(n, maxDisplay) processes. */
  lemma WindowFits(n: nat, offset: int, maxDisplay: int)
    requires maxDisplay >= 1
    requires n == 0 ==> offset == 0
    requires n > 0 ==> 0 <= offset && offset + Min(n, maxDisplay) <= n
    ensures 0 <= offset <= n && Min(maxDisplay, n - offset) == Min(n, maxDisplay)
  {
  }

  /** The window's rows followed by the cleared rows make up the whole table. */
  lemma JoinRows(view: seq<Process>, sel: int, maxDisplay: int, cols: int,
                 shown: seq<Paint>, blank: seq<Paint>)
    requires cols >= 50 && |shown| == Min(|view|, maxDisplay) <= maxDisplay
    requires 0 <= ScrollOffset(sel, maxDisplay) && ScrollOffset(sel, maxDisplay) + |shown| <= |view|
    requires forall k :: 0 <= k < |shown| ==>
      var idx := ScrollOffset(sel, maxDisplay) + k;
      shown[k].row == 4 + k && ShowsProcess(shown[k].line, view[idx], idx, sel, cols)
    requires |blank| == maxDisplay - |shown|
    requires forall k :: 0 <= k < |blank| ==> blank[k] == Paint(4 + |shown| + k, Cleared)
    ensures PaintsTable(view, sel, maxDisplay, cols, shown + blank)
  {
    var paints := shown + blank;
    forall k | 0 <= k < |paints|
      ensures TableRow(view, sel, maxDisplay, cols, k, paints[k])
    {
      if k < |shown| {
        assert paints[k] == shown[k];
      } else {
        assert paints[k] == blank[k - |shown|];
      }
    }
  }

  /** The two row loops together paint the table of the scroll window. */
  method PaintRows(view: seq<Process>, offset: int, sel: int, maxDisplay: int, cols: int)
    returns (paints: seq<Paint>)
    requires cols >= 50 && maxDisplay >= 1
    requires offset == ScrollOffset(sel, maxDisplay)
    requires |view| == 0 ==> offset == 0
    requires |view| > 0 ==> 0 <= offset && offset + Min(|view|, maxDisplay) <= |view|
    ensures PaintsTable(view, sel, maxDisplay, cols, paints)
  {
    WindowFits(|view|, offset, maxDisplay);
    var shown := PaintWindow(view, offset, sel, maxDisplay, cols);
    // clear the rows below the last process
    var blank := ClearRows(Min(|view|, maxDisplay), maxDisplay);
    JoinRows(view, sel, maxDisplay, cols, shown, blank);
    paints := shown + blank;
  }

  /** A highlighted line of the table. */
  predicate Highlighted(line: Line)
  {
    line.ProcessRow? && line.highlighted
  }

  /**
   * In a table whose scroll window holds the selection, exactly the row of the selected
   * process is highlighted.
   */
  lemma HighlightedRow(view: seq<Process>, sel: int, maxDisplay: int, cols: int, paints: seq<Paint>)
    requires cols >= 50 && PaintsTable(view, sel, maxDisplay, cols, paints)
    requires 0 <= sel < |view|
    requires ScrollOffset(sel, maxDisplay) <= sel < ScrollOffset(sel, maxDisplay) + maxDisplay
    requires ScrollOffset(sel, maxDisplay) + Min(|view|, maxDisplay) <= |view|
    ensures exists i :: 0 <= i < |paints| && Highlighted(paints[i].line)
    ensures forall i :: 0 <= i < |paints| && Highlighted(paints[i].line) ==>
      ShowsProcess(paints[i].line, view[sel], sel, sel, cols)
  {
    var off := ScrollOffset(sel, maxDisplay);
    var row := sel - off;
    assert row < Min(|view|, maxDisplay);
    assert TableRow(view, sel, maxDisplay, cols, row, paints[row]);
    assert Highlighted(paints[row].line);
    forall i | 0 <= i < |paints| && Highlighted(paints[i].line)
      ensures ShowsProcess(paints[i].line, view[sel], sel, sel, cols)
    {
      assert TableRow(view, sel, maxDisplay, cols, i, paints[i]);
    }
  }

  /** The process the dialog of `e` is about. */
  function DialogTarget(e: Effect): Process
    requires e.Details? || e.Confirm?
  {
    if e.Details? then e.shown else e.target
  }

  /** Enter or k/K with a row selected opens a dialog on the selected process. */
  lemma DialogOnSelection(d: UiState, keys: seq<Key>, view: seq<Process>, kill: Signaller)
    requires HasSelection(d, |view|)
    requires IsEnterKey(KeyAt(keys, 0)) || IsKillKey(KeyAt(keys, 0))
    ensures var e := Respond(d, keys, view, kill).effect;
      (e.Details? || e.Confirm?) && DialogTarget(e) == view[d.selectedIndex]
  {
  }

  /**
   * The process a dialog opens on is the one the table shows highlighted. After a
   * redraw of `procs`, the key handler reads the same snapshot sorted by the same mode,
   * and the process at the selected index of that order is the one on the highlighted
   * row: some row is highlighted, and every highlighted row shows exactly that process.
   */
  lemma DialogTargetIsHighlighted(s: UiState, procs: seq<Process>, rows: int, cols: int,
                                  paints: seq<Paint>, keys: seq<Key>, kill: Signaller)
    requires cols >= 50 && MaxDisplay(rows) >= 1 && procs != []
    requires var d := Redraw(s, |procs|, rows);
      PaintsTable(SortedOf(d.sortMode, procs), d.selectedIndex, MaxDisplay(rows), cols, paints)
    requires IsEnterKey(KeyAt(keys, 0)) || IsKillKey(KeyAt(keys, 0))
    ensures var d := Redraw(s, |procs|, rows);
      var e := Respond(d, keys, SortedOf(d.sortMode, procs), kill).effect;
      && (e.Details? || e.Confirm?)
      && (exists i :: 0 <= i < |paints| && Highlighted(paints[i].line))
      && forall i :: 0 <= i < |paints| && Highlighted(paints[i].line) ==>
           ShowsProcess(paints[i].line, DialogTarget(e), d.selectedIndex, d.selectedIndex, cols)
  {
    var d := Redraw(s, |procs|, rows);
    var view := SortedOf(d.sortMode, procs);
    SortedOfLength(d.sortMode, procs);
    SelectedRowVisible(s.selectedIndex, |procs|, MaxDisplay(rows));
    assert HasSelection(d, |view|);
    DialogOnSelection(d, keys, view, kill);
    HighlightedRow(view, d.selectedIndex, MaxDisplay(rows), cols, paints);
  }

  class Ui {
    var sortMode: SortMode
    var selectedIndex: int
    var refreshInterval: int
    var running: bool

    function State(): UiState
      reads this
    {
      UiState(sortMode, selectedIndex, refreshInterval, running)
    }

    ghost predicate Valid()
      reads this
    {
      Wellformed(State())
    }

    /** A dashboard with the field initialisers: CPU order, top row, 2 s, running. */
    constructor ()
      ensures State() == Initial && Valid()
    {
      sortMode := Cpu;
      selectedIndex := 0;
      refreshInterval := 2;
      running := true;
    }

    /** Sets the sort mode alone; unlike the sort keys it keeps the selection. */
    method SetSortMode(m: SortMode)
      requires Valid()
      modifies this
      ensures Valid()
      ensures State() == old(State()).(sortMode := m)
    {
      sortMode := m;
    }

    /** Sets the interval to any value of at least one second (beyond 30 too) and
        ignores anything smaller. */
    method SetRefreshInterval(s: Int32)
      requires Valid()
      modifies this
      ensures Valid()
      ensures State() == if s >= 1 then old(State()).(refreshInterval := s) else old(State())
    {
      if s >= 1 {
        refreshInterval := s;
      }
    }

    /**
     * Draws the process table of a terminal of `rows` lines and `cols` columns from the
     * snapshot `procs`, sorted by the current mode. Without room for one process row it
     * draws nothing and changes nothing; otherwise it clamps the selection to the table
     * and paints the scroll window that shows it.
     */
    method DrawProcesses(procs: seq<Process>, rows: int, cols: int) returns (paints: seq<Paint>)
      requires Valid() && cols >= 50
      modifies this
      ensures Valid()
      ensures State() == Redraw(old(State()), |procs|, rows)
      ensures MaxDisplay(rows) < 1 ==> paints == []
      ensures MaxDisplay(rows) >= 1 ==>
        PaintsTable(SortedOf(sortMode, procs), selectedIndex, MaxDisplay(rows), cols, paints)
    {
      var view := SortedView(procs, sortMode);
      var maxDisplay := rows - 6;
      if maxDisplay < 1 {
        return [];
      }
      if selectedIndex < 0 {
        selectedIndex := 0;
      }
      if selectedIndex >= |view| {
        selectedIndex := |view| - 1;
      }
      var offset := 0;
      if selectedIndex >= maxDisplay {
        offset := selectedIndex - maxDisplay + 1;
      }
      assert offset == ScrollOffset(selectedIndex, maxDisplay);
      if |view| > 0 {
        SelectedRowVisible(old(selectedIndex), |view|, maxDisplay);
      }

      paints := PaintRows(view, offset, selectedIndex, maxDisplay, cols);
    }

    /**
     * Handles the next key event against the snapshot `procs`. The fields change as
     * Dispatch says; enter and k/K open the dialogs Respond describes, on the row
     * selected in the snapshot sorted by the mode in force when the key was read, which
     * is the order DrawProcesses paints for the same snapshot and mode.
     */
    method HandleInput(term: Terminal, procs: seq<Process>, kill: Signaller) returns (effect: Effect)
      requires Valid() && term.cols >= 50
      modifies this, term
      ensures Valid()
      ensures State() == Dispatch(old(State()), KeyAt(old(term.pending), 0), |procs|)
      ensures KeyAt(old(term.pending), 0) == Err ==>
        effect == NoEffect && term.pending == Drop(old(term.pending), 1)
      ensures KeyAt(old(term.pending), 0) != Err ==>
        Handled(old(State()), old(term.pending), SortedOf(old(sortMode), procs), kill, effect, term.pending)
    {
      ghost var keys := term.pending;
      var ch := term.GetCh();
      if ch == Err {
        return NoEffect;
      }
      var view := SortedView(procs, sortMode);
      var displayCount := |view|;
      if (IsEnterKey(ch) || IsKillKey(ch)) && displayCount > 0 && 0 <= selectedIndex < displayCount {
        effect := OpenDialog(term, procs, view, ch, kill, keys);
      } else {
        ghost var s0 := State();
        ApplyKey(ch, displayCount);
        RespondWithoutDialog(s0, keys, view, kill);
        effect := NoEffect;
      }
    }

    /** The cases of the key switch that update fields. */
    method ApplyKey(ch: Key, displayCount: nat)
      requires Valid()
      modifies this
      ensures Valid()
      ensures State() == Dispatch(old(State()), ch, displayCount)
    {
      DispatchWellformed(State(), ch, displayCount);
      if IsQuitKey(ch) {
        running := false;
      } else if ch == Up {
        if selectedIndex > 0 {
          selectedIndex := selectedIndex - 1;
        }
      } else if ch == Down {
        if selectedIndex + 1 < displayCount {
          selectedIndex := selectedIndex + 1;
        }
      } else if ch == Char('c') || ch == Char('C') {
        sortMode := Cpu;
        selectedIndex := 0;
      } else if ch == Char('m') || ch == Char('M') {
        sortMode := Mem;
        selectedIndex := 0;
      } else if ch == Char('p') || ch == Char('P') {
        sortMode := Pid;
        selectedIndex := 0;
      } else if ch == Char('+') {
        if refreshInterval < 30 {
          refreshInterval := refreshInterval + 1;
        }
      } else if ch == Char('-') {
        if refreshInterval > 1 {
          refreshInterval := refreshInterval - 1;
        }
      }
    }

    /**
     * The cases of the key switch that open a dialog on the selected row: enter shows
     * the detail popup and redraws the table afterwards; k/K asks for confirmation.
     */
    method OpenDialog(term: Terminal, procs: seq<Process>, view: seq<Process>, ch: Key,
                      kill: Signaller, ghost keys: seq<Key>)
      returns (effect: Effect)
      requires Valid() && term.cols >= 50 && |view| == |procs|
      requires IsEnterKey(ch) || IsKillKey(ch)
      requires HasSelection(State(), |view|)
      requires ch == KeyAt(keys, 0) && term.pending == Drop(keys, 1)
      modifies this, term
      ensures Valid() && State() == old(State())
      ensures Handled(old(State()), keys, view, kill, effect, term.pending)
    {
      ghost var s0 := State();
      DropShift(keys, 1, 0);
      DropShift(keys, 1, 1);
      if IsEnterKey(ch) {
        effect := ShowProcessPopup(term, view[selectedIndex], kill);
        RedrawWellformed(State(), |procs|, term.rows);
        var _ := DrawProcesses(procs, term.rows, term.cols);
      } else {
        var sig := if ch == Char('k') then Term else Kill;
        effect := ConfirmSignal(term, view[selectedIndex], sig, kill);
      }
      assert Handled(s0, keys, view, kill, effect, term.pending);
    }

    /**
     * The refresh loop over the snapshots of successive cycles. Each cycle draws the
     * table, reads the interval once, and polls the keyboard every 100 ms for that many
     * seconds; a quit ends the polling at once and the loop with it. The loop also ends
     * when no further snapshot is given.
     */
    method Run(term: Terminal, snapshots: seq<seq<Process>>, kill: Signaller) returns (report: seq<Cycle>)
      requires Valid() && term.cols >= 50
      modifies this, term
      ensures Valid()
      ensures |report| <= |snapshots|
      ensures !old(running) ==> report == [] && State() == old(State())
      ensures report != [] ==> report[0].interval == old(refreshInterval)
      ensures forall i :: 0 <= i < |report| ==> CycleCadence(report[i])
      ensures forall i :: 0 <= i < |report| - 1 ==>
        !report[i].quit && report[i + 1].interval == report[i].endInterval
      ensures report != [] ==> refreshInterval == report[|report| - 1].endInterval
      ensures running <==> old(running) && !(report != [] && report[|report| - 1].quit)
      ensures running ==> |report| == |snapshots|
    {
      report := [];
      var cycle := 0;
      while running && cycle < |snapshots|
        invariant Valid()
        invariant cycle == |report| <= |snapshots|
        invariant report == [] ==> State() == old(State())
        invariant report != [] ==> running && old(running)
        invariant report != [] ==> report[0].interval == old(refreshInterval)
        invariant forall i :: 0 <= i < |report| ==> CycleCadence(report[i]) && !report[i].quit
        invariant forall i :: 0 <= i < |report| - 1 ==> report[i + 1].interval == report[i].endInterval
        invariant report != [] ==> refreshInterval == report[|report| - 1].endInterval
      {
        var procs := snapshots[cycle];
        var _ := DrawProcesses(procs, term.rows, term.cols);
        var interval := refreshInterval;
        var msTotal := refreshInterval * 1000;
        var step := PollStep;
        var elapsed := 0;
        var polls, sleeps := 0, 0;
        while elapsed < msTotal
          invariant Valid() && running
          invariant interval >= 1 && msTotal == interval * 1000
          invariant elapsed == sleeps * step && polls == sleeps
          invariant sleeps <= PollBudget(interval)
        {
          var _ := HandleInput(term, procs, kill);
          polls := polls + 1;
          if !running {
            break;
          }
          sleeps := sleeps + 1;
          elapsed := elapsed + step;
        }
        report := report + [Cycle(interval, polls, sleeps, !running, refreshInterval)];
        if !running {
          break;
        }
        cycle := cycle + 1;
      }
    }
  }
}
