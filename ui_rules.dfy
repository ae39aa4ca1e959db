/**
 * The decision rules of the dashboard, as functions of its state: what one key does to
 * the sort mode, the selection, the refresh interval and the running flag; which process
 * a signal or the detail view is aimed at; how drawing clamps the selection and scrolls
 * the table; and how many times a refresh cycle polls the keyboard.
 *
 * The `Ui` class in module Dashboard carries out these rules on its fields; the lemmas
 * here say what the rules promise.
 */
module UiRules {

  import opened Wrappers
  import opened Processes

  /** What a keyboard read returns: no key (ERR), the arrow and enter keys, a character. */
  datatype Key = Err | Up | Down | EnterKey | Char(c: char) | OtherKey(code: int)

  /** The two signals the dashboard can send: SIGTERM and SIGKILL. */
  datatype SignalKind = Term | Kill

  /** A signal request handed to the operating system, and whether it was accepted. */
  datatype Delivery = Delivery(pid: int, kind: SignalKind, delivered: bool)

  /** The dialog one key opens, if any. */
  datatype Effect =
    | NoEffect
      // the detail popup for `shown`; a k/K pressed inside it sends `signal`
    | Details(shown: Process, signal: Option<Delivery>)
      // the "Kill PID ...? (y/N)" prompt; `signal` is present only after y/Y
    | Confirm(target: Process, kind: SignalKind, signal: Option<Delivery>)

  /** The dialog a key opens, and how many keys (the key itself included) it reads. */
  datatype Reaction = Reaction(effect: Effect, consumed: nat)

  /** The four fields of the dashboard that outlive a key press. */
  datatype UiState = UiState(sortMode: SortMode, selectedIndex: int, refreshInterval: int, running: bool)

  /** The field initialisers of the dashboard. */
  const Initial: UiState := UiState(Cpu, 0, 2, true)

  /** Bounds every reachable state keeps: the interval is a positive `int`, and the
      selection is at least -1 (its value while the table is empty). */
  predicate Wellformed(s: UiState)
  {
    1 <= s.refreshInterval <= IntMax && s.selectedIndex >= -1
  }

  /** The `i`-th pending key; reading past the end of the input finds no key. */
  function KeyAt(keys: seq<Key>, i: nat): Key
  {
    if i < |keys| then keys[i] else Err
  }

  /** The keys left after `n` reads. */
  function Drop(keys: seq<Key>, n: nat): seq<Key>
  {
    if n < |keys| then keys[n..] else []
  }

  /** Reading `a` keys and then `b` more is reading `a + b`. */
  lemma DropShift(keys: seq<Key>, a: nat, b: nat)
    ensures Drop(Drop(keys, a), b) == Drop(keys, a + b)
    ensures KeyAt(Drop(keys, a), b) == KeyAt(keys, a + b)
  {
  }

  predicate IsQuitKey(ch: Key) { ch == Char('q') || ch == Char('Q') }
  predicate IsEnterKey(ch: Key) { ch == Char('\n') || ch == EnterKey }
  predicate IsKillKey(ch: Key) { ch == Char('k') || ch == Char('K') }
  predicate IsConfirmKey(ch: Key) { ch == Char('y') || ch == Char('Y') }

  /** The sort mode a sort key selects, if it is one. */
  function SortKeyMode(ch: Key): Option<SortMode>
  {
    match ch
    case Char(c) =>
      if c == 'c' || c == 'C' then Some(Cpu)
      else if c == 'm' || c == 'M' then Some(Mem)
      else if c == 'p' || c == 'P' then Some(Pid)
      else None
    case _ => None
  }

  /** The signal a k/K key asks for: lower case terminates, upper case kills. */
  function KindOf(ch: Key): SignalKind
  {
    if ch == Char('k') then Term else Kill
  }

  /** The keys the key handler acts on; every other key does nothing. */
  predicate ChangesState(ch: Key)
  {
    IsQuitKey(ch) || ch == Up || ch == Down || SortKeyMode(ch).Some?
    || ch == Char('+') || ch == Char('-')
  }

  /**
   * The effect of one key on the dashboard's fields, with `count` processes in the
   * current snapshot. The detail view and the kill prompt leave the fields as they
   * were (the redraw after the detail view clamps a selection that is already in range).
   */
  function Dispatch(s: UiState, ch: Key, count: nat): UiState
  {
    if IsQuitKey(ch) then s.(running := false)
    else if ch == Up then
      if s.selectedIndex > 0 then s.(selectedIndex := s.selectedIndex - 1) else s
    else if ch == Down then
      if s.selectedIndex + 1 < count then s.(selectedIndex := s.selectedIndex + 1) else s
    else if SortKeyMode(ch).Some? then
      s.(sortMode := SortKeyMode(ch).value, selectedIndex := 0)
    else if ch == Char('+') then
      if s.refreshInterval < 30 then s.(refreshInterval := s.refreshInterval + 1) else s
    else if ch == Char('-') then
      if s.refreshInterval > 1 then s.(refreshInterval := s.refreshInterval - 1) else s
    else s
  }

  /** The guard of the detail view and the kill prompt: a process is selected. */
  predicate HasSelection(s: UiState, n: nat)
  {
    n > 0 && 0 <= s.selectedIndex < n
  }

  /**
   * The dialog the first of `keys` opens, over the sorted view the handler built. The
   * target process is copied out of the view when the key is read; the follow-up
   * key (popup key, or confirmation) is the next pending key; after a signal one more
   * key dismisses the report.
   */
  function Respond(s: UiState, keys: seq<Key>, view: seq<Process>, kill: (int, SignalKind) -> bool): Reaction
  {
    var ch := KeyAt(keys, 0);
    if (IsEnterKey(ch) || IsKillKey(ch)) && HasSelection(s, |view|) then
      var p := view[s.selectedIndex];
      var reply := KeyAt(keys, 1);
      if IsEnterKey(ch) then
        if IsKillKey(reply) then
          Reaction(Details(p, Some(Delivery(p.pid, KindOf(reply), kill(p.pid, KindOf(reply))))), 3)
        else Reaction(Details(p, None), 2)
      else
        if IsConfirmKey(reply) then
          Reaction(Confirm(p, KindOf(ch), Some(Delivery(p.pid, KindOf(ch), kill(p.pid, KindOf(ch))))), 3)
        else Reaction(Confirm(p, KindOf(ch), None), 2)
    else Reaction(NoEffect, 1)
  }

  /** A key that opens no dialog is read alone. */
  lemma RespondWithoutDialog(s: UiState, keys: seq<Key>, view: seq<Process>, kill: (int, SignalKind) -> bool)
    requires !((IsEnterKey(KeyAt(keys, 0)) || IsKillKey(KeyAt(keys, 0))) && HasSelection(s, |view|))
    ensures Respond(s, keys, view, kill) == Reaction(NoEffect, 1)
  {
  }

  // ---------------------------------------------------------------------------
  // What one key does
  // ---------------------------------------------------------------------------

  /** Every key keeps the bounds of a reachable state. */
  lemma DispatchWellformed(s: UiState, ch: Key, count: nat)
    requires Wellformed(s)
    ensures Wellformed(Dispatch(s, ch, count))
  {
  }

  /** ERR, enter, k/K and any key not listed leave every field unchanged. */
  lemma OtherKeysChangeNothing(s: UiState, ch: Key, count: nat)
    requires !ChangesState(ch)
    ensures Dispatch(s, ch, count) == s
  {
  }

  /** Quitting clears the running flag and nothing else. */
  lemma QuitStops(s: UiState, ch: Key, count: nat)
    requires IsQuitKey(ch)
    ensures Dispatch(s, ch, count) == s.(running := false)
  {
  }

  /**
   * The arrows move the selection by one and change nothing else; they stop at the
   * first and the last row instead of wrapping around.
   */
  lemma ArrowsDoNotWrap(s: UiState, count: nat)
    ensures var u := Dispatch(s, Up, count);
      u.(selectedIndex := s.selectedIndex) == s
      && (s.selectedIndex > 0 ==> u.selectedIndex == s.selectedIndex - 1)
      && (s.selectedIndex <= 0 ==> u.selectedIndex == s.selectedIndex)
    ensures var d := Dispatch(s, Down, count);
      d.(selectedIndex := s.selectedIndex) == s
      && (s.selectedIndex + 1 < count ==> d.selectedIndex == s.selectedIndex + 1)
      && (s.selectedIndex + 1 >= count ==> d.selectedIndex == s.selectedIndex)
  {
  }

  /** A sort key picks its mode and starts the selection over at the top row. */
  lemma SortKeysStartOver(s: UiState, ch: Key, count: nat)
    requires SortKeyMode(ch).Some?
    ensures Dispatch(s, ch, count) == UiState(SortKeyMode(ch).value, 0, s.refreshInterval, s.running)
    ensures ch == Char('c') || ch == Char('C') <==> SortKeyMode(ch) == Some(Cpu)
    ensures ch == Char('m') || ch == Char('M') <==> SortKeyMode(ch) == Some(Mem)
    ensures ch == Char('p') || ch == Char('P') <==> SortKeyMode(ch) == Some(Pid)
  {
  }

  /**
   * In the example snapshot, with pid 20 selected at the top of the CPU order, `m`
   * keeps the selection at row 0, which now shows pid 30; pid 20 has moved to row 2.
   */
  lemma ExampleSortSwitch(s: UiState, cpuView: seq<Process>, memView: seq<Process>)
    requires s.sortMode == Cpu && s.selectedIndex == 0
    requires IsSortedView(ExampleSnapshot(), Cpu, cpuView)
    requires IsSortedView(ExampleSnapshot(), Mem, memView)
    ensures cpuView[s.selectedIndex].pid == 20
    ensures var t := Dispatch(s, Char('m'), 3);
      t.sortMode == Mem && t.selectedIndex == 0
      && memView[t.selectedIndex].pid == 30 && memView[2].pid == 20
  {
    ExampleCpuOrder(cpuView);
    ExampleMemOrder(memView);
    assert |cpuView| == 3 by { assert |multiset(cpuView)| == 3; }
    assert |memView| == 3 by { assert |multiset(memView)| == 3; }
    assert Pids(cpuView)[0] == 20;
    assert Pids(memView)[0] == 30 && Pids(memView)[2] == 20;
  }

  /** `+` and `-` step the interval by one within [1, 30] and touch nothing else. */
  lemma SpeedKeys(s: UiState, count: nat)
    ensures var u := Dispatch(s, Char('+'), count);
      u.(refreshInterval := s.refreshInterval) == s
      && u.refreshInterval == (if s.refreshInterval < 30 then s.refreshInterval + 1 else s.refreshInterval)
    ensures var d := Dispatch(s, Char('-'), count);
      d.(refreshInterval := s.refreshInterval) == s
      && d.refreshInterval == (if s.refreshInterval > 1 then s.refreshInterval - 1 else s.refreshInterval)
  {
  }

  // ---------------------------------------------------------------------------
  // The kill prompt and the detail view
  // ---------------------------------------------------------------------------

  /**
   * A signal is sent from the kill prompt exactly when k/K is pressed with a process
   * selected and the answer is y/Y; it goes to the pid of the selected row of the
   * sorted view, SIGTERM for k and SIGKILL for K, and reports what the OS answered.
   */
  lemma KillNeedsConfirmation(s: UiState, keys: seq<Key>, view: seq<Process>, kill: (int, SignalKind) -> bool)
    requires IsKillKey(KeyAt(keys, 0))
    ensures var r := Respond(s, keys, view, kill);
      (r.effect.Confirm? <==> HasSelection(s, |view|))
      && (!HasSelection(s, |view|) ==> r == Reaction(NoEffect, 1))
      && (r.effect.Confirm? ==>
            r.effect.target == view[s.selectedIndex]
            && r.effect.kind == (if KeyAt(keys, 0) == Char('k') then Term else Kill)
            && (r.effect.signal.Some? <==> IsConfirmKey(KeyAt(keys, 1)))
            && (r.effect.signal.Some? ==>
                  r.effect.signal.value == Delivery(r.effect.target.pid, r.effect.kind,
                                                    kill(r.effect.target.pid, r.effect.kind))))
  {
  }

  /**
   * Enter opens the detail view of the selected row when there is one; inside it k
   * sends SIGTERM, K sends SIGKILL, and any other key closes it without a signal.
   */
  lemma DetailViewSignals(s: UiState, keys: seq<Key>, view: seq<Process>, kill: (int, SignalKind) -> bool)
    requires IsEnterKey(KeyAt(keys, 0))
    ensures var r := Respond(s, keys, view, kill);
      (r.effect.Details? <==> HasSelection(s, |view|))
      && (!HasSelection(s, |view|) ==> r == Reaction(NoEffect, 1))
      && (r.effect.Details? ==>
            r.effect.shown == view[s.selectedIndex]
            && (r.effect.signal.Some? <==> IsKillKey(KeyAt(keys, 1)))
            && (KeyAt(keys, 1) == Char('k') ==> r.effect.signal.value.kind == Term)
            && (KeyAt(keys, 1) == Char('K') ==> r.effect.signal.value.kind == Kill))
  {
  }

  /**
   * A signal the OS refuses (the pid is gone) is reported as not delivered, and the
   * kill prompt leaves the dashboard state as it was, so the loop goes on.
   */
  lemma FailedSignalIsReported(s: UiState, keys: seq<Key>, view: seq<Process>, kill: (int, SignalKind) -> bool)
    requires KeyAt(keys, 0) == Char('k') && KeyAt(keys, 1) == Char('y')
    requires HasSelection(s, |view|) && !kill(view[s.selectedIndex].pid, Term)
    ensures Respond(s, keys, view, kill)
      == Reaction(Confirm(view[s.selectedIndex], Term, Some(Delivery(view[s.selectedIndex].pid, Term, false))), 3)
    ensures Dispatch(s, KeyAt(keys, 0), |view|) == s
  {
  }

  /** Only enter and k/K open a dialog; every other key is read alone. */
  lemma OnlyDialogKeysReadMore(s: UiState, keys: seq<Key>, view: seq<Process>, kill: (int, SignalKind) -> bool)
    ensures var r := Respond(s, keys, view, kill);
      1 <= r.consumed <= 3
      && (r.consumed > 1 <==> (IsEnterKey(KeyAt(keys, 0)) || IsKillKey(KeyAt(keys, 0))) && HasSelection(s, |view|))
      && (r.consumed == 3 <==> (r.effect.Details? || r.effect.Confirm?) && r.effect.signal.Some?)
  {
  }

  // ---------------------------------------------------------------------------
  // Drawing: the selection clamp and the scroll window
  // ---------------------------------------------------------------------------

  function Min(a: int, b: int): int { if a < b then a else b }

  /** The redraw's clamp of the selection into the rows of a table of `n` processes. */
  function ClampSelection(sel: int, n: nat): (r: int)
    ensures n > 0 ==> 0 <= r < n
    ensures n == 0 ==> r == -1
    ensures 0 <= sel < n ==> r == sel
    ensures n > 0 && sel < 0 ==> r == 0
    ensures n > 0 && sel >= n ==> r == n - 1
  {
    var atLeastZero := if sel < 0 then 0 else sel;
    if atLeastZero >= n then n - 1 else atLeastZero
  }

  /** The index of the first process shown when `maxDisplay` rows are available. */
  function ScrollOffset(sel: int, maxDisplay: int): int
  {
    if sel >= maxDisplay then sel - maxDisplay + 1 else 0
  }

  /** The number of table rows a terminal of `rows` lines leaves for processes. */
  function MaxDisplay(rows: int): int { rows - 6 }

  /**
   * What drawing does to the fields: on a terminal with no room for a process row
   * nothing; otherwise the selection is clamped to the current table.
   */
  function Redraw(s: UiState, n: nat, rows: int): UiState
  {
    if MaxDisplay(rows) < 1 then s else s.(selectedIndex := ClampSelection(s.selectedIndex, n))
  }

  /**
   * After the clamp, the selected row lies in the window of rows on screen, the window
   * does not run past the end of the table, and when it is scrolled at all the selected
   * row is its last row (it is scrolled no further than needed).
   */
  lemma SelectedRowVisible(sel: int, n: nat, maxDisplay: int)
    requires n > 0 && maxDisplay >= 1
    ensures var c := ClampSelection(sel, n); var off := ScrollOffset(c, maxDisplay);
      0 <= off <= c < off + maxDisplay
      && off + Min(n, maxDisplay) <= n
      && (off > 0 ==> c == off + maxDisplay - 1)
  {
  }

  /** Drawing keeps the bounds of a reachable state and never changes anything but the
      selection; a selection already in range survives it. */
  lemma RedrawWellformed(s: UiState, n: nat, rows: int)
    requires Wellformed(s)
    ensures Wellformed(Redraw(s, n, rows))
    ensures Redraw(s, n, rows).(selectedIndex := s.selectedIndex) == s
    ensures HasSelection(s, n) ==> Redraw(s, n, rows) == s
  {
  }

  // ---------------------------------------------------------------------------
  // Sequences of keys
  // ---------------------------------------------------------------------------

  /** The fields after the key handler has acted on `keys` in turn, `count` processes. */
  function Replay(s: UiState, keys: seq<Key>, count: nat): UiState
    decreases |keys|
  {
    if keys == [] then s else Replay(Dispatch(s, keys[0], count), keys[1..], count)
  }

  /** From an interval in [1, 30], no sequence of keys leaves that range. */
  lemma {:induction false} IntervalStaysInRange(s: UiState, keys: seq<Key>, count: nat)
    requires 1 <= s.refreshInterval <= 30
    ensures 1 <= Replay(s, keys, count).refreshInterval <= 30
    decreases |keys|
  {
    if keys != [] {
      IntervalStaysInRange(Dispatch(s, keys[0], count), keys[1..], count);
    }
  }

  /** A selection on a row of a non-empty table stays on a row, whatever the keys. */
  lemma {:induction false} SelectionStaysInTable(s: UiState, keys: seq<Key>, count: nat)
    requires 0 <= s.selectedIndex < count
    ensures 0 <= Replay(s, keys, count).selectedIndex < count
    decreases |keys|
  {
    if keys != [] {
      SelectionStaysInTable(Dispatch(s, keys[0], count), keys[1..], count);
    }
  }

  /** Once the dashboard has stopped, no key starts it again. */
  lemma {:induction false} StoppedIsFinal(s: UiState, keys: seq<Key>, count: nat)
    requires !s.running
    ensures !Replay(s, keys, count).running
    decreases |keys|
  {
    if keys != [] {
      StoppedIsFinal(Dispatch(s, keys[0], count), keys[1..], count);
    }
  }

  /** `k` presses of `+` raise an interval of at most 30 to min(interval + k, 30). */
  lemma {:induction false} PlusPresses(s: UiState, k: nat, count: nat)
    requires 1 <= s.refreshInterval <= 30
    ensures Replay(s, seq(k, _ => Char('+')), count).refreshInterval == Min(s.refreshInterval + k, 30)
    decreases k
  {
    if k > 0 {
      var keys := seq(k, _ => Char('+'));
      assert keys[0] == Char('+');
      assert keys[1..] == seq(k - 1, _ => Char('+'));
      PlusPresses(Dispatch(s, keys[0], count), k - 1, count);
    }
  }

  /** From the initial interval of 2, fifteen `+` give 17 and thirty stop at 30. */
  lemma PlusFromInitial(count: nat)
    ensures Replay(Initial, seq(15, _ => Char('+')), count).refreshInterval == 17
    ensures Replay(Initial, seq(30, _ => Char('+')), count).refreshInterval == 30
  {
    PlusPresses(Initial, 15, count);
    PlusPresses(Initial, 30, count);
  }

  // ---------------------------------------------------------------------------
  // The polling cadence of a refresh cycle
  // ---------------------------------------------------------------------------

  /** Milliseconds between keyboard polls. */
  const PollStep: nat := 100

  /**
   * The number of keyboard polls in one refresh cycle without a quit: the cycle lasts
   * `interval * 1000` milliseconds, polled every 100 milliseconds.
   */
  function PollBudget(interval: int): int
  {
    interval * 10
  }

  /** Every cycle polls the keyboard at least ten times, so a quit key is always read. */
  lemma PollBudgetAlwaysPolls(interval: int)
    requires interval >= 1
    ensures PollBudget(interval) >= 10
    ensures PollBudget(interval) * PollStep == interval * 1000
  {
  }

  /** The cycle length `refresh_interval * 1000` as computed in a 32-bit `int`. */
  function MsTotalAsWritten(interval: Int32): Int32
  {
    Wrap32(interval * 1000)
  }

  /**
   * The 32-bit product is the true cycle length exactly for intervals up to 2147483
   * seconds; an interval of 3000000 seconds (accepted from `-i`) gives a negative
   * length, so the polling loop never runs and no key is ever read.
   */
  lemma MsTotalOverflows(interval: Int32)
    requires interval >= 1
    ensures MsTotalAsWritten(interval) == interval * 1000 <==> interval <= 2147483
    ensures MsTotalAsWritten(3000000) < 0
  {
    if interval > 2147483 {
      assert interval * 1000 >= 0x8000_0000;
      assert MsTotalAsWritten(interval) < 0x8000_0000;
    }
  }

  /**
   * The value of `elapsed` after `k` passes of the polling loop as written: it starts
   * at 0 and each pass adds 100 in a 32-bit `int`, which wraps around.
   */
  function ElapsedAsWritten(k: nat): Int32
  {
    if k == 0 then 0 else Wrap32(ElapsedAsWritten(k - 1) + PollStep)
  }

  /** After `k` passes `elapsed` holds the 32-bit wrap of `100 * k`. */
  lemma {:induction false} ElapsedClosedForm(k: nat)
    ensures ElapsedAsWritten(k) == Wrap32(k * PollStep)
  {
    if k > 0 {
      ElapsedClosedForm(k - 1);
      var e := ElapsedAsWritten(k - 1);
      assert (e - (k - 1) * PollStep) % 0x1_0000_0000 == 0;
      assert (e + PollStep) - k * PollStep == e - (k - 1) * PollStep;
      WrapCongruent(e + PollStep, k * PollStep);
    }
  }

  /** Up to 21474836 passes `elapsed` does not wrap: it is 100 times the passes. */
  lemma {:induction false} ElapsedNoWrap(k: nat)
    requires k <= 21474836
    ensures ElapsedAsWritten(k) == k * PollStep
  {
    if k > 0 {
      ElapsedNoWrap(k - 1);
    }
  }

  /**
   * Without a quit, the loop as written makes exactly `n` polls for a cycle length of
   * `ms`: `elapsed` is below `ms` before each of them and not after the last.
   */
  ghost predicate EndsAfter(ms: int, n: nat)
  {
    ElapsedAsWritten(n) >= ms && forall j :: 0 <= j < n ==> ElapsedAsWritten(j) < ms
  }

  /** The loop ends at one count only. */
  lemma EndsAfterUnique(ms: int, a: nat, b: nat)
    requires EndsAfter(ms, a) && EndsAfter(ms, b)
    ensures a == b
  {
    assert a < b ==> ElapsedAsWritten(a) < ms;
    assert b < a ==> ElapsedAsWritten(b) < ms;
  }

  /** The first pass from `k` on after which `elapsed` has reached `ms`. */
  function FirstEnd(ms: int, k: nat, bound: nat): (n: nat)
    requires k <= bound && ElapsedAsWritten(bound) >= ms
    requires forall j :: 0 <= j < k ==> ElapsedAsWritten(j) < ms
    ensures k <= n <= bound && EndsAfter(ms, n)
    decreases bound - k
  {
    if ElapsedAsWritten(k) >= ms then k else FirstEnd(ms, k + 1, bound)
  }

  /**
   * The polls of one quit-free cycle of the loop as written, with the 32-bit cycle
   * length and the 32-bit `elapsed`. The loop always ends: after PollBudget(interval)
   * passes `elapsed` holds the same 32-bit value as the cycle length.
   */
  function PollsAsWritten(interval: Int32): (n: nat)
    requires interval >= 1
    ensures n <= PollBudget(interval)
    ensures EndsAfter(MsTotalAsWritten(interval), n)
  {
    ElapsedClosedForm(PollBudget(interval));
    assert PollBudget(interval) * PollStep == interval * 1000;
    FirstEnd(MsTotalAsWritten(interval), 0, PollBudget(interval))
  }

  /**
   * The polls of a quit-free cycle as written. A cycle length that wrapped to zero or
   * below gives no poll at all; a length up to 2147483600 ms gives ceil(length / 100)
   * polls, which is the intended count only when the length did not wrap; a longer
   * length is reached only after `elapsed` itself has wrapped around.
   */
  lemma PollsAsWrittenCases(interval: Int32)
    requires interval >= 1
    ensures var ms, n := MsTotalAsWritten(interval), PollsAsWritten(interval);
      && (ms <= 0 ==> n == 0)
      && (0 < ms <= 2147483600 ==> (n - 1) * PollStep < ms <= n * PollStep)
      && (ms > 2147483600 ==> 21474836 < n <= PollBudget(interval))
  {
    var ms, n := MsTotalAsWritten(interval), PollsAsWritten(interval);
    if ms <= 0 {
      assert EndsAfter(ms, 0);
      EndsAfterUnique(ms, 0, n);
    } else if ms <= 2147483600 {
      var c := (ms + PollStep - 1) / PollStep;
      ElapsedNoWrap(c);
      forall j | 0 <= j < c
        ensures ElapsedAsWritten(j) < ms
      {
        ElapsedNoWrap(j);
      }
      assert EndsAfter(ms, c);
      EndsAfterUnique(ms, c, n);
    } else {
      if n <= 21474836 {
        ElapsedNoWrap(n);
        assert false;
      }
    }
  }

  /**
   * The 32-bit loop polls as often as the intended cycle for every interval up to
   * 2147483 seconds. At 3000000 seconds it does not poll at all, and at 4294968 seconds
   * the cycle length wraps to 704 ms, so the cycle polls 8 times instead of 42949680.
   */
  lemma PollsAsWrittenDiverge(interval: Int32)
    requires 1 <= interval <= 2147483
    ensures PollsAsWritten(interval) == PollBudget(interval)
    ensures PollsAsWritten(3000000) == 0 && PollBudget(3000000) == 30000000
    ensures MsTotalAsWritten(4294968) == 704
    ensures PollsAsWritten(4294968) == 8 && PollBudget(4294968) == 42949680
  {
    MsTotalOverflows(interval);
    PollsAsWrittenCases(interval);
    PollsAsWrittenCases(3000000);
    MsTotalOverflows(3000000);
    assert MsTotalAsWritten(4294968) == 704;
    PollsAsWrittenCases(4294968);
  }
}
