/** The interactive terminal view: the `App` state, its operations, and the main loop's
    refresh-then-dispatch step with its key debounce. */
module Tui {
  import opened Options
  import opened Clock
  import opened Process
  import opened Classifier
  import opened Sorting
  import opened Pipeline
  import Selection
  import opened Input

  /** The refresh interval `App::new` sets, in milliseconds. */
  const RefreshRateMs: nat := 1000

  /** The fields of an `App` that its operations change, as one value. */
  datatype State = State(mode: Mode, processes: seq<ProcessInfo>, selected: Option<nat>, searchQuery: string,
                         sortMode: SortMode, showGamesOnly: bool, lastRefresh: int)

  /** Every record carries the classifier's verdict on its own name. */
  predicate Consistent(st: State)
  {
    forall p :: p in st.processes ==> p.isGame == IsGameProcess(p.name)
  }

  /** What `refresh_processes` does at time `now` with enumeration `snapshot`: within the
      interval nothing changes; otherwise the list becomes the filtered, sorted view of the
      snapshot under the current settings and the refresh is stamped `now`. Nothing else
      changes (in particular the cursor is not re-clamped). */
  function Refresh(st: State, rate: nat, now: int, snapshot: seq<RawProcess>): (r: State)
    ensures r.(processes := st.processes, lastRefresh := st.lastRefresh) == st
    ensures Consistent(st) ==> Consistent(r)
  {
    if Elapsed(st.lastRefresh, now) < rate then st
    else
      ViewMembers(snapshot, st.showGamesOnly, st.searchQuery, st.sortMode);
      st.(processes := View(snapshot, st.showGamesOnly, st.searchQuery, st.sortMode), lastRefresh := now)
  }

  /** The pid of the selected row, if the cursor is set and in range. */
  function SelectedPidOf(st: State): (r: Option<nat>)
    ensures r.Some? <==> st.selected.Some? && st.selected.value < |st.processes|
    ensures r.Some? ==> r.value == st.processes[st.selected.value].pid
  {
    match st.selected
    case Some(i) => if i < |st.processes| then Some(st.processes[i].pid) else None
    case None => None
  }

  /** What one handled key does to the state. The mode and the query follow `NextMode` and
      `NextQuery`; in Normal mode `g` flips the game filter, `s` cycles the sort mode, `j`/Down
      and `k`/Up move the cursor; nothing else changes. (`q` in Normal ends the loop instead;
      it would change nothing here either.) */
  function Dispatch(st: State, code: KeyCode): (r: State)
    ensures r.processes == st.processes && r.lastRefresh == st.lastRefresh
    ensures st.mode != Normal ==> r.(mode := st.mode, searchQuery := st.searchQuery) == st
    ensures Consistent(st) ==> Consistent(r)
  {
    var normal := st.mode == Normal;
    st.(mode := NextMode(st.mode, code),
        searchQuery := NextQuery(st.mode, st.searchQuery, code),
        showGamesOnly := st.showGamesOnly != (normal && code == Char('g')),
        sortMode := if normal && code == Char('s') then Cycle(st.sortMode) else st.sortMode,
        selected :=
          if normal && (code == Char('j') || code == Down) then Selection.Next(st.selected, |st.processes|)
          else if normal && (code == Char('k') || code == Up) then Selection.Previous(st.selected, |st.processes|)
          else st.selected)
  }

  class App {
    var mode: Mode
    var processes: seq<ProcessInfo>
    /** `list_state.selected()`. */
    var selected: Option<nat>
    var searchQuery: string
    var sortMode: SortMode
    var showGamesOnly: bool
    const refreshRate: nat
    var lastRefresh: int

    /** The changing fields as one value. */
    function Fields(): State
      reads this
    {
      State(mode, processes, selected, searchQuery, sortMode, showGamesOnly, lastRefresh)
    }

    /** Every record carries the classifier's verdict on its own name. */
    predicate Valid()
      reads this
    {
      Consistent(Fields())
    }

    /** `App::new` at time `now`: Normal mode, no records, cursor on row 0, sorted by CPU,
        no filter, and the last refresh stamped `now`. */
    constructor (now: int)
      ensures Valid()
      ensures mode == Normal && processes == [] && selected == Some(0)
      ensures searchQuery == [] && sortMode == Cpu && !showGamesOnly
      ensures refreshRate == RefreshRateMs && lastRefresh == now
    {
      mode := Normal;
      processes := [];
      selected := Some(0);
      searchQuery := [];
      sortMode := Cpu;
      showGamesOnly := false;
      refreshRate := RefreshRateMs;
      lastRefresh := now;
    }

    /** `refresh_processes` at time `now`, with `snapshot` the enumeration the process
        library returns. */
    method RefreshProcesses(now: int, snapshot: seq<RawProcess>)
      requires Valid()
      modifies this`processes, this`lastRefresh
      ensures Valid()
      ensures Fields() == Refresh(old(Fields()), refreshRate, now, snapshot)
    {
      if Elapsed(lastRefresh, now) < refreshRate {
        return;
      }
      processes := Tag(snapshot);
      if showGamesOnly {
        processes := RetainGames(processes);
      }
      if searchQuery != [] {
        var query := Text.Lower(searchQuery);
        processes := RetainQuery(processes, query);
      }
      processes := SortBy(processes, sortMode);
      lastRefresh := now;
      RetainStepsAreSelect(Tag(snapshot), showGamesOnly, searchQuery);
      ViewMembers(snapshot, showGamesOnly, searchQuery, sortMode);
    }

    /** `next`. */
    method Next()
      modifies this`selected
      ensures selected == Selection.Next(old(selected), |processes|)
    {
      if |processes| == 0 {
        return;
      }
      var i;
      match selected {
        case Some(s) => i := if s >= |processes| - 1 then 0 else s + 1;
        case None => i := 0;
      }
      selected := Some(i);
    }

    /** `previous`. */
    method Previous()
      modifies this`selected
      ensures selected == Selection.Previous(old(selected), |processes|)
    {
      if |processes| == 0 {
        return;
      }
      var i;
      match selected {
        case Some(s) => i := if s == 0 then |processes| - 1 else s - 1;
        case None => i := 0;
      }
      selected := Some(i);
    }

    /** `toggle_sort`. The list is not re-sorted until the next refresh. */
    method ToggleSort()
      modifies this`sortMode
      ensures sortMode == Cycle(old(sortMode))
    {
      sortMode := match sortMode
        case Name => Cpu
        case Cpu => Memory
        case Memory => Name;
    }

    /** The process id that `kill_selected` hands to the operating system, if any. */
    function SelectedPid(): Option<nat>
      reads this
    {
      SelectedPidOf(Fields())
    }

    /** `kill_selected`: looks the selected row up with a bounds check and returns the id
        of the process to terminate (the termination itself, and whether it succeeds, belong
        to the operating system). Nothing in the view changes. */
    method KillSelected() returns (target: Option<nat>)
      ensures target.Some? <==> selected.Some? && selected.value < |processes|
      ensures target.Some? ==> target.value == processes[selected.value].pid
    {
      target := None;
      if selected.Some? {
        var i := selected.value;
        if i < |processes| {
          target := Some(processes[i].pid);
        }
      }
    }

    /** The `match app.mode` dispatch of one handled key. `quit` is the early return on `q`
        in Normal mode; `killTarget` is the process handed to the operating system on `d`. */
    method HandleKey(code: KeyCode) returns (quit: bool, killTarget: Option<nat>)
      requires Valid()
      modifies this`mode, this`searchQuery, this`showGamesOnly, this`sortMode, this`selected
      ensures Valid()
      ensures quit <==> old(mode) == Normal && code == Char('q')
      ensures Fields() == Dispatch(old(Fields()), code)
      ensures killTarget == if old(mode) == Normal && code == Char('d') then old(SelectedPid()) else None
    {
      quit, killTarget := false, None;
      match mode {
        case Normal =>
          if code == Char('q') {
            quit := true;
          } else if code == Char('?') {
            mode := Help;
          } else if code == Char('/') {
            mode := Search;
            searchQuery := [];
          } else if code == Char('j') || code == Down {
            Next();
          } else if code == Char('k') || code == Up {
            Previous();
          } else if code == Char('d') {
            killTarget := KillSelected();
          } else if code == Char('g') {
            showGamesOnly := !showGamesOnly;
          } else if code == Char('s') {
            ToggleSort();
          }
        case Search =>
          match code {
            case Esc =>
              mode := Normal;
              searchQuery := [];
            case Char(c) =>
              searchQuery := searchQuery + [c];
            case Backspace =>
              if searchQuery != [] {
                searchQuery := searchQuery[..|searchQuery| - 1];
              }
            case Enter =>
              mode := Normal;
            case _ =>
          }
        case Help =>
          if code == Esc || code == Char('?') {
            mode := Normal;
          }
      }
    }
  }

  /** `main`'s start-up: `App::new` at `created`, then one refresh at `refreshedAt`. Because
      the new App stamps its last refresh at creation, a refresh within the interval shows
      nothing, whatever the enumeration holds. */
  method StartupView(created: int, refreshedAt: int, snapshot: seq<RawProcess>) returns (shown: seq<ProcessInfo>)
    requires Elapsed(created, refreshedAt) < RefreshRateMs
    ensures shown == []
  {
    var app := new App(created);
    app.RefreshProcesses(refreshedAt, snapshot);
    shown := app.processes;
  }

  /** One turn of the main loop: the clock at the refresh, the enumeration that refresh would
      read, what the poll returned (`None` when it timed out) and the clock when it was read. */
  datatype Tick = Tick(refreshAt: int, snapshot: seq<RawProcess>, polled: Option<Event>, readAt: int)

  /** Whether the loop handles the event of tick `t` when the last handled key was at `lastKeyTime`. */
  predicate Handles(t: Tick, lastKeyTime: int)
  {
    t.polled.Some? && t.polled.value.Key? &&
    Accepts(t.polled.value.kind, t.polled.value.code, lastKeyTime, t.readAt)
  }

  /** `last_key_time` after tick `t`: a handled key resets it to the time it was read,
      anything else (no event, a non-key event, a release or repeat, a debounced key)
      leaves it alone. */
  function KeyTimeAfter(lastKeyTime: int, t: Tick): int
  {
    if Handles(t, lastKeyTime) then t.readAt else lastKeyTime
  }

  /** Only handled keys move `last_key_time`: no event, a non-key event and a release or
      repeat leave it unchanged, as does a non-navigation press inside the window. */
  lemma KeyClockRules(lastKeyTime: int, t: Tick)
    ensures t.polled.None? || t.polled.value.NonKey? || t.polled.value.kind != Press ==>
              KeyTimeAfter(lastKeyTime, t) == lastKeyTime
    ensures t.polled.Some? && t.polled.value.Key? && t.polled.value.kind == Press &&
            !IsNavigation(t.polled.value.code) && lastKeyTime <= t.readAt < lastKeyTime + DebounceMs ==>
              KeyTimeAfter(lastKeyTime, t) == lastKeyTime
    ensures Handles(t, lastKeyTime) ==> KeyTimeAfter(lastKeyTime, t) == t.readAt
  {
  }

  /** Two handled keys in a row, the second not a navigation key and read no earlier than
      the first, are at least the debounce window apart. */
  lemma HandledKeysSpaced(lastKeyTime: int, t1: Tick, t2: Tick)
    requires Handles(t1, lastKeyTime) && Handles(t2, KeyTimeAfter(lastKeyTime, t1))
    requires !IsNavigation(t2.polled.value.code) && t1.readAt <= t2.readAt
    ensures t2.readAt - t1.readAt >= DebounceMs
  {
  }

  /** The result of one turn: the new state and last-key time, whether the loop returns,
      and the pid handed to the operating system, if any. */
  datatype Step = Step(state: State, lastKeyTime: int, quit: bool, kill: Option<nat>)

  /** One turn of `run_app`: refresh, then the Press and debounce gate, then dispatch. */
  function Turn(st: State, lastKeyTime: int, rate: nat, t: Tick): Step
  {
    var r := Refresh(st, rate, t.refreshAt, t.snapshot);
    if Handles(t, lastKeyTime) then
      var code := t.polled.value.code;
      var kill := if r.mode == Normal && code == Char('d') then SelectedPidOf(r) else None;
      Step(Dispatch(r, code), t.readAt, r.mode == Normal && code == Char('q'), kill)
    else Step(r, lastKeyTime, false, None)
  }

  /** The outcome of a run: the final state and last-key time, the tick at which the loop
      returned (if it did), and every pid handed to the operating system, in order. */
  datatype Outcome = Outcome(state: State, lastKeyTime: int, quitAt: Option<nat>, kills: seq<nat>)

  /** `run_app` over `ticks` from state `st`, with `last_key_time` starting at `start`:
      the turns in order, up to and including the one that returns. */
  function Run(st: State, start: int, rate: nat, ticks: seq<Tick>): Outcome
    decreases |ticks|
  {
    if ticks == [] then Outcome(st, start, None, [])
    else
      var o := Run(st, start, rate, ticks[..|ticks| - 1]);
      if o.quitAt.Some? then o
      else
        var t := Turn(o.state, o.lastKeyTime, rate, ticks[|ticks| - 1]);
        Outcome(t.state, t.lastKeyTime, if t.quit then Some(|ticks| - 1) else None,
                o.kills + (if t.kill.Some? then [t.kill.value] else []))
  }

  /** Running one more tick after a run that has not returned is one more turn. */
  lemma RunSnoc(st: State, start: int, rate: nat, ticks: seq<Tick>, i: nat)
    requires i < |ticks| && Run(st, start, rate, ticks[..i]).quitAt.None?
    ensures var o := Run(st, start, rate, ticks[..i]);
            var t := Turn(o.state, o.lastKeyTime, rate, ticks[i]);
            Run(st, start, rate, ticks[..i + 1]) ==
            Outcome(t.state, t.lastKeyTime, if t.quit then Some(i) else None,
                    o.kills + (if t.kill.Some? then [t.kill.value] else []))
  {
    assert ticks[..i + 1][..i] == ticks[..i];
  }

  /** Once the loop has returned, later ticks change nothing. */
  lemma {:induction false} RunStopsAtQuit(st: State, start: int, rate: nat, ticks: seq<Tick>, n: nat)
    requires n <= |ticks| && Run(st, start, rate, ticks[..n]).quitAt.Some?
    ensures Run(st, start, rate, ticks) == Run(st, start, rate, ticks[..n])
    decreases |ticks|
  {
    if n < |ticks| {
      var init := ticks[..|ticks| - 1];
      assert init[..n] == ticks[..n];
      RunStopsAtQuit(st, start, rate, init, n);
    } else {
      assert ticks[..n] == ticks;
    }
  }

  /** Tick `j` is the one that ends the loop: no earlier tick did, the key it carries gets
      through the gate, it is `q`, and the view is in Normal mode. */
  predicate QuitsAt(st: State, start: int, rate: nat, ticks: seq<Tick>, j: nat)
  {
    j < |ticks| &&
    var o := Run(st, start, rate, ticks[..j]);
    o.quitAt.None? && Handles(ticks[j], o.lastKeyTime) &&
    ticks[j].polled.value.code == Char('q') && o.state.mode == Normal
  }

  /** The loop returns at tick `k` iff `k` is the first handled `q` in Normal mode, and it
      runs to the end iff there is none. */
  lemma {:induction false} RunQuit(st: State, start: int, rate: nat, ticks: seq<Tick>)
    ensures forall k: nat :: Run(st, start, rate, ticks).quitAt == Some(k) <==> QuitsAt(st, start, rate, ticks, k)
    ensures Run(st, start, rate, ticks).quitAt.None? <==> forall j :: !QuitsAt(st, start, rate, ticks, j)
    decreases |ticks|
  {
    if ticks != [] {
      var init := ticks[..|ticks| - 1];
      RunQuit(st, start, rate, init);
      forall j: nat | j < |init|
        ensures QuitsAt(st, start, rate, ticks, j) <==> QuitsAt(st, start, rate, init, j)
      {
        assert ticks[..j] == init[..j];
        assert ticks[j] == init[j];
      }
      assert ticks[..|ticks| - 1] == init;
      var o := Run(st, start, rate, init);
      if o.quitAt.Some? {
        assert !QuitsAt(st, start, rate, ticks, |ticks| - 1);
      }
    }
  }

  /** The key codes the loop dispatches, in order (a `q` that ends the loop included). */
  function HandledCodes(st: State, start: int, rate: nat, ticks: seq<Tick>): seq<KeyCode>
    decreases |ticks|
  {
    if ticks == [] then []
    else
      var init := ticks[..|ticks| - 1];
      var o := Run(st, start, rate, init);
      var t := ticks[|ticks| - 1];
      if o.quitAt.None? && Handles(t, o.lastKeyTime) then HandledCodes(st, start, rate, init) + [t.polled.value.code]
      else HandledCodes(st, start, rate, init)
  }

  /** After a run, the mode and the search query are those obtained by handling exactly the
      keys that got through the gate, one after the other. */
  lemma {:induction false} RunReplaysKeys(st: State, start: int, rate: nat, ticks: seq<Tick>)
    ensures (Run(st, start, rate, ticks).state.mode, Run(st, start, rate, ticks).state.searchQuery) ==
            Replay(st.mode, st.searchQuery, HandledCodes(st, start, rate, ticks))
    decreases |ticks|
  {
    if ticks != [] {
      var init := ticks[..|ticks| - 1];
      RunReplaysKeys(st, start, rate, init);
      var o := Run(st, start, rate, init);
      var t := ticks[|ticks| - 1];
      if o.quitAt.None? && Handles(t, o.lastKeyTime) {
        var c := t.polled.value.code;
        ReplayAppend(st.mode, st.searchQuery, HandledCodes(st, start, rate, init), [c]);
        assert [c][1..] == [];
      }
    }
  }

  /** After a run, the list on screen and its stamp are the initial ones, or the view of the
      snapshot of some tick that refreshed, under the settings in force at that tick. */
  lemma {:induction false} RunShowsLastRefresh(st: State, start: int, rate: nat, ticks: seq<Tick>)
    ensures var o := Run(st, start, rate, ticks);
            (o.state.processes == st.processes && o.state.lastRefresh == st.lastRefresh) ||
            exists j :: 0 <= j < |ticks| && RefreshedAt(st, start, rate, ticks, j, o.state.processes, o.state.lastRefresh)
    decreases |ticks|
  {
    if ticks != [] {
      var init := ticks[..|ticks| - 1];
      RunShowsLastRefresh(st, start, rate, init);
      var o := Run(st, start, rate, init);
      var o' := Run(st, start, rate, ticks);
      forall j | 0 <= j < |init| && RefreshedAt(st, start, rate, init, j, o.state.processes, o.state.lastRefresh)
        ensures RefreshedAt(st, start, rate, ticks, j, o.state.processes, o.state.lastRefresh)
      {
        assert ticks[..j] == init[..j];
        assert ticks[j] == init[j];
      }
      if o.quitAt.None? {
        var t := ticks[|ticks| - 1];
        if Elapsed(o.state.lastRefresh, t.refreshAt) >= rate {
          assert ticks[..|ticks| - 1] == init;
          assert RefreshedAt(st, start, rate, ticks, |ticks| - 1, o'.state.processes, o'.state.lastRefresh);
        }
      }
    }
  }

  /** Tick `j` ran and refreshed, and `shown` and `stamp` are the list and the stamp that
      refresh produced. */
  predicate RefreshedAt(st: State, start: int, rate: nat, ticks: seq<Tick>, j: nat, shown: seq<ProcessInfo>, stamp: int)
  {
    j < |ticks| &&
    var o := Run(st, start, rate, ticks[..j]);
    o.quitAt.None? && Elapsed(o.state.lastRefresh, ticks[j].refreshAt) >= rate &&
    stamp == ticks[j].refreshAt &&
    shown == View(ticks[j].snapshot, o.state.showGamesOnly, o.state.searchQuery, o.state.sortMode)
  }

  /** One pass of the body of `run_app`'s loop: refresh, then the gate, then dispatch. */
  method RunTick(app: App, lastKeyTime: int, t: Tick) returns (keyTime: int, quit: bool, kill: Option<nat>)
    requires app.Valid()
    modifies app
    ensures app.Valid()
    ensures Step(app.Fields(), keyTime, quit, kill) == Turn(old(app.Fields()), lastKeyTime, app.refreshRate, t)
  {
    app.RefreshProcesses(t.refreshAt, t.snapshot);
    keyTime, quit, kill := lastKeyTime, false, None;
    if Handles(t, lastKeyTime) {
      keyTime := t.readAt;
      quit, kill := app.HandleKey(t.polled.value.code);
    }
  }

  /** `run_app` over a finite run of ticks, starting with `last_key_time` at `start`. Each tick
      refreshes first and then dispatches the polled event if it gets through the gate; the loop
      returns on a `q` handled in Normal mode. `kills` are the pids handed to the operating system. */
  method RunApp(app: App, start: int, ticks: seq<Tick>) returns (quitAt: Option<nat>, lastKeyTime: int, kills: seq<nat>)
    requires app.Valid()
    modifies app
    ensures app.Valid()
    ensures Outcome(app.Fields(), lastKeyTime, quitAt, kills) == Run(old(app.Fields()), start, app.refreshRate, ticks)
  {
    ghost var st := app.Fields();
    lastKeyTime, kills := start, [];
    var i := 0;
    while i < |ticks|
      invariant 0 <= i <= |ticks|
      invariant app.Valid()
      invariant Run(st, start, app.refreshRate, ticks[..i]) == Outcome(app.Fields(), lastKeyTime, None, kills)
    {
      RunSnoc(st, start, app.refreshRate, ticks, i);
      var quit, kill;
      lastKeyTime, quit, kill := RunTick(app, lastKeyTime, ticks[i]);
      if kill.Some? {
        kills := kills + [kill.value];
      }
      if quit {
        RunStopsAtQuit(st, start, app.refreshRate, ticks, i + 1);
        return Some(i), lastKeyTime, kills;
      }
      i := i + 1;
    }
    assert ticks[..i] == ticks;
    quitAt := None;
  }
}
