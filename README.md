# procsnipe — a verified model of the process view and the tray monitor

procsnipe is a terminal process monitor. It enumerates the running processes, tags each one
as a game or not by a name heuristic, filters the list (games only, search text), sorts it by
name, CPU or memory, and lets the user move a cursor and kill the selected process. A second
mode runs in the system tray. It prints a notice for processes above 80% CPU, at most once per
60-second cooldown, and falls back to a generated red icon when no icon file is found.

This project models that logic in Dafny and proves its properties:

- `Text`: ASCII lower-casing, substring search, and the byte-wise name order of `String::cmp`.
- `Classifier`: the 21-token game heuristic of the terminal view.
- `Sorting`: the three sort orders and the stable sort that `sort_by` performs. The sort is
  modelled as a stable insertion sort, `SortBy`. `StableSortIsSortBy` proves that every sorted,
  stable arrangement equals it, so it stands for whatever stable algorithm the library uses.
- `Pipeline`: one refresh as a value. It tags, applies both `retain` filters, then sorts.
- `Selection`: `next` and `previous` on the cursor.
- `Input`: event kinds, the 150 ms debounce, and the mode and search-query transitions.
- `Tui`: the `App` state as a class whose methods update its fields, plus the `run_app` loop
  over a finite run of ticks.
- `Tray`: the monitor's case-sensitive heuristic, the high-CPU scan, the cooldown-gated
  notification, the monitor loop, and the fallback icon buffer.

Conventions:

- Time is an integer number of milliseconds. `Clock.Elapsed` saturates at zero, as
  `Instant::elapsed` does.
- The process enumeration is an input sequence, and the order of that sequence is the
  enumeration order.
- CPU usage is a `real` and memory and pids are `nat`. Only comparisons are made on them.
- The kill is represented by the process id the code hands to the operating system.

Behaviours of the code that the model keeps as they are:

- **No re-clamping on refresh.** `refresh_processes` replaces the list and never touches the
  selection (src/main.rs:90-128). So `Tui.Refresh` and `Tui.App.RefreshProcesses` leave
  `selected` alone. A stale index can survive, and `Selection.Previous` only decrements it, so
  it can stay out of range.
- **Start-up refresh does nothing.** `App::new` stamps `last_refresh` with the creation
  time, so the refresh right after start-up is a no-op (`Tui.StartupView`).
- **`j` and `k` skip the debounce in every mode.** The exemption is by key code, so in
  Search these letters bypass the debounce and are typed into the query
  (`Input.SearchNavigationNotDebounced`).

## Model

| member | source | states |
|---|---|---|
| Text.Lower | src/main.rs:156 | lower-casing keeps the length and leaves no upper-case ASCII letter |
| Text.LowerAt | src/main.rs:156 | lower-casing keeps the length and maps each character by ASCII lower-casing |
| Text.LowerIdempotent | src/main.rs:156 | lower-casing a lower-cased name changes nothing |
| Text.Contains | src/main.rs:157-159 | a name can only contain a token no longer than itself, and every name contains the empty token |
| Text.ContainsAt | src/main.rs:157-159 | the substring test holds iff the token occurs at some offset of the name |
| Text.LexLess | src/main.rs:121 | no name is less than itself in name order |
| Text.LexLessAt | src/main.rs:121 | `a < b` in name order iff `a` is a proper prefix of `b` or they first differ at a position where `a` has the smaller character |
| Text.LexLessIrreflexive | src/main.rs:121 | no name sorts before itself |
| Text.LexLessTransitive | src/main.rs:121 | the name order is transitive |
| Text.LexLessTotal | src/main.rs:121 | of two different names one sorts before the other |
| Classifier.AnyTokenFromAt | src/main.rs:157-159 | `any` over the token list holds iff some token from the given position on occurs in the string |
| Classifier.IsGameProcess | src/main.rs:131-160 | the terminal view's test: some one of the 21 tokens occurs in the lower-cased name |
| Classifier.CaseInsensitive | src/main.rs:131-160 | a name and its lower-cased form get the same verdict |
| Classifier.IsGameProcessIff | src/main.rs:131-160 | a name is a game iff one of the 21 tokens occurs in its lower-cased form |
| Classifier.SteamIsGame | src/main.rs:131-160 | "Steam.exe" is a game (case-insensitive) |
| Classifier.NotepadIsNotGame | src/main.rs:131-160 | "notepad.exe" is not a game |
| Classifier.ExampleNames | src/main.rs:131-160 | chrome.exe and notepad.exe are not games, steam.exe is |
| Sorting.Cycle | src/main.rs:213-219 | toggling always changes the sort mode |
| Sorting.CycleOrbit | src/main.rs:213-219 | three toggles are the identity and together visit all three modes |
| Sorting.Before | src/main.rs:120-126 | the three comparators: ascending name, descending CPU, descending memory; a record that goes first never has the same key as the other one |
| Sorting.SortBy | src/main.rs:120-126 | the sorted list has the length of its input |
| Sorting.BeforeIrreflexive | src/main.rs:120-126 | no record goes strictly before itself under any comparator |
| Sorting.BeforeTransitive | src/main.rs:120-126 | each comparator's Less is transitive |
| Sorting.Trichotomy | src/main.rs:120-126 | two records have equal keys iff neither goes before the other, and Less is asymmetric |
| Sorting.NotBeforeTransitive | src/main.rs:120-126 | "not after" is transitive, so each comparator is a total preorder as `sort_by` requires |
| Sorting.SortByCorrect | src/main.rs:120-126 | the sorted list is in comparator order, is a permutation of its input, and keeps records with equal keys in input order |
| Sorting.SortedStableUnique | src/main.rs:120-126 | two sorted arrangements with the same equal-key classes are identical |
| Sorting.StableSortIsSortBy | src/main.rs:120-126 | every sorted, stable rearrangement of the input equals the modelled sort |
| Pipeline.Tag | src/main.rs:90-106 | one record per enumerated process, so the length is kept |
| Pipeline.TagAt | src/main.rs:90-106 | tagging keeps the length and gives record `i` the pid, name, CPU and memory of process `i`, with the classifier's verdict on its name |
| Pipeline.RetainGames | src/main.rs:109-111 | the game-only `retain` never grows the list and keeps only records marked as games |
| Pipeline.RetainQuery | src/main.rs:113-117 | the search `retain` never grows the list and keeps only records whose lower-cased name contains the query |
| Pipeline.RetainGamesIsSelect | src/main.rs:109-111 | the game-only `retain` keeps exactly the records marked as games, in order |
| Pipeline.RetainQueryIsSelect | src/main.rs:113-117 | the search `retain` keeps exactly the records whose lower-cased name contains the lower-cased query, in order |
| Pipeline.RetainStepsAreSelect | src/main.rs:108-117 | the two guarded `retain` steps together keep exactly the records with `(!games_only or is_game) and (query empty or name matches)` |
| Pipeline.NoFilterIsIdentity | src/main.rs:108-117 | with both filters off the list is unchanged |
| Pipeline.RetainsCommute | src/main.rs:108-117 | the two filters give the same result in either order |
| Pipeline.SelectCounts | src/main.rs:108-117 | after filtering, each record occurs as often as before when it passes both filters and not at all otherwise |
| Pipeline.View | src/main.rs:90-126 | a refreshed list is never longer than the enumeration |
| Pipeline.ViewCorrect | src/main.rs:88-126 | a refreshed list is sorted by the active mode; it holds each kept record as often as the tagged enumeration does, and no other; equal keys keep enumeration order |
| Pipeline.ViewMembers | src/main.rs:90-117 | a record is in a refreshed list iff it is the tagged form of an enumerated process and passes both filters |
| Pipeline.ThreeProcessViews | src/main.rs:90-126 | three processes in descending CPU order, only the middle one a game: unfiltered they stay in order, with the game filter only the game is left |
| Pipeline.WorkedExample | src/main.rs:90-126 | the Chrome/Steam/Notepad example gives all three in CPU order, and only Steam with the game filter |
| Selection.Next | src/main.rs:179-194 | an empty list leaves the cursor alone; otherwise no cursor becomes row 0, and a set cursor steps forward, wrapping to 0 from the last (or a stale) index; the result is always in range |
| Selection.Previous | src/main.rs:196-211 | an empty list leaves the cursor alone; otherwise no cursor becomes row 0, row 0 wraps to the last row, any later index steps back by one; the result is in range when the old index was at most the length, and still out of range when it was beyond it |
| Selection.NextPreviousInverse | src/main.rs:179-211 | on an index in range, `previous` undoes `next` and `next` undoes `previous` |
| Selection.NextTimesForward | src/main.rs:179-194 | `k` presses of `next` that stay in the list move `k` rows forward |
| Selection.NextTimesAdd | src/main.rs:179-194 | `a + b` presses of `next` are `a` presses followed by `b` |
| Selection.NextFullCircle | src/main.rs:179-194 | one press of `next` per row brings the cursor back to where it started |
| Input.Accepts | src/main.rs:302-314 | a key is handled iff it is a press that is a navigation key or comes at least 150 ms after the last handled key |
| Input.DebounceRule | src/main.rs:302-314 | non-press events are never handled; navigation presses always are; any other press is handled iff at least 150 ms have passed since the last handled key |
| Input.DebounceMonotone | src/main.rs:311 | a key handled at some time would also be handled at any later time |
| Input.SearchNavigationNotDebounced | src/main.rs:306-338 | in Search, `j` and `k` bypass the debounce and are appended to the query |
| Input.NextMode | src/main.rs:316-350 | the next mode is Search iff `/` in Normal or any key but Esc/Enter in Search; it is Help iff `?` in Normal or any key but Esc/`?` in Help |
| Input.NextQuery | src/main.rs:316-350 | the query changes only on `/` in Normal or in Search on Esc, a character, or Backspace, and grows by at most one character |
| Input.TypingAppends | src/main.rs:338 | in Search, typing a string appends it to the query, whatever its characters |
| Input.BackspacesUndoTyping | src/main.rs:339-341 | in Search, one Backspace per typed character restores the query |
| Input.BackspaceOnEmpty | src/main.rs:339-341 | Backspace on an empty query leaves it empty |
| Input.ReplayAppend | src/main.rs:316-350 | handling two runs of keys in a row is handling their concatenation |
| Input.SearchSession | src/main.rs:320-342 | `/`, then text, then Enter gives Normal with the text as query; with Esc instead, Normal with an empty query |
| Tui.Refresh | src/main.rs:83-129 | a refresh changes only the list and its stamp, and keeps every game flag consistent with its name |
| Tui.SelectedPidOf | src/main.rs:162-177 | a pid is selected iff the cursor is set and in range, and it is the pid of that row |
| Tui.Dispatch | src/main.rs:316-350 | a handled key leaves the list and its stamp alone; outside Normal mode it changes only the mode and the query; game flags stay consistent |
| Tui.App.constructor | src/main.rs:66-81 | a new App is in Normal mode with no records, cursor on row 0, CPU sort, no game filter, a 1000 ms interval and the last refresh stamped now |
| Tui.App.RefreshProcesses | src/main.rs:83-129 | the new fields are exactly `Tui.Refresh` of the old ones, at that time and for that enumeration; every record's game flag agrees with its name |
| Tui.App.Next | src/main.rs:179-194 | the cursor becomes `Selection.Next` of the old cursor and the list length |
| Tui.App.Previous | src/main.rs:196-211 | the cursor becomes `Selection.Previous` of the old cursor and the list length |
| Tui.App.ToggleSort | src/main.rs:213-219 | the sort mode becomes the next one in the cycle |
| Tui.App.SelectedPid | src/main.rs:162-177 | the pid `kill_selected` targets is `Tui.SelectedPidOf` of the fields |
| Tui.App.KillSelected | src/main.rs:162-177 | a pid is targeted iff the cursor is set and in range, and it is the pid of that row; no state changes |
| Tui.App.HandleKey | src/main.rs:316-350 | quit iff `q` in Normal; the new fields are exactly `Tui.Dispatch` of the old ones for that key; the kill target is the selected pid iff `d` in Normal, and none otherwise |
| Tui.StartupView | src/main.rs:268-270 | refreshing a new App within 1000 ms of its creation shows an empty list |
| Tui.KeyClockRules | src/main.rs:302-314 | the last-key time moves only on a handled key, and then to that key's time |
| Tui.HandledKeysSpaced | src/main.rs:306-314 | of two handled keys in a row, a non-navigation second one comes at least 150 ms after the first |
| Tui.RunSnoc | src/main.rs:295-353 | a run one tick longer, when it has not returned yet, is one more refresh-then-dispatch turn |
| Tui.RunStopsAtQuit | src/main.rs:318 | once the loop has returned, later ticks change nothing |
| Tui.RunQuit | src/main.rs:302-318 | the loop returns at tick `k` iff `k` is the first tick whose event passes the press and debounce gate and is `q` in Normal mode; it never returns through `q` iff there is no such tick (error exits are left out) |
| Tui.RunReplaysKeys | src/main.rs:302-350 | the final mode and query are those of replaying, in order, exactly the keys that passed the gate, up to the one that quit |
| Tui.RunShowsLastRefresh | src/main.rs:83-129 | the final list and stamp are the initial ones, or the view and time of some refresh that took place during the run |
| Tui.RunTick | src/main.rs:295-353 | one pass of the loop body computes exactly `Tui.Turn`: the refreshed and dispatched state, the new last-key time, whether it returns, and the kill target |
| Tui.RunApp | src/main.rs:291-354 | the final fields, last-key time, tick of return and list of kill targets are exactly `Tui.Run` of the ticks from the starting fields, so `Tui.RunQuit`, `Tui.RunReplaysKeys` and `Tui.RunShowsLastRefresh` hold of them; every game flag stays consistent |
| Tray.IsGameProcess | src/tray.rs:138-144 | the monitor's test: some one of its 11 tokens occurs in the name as given |
| Tray.IsGameProcessIff | src/tray.rs:138-144 | the monitor's test holds iff one of its 11 tokens occurs in the name exactly as given |
| Tray.TrayIndicatorsArePrefix | src/tray.rs:139-142 | the monitor's tokens are the first 11 tokens of the terminal view, in order |
| Tray.TrayImpliesMain | src/tray.rs:120-121 | on a lower-cased name, a monitor match implies a terminal-view match |
| Tray.ApexOnlyInMain | src/tray.rs:139-142 | the converse fails: "apex.exe" is a game only for the terminal view |
| Tray.CaseSensitive | src/tray.rs:138-144 | the monitor folds no case: "Steam.exe" fails, "steam.exe" matches |
| Tray.HighCpu | src/tray.rs:112-117 | the high-CPU list is no longer than the enumeration, and every entry is above 80% |
| Tray.HighCpuAppend | src/tray.rs:112-117 | the high-CPU list of a concatenation is the concatenation of the lists, so entries keep enumeration order |
| Tray.HighCpuMembers | src/tray.rs:112-117 | an entry is on the list iff it is the name and usage of a process above 80% |
| Tray.HighCpuFirst | src/tray.rs:112-117 | the list is empty iff no process is above 80%; otherwise its head is the first process above 80% |
| Tray.GameSeen | src/tray.rs:119-123 | the game-detected flag of the scan: whether some lower-cased name passes the monitor's test |
| Tray.GameSeenIff | src/tray.rs:119-123 | a game is detected iff some process's lower-cased name passes the monitor's test |
| Tray.ScanProcesses | src/tray.rs:109-124 | the loop returns the high-CPU list and the game-detected flag of the enumeration |
| Tray.Notice | src/tray.rs:127-133 | a notice is printed iff the time since the last one strictly exceeds the cooldown and the list is non-empty, and it reports the first entry |
| Tray.NoticesAreSpaced | src/tray.rs:127-133 | two successive notices are more than a cooldown apart |
| Tray.LogExtend | src/tray.rs:127-133 | logging a notice taken more than a cooldown after the last keeps the notice log ordered and spaced |
| Tray.TrayApp.constructor | src/tray.rs:17-23 | a new monitor stamps its last notice at creation, with a 60 000 ms cooldown |
| Tray.TrayApp.MonitorProcesses | src/tray.rs:104-136 | the notice follows `Notice` on the scanned list; only `lastNotification` changes, and only when a notice is printed |
| Tray.TrayApp.Run | src/tray.rs:80-99 | the loop exits through Exit iff some round brings Exit (the error exit on Open is left out); the notices and the last-notice time are exactly `Tray.Log` over the rounds before the first Exit; each notice reports its round's first high-CPU entry, and they come in round order, each more than a cooldown after the one before |
| Tray.FirstExit | src/tray.rs:82-91 | the index of the first round bringing Exit: no round before it does, and the round there does unless there is none |
| Tray.Log | src/tray.rs:80-99 | the monitor over rounds with no Exit prints no more notices than there are rounds |
| Tray.LogCorrect | src/tray.rs:112-133 | every notice `Tray.Log` prints reports its round's first high-CPU entry; they are in round order, spaced more than a cooldown apart, and the time kept is the last one's |
| Tray.LogComplete | src/tray.rs:127-133 | `Tray.Log` logs a round iff the notification rule fires there, given the time kept after the rounds before it |
| Tray.LoggedBelow | src/tray.rs:80-99 | `Tray.Log` over the first `k` rounds logs no round from `k` on |
| Tray.FirstMinuteQuiet | src/tray.rs:17-23 | a monitor built at time `t` prints nothing until a full cooldown has passed |
| Tray.FallbackIcon | src/tray.rs:63-73 | the fallback buffer holds 32·32·4 = 4096 bytes, and every pixel is (255, 0, 0, 255) |

## Left out

- Terminal setup and teardown, `ui` rendering and layout (src/main.rs:261-289, 356 on): presentation over ratatui and crossterm. While drawing, ratatui's list widget may adjust an out-of-range selection; that is rendering and not modelled.
- Event polling and reading (src/main.rs:299-300): each tick carries the event the poll returned, or none.
- The process library (`sysinfo`): enumeration is an input sequence. Its order stands for the hash-map iteration order of `processes()`.
- `proc.kill()` and its success: `Tui.App.KillSelected` returns the targeted pid. The lookup of the pid in the library before killing is part of the same foreign call.
- `is_elevated` (src/main.rs:222-236): an environment-variable heuristic.
- Command-line parsing and the tray/terminal choice in `main` (src/main.rs:238-259).
- The tray icon and its menu construction, the icon file loading, `launch_tui`, `show_about`, the printed messages and the 5-second sleep (src/tray.rs:25-78, 146-181). `Tray.TrayApp.Run` keeps only the Exit choice and the call to the monitor.
- The `Arc<Mutex<System>>` of the tray: sharing only, no concurrency is modelled.
- `f32` semantics of CPU usage, NaN, and the `partial_cmp().unwrap()` panic at src/main.rs:124: CPU is a `real`.
- Widths: `u32` pids, `u64` memory and `usize` indices are unbounded naturals. `processes.len() - 1` cannot underflow because the empty list returns first.
- Unicode `to_lowercase`: `Text.Lower` folds ASCII letters only.
- Tui.App.RefreshProcesses: the clock is read once per refresh. The source reads it for the interval check and again to stamp `last_refresh`.
- Tui.RunApp: the debounce reads the clock once per key. The source reads it for the check and again to stamp `last_key_time`. The loop runs over a finite run of ticks instead of forever.
- Tray.TrayApp.MonitorProcesses: the clock is read once. The source reads it for the cooldown check and again to stamp `last_notification`. The game-detected flag is returned by `Tray.ScanProcesses` and, as in the source, not used.
- Tray.FallbackIcon: `Icon::from_rgba(...).unwrap()` is not modelled.
- Tui.RunApp: an I/O error from drawing, polling or reading (src/main.rs:297-300) ends `run_app` with an error. Ticks carry no failure, so the modelled loop returns only on `q`, and `Tui.RunQuit`'s "never returns" means it never returns through `q`. `kill_selected` always returns `Ok` (src/main.rs:176), so `d` has no error exit.
- Tray.TrayApp.Run: a failed spawn of the terminal view on Open (src/tray.rs:85, through `current_exe()?` and `spawn()?` at src/tray.rs:149-161) ends `run` with an error. Open has no effect in the model, so the modelled loop ends only on Exit. `monitor_processes` has no error exit.
