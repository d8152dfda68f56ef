/** The background monitor: its own game heuristic, the high-CPU scan with its cooldown-gated
    notification, and the fallback icon. */
module Tray {
  import opened Options
  import opened Clock
  import opened Text
  import opened Process
  import Classifier

  /** The 11 indicator tokens of the monitor. */
  const TrayIndicators: seq<string> := [
    "game", "steam", "epic", "uplay", "origin", "riot", "valorant", "league", "csgo", "cs2", "dota"
  ]

  /** `TrayApp::is_game_process`: a case-sensitive token test; the caller lower-cases. */
  function IsGameProcess(name: string): bool
  {
    Classifier.AnyToken(TrayIndicators, name)
  }

  /** A name is a game for the monitor iff one of its 11 tokens occurs in the name as given. */
  lemma IsGameProcessIff(name: string)
    ensures IsGameProcess(name) <==>
            exists k :: 0 <= k < |TrayIndicators| && Contains(name, TrayIndicators[k])
  {
    Classifier.AnyTokenFromAt(TrayIndicators, name, 0);
  }

  /** The monitor's tokens are the first 11 of the terminal view's, in the same order. */
  lemma TrayIndicatorsArePrefix()
    ensures |TrayIndicators| == 11 <= |Classifier.GameIndicators|
    ensures TrayIndicators == Classifier.GameIndicators[..11]
  {
  }

  /** On the lower-cased name the monitor passes in, a monitor match is a terminal-view match. */
  lemma TrayImpliesMain(name: string)
    ensures IsGameProcess(Lower(name)) ==> Classifier.IsGameProcess(name)
  {
    IsGameProcessIff(Lower(name));
    Classifier.IsGameProcessIff(name);
    TrayIndicatorsArePrefix();
    if IsGameProcess(Lower(name)) {
      var k :| 0 <= k < |TrayIndicators| && Contains(Lower(name), TrayIndicators[k]);
      assert Classifier.GameIndicators[k] == TrayIndicators[k];
    }
  }

  /** The converse fails: "apex" is only on the terminal view's list. */
  lemma ApexOnlyInMain()
    ensures Classifier.IsGameProcess("apex.exe")
    ensures !IsGameProcess(Lower("apex.exe"))
  {
    LowerApex();
    ApexHasMainToken();
    Classifier.IsGameProcessIff("apex.exe");
    ApexHasNoTrayToken();
    IsGameProcessIff("apex.exe");
  }

  lemma LowerApex()
    ensures Lower("apex.exe") == "apex.exe"
  {
    LowerIdentity("apex.exe");
  }

  lemma ApexHasMainToken()
    ensures Contains("apex.exe", Classifier.GameIndicators[11])
  {
  }

  lemma ApexHasNoTrayToken()
    ensures forall k | 0 <= k < |TrayIndicators| :: !Contains("apex.exe", TrayIndicators[k])
  {
  }

  /** The monitor does not fold case itself: "Steam.exe" as given is no game, lower-cased it is. */
  lemma CaseSensitive()
    ensures !IsGameProcess("Steam.exe")
    ensures IsGameProcess("steam.exe")
  {
    CapitalSteamHasNoToken();
    IsGameProcessIff("Steam.exe");
    SteamHasTrayToken();
    IsGameProcessIff("steam.exe");
  }

  lemma CapitalSteamHasNoToken()
    ensures forall k | 0 <= k < |TrayIndicators| :: !Contains("Steam.exe", TrayIndicators[k])
  {
  }

  lemma SteamHasTrayToken()
    ensures Contains("steam.exe", TrayIndicators[1])
  {
  }

  /** CPU usage above this percentage is reported. */
  const HighCpuThreshold: real := 80.0

  /** One entry of `high_cpu_processes`: the name and its CPU usage. */
  datatype Alert = Alert(name: string, cpu: real)

  /** The high-CPU entries of an enumeration, in enumeration order. */
  function HighCpu(snapshot: seq<RawProcess>): (r: seq<Alert>)
    ensures |r| <= |snapshot|
    ensures forall i :: 0 <= i < |r| ==> r[i].cpu > HighCpuThreshold
    decreases |snapshot|
  {
    if snapshot == [] then []
    else
      var p := snapshot[|snapshot| - 1];
      HighCpu(snapshot[..|snapshot| - 1]) + (if p.cpu > HighCpuThreshold then [Alert(p.name, p.cpu)] else [])
  }

  /** The high-CPU list of a concatenation is the concatenation of the lists, so the entries
      keep the enumeration's order. */
  lemma {:induction false} HighCpuAppend(a: seq<RawProcess>, b: seq<RawProcess>)
    ensures HighCpu(a + b) == HighCpu(a) + HighCpu(b)
    decreases |b|
  {
    if b == [] {
      assert a + b == a;
    } else {
      var b' := b[..|b| - 1];
      assert (a + b)[..|a + b| - 1] == a + b';
      assert (a + b)[|a + b| - 1] == b[|b| - 1];
      HighCpuAppend(a, b');
    }
  }

  /** An entry is on the list iff it is the name and usage of a process above the threshold. */
  lemma {:induction false} HighCpuMembers(snapshot: seq<RawProcess>, e: Alert)
    ensures e in HighCpu(snapshot) <==>
            exists i :: 0 <= i < |snapshot| && snapshot[i].cpu > HighCpuThreshold &&
                        e == Alert(snapshot[i].name, snapshot[i].cpu)
    decreases |snapshot|
  {
    if snapshot != [] {
      var init := snapshot[..|snapshot| - 1];
      HighCpuMembers(init, e);
      assert forall i :: 0 <= i < |init| ==> init[i] == snapshot[i];
    }
  }

  /** The list is empty iff no process is above the threshold; otherwise its first entry is the
      first process above the threshold. */
  lemma {:induction false} HighCpuFirst(snapshot: seq<RawProcess>)
    ensures HighCpu(snapshot) == [] <==> forall i :: 0 <= i < |snapshot| ==> snapshot[i].cpu <= HighCpuThreshold
    ensures HighCpu(snapshot) != [] ==>
              exists i :: 0 <= i < |snapshot| && snapshot[i].cpu > HighCpuThreshold &&
                          (forall j :: 0 <= j < i ==> snapshot[j].cpu <= HighCpuThreshold) &&
                          HighCpu(snapshot)[0] == Alert(snapshot[i].name, snapshot[i].cpu)
    decreases |snapshot|
  {
    if snapshot != [] {
      var init := snapshot[..|snapshot| - 1];
      HighCpuFirst(init);
      assert forall i :: 0 <= i < |init| ==> init[i] == snapshot[i];
    }
  }

  /** Whether some process of the enumeration is a game by the monitor's test on its
      lower-cased name. */
  function GameSeen(snapshot: seq<RawProcess>): bool
    decreases |snapshot|
  {
    snapshot != [] &&
    (GameSeen(snapshot[..|snapshot| - 1]) || IsGameProcess(Lower(snapshot[|snapshot| - 1].name)))
  }

  lemma {:induction false} GameSeenIff(snapshot: seq<RawProcess>)
    ensures GameSeen(snapshot) <==> exists i :: 0 <= i < |snapshot| && IsGameProcess(Lower(snapshot[i].name))
    decreases |snapshot|
  {
    if snapshot != [] {
      var init := snapshot[..|snapshot| - 1];
      GameSeenIff(init);
      assert forall i :: 0 <= i < |init| ==> init[i] == snapshot[i];
    }
  }

  /** The `for` loop of `monitor_processes` over one enumeration. */
  method ScanProcesses(snapshot: seq<RawProcess>) returns (high: seq<Alert>, gameDetected: bool)
    ensures high == HighCpu(snapshot)
    ensures gameDetected == GameSeen(snapshot)
  {
    high, gameDetected := [], false;
    var i := 0;
    while i < |snapshot|
      invariant 0 <= i <= |snapshot|
      invariant high == HighCpu(snapshot[..i])
      invariant gameDetected == GameSeen(snapshot[..i])
    {
      var p := snapshot[i];
      assert snapshot[..i + 1][..i] == snapshot[..i];
      if p.cpu > HighCpuThreshold {
        high := high + [Alert(p.name, p.cpu)];
      }
      var name := Lower(p.name);
      if IsGameProcess(name) && !gameDetected {
        gameDetected := true;
      }
      i := i + 1;
    }
    assert snapshot[..i] == snapshot;
  }

  /** The notification rule: once the cooldown is strictly over, the first high-CPU entry is
      reported, if there is one. */
  function Notice(lastNotification: int, cooldown: nat, now: int, high: seq<Alert>): (r: Option<Alert>)
    ensures r.Some? <==> Elapsed(lastNotification, now) > cooldown && high != []
    ensures r.Some? ==> r.value == high[0]
  {
    if Elapsed(lastNotification, now) > cooldown && high != [] then Some(high[0]) else None
  }

  /** Two notices in a row are more than a cooldown apart. */
  lemma NoticesAreSpaced(last: int, cooldown: nat, t1: int, t2: int, h1: seq<Alert>, h2: seq<Alert>)
    requires Notice(last, cooldown, t1, h1).Some?
    requires Notice(t1, cooldown, t2, h2).Some?
    ensures t2 > t1 + cooldown
  {
  }

  /** The cooldown `TrayApp::new` sets, in milliseconds. */
  const NotificationCooldownMs: nat := 60000

  /** The entries of the monitor's menu. */
  datatype MenuEvent = Open | About | Exit

  /** One turn of the monitor's loop: the menu event received (if any), the clock, and the
      enumeration the refresh returns. */
  datatype Round = Round(menu: Option<MenuEvent>, now: int, snapshot: seq<RawProcess>)

  class TrayApp {
    var lastNotification: int
    const notificationCooldown: nat

    /** `TrayApp::new` at time `now`. */
    constructor (now: int)
      ensures lastNotification == now && notificationCooldown == NotificationCooldownMs
    {
      lastNotification := now;
      notificationCooldown := NotificationCooldownMs;
    }

    /** `monitor_processes` at time `now` over `snapshot`: returns the notice it prints, and
        moves `lastNotification` to `now` exactly when it prints one. */
    method MonitorProcesses(now: int, snapshot: seq<RawProcess>) returns (notice: Option<Alert>)
      modifies this`lastNotification
      ensures notice == Notice(old(lastNotification), notificationCooldown, now, HighCpu(snapshot))
      ensures lastNotification == if notice.Some? then now else old(lastNotification)
    {
      var high, gameDetected := ScanProcesses(snapshot);
      notice := None;
      if Elapsed(lastNotification, now) > notificationCooldown {
        if high != [] {
          notice := Some(high[0]);
          lastNotification := now;
        }
      }
    }

    /** The event loop of `run` over a finite run of rounds: Exit ends it before that round's
        scan; Open and About only do I/O. `notices` lists, by round index, every notice printed:
        exactly those `Log` prints over the rounds before the first Exit. */
    method Run(rounds: seq<Round>) returns (notices: seq<(nat, Alert)>, exited: bool)
      modifies this`lastNotification
      ensures exited <==> FirstExit(rounds) < |rounds|
      ensures (lastNotification, notices) == Log(old(lastNotification), notificationCooldown, rounds[..FirstExit(rounds)])
      ensures Reported(rounds, notices, |rounds|)
      ensures Spaced(rounds, notices, old(lastNotification), notificationCooldown)
      ensures lastNotification == LastTime(rounds, notices, old(lastNotification))
    {
      ghost var start := lastNotification;
      notices, exited := [], false;
      var i := 0;
      while i < |rounds|
        invariant 0 <= i <= |rounds|
        invariant forall j :: 0 <= j < i ==> rounds[j].menu != Some(Exit)
        invariant (lastNotification, notices) == Log(start, notificationCooldown, rounds[..i])
      {
        var r := rounds[i];
        if r.menu == Some(Exit) {
          exited := true;
          LogCorrect(rounds, start, notificationCooldown, i);
          ReportedWider(rounds, notices, i, |rounds|);
          return;
        }
        assert rounds[..i + 1][..i] == rounds[..i];
        var notice := MonitorProcesses(r.now, r.snapshot);
        if notice.Some? {
          notices := notices + [(i, notice.value)];
        }
        i := i + 1;
      }
      assert rounds[..i] == rounds;
      LogCorrect(rounds, start, notificationCooldown, i);
    }
  }

  /** The index of the first round whose menu event is Exit, or `|rounds|` when there is none. */
  function FirstExit(rounds: seq<Round>): (e: nat)
    ensures e <= |rounds|
    ensures forall j :: 0 <= j < e ==> rounds[j].menu != Some(Exit)
    ensures e < |rounds| ==> rounds[e].menu == Some(Exit)
    decreases |rounds|
  {
    if rounds == [] || rounds[0].menu == Some(Exit) then 0
    else
      var e := 1 + FirstExit(rounds[1..]);
      assert forall j :: 1 <= j < e ==> rounds[j] == rounds[1..][j - 1];
      e
  }

  /** The monitor over rounds with no Exit, from a last notice at `last`: the time of the last
      notice after them and the notices printed, by round index. */
  function Log(last: int, cooldown: nat, rounds: seq<Round>): (r: (int, seq<(nat, Alert)>))
    ensures |r.1| <= |rounds|
    decreases |rounds|
  {
    if rounds == [] then (last, [])
    else
      var prev := Log(last, cooldown, rounds[..|rounds| - 1]);
      var round := rounds[|rounds| - 1];
      match Notice(prev.0, cooldown, round.now, HighCpu(round.snapshot))
      case Some(a) => (round.now, prev.1 + [(|rounds| - 1, a)])
      case None => prev
  }

  /** The notices `Log` prints over the first `k` rounds are well formed: each reports its
      round's first high-CPU entry, they are spaced by more than the cooldown, and the time it
      keeps is the last one's. */
  lemma {:induction false} LogCorrect(rounds: seq<Round>, start: int, cooldown: nat, k: nat)
    requires k <= |rounds|
    ensures Reported(rounds, Log(start, cooldown, rounds[..k]).1, k)
    ensures Spaced(rounds, Log(start, cooldown, rounds[..k]).1, start, cooldown)
    ensures Log(start, cooldown, rounds[..k]).0 == LastTime(rounds, Log(start, cooldown, rounds[..k]).1, start)
    decreases k
  {
    if k > 0 {
      LogCorrect(rounds, start, cooldown, k - 1);
      assert rounds[..k][..k - 1] == rounds[..k - 1];
      var prev := Log(start, cooldown, rounds[..k - 1]);
      var round := rounds[k - 1];
      match Notice(prev.0, cooldown, round.now, HighCpu(round.snapshot))
      case Some(a) =>
        LogExtend(rounds, prev.1, start, cooldown, k - 1, a);
      case None =>
        ReportedWider(rounds, prev.1, k - 1, k);
    }
  }

  /** Some notice is logged for round `j`. */
  predicate Logged(notices: seq<(nat, Alert)>, j: nat)
  {
    exists n :: 0 <= n < |notices| && notices[n].0 == j
  }

  /** Logging one more notice adds exactly its round to the logged ones. */
  lemma LoggedSnoc(notices: seq<(nat, Alert)>, i: nat, a: Alert, j: nat)
    ensures Logged(notices + [(i, a)], j) <==> Logged(notices, j) || j == i
  {
    var ext := notices + [(i, a)];
    assert ext[|notices|].0 == i;
    if Logged(ext, j) {
      var n :| 0 <= n < |ext| && ext[n].0 == j;
      if n < |notices| {
        assert notices[n] == ext[n];
      }
    }
    if Logged(notices, j) {
      var n :| 0 <= n < |notices| && notices[n].0 == j;
      assert ext[n] == notices[n];
    }
  }

  /** `Log` over the first `k` rounds logs no round from `k` on. */
  lemma LoggedBelow(rounds: seq<Round>, start: int, cooldown: nat, k: nat, j: nat)
    requires k <= j && k <= |rounds|
    ensures !Logged(Log(start, cooldown, rounds[..k]).1, j)
  {
    LogCorrect(rounds, start, cooldown, k);
  }

  /** `Log` misses no notice: over the first `k` rounds, round `j` is logged exactly when the
      notification rule fires at it, given the time `Log` keeps after the rounds before it. */
  lemma {:induction false} LogComplete(rounds: seq<Round>, start: int, cooldown: nat, k: nat)
    requires k <= |rounds|
    ensures forall j: nat :: j < k ==>
      (Logged(Log(start, cooldown, rounds[..k]).1, j) <==>
       Notice(Log(start, cooldown, rounds[..j]).0, cooldown, rounds[j].now, HighCpu(rounds[j].snapshot)).Some?)
    decreases k
  {
    if k > 0 {
      LogComplete(rounds, start, cooldown, k - 1);
      assert rounds[..k][..k - 1] == rounds[..k - 1];
      var prev := Log(start, cooldown, rounds[..k - 1]);
      var round := rounds[k - 1];
      var now := Log(start, cooldown, rounds[..k]).1;
      forall j: nat | j < k
        ensures Logged(now, j) <==> Logged(prev.1, j) || (j == k - 1 && Notice(prev.0, cooldown, round.now, HighCpu(round.snapshot)).Some?)
      {
        match Notice(prev.0, cooldown, round.now, HighCpu(round.snapshot))
        case Some(a) => LoggedSnoc(prev.1, k - 1, a, j);
        case None =>
      }
      LoggedBelow(rounds, start, cooldown, k - 1, k - 1);
    }
  }

  /** Every logged notice names a round below `bound` and reports that round's first
      high-CPU entry. */
  predicate Reported(rounds: seq<Round>, notices: seq<(nat, Alert)>, bound: nat)
  {
    bound <= |rounds| &&
    forall n :: 0 <= n < |notices| ==>
      notices[n].0 < bound &&
      HighCpu(rounds[notices[n].0].snapshot) != [] &&
      notices[n].1 == HighCpu(rounds[notices[n].0].snapshot)[0]
  }

  /** The time of the last logged notice, or `start` when there is none. */
  function LastTime(rounds: seq<Round>, notices: seq<(nat, Alert)>, start: int): int
  {
    if notices == [] || notices[|notices| - 1].0 >= |rounds| then start
    else rounds[notices[|notices| - 1].0].now
  }

  /** The logged notices come in round order, each more than `cooldown` after the one before
      it, the first more than `cooldown` after `start`. */
  predicate Spaced(rounds: seq<Round>, notices: seq<(nat, Alert)>, start: int, cooldown: nat)
  {
    forall n :: 0 <= n < |notices| ==>
      notices[n].0 < |rounds| &&
      (n == 0 ==> rounds[notices[n].0].now > start + cooldown) &&
      (n > 0 ==> notices[n - 1].0 < notices[n].0 &&
                 notices[n - 1].0 < |rounds| &&
                 rounds[notices[n].0].now > rounds[notices[n - 1].0].now + cooldown)
  }

  lemma ReportedWider(rounds: seq<Round>, notices: seq<(nat, Alert)>, bound: nat, wider: nat)
    requires Reported(rounds, notices, bound) && bound <= wider <= |rounds|
    ensures Reported(rounds, notices, wider)
  {
  }

  /** Logging a notice for round `i`, taken more than a cooldown after the last one, keeps the
      log well formed. */
  lemma LogExtend(rounds: seq<Round>, notices: seq<(nat, Alert)>, start: int, cooldown: nat, i: nat, a: Alert)
    requires Reported(rounds, notices, i) && Spaced(rounds, notices, start, cooldown)
    requires i < |rounds| && HighCpu(rounds[i].snapshot) != [] && a == HighCpu(rounds[i].snapshot)[0]
    requires rounds[i].now > LastTime(rounds, notices, start) + cooldown
    ensures Reported(rounds, notices + [(i, a)], i + 1)
    ensures Spaced(rounds, notices + [(i, a)], start, cooldown)
    ensures LastTime(rounds, notices + [(i, a)], start) == rounds[i].now
  {
    var ext := notices + [(i, a)];
    assert forall n :: 0 <= n < |notices| ==> ext[n] == notices[n];
  }

  /** A monitor built at `created` prints nothing during its first cooldown. */
  method FirstMinuteQuiet(created: int, now: int, snapshot: seq<RawProcess>) returns (notice: Option<Alert>)
    requires Elapsed(created, now) <= NotificationCooldownMs
    ensures notice == None
  {
    var tray := new TrayApp(created);
    notice := tray.MonitorProcesses(now, snapshot);
  }

  /** An RGBA byte. */
  newtype byte = b: int | 0 <= b < 256

  /** The side of the fallback icon, in pixels. */
  const IconSize: nat := 32

  /** The four bytes of pixel `i` of an RGBA buffer. */
  function PixelAt(rgba: seq<byte>, i: nat): seq<byte>
    requires 4 * i + 4 <= |rgba|
  {
    rgba[4 * i..4 * i + 4]
  }

  /** The fallback icon: a `size * size * 4` byte buffer, zeroed, then every pixel opaque red. */
  method FallbackIcon() returns (rgba: array<byte>)
    ensures rgba.Length == IconSize * IconSize * 4 == 4096
    ensures forall i :: 0 <= i < IconSize * IconSize ==> PixelAt(rgba[..], i) == [255, 0, 0, 255]
  {
    var size := IconSize;
    rgba := new byte[size * size * 4](_ => 0);
    var i := 0;
    while i < size * size
      invariant 0 <= i <= size * size
      invariant forall j :: 0 <= j < i ==> PixelAt(rgba[..], j) == [255, 0, 0, 255]
    {
      var idx := i * 4;
      ghost var before := rgba[..];
      rgba[idx] := 255;
      rgba[idx + 1] := 0;
      rgba[idx + 2] := 0;
      rgba[idx + 3] := 255;
      assert PixelAt(rgba[..], i) == [255, 0, 0, 255];
      assert forall j :: 0 <= j < i ==> PixelAt(rgba[..], j) == PixelAt(before, j);
      i := i + 1;
    }
  }
}
