/**
 * The game-time daemon polizei: every watched game that is running gets a phase timer
 * with a regular reminder and, for strict games, a stop reminder from a threshold on.
 * A poll round looks at the command lines of the user's processes, creates timers for
 * newly started games, asks each found game's timer for an action, and drops the
 * timers of games that are no longer running. The minute of each round is passed in.
 */
module Polizei {
  import opened Wrappers
  import opened Text
  import opened Timer
  import opened GameWatch
  import opened Arith

  datatype GameAction = RegularNotification | StopNotification

  /** A watched game: its display name, the binary to look for and whether it is strict. */
  datatype Game = Game(name: string, binary: string, strict: bool)

  const GameList: seq<Game> := [
    Game("Oxygen Not Included", "OxygenNotIncluded", true),
    Game("Factorio", "factorio", true),
    Game("Noita", "noita", true),
    Game("Apex Legends", "apex", false),
    Game("Satisfactory", "satisfactory", true),
    Game("Starsector", "starsector", true),
    Game("Terraria", "terraria", false),
    Game("Necesse", "necesse", true),
    Game("some game", "streaming_client", true),
    Game("Minecraft", "atlauncher.jar", true),
    Game("Zero Sievert", "zero sievert.exe", true)
  ]

  /** The binaries as the game list spells them. */
  function Binaries(): (r: seq<string>)
    ensures |r| == |GameList| && forall i :: 0 <= i < |r| ==> r[i] == GameList[i].binary
  {
    seq(|GameList|, i requires 0 <= i < |GameList| => GameList[i].binary)
  }

  /** The binaries lowercased like the command line they are looked for in. */
  function LoweredBinaries(): (r: seq<string>)
    ensures |r| == |GameList| && forall i :: 0 <= i < |r| ==> r[i] == ToLowerAscii(GameList[i].binary)
  {
    seq(|GameList|, i requires 0 <= i < |GameList| => ToLowerAscii(GameList[i].binary))
  }

  /** A lowercased command line has no upper-case ASCII letter. */
  lemma {:induction false} NoUpperAfterLowering(cmdline: string, c: char)
    requires 'A' <= c <= 'Z'
    ensures c !in ToLowerAscii(cmdline)
  {
    var lowered := ToLowerAscii(cmdline);
    forall i | 0 <= i < |lowered| ensures lowered[i] != c {
    }
  }

  /**
   * As written, the command line is lowercased but the binary is not, so the entry
   * "OxygenNotIncluded" can never match any process.
   */
  lemma {:induction false} OxygenNotIncludedNeverFound(cmdline: string)
    ensures FirstMatch(ToLowerAscii(cmdline), Binaries()) != Some(0)
  {
    var lowered := ToLowerAscii(cmdline);
    if FirstMatch(lowered, Binaries()) == Some(0) {
      var oni := Binaries()[0];
      assert oni == "OxygenNotIncluded";
      ContainsChar(lowered, oni, 0);
      NoUpperAfterLowering(cmdline, 'O');
    }
  }

  /**
   * With the binaries lowercased too, a process whose command line names Oxygen Not
   * Included in any letter case is found as that game.
   */
  lemma {:induction false} OxygenNotIncludedFoundIgnoringCase(cmdline: string)
    requires Contains(ToLowerAscii(cmdline), ToLowerAscii("OxygenNotIncluded"))
    ensures FirstMatch(ToLowerAscii(cmdline), LoweredBinaries()) == Some(0)
  {
  }

  /** Lowercasing the binaries changes only the Oxygen Not Included entry. */
  lemma {:induction false} CorrectionOnlyAffectsOxygen()
    ensures forall i :: 1 <= i < |GameList| ==> LoweredBinaries()[i] == Binaries()[i]
  {
  }

  /**
   * The round as written differs from the corrected rule only where the corrected rule
   * finds Oxygen Not Included: otherwise both pick the same game or none.
   */
  lemma {:induction false} MatchedUnlessOxygen(cmdline: string)
    ensures Matched(cmdline) != Some(0)
    ensures FirstMatch(ToLowerAscii(cmdline), LoweredBinaries()) != Some(0) ==>
      Matched(cmdline) == FirstMatch(ToLowerAscii(cmdline), LoweredBinaries())
  {
    var lowered := ToLowerAscii(cmdline);
    OxygenNotIncludedNeverFound(cmdline);
    CorrectionOnlyAffectsOxygen();
    var written := FirstMatch(lowered, Binaries());
    var corrected := FirstMatch(lowered, LoweredBinaries());
    if written.Some? {
      assert written.value != 0;
      assert Contains(lowered, LoweredBinaries()[written.value]);
    }
    if corrected.Some? && corrected.value != 0 {
      assert Contains(lowered, Binaries()[corrected.value]);
      if written.Some? {
        assert !(written.value < corrected.value);
      }
    }
  }

  /** The inner loop of `main`: the first game whose binary, as written, occurs in the lowercased command line. */
  method FindGame(cmdline: string) returns (game: Option<nat>)
    ensures game == FirstMatch(ToLowerAscii(cmdline), Binaries())
    ensures game.Some? ==> game.value < |GameList| && game != Some(0)
  {
    game := MatchGame(cmdline, Binaries());
    OxygenNotIncludedNeverFound(cmdline);
  }

  /** `x as usize` for an `i64` on a 64-bit target: a negative value wraps around. */
  function AsUsize(x: i64): (r: nat)
    ensures r < UsizeLimit
    ensures x >= 0 ==> r == x as int
    ensures x < 0 ==> r == x as int + UsizeLimit
  {
    if x >= 0 then x as int else x as int + UsizeLimit
  }

  /** The phases `RunningGame::new` builds, in the order it pushes them. */
  function GamePhases(args: Args, strict: bool): (r: seq<Phase<GameAction>>)
    ensures IntervalsPositive(r)
    ensures forall i :: 0 <= i < |r| ==> r[i].lastActionTime == 0
  {
    var regular := if args.notificationInterval > 0 then
      [RecurringPhase(AsUsize(args.notificationInterval), AsUsize(args.notificationInterval), RegularNotification)]
    else [];
    var stop := if strict && args.stopNotificationInterval > 0 then
      [RecurringPhase(AsUsize(args.threshold), AsUsize(args.stopNotificationInterval), StopNotification)]
    else [];
    regular + stop
  }

  /** Which phases a game gets: the regular one iff its interval is positive, the stop one iff strict with a positive interval. */
  lemma {:induction false} GamePhasesCases(args: Args, strict: bool)
    ensures |GamePhases(args, strict)| ==
      (if args.notificationInterval > 0 then 1 else 0) + (if strict && args.stopNotificationInterval > 0 then 1 else 0)
    ensures (exists i :: 0 <= i < |GamePhases(args, strict)| && GamePhases(args, strict)[i].action == RegularNotification)
      <==> args.notificationInterval > 0
    ensures (exists i :: 0 <= i < |GamePhases(args, strict)| && GamePhases(args, strict)[i].action == StopNotification)
      <==> strict && args.stopNotificationInterval > 0
  {
    var r := GamePhases(args, strict);
    if args.notificationInterval > 0 {
      assert r[0].action == RegularNotification;
    }
    if strict && args.stopNotificationInterval > 0 {
      assert r[|r| - 1].action == StopNotification;
    }
  }

  /** A game with neither phase never notifies, whatever the minute. */
  lemma {:induction false} NoPhasesNoNotification(args: Args, strict: bool, cur: nat)
    requires args.notificationInterval <= 0
    requires !strict || args.stopNotificationInterval <= 0
    ensures AllComputable(SortByTrigger(GamePhases(args, strict)), cur)
    ensures ActionAt(SortByTrigger(GamePhases(args, strict)), cur) == None
  {
    assert GamePhases(args, strict) == [];
  }

  /**
   * With the regular interval at most the threshold, the timer holds the regular phase
   * first and the stop phase last.
   */
  lemma {:induction false} StrictGameTimer(args: Args)
    requires 0 < args.notificationInterval <= args.threshold && args.stopNotificationInterval > 0
    ensures SortByTrigger(GamePhases(args, true)) == [
      RecurringPhase(args.notificationInterval as nat, args.notificationInterval as nat, RegularNotification),
      RecurringPhase(args.threshold as nat, args.stopNotificationInterval as nat, StopNotification)]
  {
    var reg := RecurringPhase(args.notificationInterval as nat, args.notificationInterval as nat, RegularNotification);
    var stop := RecurringPhase(args.threshold as nat, args.stopNotificationInterval as nat, StopNotification);
    assert GamePhases(args, true) == [reg, stop];
    assert [reg, stop][..1] == [reg];
    assert [reg][..0] == [];
  }

  /**
   * In such a timer, whatever the phases' last action times, a stop notification is
   * sent at every minute a stop occurrence falls on that has not been acted on yet,
   * even when a regular occurrence falls on the same minute.
   */
  lemma {:induction false} StopWinsWhenDue(args: Args, lastRegular: nat, lastStop: nat, elapsed: nat, k: nat)
    requires 0 < args.notificationInterval <= args.threshold && args.stopNotificationInterval > 0
    requires elapsed == args.threshold as nat + k * args.stopNotificationInterval as nat
    requires lastStop < elapsed
    ensures AllComputable([
      Phase(args.notificationInterval as nat, Recurring(args.notificationInterval as nat), RegularNotification, lastRegular),
      Phase(args.threshold as nat, Recurring(args.stopNotificationInterval as nat), StopNotification, lastStop)], elapsed)
    ensures ActionAt([
      Phase(args.notificationInterval as nat, Recurring(args.notificationInterval as nat), RegularNotification, lastRegular),
      Phase(args.threshold as nat, Recurring(args.stopNotificationInterval as nat), StopNotification, lastStop)], elapsed)
      == Some(StopNotification)
  {
    var phases := [
      Phase(args.notificationInterval as nat, Recurring(args.notificationInterval as nat), RegularNotification, lastRegular),
      Phase(args.threshold as nat, Recurring(args.stopNotificationInterval as nat), StopNotification, lastStop)];
    LastOccurrenceUnique(args.threshold as nat, args.stopNotificationInterval as nat, elapsed, k);
    assert Effective(phases[1], elapsed) == Some(elapsed);
    LastDueWins(phases, elapsed);
  }

  /** A phase at the end of the list whose effective time is the current minute wins. */
  lemma {:induction false} LastDueWins<A>(phases: seq<Phase<A>>, cur: nat)
    requires AllComputable(phases, cur) && |phases| > 0
    requires Effective(phases[|phases| - 1], cur) == Some(cur)
    ensures Winner(phases, cur) == Some(|phases| - 1)
  {
    WinnerIsLastMaximum(phases, cur);
    var w := Winner(phases, cur).value;
    EffectiveCases(phases[w], cur);
  }

  lemma {:induction false} SortKeepsIntervals<A(!new)>(phases: seq<Phase<A>>)
    requires IntervalsPositive(phases)
    ensures IntervalsPositive(SortByTrigger(phases))
  {
    var sorted := SortByTrigger(phases);
    SortByTriggerOrders(phases);
    forall i | 0 <= i < |sorted| && sorted[i].phaseType.Recurring? ensures sorted[i].phaseType.interval > 0 {
      assert sorted[i] in multiset(phases);
    }
  }

  lemma {:induction false} StepKeepsIntervals<A>(phases: seq<Phase<A>>, cur: nat)
    requires IntervalsPositive(phases)
    ensures AllComputable(phases, cur)
    ensures IntervalsPositive(StepPhases(phases, cur))
  {
    assert AllComputable(phases, cur);
    StepChangesOnlyWinner(phases, cur);
  }

  /** A running game: its timer's phases and the minute its timer was created. */
  datatype RunningGame = RunningGame(phases: seq<Phase<GameAction>>, start: nat)

  predicate GamesValid(games: map<string, RunningGame>, now: nat) {
    forall k :: k in games ==> games[k].start <= now && IntervalsPositive(games[k].phases)
  }

  function NewRunningGame(args: Args, strict: bool, now: nat): (g: RunningGame)
    ensures g.start == now && IntervalsPositive(g.phases)
  {
    SortKeepsIntervals(GamePhases(args, strict));
    RunningGame(SortByTrigger(GamePhases(args, strict)), now)
  }

  /** A notification that was sent: the game, the kind and the text. */
  datatype Notice = Notice(game: string, action: GameAction, text: string)

  function NoticeText(name: string, action: GameAction, elapsed: int): string {
    match action
    case RegularNotification => "You have been playing " + name + " for " + FormatDuration(elapsed)
    case StopNotification => "Stop playing " + name + ". You are at it since " + FormatDuration(elapsed)
  }

  /**
   * `handle_running_game`: the game's timer is created if it has none, and asked for an
   * action at the minutes since its creation.
   */
  function HandleRunningGame(args: Args, games: map<string, RunningGame>, name: string, strict: bool, now: nat)
    : (r: (map<string, RunningGame>, Option<Notice>))
    requires GamesValid(games, now)
    ensures GamesValid(r.0, now)
    ensures r.0.Keys == games.Keys + {name}
    ensures forall k :: k in games && k != name ==> r.0[k] == games[k]
    ensures name in games ==> r.0[name].start == games[name].start
    ensures name !in games ==> r.0[name].start == now
    ensures r.1.Some? ==> r.1.value.game == name
  {
    var game := if name in games then games[name] else NewRunningGame(args, strict, now);
    var elapsed := now - game.start;
    StepKeepsIntervals(game.phases, elapsed);
    var action := ActionAt(game.phases, elapsed);
    var stepped := game.(phases := StepPhases(game.phases, elapsed));
    (games[name := stepped],
     match action
     case None => None
     case Some(a) => Some(Notice(name, a, NoticeText(name, a, elapsed))))
  }

  /** The game a command line is matched to: binaries as written, command line lowercased. */
  function Matched(cmdline: string): (r: Option<nat>)
    ensures r.Some? ==> r.value < |GameList|
  {
    FirstMatch(ToLowerAscii(cmdline), Binaries())
  }

  /** Where the process loop stands: the running games, the names found and the notifications sent. */
  datatype PollState = PollState(running: map<string, RunningGame>, found: set<string>, notices: seq<Notice>)

  /** One iteration of the process loop. */
  function HandleProcess(args: Args, st: PollState, cmdline: string, now: nat): (r: PollState)
    requires GamesValid(st.running, now)
    ensures GamesValid(r.running, now)
  {
    match Matched(cmdline)
    case None => st
    case Some(g) =>
      var (running, notice) := HandleRunningGame(args, st.running, GameList[g].name, GameList[g].strict, now);
      PollState(running, st.found + {GameList[g].name}, st.notices + (if notice.Some? then [notice.value] else []))
  }

  function HandleAll(args: Args, games: map<string, RunningGame>, processes: seq<string>, now: nat): (r: PollState)
    requires GamesValid(games, now)
    ensures GamesValid(r.running, now)
    decreases |processes|
  {
    if processes == [] then PollState(games, {}, [])
    else HandleProcess(args, HandleAll(args, games, processes[..|processes| - 1], now), processes[|processes| - 1], now)
  }

  /** One poll round: the process loop, then the removal of every game not found in it. */
  function Round(args: Args, games: map<string, RunningGame>, processes: seq<string>, now: nat)
    : (r: (map<string, RunningGame>, seq<Notice>))
    requires GamesValid(games, now)
  {
    var st := HandleAll(args, games, processes, now);
    (Evicted(st.running, st.found), st.notices)
  }

  method PollRound(args: Args, games: map<string, RunningGame>, processes: seq<string>, now: nat)
    returns (running: map<string, RunningGame>, notices: seq<Notice>)
    requires GamesValid(games, now)
    ensures (running, notices) == Round(args, games, processes, now)
  {
    running := games;
    notices := [];
    var found: set<string> := {};
    for i := 0 to |processes|
      invariant GamesValid(running, now)
      invariant PollState(running, found, notices) == HandleAll(args, games, processes[..i], now)
    {
      assert processes[..i + 1][..i] == processes[..i];
      running, found, notices := PollProcess(args, running, found, notices, processes[i], now);
    }
    assert processes[..|processes|] == processes;
    running := EvictClosed(running, found);
  }

  /** The body of the process loop for one command line. */
  method PollProcess(args: Args, running: map<string, RunningGame>, found: set<string>, notices: seq<Notice>,
                     cmdline: string, now: nat)
    returns (running': map<string, RunningGame>, found': set<string>, notices': seq<Notice>)
    requires GamesValid(running, now)
    ensures GamesValid(running', now)
    ensures PollState(running', found', notices') == HandleProcess(args, PollState(running, found, notices), cmdline, now)
  {
    running', found', notices' := running, found, notices;
    var game := FindGame(cmdline);
    if game.Some? {
      var g := GameList[game.value];
      found' := found' + {g.name};
      var handled := HandleRunningGame(args, running', g.name, g.strict, now);
      running' := handled.0;
      var notice := handled.1;
      if notice.Some? {
        notices' := notices' + [notice.value];
      }
    }
  }

  /** Some process of the list is matched to the game called `name`. */
  ghost predicate FoundIn(processes: seq<string>, name: string) {
    exists i :: 0 <= i < |processes| && Matched(processes[i]).Some? && GameList[Matched(processes[i]).value].name == name
  }

  lemma {:induction false} FoundInAppend(processes: seq<string>, cmdline: string, name: string)
    ensures FoundIn(processes + [cmdline], name) <==>
      FoundIn(processes, name) || (Matched(cmdline).Some? && GameList[Matched(cmdline).value].name == name)
  {
    var ps := processes + [cmdline];
    if FoundIn(processes, name) {
      var i :| 0 <= i < |processes| && Matched(processes[i]).Some? && GameList[Matched(processes[i]).value].name == name;
      assert ps[i] == processes[i];
    }
    if FoundIn(ps, name) {
      var i :| 0 <= i < |ps| && Matched(ps[i]).Some? && GameList[Matched(ps[i]).value].name == name;
      if i < |processes| {
        assert ps[i] == processes[i];
      }
    }
    if Matched(cmdline).Some? && GameList[Matched(cmdline).value].name == name {
      assert ps[|processes|] == cmdline;
    }
  }

  /** A name is found in a round iff some process's command line is matched to that game. */
  lemma {:induction false} HandleAllFound(args: Args, games: map<string, RunningGame>, processes: seq<string>, now: nat)
    requires GamesValid(games, now)
    ensures forall name :: name in HandleAll(args, games, processes, now).found <==> FoundIn(processes, name)
    decreases |processes|
  {
    if processes != [] {
      var n := |processes| - 1;
      HandleAllFound(args, games, processes[..n], now);
      assert processes == processes[..n] + [processes[n]];
      forall name ensures name in HandleAll(args, games, processes, now).found <==> FoundIn(processes, name) {
        FoundInAppend(processes[..n], processes[n], name);
      }
    }
  }

  /** The process loop adds exactly the found games to the running ones and keeps every timer it had. */
  lemma {:induction false} HandleAllRunning(args: Args, games: map<string, RunningGame>, processes: seq<string>, now: nat)
    requires GamesValid(games, now)
    ensures HandleAll(args, games, processes, now).running.Keys == games.Keys + HandleAll(args, games, processes, now).found
    ensures forall k :: k in games ==> HandleAll(args, games, processes, now).running[k].start == games[k].start
    ensures forall k :: k in HandleAll(args, games, processes, now).running && k !in games ==>
      HandleAll(args, games, processes, now).running[k].start == now
    decreases |processes|
  {
    if processes != [] {
      HandleAllRunning(args, games, processes[..|processes| - 1], now);
    }
  }

  /**
   * After a round exactly the games found in it are running; a game that was already
   * running keeps its timer, and a newly found one gets a timer created at this minute.
   */
  lemma {:induction false} RoundRunningGames(args: Args, games: map<string, RunningGame>, processes: seq<string>, now: nat)
    requires GamesValid(games, now)
    ensures forall name :: name in Round(args, games, processes, now).0 <==> FoundIn(processes, name)
    ensures forall k :: k in games && k in Round(args, games, processes, now).0 ==>
      Round(args, games, processes, now).0[k].start == games[k].start
    ensures forall k :: k !in games && k in Round(args, games, processes, now).0 ==>
      Round(args, games, processes, now).0[k].start == now
  {
    HandleAllFound(args, games, processes, now);
    HandleAllRunning(args, games, processes, now);
  }
}
