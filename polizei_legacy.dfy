/**
 * The older polizei, which keeps two counters per running game instead of a phase
 * timer: how many regular notification intervals have been announced, and how many
 * stop intervals past the threshold. The minute of each round is passed in.
 */
module PolizeiLegacy {
  import opened Wrappers
  import opened Text
  import opened Arith
  import opened GameWatch

  const GameList: seq<(string, string)> := [
    ("Factorio", "factorio"),
    ("Noita", "noita"),
    ("Apex Legends", "apex"),
    ("Satisfactory", "satisfactory"),
    ("Starsector", "starsector")
  ]

  function Binaries(): (r: seq<string>)
    ensures |r| == |GameList| && forall i :: 0 <= i < |r| ==> r[i] == GameList[i].1
  {
    seq(|GameList|, i requires 0 <= i < |GameList| => GameList[i].1)
  }

  /** A running game: the minute it was first seen and its two counters. */
  datatype RunningGame = RunningGame(start: nat, notificationCount: int, stopNotificationCount: int)

  /** `RunningGame::default`: first seen now, nothing announced yet. */
  function NewRunningGame(now: nat): (g: RunningGame)
    ensures g.start == now && g.notificationCount == 0 && g.stopNotificationCount == 0
  {
    RunningGame(now, 0, 0)
  }

  datatype Kind = Regular | Stop

  datatype Notice = Notice(game: string, kind: Kind, text: string)

  /** What handling one game does: the counters it leaves, and a notification if one is sent. */
  datatype Handled = Handled(game: RunningGame, notice: Option<Notice>) | DivisionByZero

  /**
   * The counter rule of `handle_running_game` for a game seen `elapsed` minutes after
   * it was first seen. A zero divisor panics.
   */
  function HandleCounters(args: Args, name: string, game: RunningGame, elapsed: int): (r: Handled)
    ensures r.Handled? ==> r.game.start == game.start
  {
    if elapsed < args.threshold as int then
      if args.notificationInterval == 0 then DivisionByZero
      else
        var currentInterval := TruncDiv(elapsed, args.notificationInterval as int);
        var notice := if game.notificationCount < currentInterval
          then Some(Notice(name, Regular, "You have been playing " + name + " for " + FormatDuration(elapsed)))
          else None;
        Handled(game.(notificationCount := currentInterval), notice)
    else
      if args.stopNotificationInterval == 0 then DivisionByZero
      else
        var currentInterval := TruncDiv(elapsed - args.threshold as int, args.stopNotificationInterval as int) + 1;
        if game.stopNotificationCount < currentInterval then
          Handled(game.(stopNotificationCount := currentInterval),
            Some(Notice(name, Stop, "Stop playing " + name + ". You are at it since " + FormatDuration(elapsed))))
        else Handled(game, None)
  }

  /** The cases of the counter rule, each with the condition that selects it. */
  lemma {:induction false} HandleCountersCases(args: Args, name: string, game: RunningGame, elapsed: int)
    ensures HandleCounters(args, name, game, elapsed).DivisionByZero? <==>
      (elapsed < args.threshold as int && args.notificationInterval == 0)
      || (elapsed >= args.threshold as int && args.stopNotificationInterval == 0)
    ensures elapsed < args.threshold as int && args.notificationInterval != 0 ==>
      var r := HandleCounters(args, name, game, elapsed);
      var current := TruncDiv(elapsed, args.notificationInterval as int);
      && r.game == game.(notificationCount := current)
      && (r.notice.Some? <==> game.notificationCount < current)
      && (r.notice.Some? ==> r.notice.value.kind == Regular)
    ensures elapsed >= args.threshold as int && args.stopNotificationInterval != 0 ==>
      var r := HandleCounters(args, name, game, elapsed);
      var current := TruncDiv(elapsed - args.threshold as int, args.stopNotificationInterval as int) + 1;
      && (r.notice.Some? <==> game.stopNotificationCount < current)
      && (r.notice.Some? ==> r.notice.value.kind == Stop && r.game == game.(stopNotificationCount := current))
      && (r.notice.None? ==> r.game == game)
  {
  }

  /**
   * At or past the threshold, a game that has had no stop notification gets one: the
   * counter is 0 and the interval number is at least 1. In particular the first stop
   * notification always comes at the threshold minute itself.
   */
  lemma {:induction false} FirstStopAtThreshold(args: Args, name: string, game: RunningGame, elapsed: int)
    requires args.stopNotificationInterval != 0 && game.stopNotificationCount == 0
    requires args.threshold as int <= elapsed
    requires args.stopNotificationInterval > 0 || elapsed - args.threshold as int < -(args.stopNotificationInterval as int)
    ensures HandleCounters(args, name, game, elapsed).Handled?
    ensures HandleCounters(args, name, game, elapsed).notice.Some?
    ensures HandleCounters(args, name, game, elapsed).notice.value.kind == Stop
  {
    var d := args.stopNotificationInterval as int;
    var q := TruncDiv(elapsed - args.threshold as int, d);
    assert Abs(q) == Abs(elapsed - args.threshold as int) / Abs(d);
    if d > 0 {
      assert q >= 0;
    } else {
      assert q == 0;
    }
  }

  /**
   * A game first seen at minute 0 and handled at every minute `0 .. n - 1` below the
   * threshold gets its regular notifications exactly at the positive multiples of the
   * notification interval.
   */
  function RegularEveryMinute(args: Args, n: nat): (r: (seq<bool>, RunningGame))
    requires args.notificationInterval > 0 && n <= args.threshold as int
    ensures |r.0| == n && r.1.start == 0
  {
    if n == 0 then ([], NewRunningGame(0))
    else
      var (sent, game) := RegularEveryMinute(args, n - 1);
      var h := HandleCounters(args, "", game, n - 1);
      (sent + [h.notice.Some?], h.game)
  }

  lemma {:induction false} RegularSchedule(args: Args, n: nat)
    requires args.notificationInterval > 0 && n <= args.threshold as int
    ensures RegularEveryMinute(args, n).1.notificationCount == if n == 0 then 0 else (n - 1) / args.notificationInterval as int
    ensures RegularEveryMinute(args, n).1.stopNotificationCount == 0
    ensures forall m :: 0 <= m < n ==> (RegularEveryMinute(args, n).0[m] <==> m > 0 && m % args.notificationInterval as int == 0)
  {
    if n > 0 {
      var i := args.notificationInterval as int;
      RegularSchedule(args, n - 1);
      var (sent, game) := RegularEveryMinute(args, n - 1);
      var m := n - 1;
      assert game.notificationCount == if m == 0 then 0 else (m - 1) / i;
      assert TruncDiv(m, i) == m / i;
      if m > 0 {
        RegularStep(m - 1, i);
      } else {
        assert 0 / i == 0;
      }
      var h := HandleCounters(args, "", game, m);
      assert h.notice.Some? <==> game.notificationCount < m / i;
      assert h.notice.Some? <==> (m > 0 && m % i == 0);
      assert RegularEveryMinute(args, n).0 == sent + [h.notice.Some?];
      forall k | 0 <= k < n ensures RegularEveryMinute(args, n).0[k] <==> (k > 0 && k % i == 0) {
        if k < m {
          assert RegularEveryMinute(args, n).0[k] == sent[k];
        }
      }
    }
  }

  /** The interval number grows by one exactly when the next minute is a multiple. */
  lemma {:induction false} RegularStep(a: nat, i: nat)
    requires i > 0
    ensures (a + 1) / i == if (a + 1) % i == 0 then a / i + 1 else a / i
  {
    ModSucc(a, i);
    var q, r := a / i, a % i;
    assert a == q * i + r;
    if r + 1 == i {
      assert (q + 1) * i == q * i + i;
      DivModUnique(a + 1, i, q + 1, 0);
    } else {
      DivModUnique(a + 1, i, q, r + 1);
    }
  }

  /** `handle_running_game`: the game is created on first sight, then its counters are updated. */
  function HandleRunningGame(args: Args, games: map<string, RunningGame>, name: string, now: nat)
    : (r: Option<(map<string, RunningGame>, Option<Notice>)>)
    requires forall k :: k in games ==> games[k].start <= now
    ensures r.Some? ==> r.value.0.Keys == games.Keys + {name}
    ensures r.Some? ==> forall k :: k in r.value.0 ==> r.value.0[k].start <= now
    ensures r.Some? ==> forall k :: k in games && k != name ==> r.value.0[k] == games[k]
    ensures r.Some? && name in games ==> r.value.0[name].start == games[name].start
    ensures r.Some? && name !in games ==> r.value.0[name].start == now
  {
    var game := if name in games then games[name] else NewRunningGame(now);
    match HandleCounters(args, name, game, now - game.start)
    case DivisionByZero => None
    case Handled(game', notice) => Some((games[name := game'], notice))
  }

  predicate StartsValid(games: map<string, RunningGame>, now: nat) {
    forall k :: k in games ==> games[k].start <= now
  }

  /** Where the process loop stands: the running games, the names found and the notifications sent. */
  datatype PollState = PollState(running: map<string, RunningGame>, found: set<string>, notices: seq<Notice>)

  function Matched(cmdline: string): (r: Option<nat>)
    ensures r.Some? ==> r.value < |GameList|
  {
    FirstMatch(ToLowerAscii(cmdline), Binaries())
  }

  /** One iteration of the process loop; `None` once a division by zero has panicked. */
  function HandleProcess(args: Args, st: PollState, cmdline: string, now: nat): (r: Option<PollState>)
    requires StartsValid(st.running, now)
    ensures r.Some? ==> StartsValid(r.value.running, now)
  {
    match Matched(cmdline)
    case None => Some(st)
    case Some(g) =>
      match HandleRunningGame(args, st.running, GameList[g].0, now)
      case None => None
      case Some((running, notice)) =>
        Some(PollState(running, st.found + {GameList[g].0}, st.notices + (if notice.Some? then [notice.value] else [])))
  }

  function HandleAll(args: Args, games: map<string, RunningGame>, processes: seq<string>, now: nat): (r: Option<PollState>)
    requires StartsValid(games, now)
    ensures r.Some? ==> StartsValid(r.value.running, now)
    decreases |processes|
  {
    if processes == [] then Some(PollState(games, {}, []))
    else
      match HandleAll(args, games, processes[..|processes| - 1], now)
      case None => None
      case Some(st) => HandleProcess(args, st, processes[|processes| - 1], now)
  }

  /** One poll round, or `None` if it panicked. */
  function Round(args: Args, games: map<string, RunningGame>, processes: seq<string>, now: nat)
    : (r: Option<(map<string, RunningGame>, seq<Notice>)>)
    requires StartsValid(games, now)
  {
    match HandleAll(args, games, processes, now)
    case None => None
    case Some(st) => Some((Evicted(st.running, st.found), st.notices))
  }

  method PollRound(args: Args, games: map<string, RunningGame>, processes: seq<string>, now: nat)
    returns (r: Option<(map<string, RunningGame>, seq<Notice>)>)
    requires StartsValid(games, now)
    ensures r == Round(args, games, processes, now)
  {
    var running := games;
    var notices := [];
    var found: set<string> := {};
    for i := 0 to |processes|
      invariant StartsValid(running, now)
      invariant HandleAll(args, games, processes[..i], now) == Some(PollState(running, found, notices))
    {
      assert processes[..i + 1][..i] == processes[..i];
      ghost var before := PollState(running, found, notices);
      var game := MatchGame(processes[i], Binaries());
      assert Matched(processes[i]) == game;
      if game.Some? {
        var name := GameList[game.value].0;
        found := found + {name};
        var handled := HandleRunningGame(args, running, name, now);
        if handled.None? {
          assert HandleProcess(args, before, processes[i], now) == None;
          assert HandleAll(args, games, processes, now) == None by {
            HandleAllStaysPanicked(args, games, processes, i + 1, now);
          }
          return None;
        }
        running := handled.value.0;
        var notice := handled.value.1;
        if notice.Some? {
          notices := notices + [notice.value];
        }
        assert handled == Some((running, notice));
        assert notices == before.notices + (if notice.Some? then [notice.value] else []);
      }
      assert HandleProcess(args, before, processes[i], now) == Some(PollState(running, found, notices));
    }
    assert processes[..|processes|] == processes;
    running := EvictClosed(running, found);
    return Some((running, notices));
  }

  /** Once a prefix of the processes has panicked, the whole round has. */
  lemma {:induction false} HandleAllStaysPanicked(args: Args, games: map<string, RunningGame>, processes: seq<string>, n: nat, now: nat)
    requires StartsValid(games, now) && n <= |processes|
    requires HandleAll(args, games, processes[..n], now) == None
    ensures HandleAll(args, games, processes, now) == None
    decreases |processes| - n
  {
    if n < |processes| {
      var next := processes[..n + 1];
      assert next[..n] == processes[..n];
      HandleAllStaysPanicked(args, games, processes, n + 1, now);
    } else {
      assert processes[..n] == processes;
    }
  }

  ghost predicate FoundIn(processes: seq<string>, name: string) {
    exists i :: 0 <= i < |processes| && Matched(processes[i]).Some? && GameList[Matched(processes[i]).value].0 == name
  }

  lemma {:induction false} FoundInAppend(processes: seq<string>, cmdline: string, name: string)
    ensures FoundIn(processes + [cmdline], name) <==>
      FoundIn(processes, name) || (Matched(cmdline).Some? && GameList[Matched(cmdline).value].0 == name)
  {
    var ps := processes + [cmdline];
    if FoundIn(processes, name) {
      var i :| 0 <= i < |processes| && Matched(processes[i]).Some? && GameList[Matched(processes[i]).value].0 == name;
      assert ps[i] == processes[i];
    }
    if FoundIn(ps, name) {
      var i :| 0 <= i < |ps| && Matched(ps[i]).Some? && GameList[Matched(ps[i]).value].0 == name;
      if i < |processes| {
        assert ps[i] == processes[i];
      }
    }
    if Matched(cmdline).Some? && GameList[Matched(cmdline).value].0 == name {
      assert ps[|processes|] == cmdline;
    }
  }

  /** In a round that does not panic, a name is found iff some process is matched to that game. */
  lemma {:induction false} HandleAllFound(args: Args, games: map<string, RunningGame>, processes: seq<string>, now: nat)
    requires StartsValid(games, now)
    requires HandleAll(args, games, processes, now).Some?
    ensures forall name :: name in HandleAll(args, games, processes, now).value.found <==> FoundIn(processes, name)
    decreases |processes|
  {
    if processes != [] {
      var n := |processes| - 1;
      HandleAllFound(args, games, processes[..n], now);
      assert processes == processes[..n] + [processes[n]];
      forall name ensures name in HandleAll(args, games, processes, now).value.found <==> FoundIn(processes, name) {
        FoundInAppend(processes[..n], processes[n], name);
      }
    }
  }

  /**
   * A round that does not panic adds exactly the found games to the running ones; a
   * game already running keeps its first-seen minute and a new one is first seen now.
   */
  lemma {:induction false} HandleAllRunning(args: Args, games: map<string, RunningGame>, processes: seq<string>, now: nat)
    requires StartsValid(games, now)
    requires HandleAll(args, games, processes, now).Some?
    ensures HandleAll(args, games, processes, now).value.running.Keys ==
      games.Keys + HandleAll(args, games, processes, now).value.found
    ensures forall k :: k in games ==> HandleAll(args, games, processes, now).value.running[k].start == games[k].start
    ensures forall k :: k in HandleAll(args, games, processes, now).value.running && k !in games ==>
      HandleAll(args, games, processes, now).value.running[k].start == now
    decreases |processes|
  {
    if processes != [] {
      var n := |processes| - 1;
      var prev := HandleAll(args, games, processes[..n], now);
      assert prev.Some?;
      HandleAllRunning(args, games, processes[..n], now);
    }
  }

  lemma {:induction false} RoundRunningGames(args: Args, games: map<string, RunningGame>, processes: seq<string>, now: nat)
    requires StartsValid(games, now)
    requires Round(args, games, processes, now).Some?
    ensures forall name :: name in Round(args, games, processes, now).value.0 <==> FoundIn(processes, name)
    ensures forall k :: k in games && k in Round(args, games, processes, now).value.0 ==>
      Round(args, games, processes, now).value.0[k].start == games[k].start
    ensures forall k :: k !in games && k in Round(args, games, processes, now).value.0 ==>
      Round(args, games, processes, now).value.0[k].start == now
  {
    HandleAllFound(args, games, processes, now);
    HandleAllRunning(args, games, processes, now);
  }
}
