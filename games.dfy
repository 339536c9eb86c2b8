/**
 * The pieces both polizei daemons share: the duration text of their notifications,
 * matching a process command line against the watched games, and dropping the games
 * that were not seen in a poll round.
 */
module GameWatch {
  import opened Wrappers
  import opened Text
  import Arith

  /** The command-line arguments of both daemons, as the signed 64-bit integers clap parses. */
  datatype Args = Args(notificationInterval: Arith.i64, threshold: Arith.i64, stopNotificationInterval: Arith.i64)

  /** `elapsed / 60` and `elapsed % 60` on `i64`: both truncate toward zero. */
  function DurationParts(elapsed: int): (r: (int, int))
    ensures r.0 * 60 + r.1 == elapsed
    ensures -60 < r.1 < 60
    ensures elapsed >= 0 ==> r.0 >= 0 && r.1 >= 0
    ensures elapsed <= 0 ==> r.0 <= 0 && r.1 <= 0
    ensures r.0 == 0 <==> -60 < elapsed < 60
  {
    (Arith.TruncDiv(elapsed, 60), Arith.TruncRem(elapsed, 60))
  }

  /** `format_duration`: the hour count is left out when it is zero. */
  function FormatDuration(elapsed: int): string {
    var (hours, minutes) := DurationParts(elapsed);
    if hours == 0 then IntToString(minutes) + " Minutes"
    else IntToString(hours) + " Hours and " + IntToString(minutes) + " Minutes"
  }

  /** Under an hour only the minutes are printed, and they are then the whole duration. */
  lemma {:induction false} FormatDurationUnderAnHour(elapsed: int)
    requires -60 < elapsed < 60
    ensures FormatDuration(elapsed) == IntToString(elapsed) + " Minutes"
  {
  }

  /** The first of `binaries[from..]` that occurs in `lowered`. */
  function FirstMatchFrom(lowered: string, binaries: seq<string>, from: nat): (r: Option<nat>)
    requires from <= |binaries|
    ensures r.Some? ==> from <= r.value < |binaries| && Contains(lowered, binaries[r.value])
    ensures r.Some? ==> forall j :: from <= j < r.value ==> !Contains(lowered, binaries[j])
    ensures r.None? ==> forall j :: from <= j < |binaries| ==> !Contains(lowered, binaries[j])
    decreases |binaries| - from
  {
    if from == |binaries| then None
    else if Contains(lowered, binaries[from]) then Some(from)
    else FirstMatchFrom(lowered, binaries, from + 1)
  }

  /** The index of the first watched binary that occurs in the lowercased command line. */
  function FirstMatch(lowered: string, binaries: seq<string>): (r: Option<nat>)
    ensures r.Some? ==> r.value < |binaries| && Contains(lowered, binaries[r.value])
    ensures r.Some? ==> forall j :: 0 <= j < r.value ==> !Contains(lowered, binaries[j])
    ensures r.None? <==> forall j :: 0 <= j < |binaries| ==> !Contains(lowered, binaries[j])
  {
    FirstMatchFrom(lowered, binaries, 0)
  }

  /**
   * The inner loop over the game list: the command line is lowercased, every entry
   * that does not occur in it is skipped, and the first that does ends the loop.
   */
  method MatchGame(cmdline: string, binaries: seq<string>) returns (game: Option<nat>)
    ensures game == FirstMatch(ToLowerAscii(cmdline), binaries)
  {
    var lowered := ToLowerAscii(cmdline);
    var i := 0;
    while i < |binaries|
      invariant 0 <= i <= |binaries|
      invariant FirstMatch(lowered, binaries) == FirstMatchFrom(lowered, binaries, i)
    {
      if !Contains(lowered, binaries[i]) {
        i := i + 1;
        continue;
      }
      return Some(i);
    }
    return None;
  }

  /** The games still running after a round: those of `games` that were found in it. */
  function Evicted<V>(games: map<string, V>, found: set<string>): (r: map<string, V>)
    ensures r.Keys == games.Keys * found
    ensures forall k :: k in r ==> r[k] == games[k]
  {
    map k | k in games.Keys * found :: games[k]
  }

  /** The loop that removes every game that was not found in the round. */
  method EvictClosed<V>(games: map<string, V>, found: set<string>) returns (kept: map<string, V>)
    ensures kept == Evicted(games, found)
  {
    var keys := games.Keys;
    kept := games;
    while keys != {}
      invariant keys <= games.Keys
      invariant kept.Keys == (games.Keys - keys) * found + keys
      invariant forall k :: k in kept ==> kept[k] == games[k]
      decreases keys
    {
      var key :| key in keys;
      if key !in found {
        kept := kept - {key};
      }
      keys := keys - {key};
    }
    assert kept.Keys == Evicted(games, found).Keys;
  }
}
