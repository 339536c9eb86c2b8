/**
 * The `time` command of the humanizer: a duration given in nanoseconds or seconds is
 * printed as "D days HH:MM:SS". chrono's `num_*` accessors truncate toward zero, so
 * a negative duration gives non-positive parts. The duration is kept in nanoseconds.
 */
module Humanizer {
  import opened Wrappers
  import opened Text
  import opened Arith

  const NanosPerSecond: nat := 1_000_000_000
  const SecondsPerDay: nat := 86_400
  const SecondsPerHour: nat := 3_600
  const SecondsPerMinute: nat := 60

  /** The largest number of whole seconds a chrono `TimeDelta` holds: `i64::MAX` milliseconds. */
  const MaxSeconds: nat := 0x7FFF_FFFF_FFFF_FFFF / 1000

  /** The parts printed. */
  datatype Clock = Clock(days: int, hours: int, minutes: int, seconds: int)

  /** The parts of a duration of `total` whole seconds, each taken toward zero. */
  function Decompose(total: int): Clock {
    var days := TruncDiv(total, SecondsPerDay);
    var dayRest := TruncRem(total, SecondsPerDay);
    var hourRest := TruncRem(dayRest, SecondsPerHour);
    Clock(days, TruncDiv(dayRest, SecondsPerHour), TruncDiv(hourRest, SecondsPerMinute), TruncRem(hourRest, SecondsPerMinute))
  }

  /** `"{days} days "` when there are days, then `"{hours:02}:{minutes:02}:{seconds:02}"`. */
  function Render(c: Clock): string {
    DaysPrefix(c.days) + Pad2(c.hours) + ":" + Pad2(c.minutes) + ":" + Pad2(c.seconds)
  }

  function DaysPrefix(days: int): string {
    if days > 0 then NatToString(days) + " days " else ""
  }

  /**
   * The duration `format_time` starts from, in nanoseconds: `--nanos` wins over
   * `--seconds`; seconds beyond chrono's range and a missing value are errors.
   */
  function Duration(nanos: Option<i64>, seconds: Option<i64>): Result<int, string> {
    if nanos.Some? then Ok(nanos.value as int)
    else if seconds.Some? then
      if -(MaxSeconds as int) <= seconds.value as int <= MaxSeconds then Ok(seconds.value as int * NanosPerSecond)
      else Err("Failed to convert seconds.")
    else Err("Either specify nanos or seconds")
  }

  /** The text printed for a duration of `duration` nanoseconds; sub-second parts are dropped. */
  function Formatted(duration: int): string {
    Render(Decompose(TruncDiv(duration, NanosPerSecond)))
  }

  /**
   * The whole parts add up to the whole seconds, each below its unit, and all have
   * the sign of the duration.
   */
  lemma {:induction false} DecomposeIdentity(total: int)
    ensures var c := Decompose(total);
      && c.days * SecondsPerDay + c.hours * SecondsPerHour + c.minutes * SecondsPerMinute + c.seconds == total
      && Abs(c.hours) < 24 && Abs(c.minutes) < 60 && Abs(c.seconds) < 60
      && (total >= 0 ==> c.days >= 0 && c.hours >= 0 && c.minutes >= 0 && c.seconds >= 0)
      && (total <= 0 ==> c.days <= 0 && c.hours <= 0 && c.minutes <= 0 && c.seconds <= 0)
  {
    var d, dr := TruncDiv(total, SecondsPerDay), TruncRem(total, SecondsPerDay);
    var h, hr := TruncDiv(dr, SecondsPerHour), TruncRem(dr, SecondsPerHour);
    var m, s := TruncDiv(hr, SecondsPerMinute), TruncRem(hr, SecondsPerMinute);
    assert Abs(dr) < 86400 && Abs(h) == Abs(dr) / 3600;
    assert Abs(h) < 24;
    assert Abs(m) == Abs(hr) / 60 && Abs(hr) < 3600;
  }

  /** For a non-negative duration the parts are the only ones with those bounds that add up to it. */
  lemma {:induction false} DecomposeUnique(total: nat, c: Clock)
    requires c.days >= 0 && 0 <= c.hours < 24 && 0 <= c.minutes < 60 && 0 <= c.seconds < 60
    requires c.days * SecondsPerDay + c.hours * SecondsPerHour + c.minutes * SecondsPerMinute + c.seconds == total
    ensures Decompose(total) == c
  {
    var rest := c.hours * SecondsPerHour + c.minutes * SecondsPerMinute + c.seconds;
    DivModUnique(total, SecondsPerDay, c.days, rest);
    DivModUnique(rest, SecondsPerHour, c.hours, c.minutes * SecondsPerMinute + c.seconds);
    DivModUnique(c.minutes * SecondsPerMinute + c.seconds, SecondsPerMinute, c.minutes, c.seconds);
  }

  /**
   * Taking away the whole `unit`s of whole seconds, in nanoseconds, leaves a duration
   * whose whole seconds are the remainder: what each `duration -= ...` step does.
   */
  lemma {:induction false} PeelStep(duration: int, unit: nat)
    requires unit > 0
    ensures TruncDiv(duration - TruncDiv(TruncDiv(duration, NanosPerSecond), unit) * unit * NanosPerSecond, NanosPerSecond)
      == TruncRem(TruncDiv(duration, NanosPerSecond), unit)
  {
    var n := Abs(duration);
    var s := n / NanosPerSecond;
    var q, rr := s / unit, s % unit;
    PeelMagnitude(n, unit);
    var left := n - q * unit * NanosPerSecond;
    if duration >= 0 {
      assert TruncDiv(duration, NanosPerSecond) == s;
      assert TruncDiv(s, unit) == q;
      assert TruncDiv(left, NanosPerSecond) == rr;
    } else {
      assert TruncDiv(duration, NanosPerSecond) == -s;
      assert TruncDiv(-s, unit) == -q;
      assert TruncRem(-s, unit) == -rr;
      assert (-q) * unit * NanosPerSecond == -(q * unit * NanosPerSecond);
      assert duration - (-q) * unit * NanosPerSecond == -left;
      assert TruncDiv(-left, NanosPerSecond) == -rr;
    }
  }

  /** `PeelStep` for the magnitude of the duration. */
  lemma {:induction false} PeelMagnitude(n: nat, unit: nat)
    requires unit > 0
    ensures var q, rr := (n / NanosPerSecond) / unit, (n / NanosPerSecond) % unit;
      n - q * unit * NanosPerSecond >= 0 && (n - q * unit * NanosPerSecond) / NanosPerSecond == rr
  {
    var s, r := n / NanosPerSecond, n % NanosPerSecond;
    var q, rr := s / unit, s % unit;
    DivModBounds(n, NanosPerSecond);
    DivModBounds(s, unit);
    var qu := q * unit;
    assert n == (qu + rr) * NanosPerSecond + r;
    assert (qu + rr) * NanosPerSecond == qu * NanosPerSecond + rr * NanosPerSecond;
    assert n - qu * NanosPerSecond == rr * NanosPerSecond + r;
    DivModUnique(rr * NanosPerSecond + r, NanosPerSecond, rr, r);
  }

  /** `format_time`: the text printed, or the error `main` reports. */
  method FormatTime(nanos: Option<i64>, seconds: Option<i64>) returns (r: Result<string, string>)
    ensures r.Err? <==> Duration(nanos, seconds).Err?
    ensures r.Err? ==> r.error == Duration(nanos, seconds).error
    ensures r.Ok? ==> r.value == Formatted(Duration(nanos, seconds).value)
  {
    var duration: int;
    if nanos.Some? {
      duration := nanos.value as int;
    } else if seconds.Some? {
      if seconds.value as int < -(MaxSeconds as int) || seconds.value as int > MaxSeconds {
        return Err("Failed to convert seconds.");
      }
      duration := seconds.value as int * NanosPerSecond;
    } else {
      return Err("Either specify nanos or seconds");
    }
    var text := Decomposed(duration);
    return Ok(text);
  }

  /** The decomposition and formatting that both versions share. */
  method Decomposed(start: int) returns (formatted: string)
    ensures formatted == Formatted(start)
  {
    var days, hours, minutes, secs := Parts(start);
    formatted := FormatClock(days, hours, minutes, secs);
  }

  /** The `num_*` and `duration -= ...` steps: each part is read off, then taken away. */
  method Parts(start: int) returns (days: int, hours: int, minutes: int, secs: int)
    ensures Clock(days, hours, minutes, secs) == Decompose(TruncDiv(start, NanosPerSecond))
  {
    var duration := start;
    ghost var total := TruncDiv(duration, NanosPerSecond);
    days := TruncDiv(TruncDiv(duration, NanosPerSecond), SecondsPerDay);
    PeelStep(duration, SecondsPerDay);
    duration := duration - days * SecondsPerDay * NanosPerSecond;
    ghost var dayRest := TruncDiv(duration, NanosPerSecond);
    assert dayRest == TruncRem(total, SecondsPerDay);
    hours := TruncDiv(TruncDiv(duration, NanosPerSecond), SecondsPerHour);
    PeelStep(duration, SecondsPerHour);
    duration := duration - hours * SecondsPerHour * NanosPerSecond;
    ghost var hourRest := TruncDiv(duration, NanosPerSecond);
    assert hourRest == TruncRem(dayRest, SecondsPerHour);
    minutes := TruncDiv(TruncDiv(duration, NanosPerSecond), SecondsPerMinute);
    PeelStep(duration, SecondsPerMinute);
    duration := duration - minutes * SecondsPerMinute * NanosPerSecond;
    secs := TruncDiv(duration, NanosPerSecond);
    assert secs == TruncRem(hourRest, SecondsPerMinute);
  }

  /** The `formatted` string: the days part when there are days, then the clock. */
  method FormatClock(days: int, hours: int, minutes: int, secs: int) returns (formatted: string)
    ensures formatted == Render(Clock(days, hours, minutes, secs))
  {
    formatted := "";
    if days > 0 {
      formatted := formatted + NatToString(days) + " days ";
    }
    assert formatted == DaysPrefix(days);
    formatted := formatted + Pad2(hours) + ":" + Pad2(minutes) + ":" + Pad2(secs);
  }

  /** How the older script ends: the text printed, a message and exit status 1, or a panic. */
  datatype LegacyOutcome = Printed(text: string) | ExitFailure(message: string) | Panicked

  /**
   * The older `format_time`: the same decomposition, but without `--nanos` or
   * `--seconds` it exits with status 1, and chrono's `Duration::seconds` panics on
   * seconds beyond its range.
   */
  method FormatTimeLegacy(nanos: Option<i64>, seconds: Option<i64>) returns (outcome: LegacyOutcome)
    ensures outcome.ExitFailure? <==> nanos.None? && seconds.None?
    ensures outcome.ExitFailure? ==> outcome.message == Duration(nanos, seconds).error
    ensures outcome == Panicked <==> Duration(nanos, seconds) == Err("Failed to convert seconds.")
    ensures outcome.Printed? <==> Duration(nanos, seconds).Ok?
    ensures outcome.Printed? ==> outcome.text == Formatted(Duration(nanos, seconds).value)
  {
    var duration := 0;
    if nanos.Some? {
      duration := nanos.value as int;
    } else if seconds.Some? {
      if seconds.value as int < -(MaxSeconds as int) || seconds.value as int > MaxSeconds {
        return Panicked;
      }
      duration := seconds.value as int * NanosPerSecond;
    } else {
      return ExitFailure("Either specify nanos or seconds");
    }
    var text := Decomposed(duration);
    return Printed(text);
  }

  /** Two digits spell a number below 100 in `{:02}`. */
  lemma {:induction false} Pad2Digits(n: nat)
    requires n < 100
    ensures |Pad2(n)| == 2 && ParseUsize(Pad2(n)) == Some(n)
  {
    if n < 10 {
      var p := Pad2(n);
      assert p == ['0', DigitChar(n)];
      assert p[..1] == ['0'] && ['0'][..0] == [];
      assert DigitsValue(['0']) == 0;
      assert DigitsValue(p) == DigitsValue(p[..1]) * 10 + n;
    } else {
      assert n / 10 < 10;
      ParseUsizeFormat(n);
    }
  }

  /**
   * For a non-negative duration the text ends in "HH:MM:SS", and the three fields
   * read back as the hours, minutes and seconds; anything before them is the days part.
   */
  lemma {:induction false} RenderReadsBack(c: Clock)
    requires c.days >= 0 && 0 <= c.hours < 24 && 0 <= c.minutes < 60 && 0 <= c.seconds < 60
    ensures var r := Render(c);
      && |r| >= 8 && r[|r| - 6] == ':' && r[|r| - 3] == ':'
      && ParseUsize(r[|r| - 8..|r| - 6]) == Some(c.hours)
      && ParseUsize(r[|r| - 5..|r| - 3]) == Some(c.minutes)
      && ParseUsize(r[|r| - 2..]) == Some(c.seconds)
      && r[..|r| - 8] == DaysPrefix(c.days)
  {
    Pad2Digits(c.hours);
    Pad2Digits(c.minutes);
    Pad2Digits(c.seconds);
    ClockFields(DaysPrefix(c.days), Pad2(c.hours), Pad2(c.minutes), Pad2(c.seconds), c.hours, c.minutes, c.seconds);
  }

  /** The days part is empty without days; otherwise it is the number, read back, and " days ". */
  lemma {:induction false} DaysPrefixReadsBack(days: nat)
    requires days < UsizeLimit
    ensures days == 0 <==> DaysPrefix(days) == ""
    ensures days > 0 ==> var p := DaysPrefix(days);
      |p| > 6 && p[|p| - 6..] == " days " && ParseUsize(p[..|p| - 6]) == Some(days)
  {
    if days > 0 {
      var p := DaysPrefix(days);
      ParseUsizeFormat(days);
      assert p[..|p| - 6] == NatToString(days);
    }
  }

  /** Where the fields sit in `prefix + h + ":" + m + ":" + s` when each field is two digits. */
  lemma {:induction false} ClockFields(prefix: string, h: string, m: string, s: string, hv: nat, mv: nat, sv: nat)
    requires |h| == 2 && |m| == 2 && |s| == 2
    requires ParseUsize(h) == Some(hv) && ParseUsize(m) == Some(mv) && ParseUsize(s) == Some(sv)
    ensures var r := prefix + h + ":" + m + ":" + s;
      && |r| >= 8 && r[|r| - 6] == ':' && r[|r| - 3] == ':'
      && ParseUsize(r[|r| - 8..|r| - 6]) == Some(hv)
      && ParseUsize(r[|r| - 5..|r| - 3]) == Some(mv)
      && ParseUsize(r[|r| - 2..]) == Some(sv)
      && r[..|r| - 8] == prefix
  {
    var r := prefix + h + ":" + m + ":" + s;
    var k := |prefix|;
    assert r == prefix + (h + ":" + m + ":" + s);
    assert r[k..] == h + ":" + m + ":" + s;
    assert r[k..k + 2] == h && r[k + 3..k + 5] == m && r[k + 6..] == s;
  }

  /** A negative duration never shows a days part: `days > 0` fails for it. */
  lemma {:induction false} NegativeHasNoDays(duration: int)
    requires duration < 0
    ensures DaysPrefix(Decompose(TruncDiv(duration, NanosPerSecond)).days) == ""
  {
    DecomposeIdentity(TruncDiv(duration, NanosPerSecond));
  }
}
