/**
 * `headphone_battery`: the battery status of wireless headphones for the status bar.
 * The output of `headsetcontrol --battery` is searched for its "Battery:" line; when
 * that gives nothing, the output of `bluetoothctl info` is searched for its
 * "Battery Percentage:" line; the status found is turned into a bar state and a text.
 * Running the commands is left out: each command's standard output is passed in, and
 * `None` stands for a command that failed.
 */
module HeadphoneBattery {
  import opened Wrappers
  import opened Text

  /** `BatteryStatus`; a percentage is a `usize`. */
  datatype BatteryStatus = Charging | Percentage(percent: nat)

  /** The bar states the status maps to. */
  datatype I3State = Idle | Good | Warning | Critical

  /**
   * What a parser gives: a status or `None`, or the panic of `&parts[1]` on a
   * matching line that has no second field.
   */
  datatype Parsed = Parsed(status: Option<BatteryStatus>) | OutOfBounds

  /** What `main` prints: a state and a text, the default (empty) status, or nothing after a panic. */
  datatype Report = Report(state: I3State, text: string) | Empty | Panicked

  /** `state_from_battery_status`. */
  function StateFromBatteryStatus(status: BatteryStatus): (s: I3State)
    ensures s == Critical <==> status.Percentage? && status.percent <= 15
    ensures s == Warning <==> status.Percentage? && 16 <= status.percent <= 25
    ensures s == Good <==> status.Percentage? && 26 <= status.percent <= 35
    ensures s == Idle <==> status.Charging? || status.percent > 35
  {
    match status
      case Charging => Idle
      case Percentage(percent) =>
        if percent <= 15 then Critical
        else if percent <= 25 then Warning
        else if percent <= 35 then Good
        else Idle
  }

  /** How urgent a state is, from idle to critical. */
  function Severity(s: I3State): nat {
    match s
      case Idle => 0
      case Good => 1
      case Warning => 2
      case Critical => 3
  }

  /**
   * A lower charge is never shown as less urgent, except that above 35% the state
   * drops back to idle (which is also what charging shows).
   */
  lemma {:induction false} StateMonotone(p: nat, q: nat)
    requires p <= q <= 35
    ensures Severity(StateFromBatteryStatus(Percentage(q))) <= Severity(StateFromBatteryStatus(Percentage(p)))
    ensures Severity(StateFromBatteryStatus(Percentage(q))) >= 1
  {
  }

  /** The text inside the brackets: "Charging", or the percentage followed by '%'. */
  function InnerText(status: BatteryStatus): string {
    match status
      case Charging => "Charging"
      case Percentage(percent) => NatToString(percent) + "%"
  }

  /** The text shown: the headphone glyph U+F025 and the inner text in brackets. */
  function StatusText(status: BatteryStatus): string {
    "(\U{F025} " + InnerText(status) + ")"
  }

  // headsetcontrol

  /** The line the headsetcontrol parser acts on. */
  predicate IsHeadsetLine(line: string) {
    StartsWith(line, "Battery:")
  }

  /** The body of the loop in `headsetcontrol` on a "Battery:" line: its second space-separated field decides. */
  function HeadsetLine(line: string): Parsed {
    var parts := Split(line, ' ');
    if |parts| < 2 then OutOfBounds else Parsed(BatteryField(parts[1]))
  }

  /** The status of that field: "Unavailable", "Charging", or a number before any '%' signs. */
  function BatteryField(battery: string): Option<BatteryStatus> {
    if battery == "Unavailable" then None
    else if battery == "Charging" then Some(Charging)
    else match ParseUsize(TrimEndMatches(battery, '%'))
      case None => None
      case Some(n) => Some(Percentage(n))
  }

  /** The outcome of the lines from index `k` on: the first "Battery:" line decides. */
  function HeadsetFrom(lines: seq<string>, k: nat): Parsed
    requires k <= |lines|
    decreases |lines| - k
  {
    if k == |lines| then Parsed(None)
    else if IsHeadsetLine(lines[k]) then HeadsetLine(lines[k])
    else HeadsetFrom(lines, k + 1)
  }

  /** `headsetcontrol`: a failed command gives `None`. */
  function Headset(output: Option<string>): Parsed {
    match output
      case None => Parsed(None)
      case Some(o) => HeadsetFrom(Lines(o), 0)
  }

  /** The loop of `headsetcontrol`, returning at the first "Battery:" line. */
  method HeadsetControl(output: Option<string>) returns (r: Parsed)
    ensures r == Headset(output)
  {
    if output.None? {
      return Parsed(None);
    }
    var lines := Lines(output.value);
    var i := 0;
    while i < |lines|
      invariant i <= |lines|
      invariant HeadsetFrom(lines, i) == HeadsetFrom(lines, 0)
    {
      if StartsWith(lines[i], "Battery:") {
        return HeadsetLine(lines[i]);
      }
      i := i + 1;
    }
    return Parsed(None);
  }

  /** The first "Battery:" line decides, whatever follows it. */
  lemma {:induction false} HeadsetFirstLine(lines: seq<string>, k: nat, i: nat)
    requires k <= i < |lines| && IsHeadsetLine(lines[i])
    requires forall j :: k <= j < i ==> !IsHeadsetLine(lines[j])
    ensures HeadsetFrom(lines, k) == HeadsetLine(lines[i])
    decreases i - k
  {
    if k < i {
      HeadsetFirstLine(lines, k + 1, i);
    }
  }

  /** Without a "Battery:" line the result is `None`. */
  lemma {:induction false} HeadsetNoLine(lines: seq<string>, k: nat)
    requires k <= |lines|
    requires forall j :: k <= j < |lines| ==> !IsHeadsetLine(lines[j])
    ensures HeadsetFrom(lines, k) == Parsed(None)
    decreases |lines| - k
  {
    if k < |lines| {
      HeadsetNoLine(lines, k + 1);
    }
  }

  /** The parse panics exactly on a "Battery:" line without a space. */
  lemma {:induction false} HeadsetLinePanics(line: string)
    ensures HeadsetLine(line).OutOfBounds? <==> ' ' !in line
  {
    SplitCount(line, ' ');
    assert ' ' in line <==> multiset(line)[' '] > 0;
  }

  /** The line headsetcontrol prints for a status reads back as that status. */
  lemma {:induction false} HeadsetReadsStatus(status: BatteryStatus)
    requires status.Percentage? ==> status.percent < UsizeLimit
    ensures IsHeadsetLine("Battery: " + InnerText(status))
    ensures HeadsetLine("Battery: " + InnerText(status)) == Parsed(Some(status))
  {
    InnerTextNoSpace(status);
    HeadsetField(InnerText(status));
    FieldReadsStatus(status);
  }

  lemma {:induction false} InnerTextNoSpace(status: BatteryStatus)
    ensures ' ' !in InnerText(status)
  {
    var field := InnerText(status);
    match status {
      case Charging =>
        assert forall i :: 0 <= i < |field| ==> field[i] != ' ';
      case Percentage(n) =>
        var digits := NatToString(n);
        NatToStringValue(n);
        forall i | 0 <= i < |field| ensures field[i] != ' ' {
          if i < |digits| {
            assert IsDigit(digits[i]);
          }
        }
    }
  }

  /** The inner text of a status, as a battery field, gives back the status. */
  lemma {:induction false} FieldReadsStatus(status: BatteryStatus)
    requires status.Percentage? ==> status.percent < UsizeLimit
    ensures BatteryField(InnerText(status)) == Some(status)
  {
    match status {
      case Charging =>
        assert |"Charging"| != |"Unavailable"|;
      case Percentage(n) =>
        var digits := NatToString(n);
        var field := digits + "%";
        assert field[|field| - 1] == '%';
        assert field != "Unavailable" by {
          assert "Unavailable"[10] == 'e';
        }
        assert field != "Charging" by {
          assert "Charging"[7] == 'g';
        }
        NatToStringValue(n);
        assert IsDigit(digits[|digits| - 1]);
        TrimOneTrailing(digits, '%');
        ParseUsizeFormat(n);
    }
  }

  /**
   * "Battery: " followed by a field without spaces is a "Battery:" line whose
   * status is that of the field ("Unavailable" gives `None`).
   */
  lemma {:induction false} HeadsetField(field: string)
    requires ' ' !in field
    ensures IsHeadsetLine("Battery: " + field)
    ensures Split("Battery: " + field, ' ') == ["Battery:", field]
    ensures HeadsetLine("Battery: " + field) == Parsed(BatteryField(field))
  {
    var line := "Battery: " + field;
    assert line[..8] == "Battery:";
    assert line[9..] == field;
    SplitAfterField(line, 8, ' ');
  }

  /** One trailing `c` after text that does not end in `c` is what `trim_end_matches` drops. */
  lemma {:induction false} TrimOneTrailing(s: string, c: char)
    requires s != [] && s[|s| - 1] != c
    ensures TrimEndMatches(s + [c], c) == s
  {
    assert (s + [c])[..|s|] == s;
  }

  /**
   * A line whose first separator is at `i`, followed by a piece without one, splits
   * into the part before and the part after the separator.
   */
  lemma {:induction false} SplitAfterField(s: string, i: nat, sep: char)
    requires i < |s| && s[i] == sep && sep !in s[..i] && sep !in s[i + 1..]
    ensures Split(s, sep) == [s[..i], s[i + 1..]]
  {
    assert sep in s;
    var k := IndexOf(s, sep);
    assert k == i;
  }

  // bluetoothctl

  /** The line the bluetoothctl parser acts on. */
  predicate IsBluetoothLine(line: string) {
    StartsWith(Trim(line), "Battery Percentage:")
  }

  /** The body of the loop in `bluetoothctl`: the piece between the first and the second '('. */
  function BluetoothLine(line: string): Parsed {
    var parts := Split(line, '(');
    if |parts| < 2 then OutOfBounds
    else match ParseUsize(TrimEndMatches(parts[1], ')'))
      case None => Parsed(None)
      case Some(n) => Parsed(Some(Percentage(n)))
  }

  function BluetoothFrom(lines: seq<string>, k: nat): Parsed
    requires k <= |lines|
    decreases |lines| - k
  {
    if k == |lines| then Parsed(None)
    else if IsBluetoothLine(lines[k]) then BluetoothLine(lines[k])
    else BluetoothFrom(lines, k + 1)
  }

  /** `bluetoothctl`: a failed command gives `None`. */
  function Bluetooth(output: Option<string>): Parsed {
    match output
      case None => Parsed(None)
      case Some(o) => BluetoothFrom(Lines(o), 0)
  }

  /** The loop of `bluetoothctl`, returning at the first "Battery Percentage:" line. */
  method BluetoothCtl(output: Option<string>) returns (r: Parsed)
    ensures r == Bluetooth(output)
  {
    if output.None? {
      return Parsed(None);
    }
    var lines := Lines(output.value);
    var i := 0;
    while i < |lines|
      invariant i <= |lines|
      invariant BluetoothFrom(lines, i) == BluetoothFrom(lines, 0)
    {
      if StartsWith(Trim(lines[i]), "Battery Percentage:") {
        return BluetoothLine(lines[i]);
      }
      i := i + 1;
    }
    return Parsed(None);
  }

  /** The first "Battery Percentage:" line decides, whatever follows it. */
  lemma {:induction false} BluetoothFirstLine(lines: seq<string>, k: nat, i: nat)
    requires k <= i < |lines| && IsBluetoothLine(lines[i])
    requires forall j :: k <= j < i ==> !IsBluetoothLine(lines[j])
    ensures BluetoothFrom(lines, k) == BluetoothLine(lines[i])
    decreases i - k
  {
    if k < i {
      BluetoothFirstLine(lines, k + 1, i);
    }
  }

  /** Without a "Battery Percentage:" line the result is `None`. */
  lemma {:induction false} BluetoothNoLine(lines: seq<string>, k: nat)
    requires k <= |lines|
    requires forall j :: k <= j < |lines| ==> !IsBluetoothLine(lines[j])
    ensures BluetoothFrom(lines, k) == Parsed(None)
    decreases |lines| - k
  {
    if k < |lines| {
      BluetoothNoLine(lines, k + 1);
    }
  }

  /** The parse panics exactly on a line without '('. */
  lemma {:induction false} BluetoothLinePanics(line: string)
    ensures BluetoothLine(line).OutOfBounds? <==> '(' !in line
  {
    SplitCount(line, '(');
    assert '(' in line <==> multiset(line)['('] > 0;
  }

  /**
   * A line that bluetoothctl prints, anything without '(' (the label and the hex
   * value) followed by the decimal value in brackets, reads back as that percentage.
   */
  lemma {:induction false} BluetoothReadsPercentage(prefix: string, n: nat)
    requires '(' !in prefix && n < UsizeLimit
    ensures BluetoothLine(prefix + "(" + NatToString(n) + ")") == Parsed(Some(Percentage(n)))
  {
    var digits := NatToString(n);
    var field := digits + ")";
    var line := prefix + "(" + field;
    assert line == prefix + "(" + NatToString(n) + ")";
    NatToStringValue(n);
    assert '(' !in field by {
      forall i | 0 <= i < |field| ensures field[i] != '(' {
        if i < |digits| {
          assert IsDigit(digits[i]);
        }
      }
    }
    assert line[..|prefix|] == prefix;
    assert line[|prefix| + 1..] == field;
    SplitAfterField(line, |prefix|, '(');
    assert IsDigit(digits[|digits| - 1]);
    TrimOneTrailing(digits, ')');
    ParseUsizeFormat(n);
  }

  // main

  /** The report for the status found, if any. */
  function ReportOf(status: Option<BatteryStatus>): (r: Report)
    ensures r.Empty? <==> status.None?
  {
    match status
      case None => Empty
      case Some(s) => Report(StateFromBatteryStatus(s), StatusText(s))
  }

  /**
   * `main`: headsetcontrol first; bluetoothctl only when headsetcontrol gave `None`.
   * A panic in either parser ends the program without output.
   */
  method Run(headsetOutput: Option<string>, bluetoothOutput: Option<string>) returns (report: Report, queriedBluetooth: bool)
    ensures queriedBluetooth <==> Headset(headsetOutput) == Parsed(None)
    ensures Headset(headsetOutput).OutOfBounds? ==> report == Panicked
    ensures Headset(headsetOutput).Parsed? && Headset(headsetOutput).status.Some? ==> report == ReportOf(Headset(headsetOutput).status)
    ensures queriedBluetooth ==> report == (if Bluetooth(bluetoothOutput).OutOfBounds? then Panicked else ReportOf(Bluetooth(bluetoothOutput).status))
  {
    var batteryStatus := HeadsetControl(headsetOutput);
    queriedBluetooth := false;
    if batteryStatus.Parsed? && batteryStatus.status.None? {
      queriedBluetooth := true;
      batteryStatus := BluetoothCtl(bluetoothOutput);
    }
    if batteryStatus.OutOfBounds? {
      return Panicked, queriedBluetooth;
    }
    report := ReportOf(batteryStatus.status);
  }
}
