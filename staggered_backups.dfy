/**
 * Staggered backup retention: backup files are ordered by the date-time in their
 * names, put into date brackets (newest brackets first), and in every bracket only
 * the oldest file is kept. Date-times are minute stamps; dates are day numbers.
 */
module StaggeredBackups {
  import opened Wrappers

  const MinutesPerDay: int := 1440

  /** The date of a date-time: the day that contains the minute. */
  function DayOf(time: int): int {
    time / MinutesPerDay
  }

  lemma {:induction false} DayOfMonotone(a: int, b: int)
    requires a <= b
    ensures DayOf(a) <= DayOf(b)
  {
  }

  /** A backup file under the date-time parsed from its name. */
  datatype Entry = Entry(time: int, file: string)

  /** The entries of a `BTreeMap` keyed by date-time: strictly ascending times. */
  predicate Sorted(es: seq<Entry>) {
    forall i, j :: 0 <= i < j < |es| ==> es[i].time < es[j].time
  }

  /** `BTreeMap::insert`: a new time is added in order; an equal time gets the new file. */
  function Insert(es: seq<Entry>, e: Entry): (r: seq<Entry>)
    decreases |es|
  {
    if es == [] then [e]
    else if es[0].time == e.time then [e] + es[1..]
    else if e.time < es[0].time then [e] + es
    else [es[0]] + Insert(es[1..], e)
  }

  /** Insertion keeps the map ordered. */
  lemma {:induction false} InsertSorted(es: seq<Entry>, e: Entry)
    requires Sorted(es)
    ensures Sorted(Insert(es, e))
    decreases |es|
  {
    if es != [] && es[0].time < e.time {
      InsertSorted(es[1..], e);
      InsertContents(es[1..], e);
      var r := Insert(es[1..], e);
      assert Insert(es, e) == [es[0]] + r;
      forall x | x in r ensures es[0].time < x.time {
        if x != e {
          var j :| 0 <= j < |es[1..]| && es[1..][j] == x;
          assert es[j + 1] == x;
        }
      }
    }
  }

  /** The map holds the inserted entry, no other entry of its time, and the other times' entries. */
  lemma {:induction false} InsertContents(es: seq<Entry>, e: Entry)
    ensures e in Insert(es, e)
    ensures forall x :: x in Insert(es, e) ==> x == e || x in es
    ensures forall x :: x in es && x.time != e.time ==> x in Insert(es, e)
    decreases |es|
  {
    if es != [] && es[0].time < e.time {
      InsertContents(es[1..], e);
      assert Insert(es, e) == [es[0]] + Insert(es[1..], e);
      forall x | x in es && x.time != e.time ensures x in Insert(es, e) {
        if x != es[0] {
          var j :| 0 <= j < |es| && es[j] == x;
          assert es[1..][j - 1] == x;
        }
      }
    } else if es != [] && es[0].time == e.time {
      forall x | x in es && x.time != e.time ensures x in es[1..] {
        var j :| 0 <= j < |es| && es[j] == x;
        assert j != 0;
        assert es[1..][j - 1] == x;
      }
    }
  }

  /** On ordered entries, the inserted time has only the inserted file. */
  lemma {:induction false} InsertReplaces(es: seq<Entry>, e: Entry, x: Entry)
    requires Sorted(es) && x in Insert(es, e) && x.time == e.time
    ensures x == e
  {
    InsertSorted(es, e);
    InsertContents(es, e);
    var r := Insert(es, e);
    var i :| 0 <= i < |r| && r[i] == x;
    var j :| 0 <= j < |r| && r[j] == e;
    if i != j {
      assert false;
    }
  }

  /** The backup files of a directory; `None` stands for a name the date could not be parsed from. */
  function Collected(files: seq<(Option<int>, string)>): (r: seq<Entry>)
    decreases |files|
  {
    if files == [] then []
    else
      var rest := Collected(files[..|files| - 1]);
      var (time, file) := files[|files| - 1];
      if time.Some? then Insert(rest, Entry(time.value, file)) else rest
  }

  /** The loop of `run_staggered_backup` that fills `files_by_date`. */
  method CollectFiles(files: seq<(Option<int>, string)>) returns (es: seq<Entry>)
    ensures es == Collected(files)
  {
    es := [];
    for i := 0 to |files|
      invariant es == Collected(files[..i])
    {
      assert files[..i + 1][..i] == files[..i];
      var (time, file) := files[i];
      if time.None? {
        continue;
      }
      es := Insert(es, Entry(time.value, file));
    }
    assert files[..|files|] == files;
  }

  lemma {:induction false} CollectedSorted(files: seq<(Option<int>, string)>)
    ensures Sorted(Collected(files))
    decreases |files|
  {
    if files != [] {
      CollectedSorted(files[..|files| - 1]);
      var (time, file) := files[|files| - 1];
      if time.Some? {
        InsertSorted(Collected(files[..|files| - 1]), Entry(time.value, file));
      }
    }
  }

  /** Of several files with the same date-time, the last one listed is the one kept. */
  lemma {:induction false} CollectedLastWins(files: seq<(Option<int>, string)>, i: nat)
    requires i < |files| && files[i].0.Some?
    requires forall j :: i < j < |files| ==> files[j].0 != files[i].0
    ensures Entry(files[i].0.value, files[i].1) in Collected(files)
    decreases |files|
  {
    var init := files[..|files| - 1];
    CollectedSorted(init);
    var (time, file) := files[|files| - 1];
    if i < |files| - 1 {
      CollectedLastWins(init, i);
      if time.Some? {
        InsertContents(Collected(init), Entry(time.value, file));
      }
    } else {
      InsertContents(Collected(init), Entry(time.value, file));
    }
  }

  /** Every kept entry comes from a file whose name parsed to its date-time. */
  lemma {:induction false} CollectedFromFiles(files: seq<(Option<int>, string)>, e: Entry)
    requires e in Collected(files)
    ensures exists i :: 0 <= i < |files| && files[i] == (Some(e.time), e.file)
    decreases |files|
  {
    var init := files[..|files| - 1];
    var (time, file) := files[|files| - 1];
    CollectedSorted(init);
    if time.Some? {
      InsertContents(Collected(init), Entry(time.value, file));
    }
    if e in Collected(init) {
      CollectedFromFiles(init, e);
      var i :| 0 <= i < |init| && init[i] == (Some(e.time), e.file);
      assert files[i] == init[i];
    } else {
      assert files[|files| - 1] == (Some(e.time), e.file);
    }
  }

  /** A date range: `days` days after `start`, both ends included. */
  datatype Bracket = Bracket(start: int, days: nat, description: string)

  predicate InBracket(e: Entry, b: Bracket) {
    b.start <= DayOf(e.time) <= b.start + b.days
  }

  /**
   * Filling one bracket from the newest remaining entries: the entries taken (oldest
   * first) and those left, or the newest entry when it lies after the bracket's end.
   */
  function Take(remaining: seq<Entry>, b: Bracket): Result<(seq<Entry>, seq<Entry>), Entry>
    decreases |remaining|
  {
    if remaining == [] then Ok(([], []))
    else
      var last := remaining[|remaining| - 1];
      if DayOf(last.time) < b.start then Ok(([], remaining))
      else if DayOf(last.time) > b.start + b.days then Err(last)
      else match Take(remaining[..|remaining| - 1], b)
        case Err(e) => Err(e)
        case Ok((taken, rest)) => Ok((taken + [last], rest))
  }

  /** The taken entries are in the bracket and, put after the rest, give back the entries. */
  lemma {:induction false} TakePartition(remaining: seq<Entry>, b: Bracket)
    requires Take(remaining, b).Ok?
    ensures var (taken, rest) := Take(remaining, b).value;
      && rest + taken == remaining
      && (forall e :: e in taken ==> InBracket(e, b))
      && (rest == [] || DayOf(rest[|rest| - 1].time) < b.start)
    decreases |remaining|
  {
    if remaining != [] && b.start <= DayOf(remaining[|remaining| - 1].time) {
      var last := remaining[|remaining| - 1];
      var init := remaining[..|remaining| - 1];
      TakePartition(init, b);
      var (taken, rest) := Take(init, b).value;
      assert Take(remaining, b).value == (taken + [last], rest);
      assert rest + (taken + [last]) == init + [last] == remaining;
      forall e | e in taken + [last] ensures InBracket(e, b) {
        if e != last {
          assert e in taken;
        }
      }
    }
  }

  /** On ordered entries a bracket fails exactly when the newest entry lies after its end. */
  lemma {:induction false} TakeFails(remaining: seq<Entry>, b: Bracket)
    requires Sorted(remaining)
    ensures Take(remaining, b).Err? <==> remaining != [] && DayOf(remaining[|remaining| - 1].time) > b.start + b.days
    ensures Take(remaining, b).Err? ==> Take(remaining, b).error == remaining[|remaining| - 1]
    decreases |remaining|
  {
    if remaining != [] {
      var last := remaining[|remaining| - 1];
      var init := remaining[..|remaining| - 1];
      if b.start <= DayOf(last.time) <= b.start + b.days {
        TakeFails(init, b);
        if init != [] {
          DayOfMonotone(init[|init| - 1].time, last.time);
        }
      }
    }
  }

  datatype Assignment = Assignment(filled: seq<seq<Entry>>, rest: seq<Entry>)

  /** The bracket and the entry of a "file in the future" error. */
  datatype Future = Future(bracket: nat, entry: Entry)

  /** The brackets filled in order, each from what the brackets before it left. */
  function Assign(entries: seq<Entry>, brackets: seq<Bracket>): Result<Assignment, Future>
    decreases |brackets|
  {
    if brackets == [] then Ok(Assignment([], entries))
    else match Assign(entries, brackets[..|brackets| - 1])
      case Err(f) => Err(f)
      case Ok(a) =>
        match Take(a.rest, brackets[|brackets| - 1])
          case Err(e) => Err(Future(|brackets| - 1, e))
          case Ok((taken, rest)) => Ok(Assignment(a.filled + [taken], rest))
  }

  /** The bracket contents from the last bracket back to the first. */
  function Stacked(filled: seq<seq<Entry>>): seq<Entry>
    decreases |filled|
  {
    if filled == [] then [] else filled[|filled| - 1] + Stacked(filled[..|filled| - 1])
  }

  lemma {:induction false} StackedMember(filled: seq<seq<Entry>>, k: nat, e: Entry)
    requires k < |filled| && e in filled[k]
    ensures e in Stacked(filled)
    decreases |filled|
  {
    if k < |filled| - 1 {
      StackedMember(filled[..|filled| - 1], k, e);
    }
  }

  /**
   * A successful assignment fills one bracket per bracket, every entry of a bracket
   * lies in its range, and the leftovers followed by the brackets' entries from the
   * last bracket back to the first are exactly the entries: every entry lands in at
   * most one bracket, and none is lost.
   */
  lemma {:induction false} AssignPartition(entries: seq<Entry>, brackets: seq<Bracket>)
    requires Assign(entries, brackets).Ok?
    ensures var a := Assign(entries, brackets).value;
      && |a.filled| == |brackets|
      && a.rest + Stacked(a.filled) == entries
      && (forall k, e :: 0 <= k < |brackets| && e in a.filled[k] ==> InBracket(e, brackets[k]))
    decreases |brackets|
  {
    if brackets != [] {
      var init := brackets[..|brackets| - 1];
      AssignPartition(entries, init);
      var a := Assign(entries, init).value;
      TakePartition(a.rest, brackets[|brackets| - 1]);
      var (taken, rest) := Take(a.rest, brackets[|brackets| - 1]).value;
      var filled := a.filled + [taken];
      assert filled[..|filled| - 1] == a.filled;
      assert rest + Stacked(filled) == rest + taken + Stacked(a.filled);
      forall k, e | 0 <= k < |brackets| && e in filled[k] ensures InBracket(e, brackets[k]) {
        if k < |brackets| - 1 {
          assert filled[k] == a.filled[k] && brackets[k] == init[k];
        }
      }
    }
  }

  /** An error ends the filling: later brackets do not change it. */
  lemma {:induction false} AssignFailureIsFinal(entries: seq<Entry>, brackets: seq<Bracket>, k: nat)
    requires k <= |brackets| && Assign(entries, brackets[..k]).Err?
    ensures Assign(entries, brackets) == Assign(entries, brackets[..k])
    decreases |brackets|
  {
    if k < |brackets| {
      var init := brackets[..|brackets| - 1];
      assert init[..k] == brackets[..k];
      AssignFailureIsFinal(entries, init, k);
    } else {
      assert brackets[..k] == brackets;
    }
  }

  /** In every bracket the oldest entry is kept; the others are listed for removal. */
  function KeptOf(filled: seq<seq<Entry>>): seq<Entry>
    decreases |filled|
  {
    if filled == [] then []
    else
      var es := filled[|filled| - 1];
      KeptOf(filled[..|filled| - 1]) + (if es == [] then [] else [es[0]])
  }

  function ListedOf(filled: seq<seq<Entry>>): seq<Entry>
    decreases |filled|
  {
    if filled == [] then []
    else
      var es := filled[|filled| - 1];
      ListedOf(filled[..|filled| - 1]) + (if es == [] then [] else es[1..])
  }

  function Files(es: seq<Entry>): (r: seq<string>)
    ensures |r| == |es| && forall i :: 0 <= i < |es| ==> r[i] == es[i].file
  {
    seq(|es|, i requires 0 <= i < |es| => es[i].file)
  }

  /** The result of a run over one directory. */
  datatype Outcome =
    | NoFiles
    | InTheFuture(bracket: nat, entry: Entry)
    | Finished(kept: seq<Entry>, listed: seq<Entry>, removed: seq<string>)

  /** What `run_staggered_backup` decides, given the brackets; files are removed only with `execute`. */
  function Run(files: seq<(Option<int>, string)>, brackets: seq<Bracket>, execute: bool): (r: Outcome)
    ensures r.NoFiles? <==> forall i :: 0 <= i < |files| ==> files[i].0.None?
    ensures r.Finished? && !execute ==> r.removed == []
    ensures r.Finished? && execute ==> r.removed == Files(r.listed)
  {
    CollectedEmpty(files);
    var entries := Collected(files);
    if entries == [] then NoFiles
    else match Assign(entries, brackets)
      case Err(f) => InTheFuture(f.bracket, f.entry)
      case Ok(a) =>
        var listed := ListedOf(a.filled);
        Finished(KeptOf(a.filled), listed, if execute then Files(listed) else [])
  }

  /** No parsed date-time means no entry, and every parsed one leaves an entry. */
  lemma {:induction false} CollectedEmpty(files: seq<(Option<int>, string)>)
    ensures Collected(files) == [] <==> forall i :: 0 <= i < |files| ==> files[i].0.None?
    decreases |files|
  {
    if files != [] {
      var init := files[..|files| - 1];
      CollectedEmpty(init);
      var (time, file) := files[|files| - 1];
      if time.Some? {
        InsertContents(Collected(init), Entry(time.value, file));
      }
      assert forall i :: 0 <= i < |init| ==> init[i] == files[i];
    }
  }

  /** `run_staggered_backup` on already parsed names: collect, fill the brackets, keep the oldest. */
  method RunStaggeredBackup(files: seq<(Option<int>, string)>, brackets: seq<Bracket>, execute: bool)
    returns (outcome: Outcome)
    ensures outcome == Run(files, brackets, execute)
  {
    var entries := CollectFiles(files);
    if entries == [] {
      return NoFiles;
    }
    CollectedSorted(files);
    var remaining := entries;
    var filled: seq<seq<Entry>> := [];
    for k := 0 to |brackets|
      invariant Assign(entries, brackets[..k]) == Ok(Assignment(filled, remaining))
      invariant Sorted(remaining)
    {
      assert brackets[..k + 1][..k] == brackets[..k];
      var t := FillBracket(remaining, brackets[k]);
      if t.Err? {
        AssignFailureIsFinal(entries, brackets, k + 1);
        return InTheFuture(k, t.error);
      }
      filled := filled + [t.value.0];
      remaining := t.value.1;
    }
    assert brackets[..|brackets|] == brackets;
    var kept: seq<Entry> := [];
    var listed: seq<Entry> := [];
    var removed: seq<string> := [];
    for k := 0 to |filled|
      invariant kept == KeptOf(filled[..k]) && listed == ListedOf(filled[..k])
      invariant removed == if execute then Files(listed) else []
    {
      assert filled[..k + 1][..k] == filled[..k];
      var es := filled[k];
      if es != [] {
        kept := kept + [es[0]];
        listed, removed := ListBracket(es, listed, removed, execute);
      }
    }
    assert filled[..|filled|] == filled;
    return Finished(kept, listed, removed);
  }

  /**
   * One pass of the bracket loop: pop the newest remaining entries while they fall in
   * the bracket, stop at the first older one, and fail on one newer than the bracket.
   */
  method FillBracket(remaining: seq<Entry>, b: Bracket) returns (t: Result<(seq<Entry>, seq<Entry>), Entry>)
    requires Sorted(remaining)
    ensures t == Take(remaining, b)
    ensures t.Ok? ==> Sorted(t.value.1)
  {
    var rest := remaining;
    var taken: seq<Entry> := [];
    TakeNothing(remaining, b);
    while rest != []
      invariant Sorted(rest + taken)
      invariant Take(remaining, b) == Prepended(Take(rest, b), taken)
      decreases |rest|
    {
      var last := rest[|rest| - 1];
      var date := DayOf(last.time);
      if date < b.start {
        TakeDone(rest, taken, b);
        break;
      } else if date > b.start + b.days {
        return Err(last);
      }
      PopNewest(rest, taken);
      TakeStep(rest, taken, b);
      rest := rest[..|rest| - 1];
      taken := Insert(taken, last);
    }
    if rest == [] {
      TakeDone(rest, taken, b);
    }
    assert Sorted(rest) by {
      assert forall i :: 0 <= i < |rest| ==> (rest + taken)[i] == rest[i];
    }
    return Ok((taken, rest));
  }

  /** Every entry of a bracket after its oldest is listed, and removed when executing. */
  method ListBracket(es: seq<Entry>, listed: seq<Entry>, removed: seq<string>, execute: bool)
    returns (listed': seq<Entry>, removed': seq<string>)
    requires es != [] && removed == if execute then Files(listed) else []
    ensures listed' == listed + es[1..]
    ensures removed' == if execute then Files(listed') else []
  {
    listed', removed' := listed, removed;
    var j := 1;
    while j < |es|
      invariant 1 <= j <= |es|
      invariant listed' == listed + es[1..j]
      invariant removed' == if execute then Files(listed') else []
    {
      listed' := listed' + [es[j]];
      if execute {
        removed' := removed' + [es[j].file];
      }
      assert es[1..j + 1] == es[1..j] + [es[j]];
      j := j + 1;
    }
    assert es[1..j] == es[1..];
  }

  /** The fold of the entries taken so far into the outcome of `Take`. */
  function Prepended(t: Result<(seq<Entry>, seq<Entry>), Entry>, taken: seq<Entry>): Result<(seq<Entry>, seq<Entry>), Entry> {
    match t
      case Err(e) => Err(e)
      case Ok((t, rest)) => Ok((t + taken, rest))
  }

  lemma {:induction false} TakeNothing(remaining: seq<Entry>, b: Bracket)
    ensures Prepended(Take(remaining, b), []) == Take(remaining, b)
  {
    if Take(remaining, b).Ok? {
      assert Take(remaining, b).value.0 + [] == Take(remaining, b).value.0;
    }
  }

  lemma {:induction false} TakeDone(remaining: seq<Entry>, taken: seq<Entry>, b: Bracket)
    requires remaining == [] || DayOf(remaining[|remaining| - 1].time) < b.start
    ensures Prepended(Take(remaining, b), taken) == Ok((taken, remaining))
  {
    assert [] + taken == taken;
  }

  /** Taking the newest entry moves it to the front of those taken. */
  lemma {:induction false} TakeStep(remaining: seq<Entry>, taken: seq<Entry>, b: Bracket)
    requires remaining != [] && InBracket(remaining[|remaining| - 1], b)
    ensures Prepended(Take(remaining, b), taken) ==
      Prepended(Take(remaining[..|remaining| - 1], b), [remaining[|remaining| - 1]] + taken)
  {
    var init := remaining[..|remaining| - 1];
    if Take(init, b).Ok? {
      var (t, r) := Take(init, b).value;
      assert t + [remaining[|remaining| - 1]] + taken == t + ([remaining[|remaining| - 1]] + taken);
    }
  }

  /** Popping the newest entry into a bracket's map puts it in front of the entries taken before. */
  lemma {:induction false} PopNewest(remaining: seq<Entry>, taken: seq<Entry>)
    requires remaining != [] && Sorted(remaining + taken)
    ensures Insert(taken, remaining[|remaining| - 1]) == [remaining[|remaining| - 1]] + taken
    ensures Sorted(remaining[..|remaining| - 1] + ([remaining[|remaining| - 1]] + taken))
  {
    var s := remaining + taken;
    var last := remaining[|remaining| - 1];
    assert remaining[..|remaining| - 1] + ([last] + taken) == s;
    if taken != [] {
      assert s[|remaining| - 1] == last && s[|remaining|] == taken[0];
    }
  }

  /** Both parts of an ordered sequence are ordered. */
  lemma {:induction false} SortedParts(front: seq<Entry>, back: seq<Entry>)
    requires Sorted(front + back)
    ensures Sorted(front) && Sorted(back)
  {
    var s := front + back;
    forall i, j | 0 <= i < j < |back| ensures back[i].time < back[j].time {
      assert s[|front| + i] == back[i] && s[|front| + j] == back[j];
    }
    forall i, j | 0 <= i < j < |front| ensures front[i].time < front[j].time {
      assert s[i] == front[i] && s[j] == front[j];
    }
  }

  /** Filling the brackets from ordered entries leaves every bracket and the leftovers ordered. */
  lemma {:induction false} AssignSorted(entries: seq<Entry>, brackets: seq<Bracket>)
    requires Sorted(entries) && Assign(entries, brackets).Ok?
    ensures Sorted(Assign(entries, brackets).value.rest)
    ensures forall k :: 0 <= k < |Assign(entries, brackets).value.filled| ==>
      Sorted(Assign(entries, brackets).value.filled[k])
    decreases |brackets|
  {
    if brackets != [] {
      var init := brackets[..|brackets| - 1];
      AssignSorted(entries, init);
      var a := Assign(entries, init).value;
      TakePartition(a.rest, brackets[|brackets| - 1]);
      var (taken, rest) := Take(a.rest, brackets[|brackets| - 1]).value;
      SortedParts(rest, taken);
      var filled := a.filled + [taken];
      assert Assign(entries, brackets).value == Assignment(filled, rest);
      forall k | 0 <= k < |filled| ensures Sorted(filled[k]) {
        if k < |a.filled| {
          assert filled[k] == a.filled[k];
        }
      }
    }
  }

  /** In an ordered bracket the first entry is kept and the others are listed and newer. */
  lemma {:induction false} KeepsFirst(filled: seq<seq<Entry>>, k: nat)
    requires k < |filled| && filled[k] != [] && Sorted(filled[k])
    ensures filled[k][0] in KeptOf(filled)
    ensures forall e :: e in filled[k][1..] ==> e in ListedOf(filled) && filled[k][0].time < e.time
    decreases |filled|
  {
    var es := filled[k];
    forall e | e in es[1..] ensures es[0].time < e.time {
      var i :| 0 <= i < |es[1..]| && es[1..][i] == e;
      assert es[i + 1] == e;
    }
    if k < |filled| - 1 {
      KeepsFirst(filled[..|filled| - 1], k);
    }
  }

  /**
   * A run over the files finishes whenever the brackets can be filled, and in every
   * non-empty bracket it keeps the oldest entry and lists every other entry of that
   * bracket, all newer, for removal.
   */
  lemma {:induction false} KeepsOldest(files: seq<(Option<int>, string)>, brackets: seq<Bracket>, execute: bool, k: nat)
    requires Assign(Collected(files), brackets).Ok?
    requires k < |Assign(Collected(files), brackets).value.filled|
    requires Assign(Collected(files), brackets).value.filled[k] != []
    ensures Run(files, brackets, execute).Finished?
    ensures var es := Assign(Collected(files), brackets).value.filled[k];
      && es[0] in Run(files, brackets, execute).kept
      && forall e :: e in es[1..] ==> e in Run(files, brackets, execute).listed && es[0].time < e.time
  {
    var entries := Collected(files);
    var a := Assign(entries, brackets).value;
    CollectedSorted(files);
    AssignSorted(entries, brackets);
    AssignPartition(entries, brackets);
    StackedMember(a.filled, k, a.filled[k][0]);
    assert entries != [];
    KeepsFirst(a.filled, k);
  }

  /** Entries older than the last bracket stay in the map: they are neither kept nor listed. */
  lemma {:induction false} LeftoversUntouched(entries: seq<Entry>, brackets: seq<Bracket>, e: Entry)
    requires Sorted(entries) && Assign(entries, brackets).Ok?
    requires e in Assign(entries, brackets).value.rest
    ensures e !in KeptOf(Assign(entries, brackets).value.filled)
    ensures e !in ListedOf(Assign(entries, brackets).value.filled)
  {
    var a := Assign(entries, brackets).value;
    AssignPartition(entries, brackets);
    NotInBoth(entries, a.rest, Stacked(a.filled), e);
    if e in ListedOf(a.filled) {
      ListedInFilled(a.filled, e);
      var k :| 0 <= k < |a.filled| && e in a.filled[k];
      StackedMember(a.filled, k, e);
      assert false;
    }
    if e in KeptOf(a.filled) {
      KeptInFilled(a.filled, e);
      var k :| 0 <= k < |a.filled| && e in a.filled[k];
      StackedMember(a.filled, k, e);
      assert false;
    }
  }

  /** Ordered entries hold no entry twice. */
  lemma {:induction false} NotInBoth(entries: seq<Entry>, rest: seq<Entry>, stacked: seq<Entry>, e: Entry)
    requires Sorted(entries) && rest + stacked == entries && e in rest
    ensures e !in stacked
  {
    var i :| 0 <= i < |rest| && rest[i] == e;
    forall j | 0 <= j < |stacked| ensures stacked[j] != e {
      assert entries[|rest| + j] == stacked[j];
      assert entries[i] == e;
      assert entries[i].time < entries[|rest| + j].time;
    }
  }

  lemma {:induction false} ListedInFilled(filled: seq<seq<Entry>>, e: Entry)
    requires e in ListedOf(filled)
    ensures exists k :: 0 <= k < |filled| && e in filled[k]
    decreases |filled|
  {
    var init := filled[..|filled| - 1];
    var es := filled[|filled| - 1];
    if e in ListedOf(init) {
      ListedInFilled(init, e);
      var k :| 0 <= k < |init| && e in init[k];
      assert filled[k] == init[k];
    } else {
      assert e in es[1..];
      assert e in es;
    }
  }

  lemma {:induction false} KeptInFilled(filled: seq<seq<Entry>>, e: Entry)
    requires e in KeptOf(filled)
    ensures exists k :: 0 <= k < |filled| && e in filled[k]
    decreases |filled|
  {
    var init := filled[..|filled| - 1];
    var es := filled[|filled| - 1];
    if e in KeptOf(init) {
      KeptInFilled(init, e);
      var k :| 0 <= k < |init| && e in init[k];
      assert filled[k] == init[k];
    } else {
      assert e == es[0];
      assert e in es;
    }
  }
}
