/**
 * The status-bar summary of a markdown todo file: one entry per `#` headline,
 * with the number of completed and of all checkbox items below it.
 */
module PrintTodo {
  import opened Wrappers
  import opened Text
  import Sorting

  /** A line that starts a new todo: `starts_with('#')`. */
  predicate IsHeadline(line: string) {
    line != [] && line[0] == '#'
  }

  /** An unfinished item: `- [ ]` or `- []` after trimming. */
  predicate IsOpenItem(line: string) {
    StartsWith(Trim(line), "- [ ]") || StartsWith(Trim(line), "- []")
  }

  /** A finished item: `- [x]` after trimming. */
  predicate IsDoneItem(line: string) {
    StartsWith(Trim(line), "- [x]")
  }

  datatype ItemKind = OpenItem | DoneItem | NoItem

  /** The loop body's tests, in their order: unfinished first. */
  function KindOf(line: string): ItemKind {
    if IsOpenItem(line) then OpenItem else if IsDoneItem(line) then DoneItem else NoItem
  }

  /** An unfinished or a finished item. */
  predicate IsItem(line: string) {
    KindOf(line) != NoItem
  }

  predicate IsCompleted(line: string) {
    KindOf(line) == DoneItem
  }

  /** The counter (items, completed items) after one more line of the given kind. */
  function Bump(c: (nat, nat), kind: ItemKind): (nat, nat) {
    match kind
    case OpenItem => (c.0 + 1, c.1)
    case DoneItem => (c.0 + 1, c.1 + 1)
    case NoItem => c
  }

  /**
   * The counter of a section's lines, counted line by line as the loop does; `kind`
   * classifies one line (the todo file uses `KindOf`).
   */
  function Count(kind: string -> ItemKind, body: seq<string>): (c: (nat, nat))
    ensures c.1 <= c.0
  {
    if body == [] then (0, 0) else Bump(Count(kind, body[..|body| - 1]), kind(body[|body| - 1]))
  }

  /** " (completed/items)", only when the section holds an item. */
  function Counter(c: (nat, nat)): string {
    if c.0 > 0 then " (" + NatToString(c.1) + "/" + NatToString(c.0) + ")" else ""
  }

  /** The headline without its leading `#`, trimmed. */
  function Title(headline: string): string {
    if IsHeadline(headline) then Trim(headline[1..]) else ""
  }

  /** A todo's entry in the summary: its title and its counter. */
  function Entry(headline: string, counts: (nat, nat)): string {
    Title(headline) + Counter(counts)
  }

  /** The index of the first headline at or after `from`, or the number of lines when there is none. */
  function SectionEnd(lines: seq<string>, from: nat): (k: nat)
    requires from <= |lines|
    ensures from <= k <= |lines|
    decreases |lines| - from
  {
    if from == |lines| || IsHeadline(lines[from]) then from else SectionEnd(lines, from + 1)
  }

  /** A section ends at a headline, or at the end, and holds no headline before that. */
  lemma {:induction false} SectionEndSpec(lines: seq<string>, from: nat)
    requires from <= |lines|
    ensures SectionEnd(lines, from) < |lines| ==> IsHeadline(lines[SectionEnd(lines, from)])
    ensures forall j :: from <= j < SectionEnd(lines, from) ==> !IsHeadline(lines[j])
    decreases |lines| - from
  {
    if from < |lines| && !IsHeadline(lines[from]) {
      SectionEndSpec(lines, from + 1);
    }
  }

  /** Without a headline from `from` on, the section runs to the end. */
  lemma {:induction false} NoHeadlineSectionEnd(lines: seq<string>, from: nat)
    requires from <= |lines|
    requires forall j :: from <= j < |lines| ==> !IsHeadline(lines[j])
    ensures SectionEnd(lines, from) == |lines|
    decreases |lines| - from
  {
    if from < |lines| {
      NoHeadlineSectionEnd(lines, from + 1);
    }
  }

  /** A todo: its headline and the lines up to the next headline. */
  datatype Section = Section(headline: string, body: seq<string>)

  /** The todos from the headline at `at` on. */
  function Sections(lines: seq<string>, at: nat): (r: seq<Section>)
    requires at < |lines|
    ensures |r| >= 1
    decreases |lines| - at
  {
    var k := SectionEnd(lines, at + 1);
    [Section(lines[at], lines[at + 1..k])] + (if k < |lines| then Sections(lines, k) else [])
  }

  function SectionEntry(section: Section): string {
    Entry(section.headline, Count(KindOf, section.body))
  }

  function Entries(sections: seq<Section>): (r: seq<string>)
    ensures |r| == |sections|
  {
    if sections == [] then [] else [SectionEntry(sections[0])] + Entries(sections[1..])
  }

  /** The todos of a file: one per headline; lines before the first headline belong to none. */
  function Todos(lines: seq<string>): seq<Section> {
    var k := SectionEnd(lines, 0);
    if k == |lines| then [] else Sections(lines, k)
  }

  /** The text collected for the file's lines: the entries of its todos joined with ", ". */
  function Output(lines: seq<string>): string {
    Join(Entries(Todos(lines)), ", ")
  }

  /**
   * What is printed: "Nothing to do :)" for a missing file, "Nothing to do :) |" for
   * a blank summary, and the summary followed by " |" otherwise.
   */
  function StatusLine(content: Option<string>): string {
    match content
    case None => "Nothing to do :)"
    case Some(text) =>
      var output := Output(Lines(text));
      if IsBlank(output) then "Nothing to do :) |" else output + " |"
  }

  /** The counter of `lines[from..until]`, read off the file's lines in place. */
  function CountRange(kind: string -> ItemKind, lines: seq<string>, from: nat, until: nat): (nat, nat)
    requires from <= until <= |lines|
    decreases until - from
  {
    if until == from then (0, 0) else Bump(CountRange(kind, lines, from, until - 1), kind(lines[until - 1]))
  }

  /** One more line updates the counter as the loop body does. */
  lemma {:induction false} CountRangeSnoc(kind: string -> ItemKind, lines: seq<string>, from: nat, n: nat)
    requires from <= n < |lines|
    ensures CountRange(kind, lines, from, n + 1) == Bump(CountRange(kind, lines, from, n), kind(lines[n]))
  {
  }

  /** Counting in place is counting the section's lines. */
  lemma {:induction false} CountRangeIsCount(kind: string -> ItemKind, lines: seq<string>, from: nat, until: nat)
    requires from <= until <= |lines|
    ensures CountRange(kind, lines, from, until) == Count(kind, lines[from..until])
    decreases until - from
  {
    if until > from {
      CountRangeIsCount(kind, lines, from, until - 1);
      assert lines[from..until][..until - 1 - from] == lines[from..until - 1];
    }
  }

  /**
   * The summary from the headline at `at` on, as the headline loop builds it: the
   * section's entry, then ", " and the rest when another headline follows. `entry`
   * formats one section from its headline and its counter, `kind` classifies a line;
   * the todo file uses `Entry` and `KindOf`, and the lemmas about the structure of the
   * summary hold for any.
   */
  function Summary(entry: (string, (nat, nat)) -> string, kind: string -> ItemKind, lines: seq<string>, at: nat): string
    requires at < |lines|
    decreases |lines| - at
  {
    var k := SectionEnd(lines, at + 1);
    var e := entry(lines[at], CountRange(kind, lines, at + 1, k));
    if k < |lines| then e + ", " + Summary(entry, kind, lines, k) else e
  }

  /**
   * What `handle_todo_items` leaves behind for the section whose lines start at
   * `position`: the output extended by the section's entry, and by ", " when another
   * headline follows; that headline and the position after it, or `None` at the end.
   */
  predicate Handled(entry: (string, (nat, nat)) -> string, kind: string -> ItemKind, headline: string, lines: seq<string>,
                    position: nat, output: string, next: Option<string>, newPosition: nat, newOutput: string)
    requires position <= |lines|
  {
    var k := SectionEnd(lines, position);
    && newOutput == output + entry(headline, CountRange(kind, lines, position, k)) + (if k < |lines| then ", " else "")
    && (k < |lines| ==> next == Some(lines[k]) && newPosition == k + 1)
    && (k == |lines| ==> next == None && newPosition == |lines|)
  }

  /**
   * `handle_todo_items`: appends the title and the counter of the section whose lines
   * start at `position`, and a ", " if another headline follows; returns that headline
   * and the position after it.
   */
  method HandleTodoItems(headline: string, lines: seq<string>, position: nat, output: string)
    returns (next: Option<string>, newPosition: nat, newOutput: string)
    requires position <= |lines|
    ensures Handled(Entry, KindOf, headline, lines, position, output, next, newPosition, newOutput)
  {
    newOutput := output;
    if headline != [] && headline[0] == '#' {
      newOutput := newOutput + Trim(headline[1..]);
    }
    assert newOutput == output + Title(headline);
    var items, completed := 0, 0;
    newPosition := position;
    while newPosition < |lines|
      invariant position <= newPosition <= |lines|
      invariant SectionEnd(lines, newPosition) == SectionEnd(lines, position)
      invariant (items, completed) == CountRange(KindOf, lines, position, newPosition)
      invariant newOutput == output + Title(headline)
    {
      var line := lines[newPosition];
      if line != [] && line[0] == '#' {
        AppendEntry(output, Title(headline), Counter((items, completed)), ", ");
        newOutput := newOutput + Counter((items, completed)) + ", ";
        next := Some(line);
        newPosition := newPosition + 1;
        return;
      }
      CountRangeSnoc(KindOf, lines, position, newPosition);
      items, completed := CountLine(line, items, completed);
      newPosition := newPosition + 1;
    }
    AppendEntry(output, Title(headline), Counter((items, completed)), "");
    newOutput := newOutput + Counter((items, completed));
    next := None;
  }

  /**
   * The item tests of the loop body for one line, in their order: an unfinished item
   * counts as an item, a finished one as an item and a completed item.
   */
  method CountLine(line: string, items: nat, completed: nat) returns (items': nat, completed': nat)
    ensures (items', completed') == Bump((items, completed), KindOf(line))
  {
    var trimmed := Trim(line);
    if StartsWith(trimmed, "- [ ]") || StartsWith(trimmed, "- []") {
      return items + 1, completed;
    }
    items', completed' := items, completed;
    if StartsWith(trimmed, "- [x]") {
      items' := items' + 1;
      completed' := completed' + 1;
    }
  }

  lemma {:induction false} AppendEntry(output: string, title: string, counter: string, sep: string)
    ensures output + title + counter + sep == output + (title + counter) + sep
  {
  }

  /** `lines.find(|line| line.starts_with('#'))`. */
  method FindHeadline(lines: seq<string>) returns (k: nat)
    ensures k <= |lines| && k == SectionEnd(lines, 0)
  {
    k := 0;
    while k < |lines| && !(lines[k] != [] && lines[k][0] == '#')
      invariant k <= |lines|
      invariant SectionEnd(lines, k) == SectionEnd(lines, 0)
    {
      k := k + 1;
    }
  }

  /** The headline loop of `main`: `handle_todo_items` until no headline follows. */
  method CollectOutput(lines: seq<string>) returns (output: string)
    ensures output == Output(lines)
  {
    output := "";
    var k := FindHeadline(lines);
    var nextTodo: Option<string> := None;
    var position := |lines|;
    if k < |lines| {
      SummaryIsJoin(lines, k);
      nextTodo := Some(lines[k]);
      position := k + 1;
    }
    ghost var at := k;
    while nextTodo.Some?
      invariant position <= |lines|
      invariant nextTodo.Some? ==>
        at < |lines| && position == at + 1 && nextTodo.value == lines[at] && output + Summary(Entry, KindOf, lines, at) == Output(lines)
      invariant nextTodo.None? ==> output == Output(lines)
      decreases if nextTodo.Some? then |lines| - position + 1 else 0
    {
      ghost var before, start := output, position;
      nextTodo, position, output := HandleTodoItems(nextTodo.value, lines, position, output);
      CollectStep(Entry, KindOf, lines, at, start, before, nextTodo, position, output, Output(lines));
      at := SectionEnd(lines, start);
    }
  }

  /** The summary from a headline on, once more: `start` is the line after the headline. */
  lemma {:induction false} SummaryUnfold(entry: (string, (nat, nat)) -> string, kind: string -> ItemKind, lines: seq<string>, at: nat, start: nat)
    requires at < |lines| && start == at + 1
    ensures var k := SectionEnd(lines, start);
      var e := entry(lines[at], CountRange(kind, lines, start, k));
      Summary(entry, kind, lines, at) == if k < |lines| then e + ", " + Summary(entry, kind, lines, k) else e
  {
  }

  /** One turn of the headline loop keeps the collected text on course for the summary. */
  lemma {:induction false} CollectStep(entry: (string, (nat, nat)) -> string, kind: string -> ItemKind, lines: seq<string>, at: nat, start: nat, before: string,
                    next: Option<string>, position: nat, output: string, summary: string)
    requires at < |lines| && start == at + 1
    requires before + Summary(entry, kind, lines, at) == summary
    requires Handled(entry, kind, lines[at], lines, start, before, next, position, output)
    ensures position <= |lines|
    ensures next.Some? ==> var k := SectionEnd(lines, start);
      k < |lines| && position == k + 1 && next.value == lines[k] && output + Summary(entry, kind, lines, k) == summary
    ensures next.None? ==> output == summary
  {
    var k := SectionEnd(lines, start);
    var e := entry(lines[at], CountRange(kind, lines, start, k));
    SummaryUnfold(entry, kind, lines, at, start);
    if k < |lines| {
      Continue(before, e, Summary(entry, kind, lines, k), output, summary);
    }
  }

  /** The text collected so far, followed by the rest of the summary, is the summary. */
  lemma {:induction false} Continue(before: string, entry: string, later: string, output: string, summary: string)
    requires before + (entry + ", " + later) == summary
    requires output == before + entry + ", "
    ensures output + later == summary
  {
  }

  lemma {:induction false} EntriesCons(s: Section, tail: seq<Section>)
    ensures Entries([s] + tail) == [SectionEntry(s)] + Entries(tail)
  {
    assert ([s] + tail)[1..] == tail;
  }

  lemma {:induction false} JoinCons(x: string, tail: seq<string>, sep: string)
    requires |tail| >= 1
    ensures Join([x] + tail, sep) == x + sep + Join(tail, sep)
  {
    assert ([x] + tail)[1..] == tail;
  }

  /** The loop's summary is the entries of the todos joined with ", ". */
  lemma {:induction false} SummaryIsJoin(lines: seq<string>, at: nat)
    requires at < |lines|
    ensures Summary(Entry, KindOf, lines, at) == Join(Entries(Sections(lines, at)), ", ")
    decreases |lines| - at
  {
    var k := SectionEnd(lines, at + 1);
    var first := Section(lines[at], lines[at + 1..k]);
    CountRangeIsCount(KindOf, lines, at + 1, k);
    assert SectionEntry(first) == Entry(lines[at], CountRange(KindOf, lines, at + 1, k));
    if k < |lines| {
      var tail := Sections(lines, k);
      assert Sections(lines, at) == [first] + tail;
      EntriesCons(first, tail);
      JoinCons(SectionEntry(first), Entries(tail), ", ");
      SummaryIsJoin(lines, k);
    } else {
      assert Sections(lines, at) == [first];
      EntriesCons(first, []);
    }
  }

  /** `main` once the file is read: `None` stands for a path that does not exist. */
  method PrintTodo(content: Option<string>) returns (line: string)
    ensures line == StatusLine(content)
  {
    if content.None? {
      return "Nothing to do :)";
    }
    var output := CollectOutput(Lines(content.value));
    if IsBlank(output) {
      return "Nothing to do :) |";
    }
    line := output + " |";
  }

  /** The counter counts exactly the item lines, and among them the finished ones. */
  lemma {:induction false} CountIsItems(body: seq<string>)
    ensures Count(KindOf, body).0 == |Sorting.Filter(body, IsItem)|
    ensures Count(KindOf, body).1 == |Sorting.Filter(body, IsCompleted)|
    decreases |body|
  {
    if body != [] {
      CountIsItems(body[..|body| - 1]);
    }
  }

  /** An unfinished item is not also a finished one: the two marks differ at their fourth character. */
  lemma {:induction false} OpenIsNotDone(line: string)
    ensures !(IsOpenItem(line) && IsDoneItem(line))
  {
    var t := Trim(line);
    if StartsWith(t, "- [x]") {
      assert t[3] == 'x';
      assert t[..5][3] == 'x';
    }
  }

  /** The number of headlines from `from` on. */
  function HeadlineCount(lines: seq<string>, from: nat): nat
    requires from <= |lines|
    decreases |lines| - from
  {
    if from == |lines| then 0 else (if IsHeadline(lines[from]) then 1 else 0) + HeadlineCount(lines, from + 1)
  }

  /** Up to the end of a section there is no headline; the one that ends it counts. */
  lemma {:induction false} HeadlinesAfterSectionEnd(lines: seq<string>, from: nat)
    requires from <= |lines|
    ensures var k := SectionEnd(lines, from);
      HeadlineCount(lines, from) == if k < |lines| then 1 + HeadlineCount(lines, k + 1) else 0
    decreases |lines| - from
  {
    if from < |lines| && !IsHeadline(lines[from]) {
      HeadlinesAfterSectionEnd(lines, from + 1);
    }
  }

  /** One todo per headline: the one at `at` and one for every later headline. */
  lemma {:induction false} OneSectionPerHeadline(lines: seq<string>, at: nat)
    requires at < |lines|
    ensures |Sections(lines, at)| == 1 + HeadlineCount(lines, at + 1)
    decreases |lines| - at
  {
    var k := SectionEnd(lines, at + 1);
    HeadlinesAfterSectionEnd(lines, at + 1);
    if k < |lines| {
      OneSectionPerHeadline(lines, k);
    }
  }

  /** A file has exactly as many todos as headlines. */
  lemma {:induction false} TodosPerHeadline(lines: seq<string>)
    ensures |Todos(lines)| == HeadlineCount(lines, 0)
  {
    var k := SectionEnd(lines, 0);
    HeadlinesAfterSectionEnd(lines, 0);
    if k < |lines| {
      SectionEndSpec(lines, 0);
      OneSectionPerHeadline(lines, k);
    }
  }

  /** Lines in front shift every section end by their number. */
  lemma {:induction false} SectionEndShift(preamble: seq<string>, lines: seq<string>, from: nat, shifted: nat)
    requires from <= |lines| && shifted == |preamble| + from
    ensures SectionEnd(preamble + lines, shifted) == |preamble| + SectionEnd(lines, from)
    decreases |lines| - from
  {
    var all := preamble + lines;
    if from < |lines| {
      assert all[shifted] == lines[from];
      if !IsHeadline(lines[from]) {
        SectionEndShift(preamble, lines, from + 1, shifted + 1);
      }
    }
  }

  /** Lines without a headline are skipped on the way to the first section end. */
  lemma {:induction false} SectionEndSkips(preamble: seq<string>, lines: seq<string>, from: nat)
    requires from <= |preamble|
    requires forall j :: 0 <= j < |preamble| ==> !IsHeadline(preamble[j])
    ensures SectionEnd(preamble + lines, from) == SectionEnd(preamble + lines, |preamble|)
    decreases |preamble| - from
  {
    if from < |preamble| {
      assert (preamble + lines)[from] == preamble[from];
      SectionEndSkips(preamble, lines, from + 1);
    }
  }

  /** Lines in front do not change a counter over later lines. */
  lemma {:induction false} CountRangeShift(kind: string -> ItemKind, preamble: seq<string>, lines: seq<string>, from: nat, until: nat,
                                           shiftedFrom: nat, shiftedTo: nat)
    requires from <= until <= |lines| && shiftedFrom == |preamble| + from && shiftedTo == |preamble| + until
    ensures CountRange(kind, preamble + lines, shiftedFrom, shiftedTo) == CountRange(kind, lines, from, until)
    decreases until - from
  {
    if until > from {
      assert (preamble + lines)[shiftedTo - 1] == lines[until - 1];
      CountRangeShift(kind, preamble, lines, from, until - 1, shiftedFrom, shiftedTo - 1);
    }
  }

  /** Lines in front do not change the summary from a headline on. */
  lemma {:induction false} SummaryShift(entry: (string, (nat, nat)) -> string, kind: string -> ItemKind, preamble: seq<string>,
                                        lines: seq<string>, at: nat, shifted: nat)
    requires at < |lines| && shifted == |preamble| + at
    ensures Summary(entry, kind, preamble + lines, shifted) == Summary(entry, kind, lines, at)
    decreases |lines| - at
  {
    var k := SectionEnd(lines, at + 1);
    HeadShift(kind, preamble, lines, at, shifted);
    if k < |lines| {
      SummaryShift(entry, kind, preamble, lines, k, |preamble| + k);
    }
    SummaryAlike(entry, kind, preamble + lines, shifted, lines, at);
  }

  /** Lines in front shift a todo's headline and the end of its section, and keep its counter. */
  lemma {:induction false} HeadShift(kind: string -> ItemKind, preamble: seq<string>, lines: seq<string>, at: nat, shifted: nat)
    requires at < |lines| && shifted == |preamble| + at
    ensures var all := preamble + lines; var k := SectionEnd(lines, at + 1);
      && shifted < |all| && all[shifted] == lines[at]
      && SectionEnd(all, shifted + 1) == |preamble| + k
      && CountRange(kind, all, shifted + 1, |preamble| + k) == CountRange(kind, lines, at + 1, k)
  {
    var k := SectionEnd(lines, at + 1);
    SectionEndShift(preamble, lines, at + 1, shifted + 1);
    CountRangeShift(kind, preamble, lines, at + 1, k, shifted + 1, |preamble| + k);
  }

  /**
   * Two summaries agree when their first headlines, their first counters and the
   * summaries after them agree.
   */
  lemma {:induction false} SummaryAlike(entry: (string, (nat, nat)) -> string, kind: string -> ItemKind,
                     a: seq<string>, i: nat, b: seq<string>, j: nat)
    requires i < |a| && j < |b| && a[i] == b[j]
    requires SectionEnd(a, i + 1) < |a| <==> SectionEnd(b, j + 1) < |b|
    requires CountRange(kind, a, i + 1, SectionEnd(a, i + 1)) == CountRange(kind, b, j + 1, SectionEnd(b, j + 1))
    requires SectionEnd(a, i + 1) < |a| ==>
      Summary(entry, kind, a, SectionEnd(a, i + 1)) == Summary(entry, kind, b, SectionEnd(b, j + 1))
    ensures Summary(entry, kind, a, i) == Summary(entry, kind, b, j)
  {
    SummaryUnfold(entry, kind, a, i, i + 1);
    SummaryUnfold(entry, kind, b, j, j + 1);
  }

  /** The summary of a whole file: that from its first headline on, or nothing. */
  function SummaryFrom(entry: (string, (nat, nat)) -> string, kind: string -> ItemKind, lines: seq<string>): string {
    var k := SectionEnd(lines, 0);
    if k == |lines| then "" else Summary(entry, kind, lines, k)
  }

  /** The collected text of a file is its summary. */
  lemma {:induction false} OutputIsSummary(lines: seq<string>)
    ensures Output(lines) == SummaryFrom(Entry, KindOf, lines)
  {
    var k := SectionEnd(lines, 0);
    if k < |lines| {
      SummaryIsJoin(lines, k);
    }
  }

  /** Lines without a headline in front of a file do not change its summary. */
  lemma {:induction false} SummaryFromShift(entry: (string, (nat, nat)) -> string, kind: string -> ItemKind,
                         preamble: seq<string>, lines: seq<string>)
    requires forall j :: 0 <= j < |preamble| ==> !IsHeadline(preamble[j])
    ensures SummaryFrom(entry, kind, preamble + lines) == SummaryFrom(entry, kind, lines)
  {
    var k := SectionEnd(lines, 0);
    SectionEndSkips(preamble, lines, 0);
    SectionEndShift(preamble, lines, 0, |preamble|);
    if k < |lines| {
      SummaryShift(entry, kind, preamble, lines, k, |preamble| + k);
    }
  }

  /** Lines before the first headline do not change the summary. */
  lemma {:induction false} PreambleIgnored(preamble: seq<string>, lines: seq<string>)
    requires forall j :: 0 <= j < |preamble| ==> !IsHeadline(preamble[j])
    ensures Output(preamble + lines) == Output(lines)
  {
    OutputIsSummary(preamble + lines);
    OutputIsSummary(lines);
    SummaryFromShift(Entry, KindOf, preamble, lines);
  }

  /** A file without a headline shows "Nothing to do :) |". */
  lemma {:induction false} NoHeadlineNothingToDo(text: string)
    requires forall j :: 0 <= j < |Lines(text)| ==> !IsHeadline(Lines(text)[j])
    ensures StatusLine(Some(text)) == "Nothing to do :) |"
  {
    NoHeadlineSectionEnd(Lines(text), 0);
  }
}
