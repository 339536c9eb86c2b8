/**
 * The package-list file helpers: `read_file_lines` splits a file's content at every
 * line feed, and `sort_and_write` sorts the list, drops the blank entries and joins
 * the rest with line feeds. Reading and writing the file are left out: the content
 * is passed in and handed back.
 */
module Files {
  import opened Text
  import Sorting

  /** `read_file_lines` on the content of the file: the pieces between line feeds, empty ones kept. */
  function ReadFileLines(content: string): (lines: seq<string>)
    ensures |lines| == multiset(content)['\n'] + 1
    ensures forall i :: 0 <= i < |lines| ==> '\n' !in lines[i]
  {
    SplitCount(content, '\n');
    Split(content, '\n')
  }

  /** Joining the lines read with line feeds gives back the content. */
  lemma {:induction false} ReadFileLinesJoin(content: string)
    ensures Join(ReadFileLines(content), "\n") == content
  {
    JoinSplit(content, '\n');
  }

  /** The list `sort_and_write` writes: sorted by `Ord for String`, blank entries dropped. */
  function Normalized(strings: seq<string>): seq<string> {
    Sorting.Filter(Sorting.Sort(strings, StrLe), NotBlank)
  }

  /** `sort_and_write` up to the write: the content it writes to the file. */
  method SortAndWrite(strings: seq<string>) returns (content: string)
    ensures content == Join(Normalized(strings), "\n")
  {
    var sorted := Sorting.Sort(strings, StrLe);
    var kept: seq<string> := [];
    for i := 0 to |sorted|
      invariant kept == Sorting.Filter(sorted[..i], NotBlank)
    {
      assert sorted[..i + 1][..i] == sorted[..i];
      if !IsBlank(sorted[i]) {
        kept := kept + [sorted[i]];
      }
    }
    assert sorted[..|sorted|] == sorted;
    content := Join(kept, "\n");
  }

  lemma {:induction false} StrLeIsTotalPreorder()
    ensures Sorting.TotalPreorder(StrLe)
  {
    forall a, b ensures StrLe(a, b) || StrLe(b, a) {
      StrLeTotal(a, b);
    }
    forall a, b, c | StrLe(a, b) && StrLe(b, c) ensures StrLe(a, c) {
      StrLeTransitive(a, b, c);
    }
  }

  /** The list written is in ascending order. */
  lemma {:induction false} NormalizedSorted(strings: seq<string>)
    ensures Sorting.SortedBy(Normalized(strings), StrLe)
  {
    StrLeIsTotalPreorder();
    Sorting.SortSorted(strings, StrLe);
    Sorting.FilterSorted(Sorting.Sort(strings, StrLe), NotBlank, StrLe);
  }

  /** No entry written is blank after trimming. */
  lemma {:induction false} NormalizedBlankFree(strings: seq<string>)
    ensures forall i :: 0 <= i < |Normalized(strings)| ==> NotBlank(Normalized(strings)[i])
  {
    Sorting.FilterSpec(Sorting.Sort(strings, StrLe), NotBlank);
  }

  /** Every non-blank entry is written as often as it occurs, and no blank one is. */
  lemma {:induction false} NormalizedCounts(strings: seq<string>, x: string)
    ensures multiset(Normalized(strings))[x] == if IsBlank(x) then 0 else multiset(strings)[x]
  {
    Sorting.FilterCount(Sorting.Sort(strings, StrLe), NotBlank, x);
  }

  /** Normalizing a normalized list changes nothing: writing again what was written gives the same file. */
  lemma {:induction false} NormalizedIdempotent(strings: seq<string>)
    ensures Normalized(Normalized(strings)) == Normalized(strings)
  {
    var n := Normalized(strings);
    NormalizedSorted(strings);
    Sorting.SortOfSorted(n, StrLe);
    NormalizedBlankFree(strings);
    Sorting.FilterAll(n, NotBlank);
  }

  /**
   * When something is left and no entry holds a line feed, reading back what was
   * written gives exactly the sorted, filtered list.
   */
  lemma {:induction false} WriteReadRoundTrip(strings: seq<string>)
    requires Normalized(strings) != []
    requires forall i :: 0 <= i < |strings| ==> '\n' !in strings[i]
    ensures ReadFileLines(Join(Normalized(strings), "\n")) == Normalized(strings)
  {
    var n := Normalized(strings);
    forall i | 0 <= i < |n| ensures '\n' !in n[i] {
      NormalizedCounts(strings, n[i]);
      assert n[i] in multiset(n);
      var k :| 0 <= k < |strings| && strings[k] == n[i];
    }
    SplitJoin(n, '\n');
  }
}
