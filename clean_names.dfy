/**
 * The file name cleaner: removes bracketed tags, then the characters `; [ ] ( ) { }`,
 * replaces `~` with `-`, and strips spaces and line breaks from both ends.
 */
module CleanNames {
  import opened Wrappers
  import opened Text
  import Sorting

  /** The brace pairs, in the order they are removed. */
  const Braces: seq<(char, char)> := [('[', ']'), ('(', ')'), ('{', '}')]

  /** `;` and every brace. */
  const InvalidCharacters: seq<char> := [';', '[', ']', '(', ')', '{', '}']

  /** Characters replaced by another: `~` becomes `-`. */
  const Replacements: seq<(char, char)> := [('~', '-')]

  /** Characters stripped from both ends, in this order. */
  const TrailingChars: seq<char> := [' ', '\n', '\r']

  /**
   * The range a brace pair covers: the first opening brace and the first closing
   * brace after it.
   */
  function PairAt(chars: seq<char>, open: char, close: char): (r: Option<(nat, nat)>)
    requires open != close
    ensures r.Some? ==> r.value.0 < r.value.1 < |chars| && chars[r.value.0] == open && chars[r.value.1] == close
    ensures r.Some? ==> open !in chars[..r.value.0] && close !in chars[r.value.0..r.value.1]
    ensures r.None? <==> forall i, j :: 0 <= i < j < |chars| && chars[i] == open ==> chars[j] != close
  {
    if open !in chars then None
    else
      var s := IndexOf(chars, open);
      if close !in chars[s..] then
        assert forall i, j :: 0 <= i < j < |chars| && chars[i] == open ==> chars[j] != close by {
          forall i, j | 0 <= i < j < |chars| && chars[i] == open ensures chars[j] != close {
            assert chars[s..][j - s] == chars[j];
          }
        }
        None
      else
        var e := s + IndexOf(chars[s..], close);
        assert chars[s..e] == chars[s..][..e - s];
        Some((s, e))
  }

  /** Removes brace pairs until none is left; each removal leaves the closing brace. */
  function RemovePairs(chars: seq<char>, open: char, close: char): (r: seq<char>)
    requires open != close
    ensures |r| <= |chars|
    ensures forall i, j :: 0 <= i < j < |r| && r[i] == open ==> r[j] != close
    decreases |chars|
  {
    var p := PairAt(chars, open, close);
    if p.None? then chars
    else RemovePairs(chars[..p.value.0] + chars[p.value.1..], open, close)
  }

  /** Brace-pair removal only removes characters: what is left comes in the original order. */
  lemma {:induction false} RemovePairsSubsequence(chars: seq<char>, open: char, close: char)
    requires open != close
    ensures multiset(RemovePairs(chars, open, close)) <= multiset(chars)
    decreases |chars|
  {
    var p := PairAt(chars, open, close);
    if p.Some? {
      var (s, e) := p.value;
      var next := chars[..s] + chars[e..];
      RemovePairsSubsequence(next, open, close);
      assert chars == chars[..s] + chars[s..e] + chars[e..];
      assert multiset(next) <= multiset(chars);
    }
  }

  /** All three brace kinds, in order. */
  function RemoveAllPairs(chars: seq<char>): seq<char> {
    RemovePairs(RemovePairs(RemovePairs(chars, '[', ']'), '(', ')'), '{', '}')
  }

  /** One scan of the inner `for` loop: the first opening brace and the first closing brace after it. */
  method FindPair(chars: seq<char>, open: char, close: char) returns (startIndex: Option<nat>, endIndex: Option<nat>)
    requires open != close
    ensures PairAt(chars, open, close).Some? ==>
      startIndex == Some(PairAt(chars, open, close).value.0) && endIndex == Some(PairAt(chars, open, close).value.1)
    ensures PairAt(chars, open, close).None? ==> startIndex.None? || endIndex.None?
  {
    startIndex := None;
    endIndex := None;
    var index := 0;
    while index < |chars|
      invariant 0 <= index <= |chars|
      invariant startIndex.None? ==> forall j :: 0 <= j < index ==> chars[j] != open
      invariant startIndex.Some? ==> ScannedFrom(chars, open, close, startIndex.value, index)
      invariant endIndex.None?
    {
      var c := chars[index];
      if startIndex.None? && c == open {
        startIndex := Some(index);
      }
      if startIndex.Some? && c == close {
        endIndex := Some(index);
        ScanFound(chars, open, close, startIndex.value, index);
        return;
      }
      index := index + 1;
    }
    if startIndex.Some? {
      ScanExhausted(chars, open, close, startIndex.value);
    } else {
      assert forall j :: 0 <= j < |chars| ==> chars[j] != open;
    }
  }

  /**
   * The scan has met the first opening brace at `s` and no closing brace in
   * `s .. index - 1`.
   */
  predicate ScannedFrom(chars: seq<char>, open: char, close: char, s: nat, index: nat) {
    s < index <= |chars| && chars[s] == open
    && (forall j :: 0 <= j < s ==> chars[j] != open)
    && (forall j :: s <= j < index ==> chars[j] != close)
  }

  lemma {:induction false} ScanFound(chars: seq<char>, open: char, close: char, s: nat, e: nat)
    requires open != close && s <= e < |chars| && chars[e] == close
    requires chars[s] == open && (forall j :: 0 <= j < s ==> chars[j] != open)
    requires forall j :: s <= j < e ==> chars[j] != close
    ensures PairAt(chars, open, close) == Some((s, e))
  {
    assert s != e;
    assert open !in chars[..s] by {
      forall j | 0 <= j < s ensures chars[..s][j] != open { }
    }
    assert close !in chars[s..e] by {
      forall j | 0 <= j < e - s ensures chars[s..e][j] != close {
        assert chars[s..e][j] == chars[s + j];
      }
    }
    PairFound(chars, open, close, s, e);
  }

  lemma {:induction false} ScanExhausted(chars: seq<char>, open: char, close: char, s: nat)
    requires open != close && ScannedFrom(chars, open, close, s, |chars|)
    ensures PairAt(chars, open, close).None?
  {
    forall i, j | 0 <= i < j < |chars| && chars[i] == open ensures chars[j] != close {
      assert s <= i;
    }
  }

  lemma {:induction false} PairUnique(chars: seq<char>, open: char, close: char, s: nat)
    requires open != close && s < |chars| && chars[s] == open && open !in chars[..s]
    requires PairAt(chars, open, close).Some?
    ensures PairAt(chars, open, close).value.0 == s
  {
    var s' := PairAt(chars, open, close).value.0;
  }

  lemma {:induction false} PairFound(chars: seq<char>, open: char, close: char, s: nat, e: nat)
    requires open != close && s < e < |chars| && chars[s] == open && open !in chars[..s]
    requires chars[e] == close && close !in chars[s..e]
    ensures PairAt(chars, open, close) == Some((s, e))
  {
    assert PairAt(chars, open, close).Some?;
    PairUnique(chars, open, close, s);
    var e' := PairAt(chars, open, close).value.1;

  }

  /** The `loop` for one brace pair: drain the pair's range until no pair is found. */
  method RemoveBracePairs(chars: seq<char>, open: char, close: char) returns (r: seq<char>)
    requires open != close
    ensures r == RemovePairs(chars, open, close)
  {
    r := chars;
    while true
      invariant RemovePairs(r, open, close) == RemovePairs(chars, open, close)
      decreases |r|
    {
      var startIndex, endIndex := FindPair(r, open, close);
      if startIndex.None? || endIndex.None? {
        return;
      }
      r := r[..startIndex.value] + r[endIndex.value..];
    }
  }

  /** Not one of `InvalidCharacters`, written out character by character. */
  predicate AllowedChar(c: char) {
    c != ';' && c != '[' && c != ']' && c != '(' && c != ')' && c != '{' && c != '}'
  }

  /** The characters other than `; [ ] ( ) { }`, in order. */
  function RemoveInvalid(chars: seq<char>): (r: seq<char>)
    ensures forall c :: c in InvalidCharacters ==> c !in r
  {
    Sorting.FilterSpec(chars, AllowedChar);
    Sorting.Filter(chars, AllowedChar)
  }

  /**
   * The indices of the invalid characters are collected, then removed from the back
   * to the front so that the remaining indices stay correct.
   */
  method RemoveInvalidCharacters(chars: seq<char>) returns (r: seq<char>)
    ensures r == RemoveInvalid(chars)
  {
    var toRemove := InvalidIndices(chars);
    r := chars;
    var m := |toRemove|;
    while m > 0
      invariant 0 <= m <= |toRemove|
      invariant var p := if m == |toRemove| then |chars| else toRemove[m];
        p <= |chars| && r == chars[..p] + Sorting.Filter(chars[p..], AllowedChar)
      decreases m
    {
      var p := if m == |toRemove| then |chars| else toRemove[m];
      var q := toRemove[m - 1];
      assert forall j :: q < j < p ==> AllowedChar(chars[j]);
      assert q in toRemove;
      r := RemoveAt(chars, r, q, p);
      m := m - 1;
    }
    var p := if |toRemove| == 0 then |chars| else toRemove[0];
    assert forall j :: 0 <= j < p ==> AllowedChar(chars[j]);
    FilterSplit(chars, p);
  }

  /** The first loop: the indices of the invalid characters, in increasing order. */
  method InvalidIndices(chars: seq<char>) returns (toRemove: seq<nat>)
    ensures forall k :: 0 <= k < |toRemove| ==> toRemove[k] < |chars|
    ensures forall k, l :: 0 <= k < l < |toRemove| ==> toRemove[k] < toRemove[l]
    ensures forall j :: 0 <= j < |chars| ==> (!AllowedChar(chars[j]) <==> j in toRemove)
  {
    toRemove := [];
    for index := 0 to |chars|
      invariant forall k :: 0 <= k < |toRemove| ==> toRemove[k] < index
      invariant forall k, l :: 0 <= k < l < |toRemove| ==> toRemove[k] < toRemove[l]
      invariant forall j :: 0 <= j < index ==> (!AllowedChar(chars[j]) <==> j in toRemove)
    {
      if chars[index] in InvalidCharacters {
        toRemove := toRemove + [index];
      }
    }
  }

  /** One pass of the second loop: `chars.remove(q)`. */
  method RemoveAt(chars: seq<char>, r: seq<char>, q: nat, p: nat) returns (r': seq<char>)
    requires q < p <= |chars| && !AllowedChar(chars[q])
    requires forall j :: q < j < p ==> AllowedChar(chars[j])
    requires r == chars[..p] + Sorting.Filter(chars[p..], AllowedChar)
    ensures r' == chars[..q] + Sorting.Filter(chars[q..], AllowedChar)
  {
    RemoveStep(chars, q, p);
    r' := r[..q] + r[q + 1..];
  }

  /** Removing the invalid character at `q`, that comes just before the valid stretch up to `p`. */
  lemma {:induction false} RemoveStep(chars: seq<char>, q: nat, p: nat)
    requires q < p <= |chars| && !AllowedChar(chars[q])
    requires forall j :: q < j < p ==> AllowedChar(chars[j])
    ensures var r := chars[..p] + Sorting.Filter(chars[p..], AllowedChar);
      r[..q] + r[q + 1..] == chars[..q] + Sorting.Filter(chars[q..], AllowedChar)
  {
    DropAt(chars, q, p, Sorting.Filter(chars[p..], AllowedChar));
    FilterFromInvalid(chars, q, p);
  }

  /** Dropping the element at `q` from a prefix longer than `q`, followed by `tail`. */
  lemma {:induction false} DropAt<T>(a: seq<T>, q: nat, p: nat, tail: seq<T>)
    requires q < p <= |a|
    ensures var r := a[..p] + tail; r[..q] + r[q + 1..] == a[..q] + (a[q + 1..p] + tail)
  {
    var r := a[..p] + tail;
    assert r[..q] == a[..q];
    assert r[q + 1..] == a[q + 1..p] + tail;
  }

  lemma {:induction false} FilterFromInvalid(chars: seq<char>, q: nat, p: nat)
    requires q < p <= |chars| && !AllowedChar(chars[q])
    requires forall j :: q < j < p ==> AllowedChar(chars[j])
    ensures Sorting.Filter(chars[q..], AllowedChar) == chars[q + 1..p] + Sorting.Filter(chars[p..], AllowedChar)
  {
    var mid := chars[q + 1..p];
    Sorting.FilterAll(mid, AllowedChar);
    assert chars[q..] == [chars[q]] + (mid + chars[p..]);
    Sorting.FilterAppend([chars[q]], mid + chars[p..], AllowedChar);
    Sorting.FilterAppend(mid, chars[p..], AllowedChar);
    Sorting.FilterSingleton(chars[q], AllowedChar);
  }

  lemma {:induction false} FilterSplit(chars: seq<char>, p: nat)
    requires p <= |chars| && forall j :: 0 <= j < p ==> AllowedChar(chars[j])
    ensures chars[..p] + Sorting.Filter(chars[p..], AllowedChar) == Sorting.Filter(chars, AllowedChar)
  {
    Sorting.FilterAll(chars[..p], AllowedChar);
    Sorting.FilterAppend(chars[..p], chars[p..], AllowedChar);
    assert chars[..p] + chars[p..] == chars;
  }

  /** `~` becomes `-`; every other character stays. */
  function ReplaceTilde(chars: seq<char>): (r: seq<char>)
    ensures |r| == |chars| && '~' !in r
    ensures forall i :: 0 <= i < |chars| ==> r[i] == if chars[i] == '~' then '-' else chars[i]
  {
    seq(|chars|, i requires 0 <= i < |chars| => if chars[i] == '~' then '-' else chars[i])
  }

  /** Strips every leading and then every trailing copy of `c`. */
  function StripChar(s: string, c: char): string {
    TrimEndMatches(TrimStartMatches(s, c), c)
  }

  /** Strips the characters of `cs` in order. */
  function StripAll(s: string, cs: seq<char>): string
    decreases |cs|
  {
    if cs == [] then s else StripChar(StripAll(s, cs[..|cs| - 1]), cs[|cs| - 1])
  }

  /** The `strip_prefix` loop for one character. */
  method StripPrefix(name: string, c: char) returns (r: string)
    ensures r == TrimStartMatches(name, c)
  {
    r := name;
    while r != [] && r[0] == c
      invariant TrimStartMatches(r, c) == TrimStartMatches(name, c)
      decreases |r|
    {
      r := r[1..];
    }
  }

  /** The `strip_suffix` loop for one character. */
  method StripSuffix(name: string, c: char) returns (r: string)
    ensures r == TrimEndMatches(name, c)
  {
    r := name;
    while r != [] && r[|r| - 1] == c
      invariant TrimEndMatches(r, c) == TrimEndMatches(name, c)
      decreases |r|
    {
      r := r[..|r| - 1];
    }
  }

  /** Both loops for each trailing character in turn. */
  method StripEdges(name: string) returns (r: string)
    ensures r == StripAll(name, TrailingChars)
  {
    r := name;
    for k := 0 to |TrailingChars|
      invariant r == StripAll(name, TrailingChars[..k])
    {
      var c := TrailingChars[k];
      r := StripPrefix(r, c);
      r := StripSuffix(r, c);
      StripAllStep(name, TrailingChars, k);
    }
    assert TrailingChars[..|TrailingChars|] == TrailingChars;
  }

  lemma {:induction false} StripAllStep(s: string, cs: seq<char>, k: nat)
    requires k < |cs|
    ensures StripAll(s, cs[..k + 1]) == StripChar(StripAll(s, cs[..k]), cs[k])
  {
    assert cs[..k + 1][..k] == cs[..k];
  }

  /** After stripping, the name neither starts nor ends with a carriage return. */
  lemma {:induction false} StrippedEdges(s: string)
    ensures var r := StripAll(s, TrailingChars); r == [] || (r[0] != '\r' && r[|r| - 1] != '\r')
  {
    assert TrailingChars[..2] == [' ', '\n'];
    var t := StripAll(s, TrailingChars[..2]);
    var u := TrimStartMatches(t, '\r');
    assert StripAll(s, TrailingChars) == TrimEndMatches(u, '\r');
    var r := TrimEndMatches(u, '\r');
    TrimStartMatchesSpec(t, '\r');
    TrimEndMatchesSpec(u, '\r');
    if r != [] {
      assert r[0] == u[0];
    }
  }

  /** `StripChar(s, c)` is `s[a..b]`, and everything outside `a..b` is a copy of `c`. */
  predicate StripsTo(s: string, c: char, a: nat, b: nat) {
    a <= b <= |s| && StripChar(s, c) == s[a..b] && (forall i :: 0 <= i < a ==> s[i] == c) && (forall i :: b <= i < |s| ==> s[i] == c)
  }

  lemma {:induction false} StripBounds(s: string, c: char, t: string, r: string)
    requires t == TrimStartMatches(s, c) && r == TrimEndMatches(t, c)
    ensures |t| <= |s| && StripsTo(s, c, |s| - |t|, |s| - |t| + |r|)
  {
    TrimStartMatchesSpec(s, c);
    TrimEndMatchesSpec(t, c);
    var a := |s| - |t|;
    var b := a + |r|;
    assert r == s[a..b];
    forall i | b <= i < |s| ensures s[i] == c {
      assert s[i] == t[i - a];
    }
  }

  /** Stripping removes only copies of the stripped character from the two ends. */
  lemma {:induction false} StripCharSlice(s: string, c: char)
    ensures exists a, b :: StripsTo(s, c, a, b)
  {
    var t := TrimStartMatches(s, c);
    StripBounds(s, c, t, TrimEndMatches(t, c));
  }

  /** The name `rename_directories` gives a directory. */
  function CleanName(filename: string): string {
    StripAll(ReplaceTilde(RemoveInvalid(RemoveAllPairs(filename))), TrailingChars)
  }

  /** The character pipeline of `rename_directories` for one directory name. */
  method CleanDirectoryName(filename: string) returns (newName: string)
    ensures newName == CleanName(filename)
  {
    var chars := filename;
    for b := 0 to |Braces|
      invariant chars == if b == 0 then filename
        else if b == 1 then RemovePairs(filename, '[', ']')
        else if b == 2 then RemovePairs(RemovePairs(filename, '[', ']'), '(', ')')
        else RemoveAllPairs(filename)
    {
      var (open, close) := Braces[b];
      chars := RemoveBracePairs(chars, open, close);
    }
    chars := RemoveInvalidCharacters(chars);
    for k := 0 to |Replacements|
      invariant chars == if k == 0 then RemoveInvalid(RemoveAllPairs(filename)) else ReplaceTilde(RemoveInvalid(RemoveAllPairs(filename)))
    {
      var (target, replacement) := Replacements[k];
      chars := seq(|chars|, i requires 0 <= i < |chars| => if chars[i] == target then replacement else chars[i]);
    }
    newName := StripEdges(chars);
  }

  /** The cleaned name holds none of `; [ ] ( ) { } ~`, and does not start or end with a carriage return. */
  lemma {:induction false} CleanNameHasNoInvalid(filename: string)
    ensures forall c :: c in InvalidCharacters + ['~'] ==> c !in CleanName(filename)
    ensures var r := CleanName(filename); r == [] || (r[0] != '\r' && r[|r| - 1] != '\r')
  {
    var s := ReplaceTilde(RemoveInvalid(RemoveAllPairs(filename)));
    assert forall c :: c in InvalidCharacters + ['~'] ==> c !in s;
    StrippedEdges(s);
    StripAllElements(s, TrailingChars);
  }

  /** Stripping keeps a slice of the name, so it brings in no character. */
  lemma {:induction false} StripAllElements(s: string, cs: seq<char>)
    ensures forall c :: c in StripAll(s, cs) ==> c in s
    decreases |cs|
  {
    if cs != [] {
      var t := StripAll(s, cs[..|cs| - 1]);
      StripAllElements(s, cs[..|cs| - 1]);
      StripCharSlice(t, cs[|cs| - 1]);
    }
  }

  /** A name split at the first opening brace (`b` starts with it) and the first closing brace after it (`c` starts with it). */
  lemma {:induction false} DrainPair(a: seq<char>, b: seq<char>, c: seq<char>, open: char, close: char)
    requires open != close && open !in a && b != [] && b[0] == open && close !in b && c != [] && c[0] == close
    ensures RemovePairs(a + b + c, open, close) == RemovePairs(a + c, open, close)
  {
    var chars := a + b + c;
    assert chars[..|a|] == a && chars[|a|..|a| + |b|] == b && chars[|a| + |b|] == close;
    PairFound(chars, open, close, |a|, |a| + |b|);
    assert chars[..|a|] + chars[|a| + |b|..] == a + c;
  }

  /** With no opening brace left, the pair loop for that kind stops at once. */
  lemma {:induction false} NoPairLeft(chars: seq<char>, open: char, close: char)
    requires open != close && open !in chars
    ensures RemovePairs(chars, open, close) == chars
  {
  }

  /** Leading copies of `c` in front of a text that does not start with `c` are stripped, and nothing more. */
  lemma {:induction false} TrimStartPadded(pre: string, rest: string, c: char)
    requires forall i :: 0 <= i < |pre| ==> pre[i] == c
    requires rest != [] && rest[0] != c
    ensures TrimStartMatches(pre + rest, c) == rest
    decreases |pre|
  {
    if pre == [] {
      assert pre + rest == rest;
    } else {
      assert (pre + rest)[1..] == pre[1..] + rest;
      TrimStartPadded(pre[1..], rest, c);
    }
  }

  /** Trailing copies of `c` after a text that does not end with `c` are stripped, and nothing more. */
  lemma {:induction false} TrimEndPadded(rest: string, post: string, c: char)
    requires forall i :: 0 <= i < |post| ==> post[i] == c
    requires rest != [] && rest[|rest| - 1] != c
    ensures TrimEndMatches(rest + post, c) == rest
    decreases |post|
  {
    if post == [] {
      assert rest + post == rest;
    } else {
      assert (rest + post)[..|rest + post| - 1] == rest + post[..|post| - 1];
      TrimEndPadded(rest, post[..|post| - 1], c);
    }
  }

  /** Stripping `c` from a name padded on both sides with copies of `c` gives back the name. */
  lemma {:induction false} StripPadded(pre: string, name: string, post: string, c: char)
    requires forall i :: 0 <= i < |pre| ==> pre[i] == c
    requires forall i :: 0 <= i < |post| ==> post[i] == c
    requires name != [] && name[0] != c && name[|name| - 1] != c
    ensures StripChar(pre + name + post, c) == name
  {
    assert pre + name + post == pre + (name + post);
    TrimStartPadded(pre, name + post, c);
    TrimEndPadded(name, post, c);
  }

  /** The test name of the tool, split at the braces: `[` ... `] `, `(` ... `)`, `{` ... `} `. */
  const TestPrefix: string := "  " + "[this is some_test" + "] "
  const TestSuffix: string := ";" + "(and some" + (") " + "{more random" + "} ") + "(stuff" + ")"

  /** No character of `name` is one the cleanup removes. */
  predicate Plain(name: string) {
    ';' !in name && '[' !in name && ']' !in name && '(' !in name && ')' !in name && '{' !in name && '}' !in name
  }

  lemma {:induction false} Regroup(x: string, y: string, z: string)
    ensures x + (y + z) == x + y + z
  {
  }

  lemma {:induction false} TestSquare(name: string)
    requires Plain(name)
    ensures RemovePairs(TestPrefix + name + TestSuffix, '[', ']') == "  " + "] " + name + TestSuffix
  {
    var a, b := "  ", "[this is some_test";
    var c := "] " + name + TestSuffix;
    Regroup(a + b, "] " + name, TestSuffix);
    Regroup(a + b, "] ", name);
    Regroup(a, "] " + name, TestSuffix);
    Regroup(a, "] ", name);
    NoPairLeft(a + c, '[', ']');
    DrainPair(a, b, c, '[', ']');
  }

  lemma {:induction false} TestRoundFirst(n: string)
    requires '(' !in n
    ensures RemovePairs(n + TestSuffix, '(', ')') == RemovePairs(n + ";" + (") " + "{more random" + "} ") + "(stuff" + ")", '(', ')')
  {
    var m := ") " + "{more random" + "} ";
    var a, b := n + ";", "(and some";
    var b', c' := "(stuff", ")";
    var c := m + b' + c';
    Regroup(n, ";" + b + m + b', c');
    Regroup(n, ";" + b + m, b');
    Regroup(n, ";" + b, m);
    Regroup(n, ";", b);
    Regroup(a + b, m + b', c');
    Regroup(a + b, m, b');
    Regroup(a, m + b', c');
    Regroup(a, m, b');
    DrainPair(a, b, c, '(', ')');
  }

  lemma {:induction false} TestRoundSecond(n: string)
    requires '(' !in n
    ensures RemovePairs(n + ";" + (") " + "{more random" + "} ") + "(stuff" + ")", '(', ')') == n + ";" + (") " + "{more random" + "} ") + ")"
  {
    var a' := n + ";" + (") " + "{more random" + "} ");
    NoPairLeft(a' + ")", '(', ')');
    DrainPair(a', "(stuff", ")", '(', ')');
  }

  lemma {:induction false} TestRound(name: string)
    requires Plain(name)
    ensures RemovePairs("  " + "] " + name + TestSuffix, '(', ')') == "  " + "] " + name + ";" + (") " + "{more random" + "} ") + ")"
  {
    var n := "  " + "] " + name;
    TestRoundFirst(n);
    TestRoundSecond(n);
  }

  lemma {:induction false} TestCurly(name: string)
    requires Plain(name)
    ensures RemovePairs("  " + "] " + name + ";" + (") " + "{more random" + "} ") + ")", '{', '}') == "  " + "] " + name + ";" + ") " + "} " + ")"
  {
    var n := "  " + "] " + name + ";";
    var a, b, c := n + ") ", "{more random", "} " + ")";
    Regroup(n, ") " + "{more random" + "} ", ")");
    Regroup(n, ") " + "{more random", "} ");
    Regroup(n, ") ", "{more random");
    Regroup(a + b, "} ", ")");
    DrainPair(a, b, c, '{', '}');
    Regroup(a, "} ", ")");
    NoPairLeft(a + c, '{', '}');
  }

  /** Only valid characters: every piece is kept. */
  lemma {:induction false} FilterKeeps(s: string)
    requires forall i :: 0 <= i < |s| ==> AllowedChar(s[i])
    ensures RemoveInvalid(s) == s
  {
    Sorting.FilterAll(s, AllowedChar);
  }

  /** One invalid character followed by valid ones. */
  lemma {:induction false} FilterDrops(x: char, s: string)
    requires !AllowedChar(x) && forall i :: 0 <= i < |s| ==> AllowedChar(s[i])
    ensures RemoveInvalid([x] + s) == s
  {
    Sorting.FilterAppend([x], s, AllowedChar);
    Sorting.FilterSingleton(x, AllowedChar);
    Sorting.FilterAll(s, AllowedChar);
  }

  /** Invalid-character removal works piece by piece. */
  lemma {:induction false} RemoveInvalidAppend(a: string, b: string)
    ensures RemoveInvalid(a + b) == RemoveInvalid(a) + RemoveInvalid(b)
  {
    Sorting.FilterAppend(a, b, AllowedChar);
  }

  lemma {:induction false} TestPieces(name: string)
    requires Plain(name)
    ensures RemoveInvalid("  ") == "  " && RemoveInvalid(name) == name && RemoveInvalid("] ") == " "
    ensures RemoveInvalid(";") == "" && RemoveInvalid(") ") == " " && RemoveInvalid("} ") == " " && RemoveInvalid(")") == ""
  {
    FilterKeeps(name);
    assert "] " == [']'] + " " && ";" == [';'] + "" && ") " == [')'] + " " && "} " == ['}'] + " " && ")" == [')'] + "";
    FilterKeeps("  ");
    FilterDrops(']', " ");
    FilterDrops(';', "");
    FilterDrops(')', " ");
    FilterDrops('}', " ");
    FilterDrops(')', "");
  }

  lemma {:induction false} TestInvalid(name: string)
    requires Plain(name)
    ensures RemoveInvalid("  " + "] " + name + ";" + ") " + "} " + ")") == "  " + " " + name + " " + " "
  {
    TestPieces(name);
    var p1 := "  " + "] ";
    var p2 := p1 + name;
    var p3 := p2 + ";";
    var p4 := p3 + ") ";
    var p5 := p4 + "} ";
    var k := "  " + " " + name;
    RemoveInvalidAppend("  ", "] ");
    RemoveInvalidAppend(p1, name);
    assert RemoveInvalid(p2) == k;
    RemoveInvalidAppend(p2, ";");
    assert k + "" == k;
    assert RemoveInvalid(p3) == k;
    RemoveInvalidAppend(p3, ") ");
    RemoveInvalidAppend(p4, "} ");
    assert RemoveInvalid(p5) == k + " " + " ";
    RemoveInvalidAppend(p5, ")");
    assert k + " " + " " + "" == k + " " + " ";
  }

  lemma {:induction false} StripTrailing(s: string)
    ensures StripAll(s, TrailingChars) == StripChar(StripChar(StripChar(s, ' '), '\n'), '\r')
  {
    var cs := TrailingChars;
    assert cs[..2] == [' ', '\n'] && cs[..2][..1] == [' '] && cs[..2][..1][..0] == [];
    assert StripAll(s, cs[..2][..1]) == StripChar(s, ' ');
    assert StripAll(s, cs[..2]) == StripChar(StripChar(s, ' '), '\n');
  }

  lemma {:induction false} TestStrip(name: string)
    requires name != [] && name[0] !in TrailingChars && name[|name| - 1] !in TrailingChars
    ensures StripAll("  " + " " + name + " " + " ", TrailingChars) == name
  {
    var pre, post := "  " + " ", " " + " ";
    assert pre == "   " && post == "  ";
    StripPadded(pre, name, post, ' ');
    NothingToStrip(name, '\n');
    NothingToStrip(name, '\r');
    Regroup(pre + name, " ", " ");
    StripTrailing(pre + name + post);
  }

  lemma {:induction false} NothingToStrip(name: string, c: char)
    requires name != [] && name[0] != c && name[|name| - 1] != c
    ensures StripChar(name, c) == name
  {
  }

  /**
   * The tool's own test: any name made of valid characters that does not start or end
   * with a space, a newline or a carriage return comes out of
   * "  [this is some_test] <name>;(and some) {more random} (stuff)" unchanged.
   */
  lemma {:induction false} TestNameCleanup(name: string)
    requires name != [] && Plain(name) && '~' !in name
    requires name[0] !in TrailingChars && name[|name| - 1] !in TrailingChars
    ensures CleanName(TestPrefix + name + TestSuffix) == name
  {
    var s0 := TestPrefix + name + TestSuffix;
    var s3 := "  " + "] " + name + ";" + ") " + "} " + ")";
    var s5 := "  " + " " + name + " " + " ";
    NoTilde(s5);
    TestStrip(name);
    TestInvalid(name);
    TestPairs(name);
    assert CleanName(s0) == StripAll(ReplaceTilde(RemoveInvalid(s3)), TrailingChars);
  }

  lemma {:induction false} TestPairs(name: string)
    requires Plain(name)
    ensures RemoveAllPairs(TestPrefix + name + TestSuffix) == "  " + "] " + name + ";" + ") " + "} " + ")"
  {
    TestSquare(name);
    TestRound(name);
    TestCurly(name);
  }

  lemma {:induction false} NoTilde(s: string)
    requires '~' !in s
    ensures ReplaceTilde(s) == s
  {
  }

  /** The name the tool's unit test expects to survive. */
  const TestName: string := "Name that should stay"

  /** A space or an ASCII letter. */
  predicate LetterOrSpace(c: char) {
    c == ' ' || 'A' <= c <= 'Z' || 'a' <= c <= 'z'
  }

  lemma {:induction false} TestNameLetters()
    ensures forall i :: 0 <= i < |TestName| ==> LetterOrSpace(TestName[i])
  {
    forall i | 0 <= i < |TestName| ensures LetterOrSpace(TestName[i]) {
    }
  }

  lemma {:induction false} TestNameIsPlain()
    ensures TestName != [] && Plain(TestName) && '~' !in TestName
    ensures TestName[0] !in TrailingChars && TestName[|TestName| - 1] !in TrailingChars
  {
    TestNameLetters();
  }

  /** The concrete case of the tool's unit test. */
  lemma {:induction false} DirectoryCleanupExample()
    ensures CleanName(TestPrefix + TestName + TestSuffix) == TestName
  {
    TestNameIsPlain();
    TestNameCleanup(TestName);
  }
}
