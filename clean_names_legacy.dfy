/**
 * The older file name cleaner: the same brace-pair, invalid-character and edge
 * stripping steps as the current one, without the `~` to `-` replacement.
 */
module CleanNamesLegacy {
  import opened Text
  import opened CleanNames
  import Sorting

  /** The name the older `clean_names` gives a directory. */
  function CleanNameLegacy(filename: string): string {
    StripAll(RemoveInvalid(RemoveAllPairs(filename)), TrailingChars)
  }

  /** The character pipeline of the older `main` loop for one directory name. */
  method CleanDirectoryNameLegacy(filename: string) returns (newName: string)
    ensures newName == CleanNameLegacy(filename)
  {
    var chars := filename;
    for b := 0 to |Braces|
      invariant chars == if b == 0 then filename
        else if b == 1 then RemovePairs(filename, '[', ']')
        else if b == 2 then RemovePairs(RemovePairs(filename, '[', ']'), '(', ')')
        else RemoveAllPairs(filename)
    {
      var (open, close) := Braces[b];
      chars := RemoveBracePairs(chars, open, close);
    }
    chars := RemoveInvalidCharacters(chars);
    newName := StripEdges(chars);
  }

  /** The older cleaner also leaves none of `; [ ] ( ) { }` and no carriage return at either end. */
  lemma {:induction false} LegacyHasNoInvalid(filename: string)
    ensures forall c :: c in InvalidCharacters ==> c !in CleanNameLegacy(filename)
    ensures var r := CleanNameLegacy(filename); r == [] || (r[0] != '\r' && r[|r| - 1] != '\r')
  {
    var s := RemoveInvalid(RemoveAllPairs(filename));
    StrippedEdges(s);
    StripAllElements(s, TrailingChars);
  }

  /** Stripping a character other than `~` and `-` commutes with the replacement. */
  lemma {:induction false} TrimStartTilde(s: string, c: char)
    requires c != '~' && c != '-'
    ensures TrimStartMatches(ReplaceTilde(s), c) == ReplaceTilde(TrimStartMatches(s, c))
    decreases |s|
  {
    if s != [] && s[0] == c {
      assert ReplaceTilde(s)[1..] == ReplaceTilde(s[1..]);
      TrimStartTilde(s[1..], c);
    } else if s != [] {
      assert ReplaceTilde(s)[0] != c;
    }
  }

  lemma {:induction false} TrimEndTilde(s: string, c: char)
    requires c != '~' && c != '-'
    ensures TrimEndMatches(ReplaceTilde(s), c) == ReplaceTilde(TrimEndMatches(s, c))
    decreases |s|
  {
    if s != [] && s[|s| - 1] == c {
      assert ReplaceTilde(s)[..|s| - 1] == ReplaceTilde(s[..|s| - 1]);
      TrimEndTilde(s[..|s| - 1], c);
    } else if s != [] {
      assert ReplaceTilde(s)[|s| - 1] != c;
    }
  }

  lemma {:induction false} StripAllTilde(s: string, cs: seq<char>)
    requires '~' !in cs && '-' !in cs
    ensures StripAll(ReplaceTilde(s), cs) == ReplaceTilde(StripAll(s, cs))
    decreases |cs|
  {
    if cs != [] {
      var c := cs[|cs| - 1];
      var t := StripAll(s, cs[..|cs| - 1]);
      StripAllTilde(s, cs[..|cs| - 1]);
      TrimStartTilde(t, c);
      TrimEndTilde(TrimStartMatches(t, c), c);
    }
  }

  /** The current cleaner gives the older one's name with every `~` turned into `-`. */
  lemma {:induction false} CurrentIsLegacyWithTildeReplaced(filename: string)
    ensures CleanName(filename) == ReplaceTilde(CleanNameLegacy(filename))
  {
    var s := RemoveInvalid(RemoveAllPairs(filename));
    assert '~' !in TrailingChars && '-' !in TrailingChars;
    StripAllTilde(s, TrailingChars);
  }

  /** Every character of the older cleaner's name comes from the original name. */
  lemma {:induction false} LegacyKeepsOnlyOriginalChars(filename: string)
    ensures forall c :: c in CleanNameLegacy(filename) ==> c in filename
  {
    var p1 := RemovePairs(filename, '[', ']');
    var p2 := RemovePairs(p1, '(', ')');
    var p3 := RemovePairs(p2, '{', '}');
    RemovePairsSubsequence(filename, '[', ']');
    RemovePairsSubsequence(p1, '(', ')');
    RemovePairsSubsequence(p2, '{', '}');
    assert multiset(p3) <= multiset(filename);
    var s := RemoveInvalid(p3);
    Sorting.FilterSpec(p3, AllowedChar);
    forall c | c in s ensures c in filename {
      assert c in multiset(p3);
    }
    StripAllElements(s, TrailingChars);
  }

  /** Names without `~` are cleaned the same way by both versions. */
  lemma {:induction false} SameWithoutTilde(filename: string)
    requires '~' !in filename
    ensures CleanName(filename) == CleanNameLegacy(filename)
  {
    CurrentIsLegacyWithTildeReplaced(filename);
    LegacyKeepsOnlyOriginalChars(filename);
    NoTilde(CleanNameLegacy(filename));
  }

  /** A `~` survives the older cleaner: "a~b" stays "a~b". */
  lemma {:induction false} LegacyKeepsTilde()
    ensures CleanNameLegacy("a~b") == "a~b"
  {
    var s := "a~b";
    assert '[' !in s && '(' !in s && '{' !in s;
    NoPairLeft(s, '[', ']');
    NoPairLeft(s, '(', ')');
    NoPairLeft(s, '{', '}');
    FilterKeeps(s);
    assert RemoveInvalid(RemoveAllPairs(s)) == s;
    NothingToStrip(s, ' ');
    NothingToStrip(s, '\n');
    NothingToStrip(s, '\r');
    StripTrailing(s);
  }
}
