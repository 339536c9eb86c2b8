/**
 * The stable sort behind Rust's `slice::sort` and `slice::sort_by_key`, as an
 * insertion sort over sequences parameterised by a total preorder.
 */
module Sorting {

  /** `le` is total and transitive: a comparison a stable sort may use. */
  ghost predicate TotalPreorder<T(!new)>(le: (T, T) -> bool) {
    && (forall a, b :: le(a, b) || le(b, a))
    && (forall a, b, c :: le(a, b) && le(b, c) ==> le(a, c))
  }

  ghost predicate SortedBy<T>(s: seq<T>, le: (T, T) -> bool) {
    forall i, j :: 0 <= i < j < |s| ==> le(s[i], s[j])
  }

  /** The elements of `s` that satisfy `p`, in their order in `s`. */
  function Filter<T>(s: seq<T>, p: T -> bool): (r: seq<T>)
    ensures |r| <= |s|
  {
    if s == [] then []
    else Filter(s[..|s| - 1], p) + (if p(s[|s| - 1]) then [s[|s| - 1]] else [])
  }

  /** What `Filter` keeps satisfies `p` and comes from `s`, and every element of `s` satisfying `p` is kept. */
  lemma {:induction false} FilterSpec<T>(s: seq<T>, p: T -> bool)
    ensures forall i :: 0 <= i < |Filter(s, p)| ==> p(Filter(s, p)[i])
    ensures forall i :: 0 <= i < |s| && p(s[i]) ==> s[i] in Filter(s, p)
    ensures forall i :: 0 <= i < |Filter(s, p)| ==> Filter(s, p)[i] in s
    decreases |s|
  {
    if s != [] {
      var init := s[..|s| - 1];
      FilterSpec(init, p);
      forall i | 0 <= i < |s| && p(s[i]) ensures s[i] in Filter(s, p) {
        if i < |s| - 1 {
          assert s[i] == init[i];
        }
      }
    }
  }

  /** Filtering keeps a sequence whose every element satisfies `p` as it is. */
  lemma {:induction false} FilterAll<T>(s: seq<T>, p: T -> bool)
    requires forall i :: 0 <= i < |s| ==> p(s[i])
    ensures Filter(s, p) == s
    decreases |s|
  {
    if s != [] {
      FilterAll(s[..|s| - 1], p);
      assert s[..|s| - 1] + [s[|s| - 1]] == s;
    }
  }

  /** `Filter` keeps every element satisfying `p` as often as it occurs, and no other. */
  lemma {:induction false} FilterCount<T>(s: seq<T>, p: T -> bool, x: T)
    ensures multiset(Filter(s, p))[x] == if p(x) then multiset(s)[x] else 0
    decreases |s|
  {
    if s != [] {
      var init := s[..|s| - 1];
      FilterCount(init, p, x);
      assert s == init + [s[|s| - 1]];
    }
  }

  /** Filtering a sorted sequence leaves it sorted. */
  lemma {:induction false} FilterSorted<T>(s: seq<T>, p: T -> bool, le: (T, T) -> bool)
    requires SortedBy(s, le)
    ensures SortedBy(Filter(s, p), le)
    decreases |s|
  {
    if s != [] {
      var init := s[..|s| - 1];
      var last := s[|s| - 1];
      FilterSorted(init, p, le);
      if p(last) {
        var f := Filter(init, p);
        FilterSpec(init, p);
        forall i | 0 <= i < |f| ensures le(f[i], last) {
          var k :| 0 <= k < |init| && init[k] == f[i];
          assert s[k] == init[k];
        }
        assert Filter(s, p) == f + [last];
      }
    }
  }

  lemma {:induction false} FilterAppend<T>(a: seq<T>, b: seq<T>, p: T -> bool)
    ensures Filter(a + b, p) == Filter(a, p) + Filter(b, p)
    decreases |b|
  {
    if b == [] {
      assert a + b == a;
    } else {
      assert (a + b)[..|a + b| - 1] == a + b[..|b| - 1];
      FilterAppend(a, b[..|b| - 1], p);
    }
  }

  /** Inserts `x` after every element of `s` that is not greater than it. */
  function Insert<T>(x: T, s: seq<T>, le: (T, T) -> bool): (r: seq<T>)
    ensures |r| == |s| + 1
    ensures multiset(r) == multiset(s) + multiset{x}
  {
    if s == [] || le(s[|s| - 1], x) then s + [x]
    else
      assert s == s[..|s| - 1] + [s[|s| - 1]];
      Insert(x, s[..|s| - 1], le) + [s[|s| - 1]]
  }

  /** `slice::sort_by`: stable. */
  function Sort<T>(s: seq<T>, le: (T, T) -> bool): (r: seq<T>)
    ensures |r| == |s|
    ensures multiset(r) == multiset(s)
  {
    if s == [] then []
    else
      assert s == s[..|s| - 1] + [s[|s| - 1]];
      Insert(s[|s| - 1], Sort(s[..|s| - 1], le), le)
  }

  lemma {:induction false} InsertSorted<T(!new)>(x: T, s: seq<T>, le: (T, T) -> bool)
    requires TotalPreorder(le) && SortedBy(s, le)
    ensures SortedBy(Insert(x, s, le), le)
    decreases |s|
  {
    if s != [] && !le(s[|s| - 1], x) {
      var init := s[..|s| - 1];
      var last := s[|s| - 1];
      InsertSorted(x, init, le);
      var r := Insert(x, init, le);
      assert le(x, last);
      InsertFrom(x, init, le);
      forall i | 0 <= i < |r|
        ensures le(r[i], last)
      {
        if r[i] != x {
          var k :| 0 <= k < |init| && init[k] == r[i];
          assert s[k] == init[k];
        }
      }
      assert Insert(x, s, le) == r + [last];
    }
  }

  /** Every element of an insertion is the inserted one or one of `s`. */
  lemma {:induction false} InsertFrom<T>(x: T, s: seq<T>, le: (T, T) -> bool)
    ensures forall i :: 0 <= i < |Insert(x, s, le)| ==>
      Insert(x, s, le)[i] == x || exists k :: 0 <= k < |s| && s[k] == Insert(x, s, le)[i]
    decreases |s|
  {
    var r := Insert(x, s, le);
    if s == [] || le(s[|s| - 1], x) {
      forall i | 0 <= i < |r| && r[i] != x ensures exists k :: 0 <= k < |s| && s[k] == r[i] {
        assert s[i] == r[i];
      }
    } else {
      var init := s[..|s| - 1];
      InsertFrom(x, init, le);
      var r' := Insert(x, init, le);
      assert r == r' + [s[|s| - 1]];
      forall i | 0 <= i < |r| && r[i] != x ensures exists k :: 0 <= k < |s| && s[k] == r[i] {
        if i < |r'| {
          var k :| 0 <= k < |init| && init[k] == r'[i];
          assert s[k] == r[i];
        } else {
          assert s[|s| - 1] == r[i];
        }
      }
    }
  }

  /** Sorting what is already sorted changes nothing. */
  lemma {:induction false} SortOfSorted<T(!new)>(s: seq<T>, le: (T, T) -> bool)
    requires SortedBy(s, le)
    ensures Sort(s, le) == s
    decreases |s|
  {
    if s != [] {
      var init := s[..|s| - 1];
      SortOfSorted(init, le);
      assert s == init + [s[|s| - 1]];
      if init != [] {
        assert le(init[|init| - 1], s[|s| - 1]);
      }
    }
  }

  lemma {:induction false} SortSorted<T(!new)>(s: seq<T>, le: (T, T) -> bool)
    requires TotalPreorder(le)
    ensures SortedBy(Sort(s, le), le)
    decreases |s|
  {
    if s != [] {
      SortSorted(s[..|s| - 1], le);
      InsertSorted(s[|s| - 1], Sort(s[..|s| - 1], le), le);
    }
  }

  lemma {:induction false} FilterSingleton<T>(x: T, p: T -> bool)
    ensures Filter([x], p) == (if p(x) then [x] else [])
  {
    assert [x][..0] == [];
  }

  /**
   * A set of elements that are all equivalent under `le` (described by `p`) keeps
   * its relative order through an insertion.
   */
  lemma {:induction false} InsertStable<T(!new)>(x: T, s: seq<T>, le: (T, T) -> bool, p: T -> bool)
    requires forall a, b :: p(a) && p(b) ==> le(a, b)
    ensures Filter(Insert(x, s, le), p) == Filter(s, p) + Filter([x], p)
    decreases |s|
  {
    if s == [] || le(s[|s| - 1], x) {
      FilterAppend(s, [x], p);
    } else {
      var init := s[..|s| - 1];
      var last := s[|s| - 1];
      var rest := Insert(x, init, le);
      assert Insert(x, s, le) == rest + [last];
      assert s == init + [last];
      InsertStable(x, init, le, p);
      FilterAppend(rest, [last], p);
      FilterAppend(init, [last], p);
      assert Filter(s, p) == Filter(init, p) + Filter([last], p);
      FilterSingleton(x, p);
      FilterSingleton(last, p);
      assert !(p(x) && p(last));
      SwapEmpty(Filter(init, p), Filter([x], p), Filter([last], p));
    }
  }

  lemma {:induction false} SwapEmpty<T>(a: seq<T>, b: seq<T>, c: seq<T>)
    requires b == [] || c == []
    ensures a + b + c == a + c + b
  {
    if b == [] {
      assert a + b == a && a + c + b == a + c;
    } else {
      assert a + c == a && a + b + c == a + b;
    }
  }

  /** `sort_by` is stable: equivalent elements keep the order they had. */
  lemma {:induction false} SortStable<T(!new)>(s: seq<T>, le: (T, T) -> bool, p: T -> bool)
    requires forall a, b :: p(a) && p(b) ==> le(a, b)
    ensures Filter(Sort(s, le), p) == Filter(s, p)
    decreases |s|
  {
    if s != [] {
      var init := s[..|s| - 1];
      SortStable(init, le, p);
      InsertStable(s[|s| - 1], Sort(init, le), le, p);
      FilterSingleton(s[|s| - 1], p);
    }
  }
}
