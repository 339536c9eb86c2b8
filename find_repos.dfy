/**
 * `f find-repos`: the git repositories below the given directories. The search
 * stops at excluded paths, at directories holding ".git" (which are recorded) and
 * at the depth limit, and skips whatever cannot be read; the repositories found are
 * sorted and printed one per line, in full or as "parent/name". The file system is
 * an abstract tree: every directory says whether ".git" exists in it and whether it
 * can be read, and lists its entries in the order `read_dir` yields them.
 */
module FindRepos {
  import opened Text
  import Sorting

  /** A `PathBuf` made of normal components, absolute (starting at the root) or relative. */
  datatype Path = Path(absolute: bool, parts: seq<string>)

  /** A directory: whether `path/.git` exists, whether `read_dir` succeeds, and its entries. */
  datatype Tree = Tree(name: string, hasGit: bool, readable: bool, entries: seq<Entry>)

  /** A `read_dir` item: an error, something that is not a directory, or a directory. */
  datatype Entry = Failed | NotDir(name: string) | Directory(dir: Tree)

  /** `path.join(name)`. */
  function PathJoin(p: Path, name: string): (r: Path)
    ensures r.absolute == p.absolute && r.parts == p.parts + [name]
  {
    Path(p.absolute, p.parts + [name])
  }

  /** `Path::starts_with`: `prefix`'s components begin `p`'s. */
  predicate StartsWithPath(p: Path, prefix: Path) {
    p.absolute == prefix.absolute && prefix.parts <= p.parts
  }

  predicate IsExcluded(p: Path, excluded: seq<Path>) {
    exists i :: 0 <= i < |excluded| && StartsWithPath(p, excluded[i])
  }

  /** The loop over `excluded_dir`, returning at the first excluded path that is a prefix. */
  method CheckExcluded(p: Path, excluded: seq<Path>) returns (found: bool)
    ensures found <==> IsExcluded(p, excluded)
  {
    for i := 0 to |excluded|
      invariant forall j :: 0 <= j < i ==> !StartsWithPath(p, excluded[j])
    {
      if p.absolute == excluded[i].absolute && excluded[i].parts <= p.parts {
        return true;
      }
    }
    return false;
  }

  /**
   * The paths `discover_repos` pushes for `path`, whose directory is `t`, at depth
   * `depth`: nothing for an excluded path, the path itself when it holds ".git",
   * nothing at the depth limit or when it cannot be read, and otherwise what its
   * subdirectories give, in entry order.
   */
  function Discover(path: Path, t: Tree, depth: nat, maxDepth: nat, excluded: seq<Path>): seq<Path>
    decreases t, |t.entries| + 1
  {
    if IsExcluded(path, excluded) then []
    else if t.hasGit then [path]
    else if depth == maxDepth then []
    else if !t.readable then []
    else DiscoverFrom(path, t, |t.entries|, depth, maxDepth, excluded)
  }

  /** What the first `n` entries of `t` give. */
  function DiscoverFrom(path: Path, t: Tree, n: nat, depth: nat, maxDepth: nat, excluded: seq<Path>): seq<Path>
    requires n <= |t.entries|
    decreases t, n
  {
    if n == 0 then []
    else DiscoverFrom(path, t, n - 1, depth, maxDepth, excluded) + DiscoverEntry(path, t, n - 1, depth, maxDepth, excluded)
  }

  /** What entry `k` of `t` gives: only a directory is searched. */
  function DiscoverEntry(path: Path, t: Tree, k: nat, depth: nat, maxDepth: nat, excluded: seq<Path>): seq<Path>
    requires k < |t.entries|
    decreases t, 0
  {
    match t.entries[k]
      case Directory(d) => Discover(PathJoin(path, d.name), d, depth + 1, maxDepth, excluded)
      case _ => []
  }

  /** The directory below `t` reached by following entry indices. */
  predicate ValidSteps(t: Tree, steps: seq<nat>)
    decreases |steps|
  {
    steps == [] || (steps[0] < |t.entries| && t.entries[steps[0]].Directory? && ValidSteps(t.entries[steps[0]].dir, steps[1..]))
  }

  function NodeAt(t: Tree, steps: seq<nat>): Tree
    requires ValidSteps(t, steps)
    decreases |steps|
  {
    if steps == [] then t else NodeAt(t.entries[steps[0]].dir, steps[1..])
  }

  /** The path of that directory. */
  function PathAt(path: Path, t: Tree, steps: seq<nat>): (r: Path)
    requires ValidSteps(t, steps)
    ensures r.absolute == path.absolute && |r.parts| == |path.parts| + |steps| && path.parts <= r.parts
    decreases |steps|
  {
    if steps == [] then path
    else
      var d := t.entries[steps[0]].dir;
      PathAt(PathJoin(path, d.name), d, steps[1..])
  }

  /** The search enters `t`: not excluded, no ".git", below the depth limit, readable. */
  predicate Descended(path: Path, t: Tree, depth: nat, maxDepth: nat, excluded: seq<Path>) {
    !IsExcluded(path, excluded) && !t.hasGit && depth != maxDepth && t.readable
  }

  /** Every directory strictly before the end of the walk is entered by the search. */
  predicate OpenWalk(path: Path, t: Tree, steps: seq<nat>, depth: nat, maxDepth: nat, excluded: seq<Path>)
    requires ValidSteps(t, steps)
    decreases |steps|
  {
    steps == [] ||
      (Descended(path, t, depth, maxDepth, excluded)
       && var d := t.entries[steps[0]].dir;
       OpenWalk(PathJoin(path, d.name), d, steps[1..], depth + 1, maxDepth, excluded))
  }

  /**
   * A repository the search reaches: a walk through entered directories to a
   * non-excluded directory holding ".git".
   */
  predicate RepoAt(path: Path, t: Tree, steps: seq<nat>, depth: nat, maxDepth: nat, excluded: seq<Path>) {
    ValidSteps(t, steps) && OpenWalk(path, t, steps, depth, maxDepth, excluded)
    && NodeAt(t, steps).hasGit && !IsExcluded(PathAt(path, t, steps), excluded)
  }

  /** What the first `n` entries give comes from one of them. */
  lemma {:induction false} FromMember(path: Path, t: Tree, n: nat, depth: nat, maxDepth: nat, excluded: seq<Path>, r: Path)
    requires n <= |t.entries| && r in DiscoverFrom(path, t, n, depth, maxDepth, excluded)
    ensures exists k :: 0 <= k < n && r in DiscoverEntry(path, t, k, depth, maxDepth, excluded)
    decreases n
  {
    if r !in DiscoverEntry(path, t, n - 1, depth, maxDepth, excluded) {
      FromMember(path, t, n - 1, depth, maxDepth, excluded, r);
      var k :| 0 <= k < n - 1 && r in DiscoverEntry(path, t, k, depth, maxDepth, excluded);
      assert 0 <= k < n;
    }
  }

  /** What any of the first `n` entries gives is kept. */
  lemma {:induction false} FromIncludes(path: Path, t: Tree, n: nat, k: nat, depth: nat, maxDepth: nat, excluded: seq<Path>, r: Path)
    requires k < n <= |t.entries| && r in DiscoverEntry(path, t, k, depth, maxDepth, excluded)
    ensures r in DiscoverFrom(path, t, n, depth, maxDepth, excluded)
    decreases n
  {
    if k < n - 1 {
      FromIncludes(path, t, n - 1, k, depth, maxDepth, excluded, r);
    }
  }

  /** Every path recorded is a repository the search reaches. */
  lemma {:induction false} DiscoverSound(path: Path, t: Tree, depth: nat, maxDepth: nat, excluded: seq<Path>, r: Path)
    requires r in Discover(path, t, depth, maxDepth, excluded)
    ensures exists steps :: RepoAt(path, t, steps, depth, maxDepth, excluded) && PathAt(path, t, steps) == r
    decreases t
  {
    if t.hasGit {
      assert RepoAt(path, t, [], depth, maxDepth, excluded) && PathAt(path, t, []) == r;
    } else {
      FromMember(path, t, |t.entries|, depth, maxDepth, excluded, r);
      var k :| 0 <= k < |t.entries| && r in DiscoverEntry(path, t, k, depth, maxDepth, excluded);
      var d := t.entries[k].dir;
      var sub := PathJoin(path, d.name);
      DiscoverSound(sub, d, depth + 1, maxDepth, excluded, r);
      var rest :| RepoAt(sub, d, rest, depth + 1, maxDepth, excluded) && PathAt(sub, d, rest) == r;
      StepIn(path, t, k, rest, depth, maxDepth, excluded);
    }
  }

  /** A walk into entry `k` followed by a walk below it. */
  lemma {:induction false} StepIn(path: Path, t: Tree, k: nat, rest: seq<nat>, depth: nat, maxDepth: nat, excluded: seq<Path>)
    requires k < |t.entries| && t.entries[k].Directory? && Descended(path, t, depth, maxDepth, excluded)
    requires RepoAt(PathJoin(path, t.entries[k].dir.name), t.entries[k].dir, rest, depth + 1, maxDepth, excluded)
    ensures RepoAt(path, t, [k] + rest, depth, maxDepth, excluded)
    ensures PathAt(path, t, [k] + rest) == PathAt(PathJoin(path, t.entries[k].dir.name), t.entries[k].dir, rest)
  {
    assert ([k] + rest)[0] == k && ([k] + rest)[1..] == rest;
  }

  /** Every repository the search reaches is recorded. */
  lemma {:induction false} DiscoverComplete(path: Path, t: Tree, steps: seq<nat>, depth: nat, maxDepth: nat, excluded: seq<Path>)
    requires RepoAt(path, t, steps, depth, maxDepth, excluded)
    ensures PathAt(path, t, steps) in Discover(path, t, depth, maxDepth, excluded)
    decreases |steps|
  {
    if steps != [] {
      var k := steps[0];
      var d := t.entries[k].dir;
      var sub := PathJoin(path, d.name);
      assert RepoAt(sub, d, steps[1..], depth + 1, maxDepth, excluded);
      DiscoverComplete(sub, d, steps[1..], depth + 1, maxDepth, excluded);
      FromIncludes(path, t, |t.entries|, k, depth, maxDepth, excluded, PathAt(path, t, steps));
    }
  }

  /** A walk the search enters from depth `depth` has at most `maxDepth - depth` steps. */
  lemma {:induction false} WalkDepth(path: Path, t: Tree, steps: seq<nat>, depth: nat, maxDepth: nat, excluded: seq<Path>)
    requires depth <= maxDepth && ValidSteps(t, steps) && OpenWalk(path, t, steps, depth, maxDepth, excluded)
    ensures depth + |steps| <= maxDepth
    decreases |steps|
  {
    if steps != [] {
      var d := t.entries[steps[0]].dir;
      WalkDepth(PathJoin(path, d.name), d, steps[1..], depth + 1, maxDepth, excluded);
    }
  }

  /**
   * Every path recorded lies below the start path, at most `maxDepth` levels deeper,
   * holds ".git", and is not excluded.
   */
  lemma {:induction false} RecordedBounds(root: Path, t: Tree, maxDepth: nat, excluded: seq<Path>, r: Path)
    requires r in Discover(root, t, 0, maxDepth, excluded)
    ensures StartsWithPath(r, root) && |r.parts| <= |root.parts| + maxDepth
    ensures !IsExcluded(r, excluded)
  {
    DiscoverSound(root, t, 0, maxDepth, excluded, r);
    var steps :| RepoAt(root, t, steps, 0, maxDepth, excluded) && PathAt(root, t, steps) == r;
    WalkDepth(root, t, steps, 0, maxDepth, excluded);
  }

  /** `new_repos`, the list `discover_repos` pushes to. */
  class RepoList {
    var repos: seq<Path>

    constructor()
      ensures repos == []
    {
      repos := [];
    }

    /** `discover_repos`: pushes the repositories below `path` after those already listed. */
    method DiscoverRepos(path: Path, t: Tree, depth: nat, maxDepth: nat, excluded: seq<Path>)
      modifies this
      ensures repos == old(repos) + Discover(path, t, depth, maxDepth, excluded)
      decreases t
    {
      var isExcluded := CheckExcluded(path, excluded);
      if isExcluded {
        return;
      }
      if t.hasGit {
        repos := repos + [path];
        return;
      }
      if depth == maxDepth {
        return;
      }
      if !t.readable {
        return;
      }
      ghost var before := repos;
      for k := 0 to |t.entries|
        invariant repos == before + DiscoverFrom(path, t, k, depth, maxDepth, excluded)
      {
        match t.entries[k] {
          case Failed =>
          case NotDir(_) =>
          case Directory(d) =>
            DiscoverRepos(PathJoin(path, d.name), d, depth + 1, maxDepth, excluded);
        }
      }
    }
  }

  /** The repositories of all start paths, in the order of the paths. */
  function FoundFrom(roots: seq<(Path, Tree)>, maxDepth: nat, excluded: seq<Path>, n: nat): seq<Path>
    requires n <= |roots|
  {
    if n == 0 then []
    else FoundFrom(roots, maxDepth, excluded, n - 1) + Discover(roots[n - 1].0, roots[n - 1].1, 0, maxDepth, excluded)
  }

  /** `Ord for Path` on normal components: component by component, a shorter prefix first. */
  predicate PartsLe(a: seq<string>, b: seq<string>)
    decreases |a|
  {
    a == [] || (b != [] && ((StrLe(a[0], b[0]) && a[0] != b[0]) || (a[0] == b[0] && PartsLe(a[1..], b[1..]))))
  }

  /** The root component sorts before every normal one, and an empty path before everything. */
  predicate PathLe(a: Path, b: Path) {
    if a.absolute == b.absolute then PartsLe(a.parts, b.parts)
    else if a.absolute then b.parts != []
    else a.parts == []
  }

  lemma {:induction false} PartsLeTotal(a: seq<string>, b: seq<string>)
    ensures PartsLe(a, b) || PartsLe(b, a)
    decreases |a|
  {
    if a != [] && b != [] {
      if a[0] == b[0] {
        PartsLeTotal(a[1..], b[1..]);
      } else {
        StrLeTotal(a[0], b[0]);
      }
    }
  }

  lemma {:induction false} PartsLeTransitive(a: seq<string>, b: seq<string>, c: seq<string>)
    requires PartsLe(a, b) && PartsLe(b, c)
    ensures PartsLe(a, c)
    decreases |a|
  {
    if a != [] {
      if a[0] == b[0] && b[0] == c[0] {
        PartsLeTransitive(a[1..], b[1..], c[1..]);
      } else if a[0] != b[0] && b[0] != c[0] {
        StrLeTransitive(a[0], b[0], c[0]);
        if a[0] == c[0] {
          StrLeAntisymmetric(a[0], b[0]);
        }
      }
    }
  }

  lemma {:induction false} PathLeIsTotalPreorder()
    ensures Sorting.TotalPreorder(PathLe)
  {
    forall a, b ensures PathLe(a, b) || PathLe(b, a) {
      PartsLeTotal(a.parts, b.parts);
    }
    forall a, b, c | PathLe(a, b) && PathLe(b, c) ensures PathLe(a, c) {
      if a.absolute == b.absolute == c.absolute {
        PartsLeTransitive(a.parts, b.parts, c.parts);
      }
    }
  }

  /** The list printed is in ascending path order and holds every repository found, as often as found. */
  lemma {:induction false} SortedRepos(found: seq<Path>)
    ensures Sorting.SortedBy(Sorting.Sort(found, PathLe), PathLe)
    ensures multiset(Sorting.Sort(found, PathLe)) == multiset(found)
  {
    PathLeIsTotalPreorder();
    Sorting.SortSorted(found, PathLe);
  }

  /** `to_string_lossy` of a path. */
  function Display(p: Path): string {
    (if p.absolute then "/" else "") + Join(p.parts, "/")
  }

  /**
   * The closure in `main`: the full path unless `short`; with `short`, the full path
   * when there is no file name, the file name alone when its parent has no name,
   * and "parent/name" otherwise.
   */
  function ShortName(p: Path, short: bool): string {
    if !short || p.parts == [] then Display(p)
    else if |p.parts| == 1 then p.parts[0]
    else p.parts[|p.parts| - 2] + "/" + p.parts[|p.parts| - 1]
  }

  /** The short form is always the end of the full path. */
  lemma {:induction false} ShortNameSuffix(p: Path, short: bool)
    ensures EndsWith(Display(p), ShortName(p, short))
  {
    var n := |p.parts|;
    var prefix := if p.absolute then "/" else "";
    var name := ShortName(p, short);
    if name == Display(p) {
      assert Display(p)[|Display(p)| - |name|..] == name;
    } else if n == 1 {
      assert Join(p.parts, "/") == p.parts[0];
      assert EndsWith(p.parts[0], p.parts[0]) by {
        assert p.parts[0][0..] == p.parts[0];
      }
      EndsWithAppend(prefix, p.parts[0], p.parts[0]);
    } else {
      JoinEndsWithLastTwo(p.parts, "/");
      EndsWithAppend(prefix, Join(p.parts, "/"), name);
    }
  }

  /** A suffix of `b` is a suffix of `a + b`. */
  lemma {:induction false} EndsWithAppend(a: string, b: string, t: string)
    requires EndsWith(b, t)
    ensures EndsWith(a + b, t)
  {
    assert (a + b)[|a + b| - |t|..] == b[|b| - |t|..];
  }

  /** A joined list of two or more parts ends with its last two parts and the separator between them. */
  lemma {:induction false} JoinEndsWithLastTwo(parts: seq<string>, sep: string)
    requires |parts| >= 2
    ensures EndsWith(Join(parts, sep), parts[|parts| - 2] + sep + parts[|parts| - 1])
    decreases |parts|
  {
    var n := |parts|;
    var t := parts[n - 2] + sep + parts[n - 1];
    if n == 2 {
      assert Join(parts[1..], sep) == parts[1];
      assert Join(parts, sep) == t;
      assert t[|t| - |t|..] == t;
    } else {
      JoinEndsWithLastTwo(parts[1..], sep);
      assert parts[1..][|parts| - 3] == parts[n - 2] && parts[1..][|parts| - 2] == parts[n - 1];
      EndsWithAppend(parts[0] + sep, Join(parts[1..], sep), t);
    }
  }

  /** The formatted names of the repositories, in order. */
  function Names(repos: seq<Path>, short: bool): (r: seq<string>)
    ensures |r| == |repos|
    ensures forall i :: 0 <= i < |repos| ==> r[i] == ShortName(repos[i], short)
  {
    if repos == [] then [] else Names(repos[..|repos| - 1], short) + [ShortName(repos[|repos| - 1], short)]
  }

  /**
   * `find-repos`: every start path is searched in turn into one list, which is
   * sorted, formatted and joined with line feeds.
   */
  method FindReposMain(roots: seq<(Path, Tree)>, maxDepth: nat, short: bool, excluded: seq<Path>) returns (output: string)
    ensures output == Join(Names(Sorting.Sort(FoundFrom(roots, maxDepth, excluded, |roots|), PathLe), short), "\n")
  {
    var list := new RepoList();
    for k := 0 to |roots|
      invariant list.repos == FoundFrom(roots, maxDepth, excluded, k)
    {
      list.DiscoverRepos(roots[k].0, roots[k].1, 0, maxDepth, excluded);
    }
    var repos := Sorting.Sort(list.repos, PathLe);
    var formatted: seq<string> := [];
    for i := 0 to |repos|
      invariant formatted == Names(repos[..i], short)
    {
      assert repos[..i + 1][..i] == repos[..i];
      formatted := formatted + [ShortName(repos[i], short)];
    }
    assert repos[..|repos|] == repos;
    output := Join(formatted, "\n");
  }
}
