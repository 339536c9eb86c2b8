/**
 * The package-list bookkeeping of the `add` and `remove` wrappers around pacman:
 * the list of explicitly installed packages is read from a text file, every
 * package's install or uninstall outcome updates it, and it is written back sorted
 * and without blank entries. Running pacman is left out: each package's outcome is
 * passed in.
 */
module PackageList {
  import opened Wrappers
  import opened Text
  import Files

  /** `list.iter().position(|n| n == name)`: the first index holding `name`. */
  function Position(list: seq<string>, name: string): (r: Option<nat>)
    ensures r.None? <==> name !in list
    ensures r.Some? ==> r.value < |list| && list[r.value] == name
    ensures r.Some? ==> forall j :: 0 <= j < r.value ==> list[j] != name
    decreases |list|
  {
    if list == [] then None
    else if list[0] == name then Some(0)
    else match Position(list[1..], name)
      case None => None
      case Some(i) => Some(i + 1)
  }

  /** The list `removed_from_list` leaves: without the first occurrence of `name`, if any. */
  function RemoveFirst(list: seq<string>, name: string): seq<string> {
    match Position(list, name)
      case None => list
      case Some(i) => list[..i] + list[i + 1..]
  }

  /** The list `add_to_list` leaves: `name` appended unless already present. */
  function AddName(list: seq<string>, name: string): seq<string> {
    if name in list then list else list + [name]
  }

  /**
   * Removing takes one copy of `name` out and keeps every other entry with its
   * multiplicity; with `name` absent the list is unchanged.
   */
  lemma {:induction false} RemoveFirstCounts(list: seq<string>, name: string)
    ensures multiset(RemoveFirst(list, name)) == multiset(list) - multiset{name}
    ensures |RemoveFirst(list, name)| == if name in list then |list| - 1 else |list|
    ensures name !in list ==> RemoveFirst(list, name) == list
  {
    var p := Position(list, name);
    if p.Some? {
      var i := p.value;
      assert list == list[..i] + [list[i]] + list[i + 1..];
    } else {
      assert multiset(list)[name] == 0;
    }
  }

  /**
   * Removing keeps the order: the entries before the first occurrence stay where they
   * were and every later one moves up by one.
   */
  lemma {:induction false} RemoveFirstOrder(list: seq<string>, name: string)
    requires name in list
    ensures var r := RemoveFirst(list, name);
      exists i :: 0 <= i < |list| && list[i] == name && (forall j :: 0 <= j < i ==> list[j] != name)
        && (forall j :: 0 <= j < i ==> r[j] == list[j])
        && (forall j :: i <= j < |r| ==> r[j] == list[j + 1])
  {
    var i := Position(list, name).value;
    var r := list[..i] + list[i + 1..];
    assert RemoveFirst(list, name) == r;
    assert forall j :: 0 <= j < i ==> r[j] == list[j];
    assert forall j :: i <= j < |r| ==> r[j] == list[j + 1];
  }

  /** Adding a name that is not yet listed and removing it again gives back the list. */
  lemma {:induction false} AddThenRemove(list: seq<string>, name: string)
    requires name !in list
    ensures RemoveFirst(AddName(list, name), name) == list
  {
    var l := list + [name];
    assert Position(l, name) == Some(|list|) by {
      PositionOfLast(list, name);
    }
    assert l[..|list|] == list;
  }

  lemma {:induction false} PositionOfLast(list: seq<string>, name: string)
    requires name !in list
    ensures Position(list + [name], name) == Some(|list|)
    decreases |list|
  {
    if list != [] {
      PositionOfLast(list[1..], name);
      assert (list + [name])[1..] == list[1..] + [name];
    }
  }

  /** After an add the name is listed, so adding it a second time changes nothing. */
  lemma {:induction false} AddIdempotent(list: seq<string>, name: string)
    ensures name in AddName(list, name)
    ensures AddName(AddName(list, name), name) == AddName(list, name)
  {
    if name !in list {
      assert (list + [name])[|list|] == name;
    }
  }

  /** `iter().position`, as the loop it stands for. */
  method FindPosition(list: seq<string>, name: string) returns (index: Option<nat>)
    ensures index == Position(list, name)
  {
    var i := 0;
    while i < |list|
      invariant 0 <= i <= |list|
      invariant forall j :: 0 <= j < i ==> list[j] != name
    {
      if list[i] == name {
        FirstPosition(list, name, i);
        return Some(i);
      }
      i := i + 1;
    }
    return None;
  }

  lemma {:induction false} FirstPosition(list: seq<string>, name: string, i: nat)
    requires i < |list| && list[i] == name && forall j :: 0 <= j < i ==> list[j] != name
    ensures Position(list, name) == Some(i)
  {
    var p := Position(list, name);
    assert p.Some? && p.value <= i;
  }

  /** What pacman reported for one package. */
  datatype UninstallResult = Uninstalled | NotInstalled | UninstallFailed(output: string)

  datatype InstallResult = Installed | AlreadyInstalled | InstallFailed(output: string)

  /** The package list, as the `&mut Vec<String>` the handlers update. */
  class Pkglist {
    var names: seq<string>

    constructor(names: seq<string>)
      ensures this.names == names
    {
      this.names := names;
    }

    /** `removed_from_list`: true iff `name` was listed; its first occurrence is removed. */
    method RemovedFromList(name: string) returns (removed: bool)
      modifies this
      ensures removed <==> name in old(names)
      ensures names == RemoveFirst(old(names), name)
    {
      var index := FindPosition(names, name);
      match index {
        case Some(i) =>
          names := names[..i] + names[i + 1..];
          return true;
        case None =>
          return false;
      }
    }

    /** `add_to_list`: false, with the list unchanged, iff `name` is already listed. */
    method AddToList(name: string) returns (added: bool)
      modifies this
      ensures added <==> name !in old(names)
      ensures names == AddName(old(names), name)
    {
      var index := FindPosition(names, name);
      if index.Some? {
        return false;
      }
      names := names + [name];
      return true;
    }

    /**
     * `handle_result` of `remove`: a failed uninstall leaves the list alone; an
     * uninstalled or not installed package is taken off it. The result says whether
     * the name was listed, which picks the message printed.
     */
    method HandleUninstall(name: string, result: UninstallResult) returns (wasListed: bool)
      modifies this
      ensures names == ListAfterUninstall(old(names), name, result)
      ensures wasListed <==> !result.UninstallFailed? && name in old(names)
    {
      match result {
        case UninstallFailed(_) =>
          return false;
        case Uninstalled =>
          wasListed := RemovedFromList(name);
        case NotInstalled =>
          wasListed := RemovedFromList(name);
      }
    }

    /** `handle_result` of `add`: a failed install leaves the list alone; otherwise the name is added. */
    method HandleInstall(name: string, result: InstallResult) returns (added: bool)
      modifies this
      ensures names == ListAfterInstall(old(names), name, result)
      ensures added <==> !result.InstallFailed? && name !in old(names)
    {
      match result {
        case InstallFailed(_) =>
          return false;
        case Installed =>
          added := AddToList(name);
        case AlreadyInstalled =>
          added := AddToList(name);
      }
    }
  }

  /** The list after an uninstall outcome. */
  function ListAfterUninstall(list: seq<string>, name: string, result: UninstallResult): seq<string> {
    if result.UninstallFailed? then list else RemoveFirst(list, name)
  }

  function ListAfterInstall(list: seq<string>, name: string, result: InstallResult): seq<string> {
    if result.InstallFailed? then list else AddName(list, name)
  }

  /** The list after every package's uninstall outcome, in order. */
  function ListAfterUninstalls(list: seq<string>, results: seq<(string, UninstallResult)>): seq<string>
    decreases |results|
  {
    if results == [] then list
    else
      var (name, result) := results[|results| - 1];
      ListAfterUninstall(ListAfterUninstalls(list, results[..|results| - 1]), name, result)
  }

  function ListAfterInstalls(list: seq<string>, results: seq<(string, InstallResult)>): seq<string>
    decreases |results|
  {
    if results == [] then list
    else
      var (name, result) := results[|results| - 1];
      ListAfterInstall(ListAfterInstalls(list, results[..|results| - 1]), name, result)
  }

  /** Only failed uninstalls leave a requested package on the list. */
  lemma {:induction false} UninstallsRemove(list: seq<string>, results: seq<(string, UninstallResult)>, name: string)
    ensures multiset(ListAfterUninstalls(list, results))[name] <= multiset(list)[name]
    ensures (forall k :: 0 <= k < |results| && results[k].0 == name ==> results[k].1.UninstallFailed?)
      ==> multiset(ListAfterUninstalls(list, results))[name] == multiset(list)[name]
    decreases |results|
  {
    if results != [] {
      var init := results[..|results| - 1];
      UninstallsRemove(list, init, name);
      var (n, result) := results[|results| - 1];
      if !result.UninstallFailed? {
        RemoveFirstCounts(ListAfterUninstalls(list, init), n);
      }
      assert forall k :: 0 <= k < |init| ==> init[k] == results[k];
    }
  }

  /** Every package installed or found installed is on the list afterwards, and nothing listed is lost. */
  lemma {:induction false} InstallsAdd(list: seq<string>, results: seq<(string, InstallResult)>)
    ensures forall x :: x in list ==> x in ListAfterInstalls(list, results)
    ensures forall k :: 0 <= k < |results| && !results[k].1.InstallFailed? ==> results[k].0 in ListAfterInstalls(list, results)
    decreases |results|
  {
    if results != [] {
      var init := results[..|results| - 1];
      InstallsAdd(list, init);
      var (n, result) := results[|results| - 1];
      var before := ListAfterInstalls(list, init);
      if !result.InstallFailed? {
        AddIdempotent(before, n);
      }
      forall k | 0 <= k < |results| && !results[k].1.InstallFailed?
        ensures results[k].0 in ListAfterInstalls(list, results)
      {
        if k < |init| {
          assert results[k] == init[k];
        }
      }
    }
  }

  /**
   * `main` of `remove` between reading and writing the list: the outcomes are handled
   * in order on the list read from `content`, and the content to write is returned.
   */
  method RemovePackages(content: string, results: seq<(string, UninstallResult)>) returns (written: string)
    ensures written == Join(Files.Normalized(ListAfterUninstalls(Files.ReadFileLines(content), results)), "\n")
  {
    var pkglist := new Pkglist(Files.ReadFileLines(content));
    for k := 0 to |results|
      invariant pkglist.names == ListAfterUninstalls(Files.ReadFileLines(content), results[..k])
    {
      assert results[..k + 1][..k] == results[..k];
      var (name, result) := results[k];
      var wasListed := pkglist.HandleUninstall(name, result);
    }
    assert results[..|results|] == results;
    written := Files.SortAndWrite(pkglist.names);
  }

  /** `main` of `add`: the outcomes are handled in order, then the list is sorted, filtered and joined. */
  method AddPackages(content: string, results: seq<(string, InstallResult)>) returns (written: string)
    ensures written == Join(Files.Normalized(ListAfterInstalls(Files.ReadFileLines(content), results)), "\n")
  {
    var pkglist := new Pkglist(Files.ReadFileLines(content));
    for k := 0 to |results|
      invariant pkglist.names == ListAfterInstalls(Files.ReadFileLines(content), results[..k])
    {
      assert results[..k + 1][..k] == results[..k];
      var (name, result) := results[k];
      var added := pkglist.HandleInstall(name, result);
    }
    assert results[..|results|] == results;
    written := Files.SortAndWrite(pkglist.names);
  }

  /** The list file: `--pkglist-file` when given, else the AUR list with `--aur`, else the default list. */
  function PkglistPath(pkglistFile: Option<string>, aur: bool): string {
    match pkglistFile
      case Some(p) => p
      case None => if aur then AurPkglist else DefaultPkglist
  }

  /** An explicit file wins whatever `--aur` says; without one, `--aur` picks a list of its own. */
  lemma {:induction false} PkglistPathPriority(file: string, aur: bool)
    ensures PkglistPath(Some(file), aur) == file
    ensures PkglistPath(None, true) != PkglistPath(None, false)
  {
    assert AurPkglist[9] != DefaultPkglist[9];
  }

  const AurPkglist: string := "~/.setup/aur-pkglist"
  const DefaultPkglist: string := "~/.setup/pkglist"
}
