/**
 * The package front end of the Debian image creator (debianimage/aptinst.py):
 * Debootstrap records the repositories of sources.list and writes its text;
 * Apt keeps the list of extra packages that selectPackage and
 * deselectPackage change in place. The installer's queries instPackages
 * and hasPackage are parameters of the operations that use them.
 */
module AptInst {

  import opened Wrappers
  import opened Strings

  /** The message of the TypeError Python 2 raises when a method declared with declared parameters is called with given arguments (self counted in both). */
  function ArityError(name: string, declared: nat, given: nat): (r: Option<string>)
    ensures r.None? <==> declared == given
    ensures r.Some? ==> StartsWith(r.value, "TypeError: ") && Occurs(r.value, name, 11)
  {
    var head := "TypeError: " + name + "() takes ";
    assert head[11..11 + |name|] == name;
    var tail :=
      if declared == 0 then "no arguments (" + NatToString(given) + " given)"
      else "exactly " + NatToString(declared) + (if declared == 1 then " argument (" else " arguments (")
           + NatToString(given) + " given)";
    assert (head + tail)[..|head|] == head;
    if declared == given then None else Some(head + tail)
  }

  // ---------------------------------------------------------------------
  // sources.list

  /** The line addRepo records for a repository URL. */
  function RepoLine(fullurl: string): (r: string)
    ensures StartsWith(r, "deb ") && r[4..] == fullurl
  {
    "deb " + fullurl
  }

  /** The lines recorded for the URLs, in call order. */
  function RepoLines(urls: seq<string>): (r: seq<string>)
    ensures |r| == |urls| && forall i :: 0 <= i < |urls| ==> r[i] == RepoLine(urls[i])
  {
    seq(|urls|, i requires 0 <= i < |urls| => RepoLine(urls[i]))
  }

  /** The text of sources.list: the recorded lines joined with newlines, with no newline at the end. */
  function SourcesListText(repos: seq<string>): string
  {
    Join("\n", repos)
  }

  lemma {:induction false} JoinEndsWithLast(sep: string, parts: seq<string>)
    requires |parts| >= 1
    ensures EndsWith(Join(sep, parts), parts[|parts| - 1])
  {
    if |parts| > 1 {
      JoinEndsWithLast(sep, parts[1..]);
      var rest := Join(sep, parts[1..]);
      var j := Join(sep, parts);
      assert j == (parts[0] + sep) + rest;
      assert j[|j| - |parts[|parts| - 1]|..] == rest[|rest| - |parts[|parts| - 1]|..];
    }
  }

  /**
   * Splitting sources.list at its newlines gives back the recorded lines,
   * one per repository, when no URL holds a newline; and the text ends with
   * the last URL, not with a newline.
   */
  lemma SourcesListRoundTrip(urls: seq<string>)
    requires |urls| >= 1
    requires forall i :: 0 <= i < |urls| ==> '\n' !in urls[i]
    ensures Split(SourcesListText(RepoLines(urls)), '\n') == RepoLines(urls)
    ensures EndsWith(SourcesListText(RepoLines(urls)), urls[|urls| - 1])
  {
    var lines := RepoLines(urls);
    forall i | 0 <= i < |lines| ensures '\n' !in lines[i] {
      assert lines[i] == "deb " + urls[i];
    }
    SplitJoin(lines, '\n');
    JoinEndsWithLast("\n", lines);
    var t := SourcesListText(lines);
    var last := lines[|lines| - 1];
    assert last == "deb " + urls[|urls| - 1];
    assert t[|t| - |last|..][4..] == last[4..];
  }

  /** With no repository recorded, sources.list is empty. */
  lemma SourcesListEmpty()
    ensures SourcesListText([]) == ""
  {
  }

  /** Debootstrap: the recorded repositories and the root they are written under. */
  class Debootstrap {
    var rootdir: string
    var repos: seq<string>

    /** Every recorded repository is a "deb" line. */
    predicate Valid()
      reads this
    {
      forall i :: 0 <= i < |repos| ==> StartsWith(repos[i], "deb ")
    }

    constructor(rootdir: string)
      ensures this.rootdir == rootdir && repos == []
      ensures Valid()
    {
      this.rootdir := rootdir;
      repos := [];
    }

    /** addRepo as evidently intended: record "deb " + the URL, after the earlier ones. */
    method AddRepo(fullurl: string)
      requires Valid()
      modifies this
      ensures repos == old(repos) + [RepoLine(fullurl)]
      ensures rootdir == old(rootdir)
      ensures Valid()
    {
      repos := repos + [RepoLine(fullurl)];
    }

    /** _writeSourcesList as evidently intended: the path, text and mode of sources.list. */
    method WriteSourcesList() returns (path: string, text: string, mode: int)
      ensures path == rootdir + "/etc/apt/sources.list"
      ensures text == SourcesListText(repos)
      ensures mode == 0x1A4
    {
      path := rootdir + "/etc/apt/sources.list";
      text := SourcesListText(repos);
      mode := 0x1A4;
    }
  }

  /** addRepo as written: declared without self, so a call on an object gets two arguments for one parameter. */
  function AddRepoAsWritten(fullurl: string): (r: Result<seq<string>, string>)
  {
    match ArityError("addRepo", 1, 2)
    case Some(e) => Err(e)
    case None => Ok([RepoLine(fullurl)])
  }

  /** _writeSourcesList as written: declared with no parameter, so the call from setup passes one too many. */
  function WriteSourcesListAsWritten(repos: seq<string>): (r: Result<string, string>)
  {
    match ArityError("_writeSourcesList", 0, 1)
    case Some(e) => Err(e)
    case None => Ok(SourcesListText(repos))
  }

  /**
   * As written, addRepo records nothing and _writeSourcesList writes
   * nothing, for every input: both calls raise TypeError, while the intended
   * operations record the "deb" line and produce the joined text.
   */
  lemma AptSourcesAsWrittenRaise(fullurl: string, repos: seq<string>)
    ensures AddRepoAsWritten(fullurl).Err? && StartsWith(AddRepoAsWritten(fullurl).error, "TypeError: ")
    ensures Occurs(AddRepoAsWritten(fullurl).error, "addRepo", 11)
    ensures WriteSourcesListAsWritten(repos).Err? && StartsWith(WriteSourcesListAsWritten(repos).error, "TypeError: ")
    ensures Occurs(WriteSourcesListAsWritten(repos).error, "_writeSourcesList", 11)
    ensures RepoLines([fullurl]) == [RepoLine(fullurl)] && StartsWith(RepoLine(fullurl), "deb ")
  {
  }

  // ---------------------------------------------------------------------
  // The yum-style configuration of Apt.setup

  /** _writeConf as evidently intended: the configuration it formats for the install root it is given. */
  function ConfLines(installroot: string): (r: seq<string>)
    ensures |r| == 7 && r[0] == "[main]" && r[1] == "installroot=" + installroot
  {
    ["[main]", "installroot=" + installroot, "cachedir=/var/cache/yum", "plugins=0",
     "reposdir=", "failovermethod=priority", "keepcache=1"]
  }

  /** _writeConf as written: the body formats installroot, which is neither one of its parameters nor a global of the module, so every call raises NameError. */
  function WriteConfAsWritten(confpath: string, arch: string): (r: Result<seq<string>, string>)
  {
    Err("NameError: global name 'installroot' is not defined")
  }

  /** The call as written never produces a configuration, while the corrected one names the install root it is given. */
  lemma WriteConfAsWrittenRaises(confpath: string, installroot: string)
    ensures WriteConfAsWritten(confpath, installroot).Err?
    ensures ConfLines(installroot)[1] == "installroot=" + installroot
  {
  }

  // ---------------------------------------------------------------------
  // Package selection

  /** extraPackages after selectPackage(pkg): appended when not installed and available. */
  function Selected(extra: seq<string>, pkg: string, installed: seq<string>, hasPackage: string -> bool): (r: seq<string>)
    ensures (pkg !in installed && hasPackage(pkg)) ==> r == extra + [pkg]
    ensures !(pkg !in installed && hasPackage(pkg)) ==> r == extra
  {
    if pkg !in installed && hasPackage(pkg) then extra + [pkg] else extra
  }

  /** The position of the first x in s. */
  function FirstIndex(s: seq<string>, x: string): (i: nat)
    requires x in s
    ensures i < |s| && s[i] == x && x !in s[..i]
  {
    if s[0] == x then 0
    else
      var k := FirstIndex(s[1..], x);
      assert s[..k + 1] == [s[0]] + s[1..][..k];
      k + 1
  }

  /** Python's list.remove(x) on a list holding x: drop its first occurrence. */
  function RemoveFirst(s: seq<string>, x: string): (r: seq<string>)
    requires x in s
    ensures |r| == |s| - 1
    ensures multiset(r) == multiset(s) - multiset{x}
    ensures exists i :: 0 <= i < |s| && s[i] == x && x !in s[..i] && r == s[..i] + s[i + 1..]
  {
    var i := FirstIndex(s, x);
    assert s == s[..i] + [s[i]] + s[i + 1..];
    s[..i] + s[i + 1..]
  }

  /** The error list.remove raises when the element is not in the list. */
  const NotInList: string := "ValueError: list.remove(x): x not in list"

  /** extraPackages after deselectPackage(pkg), or the error it raises. */
  function Deselected(extra: seq<string>, pkg: string, hasPackage: string -> bool): (r: Result<seq<string>, string>)
    ensures r.Err? <==> hasPackage(pkg) && pkg !in extra
    ensures r.Err? ==> r.error == NotInList
    ensures r.Ok? && !hasPackage(pkg) ==> r.value == extra
    ensures r.Ok? && hasPackage(pkg) ==> r.value == RemoveFirst(extra, pkg)
  {
    if !hasPackage(pkg) then Ok(extra)
    else if pkg in extra then Ok(RemoveFirst(extra, pkg))
    else Err(NotInList)
  }

  /** Selecting every package in turn: the list after a run of selectPackage calls. */
  function SelectAll(extra: seq<string>, pkgs: seq<string>, installed: seq<string>, hasPackage: string -> bool): seq<string>
    decreases |pkgs|
  {
    if pkgs == [] then extra
    else SelectAll(Selected(extra, pkgs[0], installed, hasPackage), pkgs[1..], installed, hasPackage)
  }

  /** The packages of pkgs that are not installed and that the installer has, in order. */
  function Selectable(pkgs: seq<string>, installed: seq<string>, hasPackage: string -> bool): (r: seq<string>)
    ensures forall p :: p in r <==> p in pkgs && p !in installed && hasPackage(p)
  {
    if pkgs == [] then []
    else (if pkgs[0] !in installed && hasPackage(pkgs[0]) then [pkgs[0]] else [])
         + Selectable(pkgs[1..], installed, hasPackage)
  }

  lemma {:induction false} SelectableAppend(a: seq<string>, b: seq<string>, installed: seq<string>, hasPackage: string -> bool)
    ensures Selectable(a + b, installed, hasPackage) == Selectable(a, installed, hasPackage) + Selectable(b, installed, hasPackage)
  {
    if a == [] {
      assert a + b == b;
    } else {
      assert (a + b)[0] == a[0] && (a + b)[1..] == a[1..] + b;
      SelectableAppend(a[1..], b, installed, hasPackage);
    }
  }

  /** One more selectPackage call on a prefix of the packages. */
  lemma SelectableStep(pkgs: seq<string>, i: int, installed: seq<string>, hasPackage: string -> bool)
    requires 0 <= i < |pkgs|
    ensures Selectable(pkgs[..i + 1], installed, hasPackage)
         == Selected(Selectable(pkgs[..i], installed, hasPackage), pkgs[i], installed, hasPackage)
  {
    assert pkgs[..i + 1] == pkgs[..i] + [pkgs[i]];
    SelectableAppend(pkgs[..i], [pkgs[i]], installed, hasPackage);
    assert Selectable([pkgs[i]], installed, hasPackage)
        == (if pkgs[i] !in installed && hasPackage(pkgs[i]) then [pkgs[i]] else []) + Selectable([], installed, hasPackage);
  }

  /**
   * A run of selectPackage calls appends exactly the selectable packages in
   * call order, keeping a package as often as it is asked for: nothing
   * checks extraPackages itself.
   */
  lemma {:induction false} SelectAllAppendsSelectable(extra: seq<string>, pkgs: seq<string>, installed: seq<string>,
                                                      hasPackage: string -> bool)
    ensures SelectAll(extra, pkgs, installed, hasPackage) == extra + Selectable(pkgs, installed, hasPackage)
    decreases |pkgs|
  {
    if pkgs != [] {
      var next := Selected(extra, pkgs[0], installed, hasPackage);
      SelectAllAppendsSelectable(next, pkgs[1..], installed, hasPackage);
    }
  }

  /** Selecting an available, uninstalled package twice leaves it in the list twice more. */
  lemma SelectTwiceKeepsBoth(extra: seq<string>, pkg: string, installed: seq<string>, hasPackage: string -> bool)
    requires pkg !in installed && hasPackage(pkg)
    ensures var r := Selected(Selected(extra, pkg, installed, hasPackage), pkg, installed, hasPackage);
      r == extra + [pkg, pkg] && multiset(r)[pkg] == multiset(extra)[pkg] + 2
  {
    assert extra + [pkg] + [pkg] == extra + [pkg, pkg];
  }

  /**
   * deselectPackage undoes a selectPackage that appended: the result holds
   * the same packages as before, and when the package was not selected
   * already the very list; deselecting an available package that is not
   * selected fails.
   */
  lemma DeselectUndoesSelect(extra: seq<string>, pkg: string, installed: seq<string>, hasPackage: string -> bool)
    requires pkg !in installed && hasPackage(pkg)
    ensures var d := Deselected(Selected(extra, pkg, installed, hasPackage), pkg, hasPackage);
      d.Ok? && multiset(d.value) == multiset(extra)
    ensures pkg !in extra ==> Deselected(Selected(extra, pkg, installed, hasPackage), pkg, hasPackage) == Ok(extra)
    ensures pkg !in extra ==> Deselected(extra, pkg, hasPackage) == Err(NotInList)
  {
    var s := extra + [pkg];
    assert multiset(s) - multiset{pkg} == multiset(extra);
    if pkg !in extra {
      var i := FirstIndex(s, pkg);
      assert i == |extra|;
      assert s[..i] == extra && s[i + 1..] == [];
      assert RemoveFirst(s, pkg) == extra;
    }
  }

  /**
   * The AttributeError an installer query raises as written. setup raises
   * NameError in _writeConf before it assigns self.installer, so an Apt has
   * no installer attribute; and were one assigned, a Debootstrap defines
   * neither instPackages nor hasPackage.
   */
  function InstallerQueryAsWritten(hasInstaller: bool, query: string): (r: string)
    ensures StartsWith(r, "AttributeError: ")
    ensures !hasInstaller ==> r == "AttributeError: " + "'Apt' object has no attribute 'installer'"
    ensures hasInstaller ==> EndsWith(r, "has no attribute '" + query + "'")
  {
    if !hasInstaller then
      var r := "AttributeError: " + "'Apt' object has no attribute 'installer'";
      assert r[..|"AttributeError: "|] == "AttributeError: ";
      r
    else
      var missing := "has no attribute '" + query + "'";
      var r := "AttributeError: " + ("'Debootstrap' object " + missing);
      assert r[..|"AttributeError: "|] == "AttributeError: ";
      assert r[|r| - |missing|..] == missing;
      r
  }

  /** selectPackage as written: the first query, instPackages, raises before the list is touched. */
  function SelectPackageAsWritten(extra: seq<string>, pkg: string, hasInstaller: bool): Result<seq<string>, string>
  {
    Err(InstallerQueryAsWritten(hasInstaller, "instPackages"))
  }

  /** deselectPackage as written: its query, hasPackage, raises before the list is touched. */
  function DeselectPackageAsWritten(extra: seq<string>, pkg: string, hasInstaller: bool): Result<seq<string>, string>
  {
    Err(InstallerQueryAsWritten(hasInstaller, "hasPackage"))
  }

  /**
   * As written, selectPackage and deselectPackage change nothing and raise
   * AttributeError for every package, with or without an installer; the
   * corrected operations, given the installer's answers, append an
   * available package that is not installed and remove a selected one.
   */
  lemma SelectionAsWrittenRaises(extra: seq<string>, pkg: string, hasInstaller: bool,
                                 installed: seq<string>, hasPackage: string -> bool)
    ensures SelectPackageAsWritten(extra, pkg, hasInstaller).Err?
    ensures DeselectPackageAsWritten(extra, pkg, hasInstaller).Err?
    ensures StartsWith(SelectPackageAsWritten(extra, pkg, hasInstaller).error, "AttributeError: ")
    ensures StartsWith(DeselectPackageAsWritten(extra, pkg, hasInstaller).error, "AttributeError: ")
    ensures hasInstaller ==> EndsWith(SelectPackageAsWritten(extra, pkg, hasInstaller).error, "has no attribute '" + "instPackages" + "'")
    ensures hasInstaller ==> EndsWith(DeselectPackageAsWritten(extra, pkg, hasInstaller).error, "has no attribute '" + "hasPackage" + "'")
    ensures pkg !in installed && hasPackage(pkg) ==> Selected(extra, pkg, installed, hasPackage) == extra + [pkg]
    ensures hasPackage(pkg) && pkg in extra ==> Deselected(extra, pkg, hasPackage) == Ok(RemoveFirst(extra, pkg))
  {
    assert SelectPackageAsWritten(extra, pkg, hasInstaller).error == InstallerQueryAsWritten(hasInstaller, "instPackages");
    assert DeselectPackageAsWritten(extra, pkg, hasInstaller).error == InstallerQueryAsWritten(hasInstaller, "hasPackage");
  }

  /** Apt: the extra packages the image asks for, and the installer set up for it. */
  class Apt {
    var releasever: Option<string>
    var extraPackages: seq<string>
    var installer: Debootstrap?

    /** A fresh Apt has selected nothing and has no installer yet. */
    constructor(releasever: Option<string>)
      ensures this.releasever == releasever
      ensures extraPackages == []
      ensures installer == null
    {
      this.releasever := releasever;
      extraPackages := [];
      installer := null;
    }

    /**
     * setup with _writeConf as evidently intended: the path, text and mode
     * of the configuration file, and a new installer for the root.
     */
    method Setup(confpath: string, installroot: string) returns (path: string, conf: seq<string>, mode: int)
      modifies this
      ensures path == confpath && mode == 0x1A4
      ensures conf == ConfLines(installroot)
      ensures installer != null && fresh(installer)
      ensures installer.rootdir == installroot && installer.repos == [] && installer.Valid()
      ensures extraPackages == old(extraPackages) && releasever == old(releasever)
    {
      path, conf, mode := confpath, ConfLines(installroot), 0x1A4;
      installer := new Debootstrap(installroot);
    }

    /** selectPackage: installed is what instPackages returns and hasPackage the installer's check. */
    method SelectPackage(pkg: string, installed: seq<string>, hasPackage: string -> bool)
      modifies this
      ensures extraPackages == Selected(old(extraPackages), pkg, installed, hasPackage)
      ensures installer == old(installer) && releasever == old(releasever)
    {
      if pkg !in installed && hasPackage(pkg) {
        extraPackages := extraPackages + [pkg];
      }
    }

    /** deselectPackage: removes the first pkg when the installer has it; list.remove raises when none is selected. */
    method DeselectPackage(pkg: string, hasPackage: string -> bool) returns (r: Result<(), string>)
      modifies this
      ensures var d := Deselected(old(extraPackages), pkg, hasPackage);
        (r.Ok? <==> d.Ok?) && (d.Ok? ==> extraPackages == d.value) && (d.Err? ==> r == Err(d.error))
      ensures r.Err? ==> extraPackages == old(extraPackages)
      ensures installer == old(installer) && releasever == old(releasever)
    {
      if hasPackage(pkg) {
        if pkg !in extraPackages {
          return Err(NotInList);
        }
        extraPackages := RemoveFirst(extraPackages, pkg);
      }
      return Ok(());
    }

    /** addRepository: hands the URL to the installer's addRepo. */
    method AddRepository(fullurl: string)
      requires installer != null && installer.Valid()
      modifies installer
      ensures installer.repos == old(installer.repos) + [RepoLine(fullurl)]
      ensures installer.rootdir == old(installer.rootdir) && installer.Valid()
    {
      installer.AddRepo(fullurl);
    }
  }
}
