/**
 * The helpers of imgcreate/kickstart.py that read values out of a parsed
 * kickstart: the image name builder, partition lookups, kernel module and
 * bootloader lookups, repositories and the package list. The parsed
 * kickstart is modelled as plain records; an attribute that is missing or
 * None is an absent Option, an empty string stands for an unset text field.
 */
module Kickstart {
  import opened Wrappers
  import opened Strings

  // ---------------------------------------------------------------------
  // The parsed kickstart.

  /** A `part` line: its mount point, size in MiB (0 when unset), fs type ("" when unset) and disk. */
  datatype Partition = Partition(mountpoint: string, size: int, fstype: string, disk: string)

  /** A `device` line: its module names, joined by ':'. */
  datatype Device = Device(moduleName: string)

  /** Older kickstart versions hold one device, newer ones a deviceList. */
  datatype DeviceSection = SingleDevice(device: Device) | DeviceList(deviceList: seq<Device>)

  /** The `bootloader` line; a field is None when the attribute is missing or None. */
  datatype Bootloader = Bootloader(timeout: Option<int>, appendLine: Option<string>, defaultKernel: Option<string>)

  /** A `repo` line; includepkgs/excludepkgs are empty when the attribute is missing. */
  datatype Repo = Repo(name: string, baseurl: Option<string>, mirrorlist: Option<string>,
                       proxy: Option<string>, includepkgs: seq<string>, excludepkgs: seq<string>)

  /** The handler of a parsed kickstart, restricted to what the helpers read. */
  datatype Handler = Handler(partitions: seq<Partition>, device: DeviceSection, bootloader: Bootloader,
                             repoList: seq<Repo>, packageList: seq<string>)

  // ---------------------------------------------------------------------
  // build_name

  /** The kickstart file's base name up to (not including) its last '.'. */
  function KickstartStem(kscfg: string): (name: string)
    ensures |name| <= |Basename(kscfg)| && name == Basename(kscfg)[..|name|]
    ensures |name| < |Basename(kscfg)| ==> Basename(kscfg)[|name|] == '.'
    ensures forall k :: |name| < k < |Basename(kscfg)| ==> Basename(kscfg)[k] != '.'
    ensures |name| == |Basename(kscfg)| ==> '.' !in Basename(kscfg)
  {
    var base := Basename(kscfg);
    var idx := RFind(base, '.');
    if idx >= 0 then base[..idx] else base
  }

  /** The name with a leading prefix removed, when it has one. */
  function DropPrefix(name: string, prefix: string): (r: string)
    ensures StartsWith(name, prefix) ==> name == prefix + r
    ensures !StartsWith(name, prefix) ==> r == name
  {
    if StartsWith(name, prefix) then name[|prefix|..] else name
  }

  /**
   * prefix + stem + "-" + suffix, where the stem loses a leading copy of
   * the prefix. When that exceeds maxlen, the prefix goes and the stem is
   * cut so that the whole fits, the suffix staying intact. A suffix of None
   * (a time stamp in the source) is a parameter here.
   */
  function BuildName(kscfg: string, prefix: Option<string>, suffix: string, maxlen: Option<int>): (r: string)
    // the suffix is always kept whole, behind a '-'
    ensures |r| > |suffix| && EndsWith(r, "-" + suffix)
  {
    NameFromStem(KickstartStem(kscfg), prefix.GetOr(""), suffix, maxlen)
  }

  /** build_name once the stem of the kickstart file is known. */
  function NameFromStem(stem: string, pre: string, suffix: string, maxlen: Option<int>): (r: string)
    ensures |r| > |suffix| && EndsWith(r, "-" + suffix)
  {
    var name := DropPrefix(stem, pre);
    var ret := pre + name + "-" + suffix;
    if maxlen.Some? && |ret| > maxlen.value then
      var r := Take(name, maxlen.value - |suffix| - 1) + "-" + suffix;
      assert r[|r| - |suffix| - 1..] == "-" + suffix;
      r
    else
      assert ret[|ret| - |suffix| - 1..] == "-" + suffix;
      ret
  }

  /** Within the limit the name is prefix, stem without the prefix, '-' and suffix. */
  lemma BuildNameWithinLimit(stem: string, pre: string, suffix: string, maxlen: Option<int>)
    requires maxlen.None? || |pre + DropPrefix(stem, pre) + "-" + suffix| <= maxlen.value
    ensures NameFromStem(stem, pre, suffix, maxlen) == pre + DropPrefix(stem, pre) + "-" + suffix
  {
  }

  /**
   * Over the limit the prefix is dropped and the stem cut: what precedes
   * "-" + suffix is a prefix of the stem, as long as the limit allows
   * (Python's negative-slice arithmetic when the limit is below the suffix).
   */
  lemma BuildNameOverLimit(stem: string, pre: string, suffix: string, maxlen: int)
    requires |pre + DropPrefix(stem, pre) + "-" + suffix| > maxlen
    ensures var r := NameFromStem(stem, pre, suffix, Some(maxlen));
      var name := DropPrefix(stem, pre);
      var head := r[..|r| - |suffix| - 1];
      && r == head + "-" + suffix
      && |head| <= |name| && head == name[..|head|]
      && (maxlen > |suffix| ==> |head| == Min(|name|, maxlen - |suffix| - 1))
      && (maxlen <= |suffix| ==> head == Take(name, maxlen - |suffix| - 1))
  {
    var name := DropPrefix(stem, pre);
    var t := Take(name, maxlen - |suffix| - 1);
    var r := NameFromStem(stem, pre, suffix, Some(maxlen));
    assert r == t + "-" + suffix;
    assert r[..|r| - |suffix| - 1] == t;
  }

  /** Whenever the limit leaves room for more than the suffix, the name meets it. */
  lemma BuildNameFits(kscfg: string, prefix: Option<string>, suffix: string, maxlen: int)
    requires maxlen > |suffix|
    ensures |BuildName(kscfg, prefix, suffix, Some(maxlen))| <= maxlen
  {
    NameFromStemFits(KickstartStem(kscfg), prefix.GetOr(""), suffix, maxlen);
  }

  lemma NameFromStemFits(stem: string, pre: string, suffix: string, maxlen: int)
    requires maxlen > |suffix|
    ensures |NameFromStem(stem, pre, suffix, Some(maxlen))| <= maxlen
  {
    if |pre + DropPrefix(stem, pre) + "-" + suffix| > maxlen {
      BuildNameOverLimit(stem, pre, suffix, maxlen);
    }
  }

  function Min(a: int, b: int): int { if a <= b then a else b }

  /** With a limit no larger than the suffix, both pieces are kept and the limit is exceeded. */
  lemma BuildNameKeepsBothPieces(kscfg: string, prefix: Option<string>, suffix: string, maxlen: int)
    requires maxlen <= |suffix|
    ensures |BuildName(kscfg, prefix, suffix, Some(maxlen))| > maxlen
  {
    var r := BuildName(kscfg, prefix, suffix, Some(maxlen));
    assert EndsWith(r, "-" + suffix);
  }

  // ---------------------------------------------------------------------
  // Partition lookups

  const MiB: int := 1024 * 1024

  /** The partitions whose size get_image_size takes: "/" with a nonzero size. */
  predicate SetsRootSize(p: Partition)
  {
    p.mountpoint == "/" && p.size != 0
  }

  /** No partition after position j sets the root size. */
  predicate LastRootSizer(parts: seq<Partition>, j: int)
    requires 0 <= j < |parts|
  {
    SetsRootSize(parts[j]) && forall k :: j < k < |parts| ==> !SetsRootSize(parts[k])
  }

  /**
   * get_image_size: the size of the LAST "/" partition with a nonzero size,
   * in bytes, when that size is positive; otherwise the default.
   */
  method GetImageSize(parts: seq<Partition>, default: Option<int>) returns (r: Option<int>)
    ensures (forall k :: 0 <= k < |parts| ==> !SetsRootSize(parts[k])) ==> r == default
    ensures forall j :: 0 <= j < |parts| && LastRootSizer(parts, j) ==>
              r == if parts[j].size > 0 then Some(parts[j].size * MiB) else default
  {
    var size := 0;
    ghost var last := -1;
    var i := 0;
    while i < |parts|
      invariant 0 <= i <= |parts|
      invariant -1 <= last < i
      invariant last == -1 ==> size == 0 && forall k :: 0 <= k < i ==> !SetsRootSize(parts[k])
      invariant last >= 0 ==> SetsRootSize(parts[last]) && size == parts[last].size
      invariant last >= 0 ==> forall k :: last < k < i ==> !SetsRootSize(parts[k])
    {
      var p := parts[i];
      if p.mountpoint == "/" && p.size != 0 {
        size := p.size;
        last := i;
      }
      i := i + 1;
    }
    if size > 0 {
      r := Some(size * 1024 * 1024);
    } else {
      r := default;
    }
  }

  /** get_image_fstype: the fs type of the FIRST "/" partition that names one; otherwise the default. */
  method GetImageFstype(parts: seq<Partition>, default: Option<string>) returns (r: Option<string>)
    ensures (forall k :: 0 <= k < |parts| ==> !(parts[k].mountpoint == "/" && parts[k].fstype != "")) ==> r == default
    ensures forall j :: 0 <= j < |parts| && parts[j].mountpoint == "/" && parts[j].fstype != "" &&
              (forall k :: 0 <= k < j ==> !(parts[k].mountpoint == "/" && parts[k].fstype != ""))
              ==> r == Some(parts[j].fstype)
  {
    var i := 0;
    while i < |parts|
      invariant 0 <= i <= |parts|
      invariant forall k :: 0 <= k < i ==> !(parts[k].mountpoint == "/" && parts[k].fstype != "")
    {
      if parts[i].mountpoint == "/" && parts[i].fstype != "" {
        return Some(parts[i].fstype);
      }
      i := i + 1;
    }
    return default;
  }

  // ---------------------------------------------------------------------
  // Kernel modules

  function Devices(section: DeviceSection): seq<Device>
  {
    match section
    case SingleDevice(d) => [d]
    case DeviceList(ds) => ds
  }

  /** What one device adds to the module list: nothing when its moduleName is empty. */
  function DeviceModules(d: Device): seq<string>
  {
    if d.moduleName == "" then [] else Split(d.moduleName, ':')
  }

  /** The module names of all devices, device after device. */
  function ModuleNames(devices: seq<Device>): seq<string>
  {
    if devices == [] then [] else DeviceModules(devices[0]) + ModuleNames(devices[1..])
  }

  lemma {:induction false} ModuleNamesAppend(a: seq<Device>, b: seq<Device>)
    ensures ModuleNames(a + b) == ModuleNames(a) + ModuleNames(b)
  {
    if a == [] {
      assert a + b == b;
    } else {
      assert (a + b)[1..] == a[1..] + b;
      ModuleNamesAppend(a[1..], b);
    }
  }

  lemma ModuleNamesStep(devices: seq<Device>, i: int)
    requires 0 <= i < |devices|
    ensures ModuleNames(devices[..i + 1]) == ModuleNames(devices[..i]) + DeviceModules(devices[i])
  {
    assert devices[..i + 1] == devices[..i] + [devices[i]];
    ModuleNamesAppend(devices[..i], [devices[i]]);
    assert ModuleNames([devices[i]]) == DeviceModules(devices[i]) + ModuleNames([]);
  }

  /** No module name holds a ':' and each device's names join back to its moduleName. */
  lemma {:induction false} ModuleNamesShape(devices: seq<Device>)
    ensures forall m :: m in ModuleNames(devices) ==> ':' !in m
    ensures forall d :: d in devices && d.moduleName != "" ==> Join(":", DeviceModules(d)) == d.moduleName
  {
    if devices != [] {
      ModuleNamesShape(devices[1..]);
      forall d | d in devices && d.moduleName != "" ensures Join(":", DeviceModules(d)) == d.moduleName {
        JoinSplit(d.moduleName, ':');
      }
    }
  }

  /** get_modules: every device's moduleName split on ':', in device order. */
  method GetModules(section: DeviceSection) returns (modules: seq<string>)
    ensures modules == ModuleNames(Devices(section))
    ensures forall m :: m in modules ==> ':' !in m
  {
    var devices: seq<Device> := [];
    match section {
      case SingleDevice(d) => devices := devices + [d];
      case DeviceList(ds) => devices := devices + ds;
    }
    modules := [];
    var i := 0;
    while i < |devices|
      invariant 0 <= i <= |devices|
      invariant modules == ModuleNames(devices[..i])
    {
      var device := devices[i];
      ModuleNamesStep(devices, i);
      i := i + 1;
      if device.moduleName == "" {
        continue;
      }
      modules := modules + Split(device.moduleName, ':');
    }
    assert devices[..i] == devices;
    ModuleNamesShape(devices);
  }

  // ---------------------------------------------------------------------
  // Bootloader lookups

  /** get_timeout: the bootloader timeout, or the default when it is missing or None. */
  function GetTimeout(bl: Bootloader, default: Option<int>): (r: Option<int>)
    ensures bl.timeout.Some? ==> r == bl.timeout
    ensures bl.timeout.None? ==> r == default
  {
    if bl.timeout.None? then default else Some(bl.timeout.value)
  }

  /** get_kernel_args: the default, then a space and the append line when there is one. */
  function GetKernelArgs(bl: Bootloader, default: string): (r: string)
    ensures bl.appendLine.None? ==> r == default
    ensures bl.appendLine.Some? ==>
      StartsWith(r, default + " ") && r[|default| + 1..] == bl.appendLine.value
  {
    if bl.appendLine.None? then default
    else
      var r := default + " " + bl.appendLine.value;
      assert r[..|default| + 1] == default + " ";
      r
  }

  /** The default kernel arguments of get_kernel_args. */
  const DefaultKernelArgs: string := "ro liveimg quiet"

  /** get_default_kernel: the bootloader's default kernel unless it is missing, None or empty. */
  function GetDefaultKernel(bl: Bootloader, default: Option<string>): (r: Option<string>)
    ensures bl.defaultKernel.Some? && bl.defaultKernel.value != "" ==> r == bl.defaultKernel
    ensures r != default ==> r == bl.defaultKernel && r.Some? && r.value != ""
  {
    if bl.defaultKernel.None? || bl.defaultKernel.value == "" then default else bl.defaultKernel
  }

  // ---------------------------------------------------------------------
  // Repositories and packages

  /** The tuple get_repos stores for one repo line. */
  datatype RepoEntry = RepoEntry(name: string, baseurl: Option<string>, mirrorlist: Option<string>,
                                 proxy: Option<string>, inc: seq<string>, exc: seq<string>)

  /** One repo line's entry: a URL given for its name replaces its baseurl and drops its mirrorlist. */
  function RepoEntryOf(repo: Repo, repoUrls: map<string, string>): (e: RepoEntry)
    ensures e.name == repo.name && e.proxy == repo.proxy
    ensures e.inc == repo.includepkgs && e.exc == repo.excludepkgs
    ensures repo.name in repoUrls ==> e.baseurl == Some(repoUrls[repo.name]) && e.mirrorlist.None?
    ensures repo.name !in repoUrls ==> e.baseurl == repo.baseurl && e.mirrorlist == repo.mirrorlist
  {
    var inc := [] + repo.includepkgs;
    var exc := [] + repo.excludepkgs;
    if repo.name in repoUrls then RepoEntry(repo.name, Some(repoUrls[repo.name]), None, repo.proxy, inc, exc)
    else RepoEntry(repo.name, repo.baseurl, repo.mirrorlist, repo.proxy, inc, exc)
  }

  /** No repo line after position j has the same name as line j. */
  predicate LastWithName(repos: seq<Repo>, j: int)
    requires 0 <= j < |repos|
  {
    forall k :: j < k < |repos| ==> repos[k].name != repos[j].name
  }

  /**
   * get_repos: one entry per distinct repo name, the LAST line with that
   * name winning. The source returns the dictionary's values, in an order
   * of Python's own; the model returns the dictionary.
   */
  method GetRepos(repoList: seq<Repo>, repoUrls: map<string, string>) returns (repos: map<string, RepoEntry>)
    ensures repos.Keys == set i | 0 <= i < |repoList| :: repoList[i].name
    ensures forall j :: 0 <= j < |repoList| && LastWithName(repoList, j) ==>
              repos[repoList[j].name] == RepoEntryOf(repoList[j], repoUrls)
  {
    repos := map[];
    var i := 0;
    while i < |repoList|
      invariant 0 <= i <= |repoList|
      invariant repos.Keys == set k | 0 <= k < i :: repoList[k].name
      invariant forall j :: 0 <= j < i && (forall k :: j < k < i ==> repoList[k].name != repoList[j].name) ==>
                  repos[repoList[j].name] == RepoEntryOf(repoList[j], repoUrls)
    {
      var repo := repoList[i];
      repos := repos[repo.name := RepoEntryOf(repo, repoUrls)];
      i := i + 1;
    }
  }

  /** get_packages: the kickstart's packages followed by the required ones. */
  function GetPackages(ks: Handler, required: seq<string>): (r: seq<string>)
    ensures |r| == |ks.packageList| + |required|
    ensures r[..|ks.packageList|] == ks.packageList && r[|ks.packageList|..] == required
  {
    ks.packageList + required
  }
}
