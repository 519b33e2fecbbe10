/**
 * The boot set-up of the appliance image creator (debianimage/appliance.py):
 * the GRUB device map, the menu.lst text, the kernel versions found in
 * /boot, the directory the GRUB stage files are copied from, and the
 * packages the installer is asked for.
 */
module Appliance {

  import opened Wrappers
  import opened Strings
  import opened BootKernels
  import opened Kickstart
  import opened AptInst

  type Lines = seq<string>
  type PathTest = string -> bool

  // ---------------------------------------------------------------------
  // device.map

  /** The disk of every partition, in kickstart order. */
  function Disks(parts: seq<Partition>): (r: seq<string>)
    ensures |r| == |parts| && forall i :: 0 <= i < |parts| ==> r[i] == parts[i].disk
  {
    seq(|parts|, i requires 0 <= i < |parts| => parts[i].disk)
  }

  /** One line of device.map: GRUB drive number n is the disk dev. */
  function DeviceMapLine(n: nat, dev: string): string
  {
    "(hd" + NatToString(n) + ") /dev/" + dev
  }

  /** The distinct disks of the partitions, sorted. */
  function GrubDisks(parts: seq<Partition>): seq<string>
  {
    Sort(Dedup(Disks(parts)))
  }

  /** Each partition's disk appears once, and the disks are in ascending order. */
  lemma GrubDisksDistinctSorted(parts: seq<Partition>)
    ensures var devs := GrubDisks(parts);
      && StrictlySorted(devs)
      && (forall d :: d in devs <==> exists i :: 0 <= i < |parts| && parts[i].disk == d)
  {
    var d := Dedup(Disks(parts));
    SortStrictlySorted(d);
    forall x ensures x in GrubDisks(parts) <==> x in d {
      assert x in GrubDisks(parts) <==> x in multiset(GrubDisks(parts));
    }
  }

  lemma DedupStep(s: seq<string>, i: int)
    requires 0 <= i < |s|
    ensures Dedup(s[..i + 1]) == if s[i] in Dedup(s[..i]) then Dedup(s[..i]) else Dedup(s[..i]) + [s[i]]
  {
    assert s[..i + 1][..i] == s[..i];
  }

  /** The collecting loop of _create_grub_devices: each partition's disk, once, in kickstart order. */
  method CollectDisks(parts: seq<Partition>) returns (devs: seq<string>)
    ensures devs == Dedup(Disks(parts))
  {
    devs := [];
    ghost var disks := Disks(parts);
    for i := 0 to |parts|
      invariant devs == Dedup(disks[..i])
    {
      var dev := parts[i].disk;
      DedupStep(disks, i);
      if !(dev in devs) {
        devs := devs + [dev];
      }
    }
    assert disks[..|parts|] == disks;
  }

  /** The numbering loop of _create_grub_devices: line n of device.map names disk n as (hdN). */
  method DeviceMap(devs: seq<string>) returns (devmap: Lines)
    ensures |devmap| == |devs|
    ensures forall n :: 0 <= n < |devs| ==> devmap[n] == DeviceMapLine(n, devs[n])
  {
    var n := 0;
    devmap := [];
    for k := 0 to |devs|
      invariant n == k && |devmap| == k
      invariant forall j :: 0 <= j < k ==> devmap[j] == DeviceMapLine(j, devs[j])
    {
      devmap := devmap + [DeviceMapLine(n, devs[k])];
      n := n + 1;
    }
  }

  /**
   * _create_grub_devices: collect each disk once, sort the disks and
   * number them from 0; devmap holds the lines of device.map.
   */
  method CreateGrubDevices(parts: seq<Partition>) returns (devs: seq<string>, devmap: Lines)
    ensures devs == GrubDisks(parts)
    ensures StrictlySorted(devs)
    ensures forall d :: d in devs <==> exists i :: 0 <= i < |parts| && parts[i].disk == d
    ensures |devmap| == |devs|
    ensures forall n :: 0 <= n < |devs| ==> devmap[n] == DeviceMapLine(n, devs[n])
  {
    devs := CollectDisks(parts);
    devs := Sort(devs);
    GrubDisksDistinctSorted(parts);
    devmap := DeviceMap(devs);
  }

  // ---------------------------------------------------------------------
  // menu.lst

  /** Python's "%s" % x for an optional string: None is written as the word None. */
  function OptionText(o: Option<string>): string
  {
    match o
    case Some(s) => s
    case None => "None"
  }

  /** The three lines menu.lst starts with. */
  const GrubHeader: Lines := ["default=0", "timeout=5", "hiddenmenu"]

  /** What _get_grub_boot_config and the kickstart give the menu entries. */
  datatype GrubBoot = GrubBoot(name: string, bootdevnum: int, rootdev: string, prefix: string, options: Option<string>)

  /** The four lines of the menu entry for kernel version v. */
  function MenuEntry(g: GrubBoot, v: string): (r: Lines)
    ensures |r| == 4
  {
    ["title " + g.name + " (" + v + ")",
     "        root (hd0," + IntToString(g.bootdevnum) + ")",
     "        kernel " + g.prefix + "/vmlinuz-" + v + " quiet root=" + g.rootdev + " " + OptionText(g.options),
     "        initrd " + g.prefix + "/initrd.img-" + v]
  }

  /** The menu entries of the versions, one block per version. */
  function MenuEntries(g: GrubBoot, versions: seq<string>): (r: seq<Lines>)
    ensures |r| == |versions| && forall i :: 0 <= i < |versions| ==> r[i] == MenuEntry(g, versions[i])
  {
    seq(|versions|, i requires 0 <= i < |versions| => MenuEntry(g, versions[i]))
  }

  /** The lines of menu.lst for the given kernels. */
  function MenuLst(g: GrubBoot, kernels: KernelEntries): Lines
  {
    GrubHeader + Concat(MenuEntries(g, Versions(kernels)))
  }

  /** _create_grub_config: the header, then four lines for each version of each kernel. */
  method CreateGrubConfig(g: GrubBoot, kernels: KernelEntries) returns (grub: Lines)
    ensures grub == MenuLst(g, kernels)
  {
    grub := [];
    grub := grub + ["default=0"];
    grub := grub + ["timeout=5"];
    grub := grub + ["hiddenmenu"];

    var versions, _ := CollectVersions(kernels);

    for i := 0 to |versions|
      invariant grub == GrubHeader + Concat(MenuEntries(g, versions[..i]))
    {
      ConcatAppend(MenuEntries(g, versions[..i]), [MenuEntry(g, versions[i])]);
      assert MenuEntries(g, versions[..i + 1]) == MenuEntries(g, versions[..i]) + [MenuEntry(g, versions[i])];
      assert Concat([MenuEntry(g, versions[i])]) == MenuEntry(g, versions[i]);
      grub := grub + MenuEntry(g, versions[i]);
    }
    assert versions[..|versions|] == versions;
  }

  /** The lines of blocks of four lines each: line 4k + j is line j of block k. */
  lemma {:induction false} ConcatQuads(blocks: seq<Lines>)
    requires forall k :: 0 <= k < |blocks| ==> |blocks[k]| == 4
    ensures |Concat(blocks)| == 4 * |blocks|
    ensures forall k, j :: 0 <= k < |blocks| && 0 <= j < 4 ==> Concat(blocks)[4 * k + j] == blocks[k][j]
  {
    if blocks != [] {
      ConcatQuads(blocks[1..]);
      assert Concat(blocks) == blocks[0] + Concat(blocks[1..]);
      forall k, j | 0 <= k < |blocks| && 0 <= j < 4 ensures Concat(blocks)[4 * k + j] == blocks[k][j] {
        if k > 0 {
          assert blocks[k] == blocks[1..][k - 1];
          assert 4 * k + j == 4 + (4 * (k - 1) + j);
        }
      }
    }
  }

  /**
   * menu.lst is default=0, timeout=5 and hiddenmenu followed by exactly four
   * lines per kernel version, in the order the versions are collected: a
   * title, the root partition on the first disk, a kernel line booting that
   * version's vmlinuz quietly with the root device and the options, and an
   * initrd line loading its initrd.img.
   */
  lemma MenuLstShape(g: GrubBoot, kernels: KernelEntries)
    ensures var vs := Versions(kernels);
      var r := MenuLst(g, kernels);
      && |r| == 3 + 4 * |vs|
      && r[..3] == ["default=0", "timeout=5", "hiddenmenu"]
      && forall k :: 0 <= k < |vs| ==>
           && r[3 + 4 * k] == "title " + g.name + " (" + vs[k] + ")"
           && r[3 + 4 * k + 1] == "        root (hd0," + IntToString(g.bootdevnum) + ")"
           && r[3 + 4 * k + 2] == "        kernel " + g.prefix + "/vmlinuz-" + vs[k] + " quiet root=" + g.rootdev + " " + OptionText(g.options)
           && r[3 + 4 * k + 3] == "        initrd " + g.prefix + "/initrd.img-" + vs[k]
  {
    var vs := Versions(kernels);
    var blocks := MenuEntries(g, vs);
    ConcatQuads(blocks);
    var r := MenuLst(g, kernels);
    assert r[..3] == GrubHeader;
    forall k | 0 <= k < |vs|
      ensures r[3 + 4 * k] == "title " + g.name + " (" + vs[k] + ")"
      ensures r[3 + 4 * k + 1] == "        root (hd0," + IntToString(g.bootdevnum) + ")"
      ensures r[3 + 4 * k + 2] == "        kernel " + g.prefix + "/vmlinuz-" + vs[k] + " quiet root=" + g.rootdev + " " + OptionText(g.options)
      ensures r[3 + 4 * k + 3] == "        initrd " + g.prefix + "/initrd.img-" + vs[k]
    {
      var e := MenuEntry(g, vs[k]);
      assert blocks[k] == e;
      assert r[3 + 4 * k] == Concat(blocks)[4 * k] == e[0];
      assert r[3 + 4 * k + 1] == Concat(blocks)[4 * k + 1] == e[1];
      assert r[3 + 4 * k + 2] == Concat(blocks)[4 * k + 2] == e[2];
      assert r[3 + 4 * k + 3] == Concat(blocks)[4 * k + 3] == e[3];
    }
  }

  // ---------------------------------------------------------------------
  // Kernel versions

  /** glob(instroot + "/boot/" + stem + "*"), given the names in /boot in listing order. */
  function BootGlob(instroot: string, listing: seq<string>, stem: string): (r: seq<string>)
    requires |stem| > 0
    ensures AllContain(r, stem)
    ensures |r| == 0 <==> forall i :: 0 <= i < |listing| ==> !StartsWith(listing[i], stem)
  {
    if listing == [] then []
    else
      var rest := BootGlob(instroot, listing[1..], stem);
      var name := listing[0];
      if StartsWith(name, stem) then
        assert name == stem + name[|stem|..];
        OccursInMiddle(instroot + "/boot/", stem, name[|stem|..]);
        assert instroot + "/boot/" + name == instroot + "/boot/" + stem + name[|stem|..];
        [instroot + "/boot/" + name] + rest
      else
        assert forall i :: 1 <= i < |listing| ==> listing[i] == listing[1..][i - 1];
        rest
  }

  /** Every file contains the stem. */
  predicate AllContain(files: seq<string>, stem: string)
  {
    forall i :: 0 <= i < |files| ==> Find(files[i], stem) != -1
  }

  /** The version of each file: the text after the first occurrence of the stem (up to a second one). */
  function VersionsOfFiles(files: seq<string>, stem: string): (r: seq<string>)
    requires |stem| > 0 && AllContain(files, stem)
    ensures |r| == |files|
    ensures forall i :: 0 <= i < |files| ==> r[i] == SecondPiece(files[i], stem).value
  {
    if files == [] then []
    else
      assert forall i :: 1 <= i < |files| ==> files[1..][i - 1] == files[i];
      [SecondPiece(files[0], stem).value] + VersionsOfFiles(files[1..], stem)
  }

  /** The dictionary _get_kernel_versions returns, as its (key, versions) pairs in insertion order. */
  function KernelVersions(instroot: string, listing: seq<string>): KernelEntries
  {
    var z := BootGlob(instroot, listing, "vmlinuz-");
    var x := BootGlob(instroot, listing, "vmlinux-");
    (if |z| > 0 then [("vmlinuz", VersionsOfFiles(z, "vmlinuz-"))] else [])
    + (if |x| > 0 then [("vmlinux", VersionsOfFiles(x, "vmlinux-"))] else [])
  }

  /** One key of _get_kernel_versions: the version of every file the glob for stem finds. */
  method GlobVersions(files: seq<string>, stem: string) returns (versions: seq<string>)
    requires |stem| > 0 && AllContain(files, stem)
    ensures versions == VersionsOfFiles(files, stem)
  {
    versions := [];
    for i := 0 to |files|
      invariant |versions| == i
      invariant forall k :: 0 <= k < i ==> versions[k] == SecondPiece(files[k], stem).value
    {
      versions := versions + [SecondPiece(files[i], stem).value];
    }
  }

  /** _get_kernel_versions: a "vmlinuz" and a "vmlinux" key, each only when its glob finds a file. */
  method GetKernelVersions(instroot: string, listing: seq<string>) returns (ret: KernelEntries)
    ensures ret == KernelVersions(instroot, listing)
  {
    ret := [];
    var kernelFiles := BootGlob(instroot, listing, "vmlinuz-");
    if |kernelFiles| > 0 {
      var vs := GlobVersions(kernelFiles, "vmlinuz-");
      ret := ret + [("vmlinuz", vs)];
    }
    kernelFiles := BootGlob(instroot, listing, "vmlinux-");
    if |kernelFiles| > 0 {
      var vs := GlobVersions(kernelFiles, "vmlinux-");
      ret := ret + [("vmlinux", vs)];
    }
  }

  /** The key of each stem, the only keys, and the order in which they are added. */
  lemma KernelVersionsKeys(instroot: string, listing: seq<string>)
    ensures var ret := KernelVersions(instroot, listing);
      && |ret| <= 2
      && (forall i :: 0 <= i < |ret| ==> ret[i].0 == "vmlinuz" || ret[i].0 == "vmlinux")
      && ((exists i :: 0 <= i < |ret| && ret[i].0 == "vmlinuz") <==>
            exists j :: 0 <= j < |listing| && StartsWith(listing[j], "vmlinuz-"))
      && ((exists i :: 0 <= i < |ret| && ret[i].0 == "vmlinux") <==>
            exists j :: 0 <= j < |listing| && StartsWith(listing[j], "vmlinux-"))
      && (forall i :: 0 <= i < |ret| ==> ret[i].1 != [])
  {
    var ret := KernelVersions(instroot, listing);
    var z := BootGlob(instroot, listing, "vmlinuz-");
    var x := BootGlob(instroot, listing, "vmlinux-");
    assert "vmlinuz" != "vmlinux" by {
      assert "vmlinuz"[6] != "vmlinux"[6];
    }
    if |z| > 0 {
      assert ret[0].0 == "vmlinuz";
    }
    if |x| > 0 {
      assert ret[|ret| - 1].0 == "vmlinux";
    }
  }

  /** A window of sub that covers a position holding a character sub lacks is not an occurrence. */
  lemma NoOccurrenceOver(s: string, sub: string, p: int, q: int)
    requires 0 <= p <= q < p + |sub| && q < |s| && s[q] !in sub
    ensures !Occurs(s, sub, p)
  {
  }

  /**
   * For a stem of at least six characters without '/', the second piece of
   * instroot/boot/<stem><v> is v when neither the install root nor v
   * contains the stem.
   */
  lemma {:induction false} VersionOfBootFile(instroot: string, stem: string, v: string)
    requires |stem| >= 6 && '/' !in stem
    requires Find(instroot, stem) == -1 && Find(v, stem) == -1
    ensures SecondPiece(instroot + "/boot/" + stem + v, stem) == Some(v)
  {
    var s := instroot + "/boot/" + stem + v;
    var k := |instroot| + 6;
    assert s[k..k + |stem|] == stem;
    forall p | 0 <= p < k ensures !Occurs(s, stem, p) {
      if p + |stem| <= |instroot| {
        if Occurs(s, stem, p) {
          assert s[p..p + |stem|] == instroot[p..p + |stem|];
          assert Occurs(instroot, stem, p);
        }
      } else if p < |instroot| {
        assert s[|instroot|] == '/';
        NoOccurrenceOver(s, stem, p, |instroot|);
      } else {
        assert s[|instroot| + 5] == '/';
        NoOccurrenceOver(s, stem, p, |instroot| + 5);
      }
    }
    assert Occurs(s, stem, k);
    assert Find(s, stem) == k;
    assert s[k + |stem|..] == v;
  }

  /**
   * With an install root that does not contain the stems, each key lists
   * the version part of every matching name in /boot, in listing order.
   */
  lemma KernelVersionsOfPlainNames(instroot: string, listing: seq<string>, stem: string)
    requires stem == "vmlinuz-" || stem == "vmlinux-"
    requires Find(instroot, stem) == -1
    requires forall n :: n in listing && StartsWith(n, stem) ==> Find(n[|stem|..], stem) == -1
    ensures VersionsOfFiles(BootGlob(instroot, listing, stem), stem) == PlainVersions(listing, stem)
    decreases |listing|
  {
    if listing != [] {
      var n := listing[0];
      assert forall m :: m in listing[1..] ==> m in listing;
      KernelVersionsOfPlainNames(instroot, listing[1..], stem);
      if StartsWith(n, stem) {
        PlainNameFirst(instroot, n, stem, BootGlob(instroot, listing[1..], stem));
      }
    }
  }

  /** The version of instroot/boot/n, for a plain name n, is the part of n after the stem. */
  lemma PlainNameFirst(instroot: string, n: string, stem: string, files: seq<string>)
    requires stem == "vmlinuz-" || stem == "vmlinux-"
    requires Find(instroot, stem) == -1 && StartsWith(n, stem) && Find(n[|stem|..], stem) == -1
    requires AllContain(files, stem)
    ensures AllContain([instroot + "/boot/" + n] + files, stem)
    ensures VersionsOfFiles([instroot + "/boot/" + n] + files, stem) == [n[|stem|..]] + VersionsOfFiles(files, stem)
  {
    var f := instroot + "/boot/" + n;
    assert n == stem + n[|stem|..];
    assert f == instroot + "/boot/" + stem + n[|stem|..];
    VersionOfBootFile(instroot, stem, n[|stem|..]);
    var l := [f] + files;
    assert l[1..] == files;
    assert forall i :: 1 <= i < |l| ==> l[i] == files[i - 1];
  }

  /** The part after the stem of every name in /boot that starts with it, in listing order. */
  function PlainVersions(listing: seq<string>, stem: string): seq<string>
  {
    if listing == [] then []
    else (if StartsWith(listing[0], stem) then [listing[0][|stem|..]] else []) + PlainVersions(listing[1..], stem)
  }

  // ---------------------------------------------------------------------
  // GRUB stage files

  /** The GRUB machine directories in the order they are tried. */
  const GrubMachines: seq<string> := ["x86_64-pc", "i386-pc"]

  /** The stage files copied to /boot/grub. */
  const GrubFiles: seq<string> := ["e2fs_stage1_5", "stage1", "stage2"]

  /** The directory the stage files come from: x86_64-pc if it exists, else i386-pc whether or not it exists. */
  function GrubImageDir(instroot: string, present: PathTest): (r: string)
    ensures present(GrubMachineDir(instroot, "x86_64-pc")) ==> r == GrubMachineDir(instroot, "x86_64-pc")
    ensures !present(GrubMachineDir(instroot, "x86_64-pc")) ==> r == GrubMachineDir(instroot, "i386-pc")
  {
    if present(GrubMachineDir(instroot, "x86_64-pc")) then GrubMachineDir(instroot, "x86_64-pc")
    else GrubMachineDir(instroot, "i386-pc")
  }

  /** Where the stage files of one GRUB machine are installed. */
  function GrubMachineDir(instroot: string, machine: string): string
  {
    instroot + "/usr/lib/grub/" + machine
  }

  /** The first stage file at or after from that is not a file in dir, or |GrubFiles|. */
  function FirstMissingStage(dir: string, isFile: PathTest, from: nat): (r: nat)
    requires from <= |GrubFiles|
    decreases |GrubFiles| - from
    ensures from <= r <= |GrubFiles|
    ensures forall k :: from <= k < r ==> isFile(dir + "/" + GrubFiles[k])
    ensures r < |GrubFiles| ==> !isFile(dir + "/" + GrubFiles[r])
  {
    if from == |GrubFiles| then from
    else if !isFile(dir + "/" + GrubFiles[from]) then from
    else FirstMissingStage(dir, isFile, from + 1)
  }

  /** The machine loop of _copy_grub_files: it stops at the first directory that exists, else keeps the last. */
  method FindGrubImageDir(instroot: string, present: PathTest) returns (imgpath: string)
    ensures imgpath == GrubImageDir(instroot, present)
  {
    imgpath := "";
    for m := 0 to |GrubMachines|
      invariant m >= 1 ==> imgpath == GrubMachineDir(instroot, GrubMachines[m - 1])
      invariant m >= 1 ==> !present(GrubMachineDir(instroot, GrubMachines[0]))
    {
      imgpath := GrubMachineDir(instroot, GrubMachines[m]);
      if present(imgpath) {
        break;
      }
    }
  }

  /** The copy loop of _copy_grub_files: every stage file of dir in turn, failing at the first missing one. */
  method CopyStageFiles(instroot: string, dir: string, isFile: PathTest)
    returns (r: Result<seq<(string, string)>, string>)
    ensures var k := FirstMissingStage(dir, isFile, 0);
      && (r.Ok? <==> k == |GrubFiles|)
      && (r.Ok? ==> r.value == GrubCopies(instroot, dir))
      && (r.Err? ==> r.error == "grub not installed : " + dir + "/" + GrubFiles[k] + " not found")
  {
    var copies := [];
    for i := 0 to |GrubFiles|
      invariant FirstMissingStage(dir, isFile, 0) == FirstMissingStage(dir, isFile, i)
      invariant copies == GrubCopies(instroot, dir)[..i]
    {
      var path := dir + "/" + GrubFiles[i];
      if !isFile(path) {
        return Err("grub not installed : " + path + " not found");
      }
      assert GrubCopies(instroot, dir)[..i + 1] == GrubCopies(instroot, dir)[..i] + [GrubCopies(instroot, dir)[i]];
      copies := copies + [(path, instroot + "/boot/grub/" + GrubFiles[i])];
    }
    assert GrubCopies(instroot, dir)[..|GrubFiles|] == GrubCopies(instroot, dir);
    return Ok(copies);
  }

  /**
   * _copy_grub_files: the loop over the machines stops at the first that
   * exists and otherwise leaves the last one; every stage file must then be
   * a file there, else CreatorError names the first one missing. On success
   * the result lists the copies as (source, destination) pairs.
   */
  method CopyGrubFiles(instroot: string, present: PathTest, isFile: PathTest)
    returns (r: Result<seq<(string, string)>, string>)
    ensures var dir := GrubImageDir(instroot, present);
      var k := FirstMissingStage(dir, isFile, 0);
      && (r.Ok? <==> k == |GrubFiles|)
      && (r.Ok? ==> r.value == GrubCopies(instroot, dir))
      && (r.Err? ==> r.error == "grub not installed : " + dir + "/" + GrubFiles[k] + " not found")
  {
    var imgpath := FindGrubImageDir(instroot, present);
    r := CopyStageFiles(instroot, imgpath, isFile);
  }

  /** Each stage file of dir copied to the same name in /boot/grub. */
  function GrubCopies(instroot: string, dir: string): (r: seq<(string, string)>)
    ensures |r| == |GrubFiles|
    ensures forall k :: 0 <= k < |GrubFiles| ==> r[k] == (dir + "/" + GrubFiles[k], instroot + "/boot/grub/" + GrubFiles[k])
  {
    seq(|GrubFiles|, k requires 0 <= k < |GrubFiles| => (dir + "/" + GrubFiles[k], instroot + "/boot/grub/" + GrubFiles[k]))
  }

  /**
   * The copy succeeds exactly when all three stage files are files in the
   * chosen directory, and it then copies each of them; otherwise it names
   * the first one missing, and every one before it was there.
   */
  lemma CopyGrubFilesOutcome(instroot: string, isFile: PathTest, present: PathTest)
    ensures var dir := GrubImageDir(instroot, present);
      var k := FirstMissingStage(dir, isFile, 0);
      && (k == |GrubFiles| <==> forall j :: 0 <= j < |GrubFiles| ==> isFile(dir + "/" + GrubFiles[j]))
      && (k < |GrubFiles| ==> !isFile(dir + "/" + GrubFiles[k]) && forall j :: 0 <= j < k ==> isFile(dir + "/" + GrubFiles[j]))
  {
  }

  // ---------------------------------------------------------------------
  // Packages

  /** _get_required_packages: the boot loader the image needs. */
  function RequiredPackages(): (r: seq<string>)
    ensures r == ["grub-legacy"]
  {
    ["grub-legacy"]
  }

  /** The packages install() hands to selectPackage, in call order. */
  function InstallPackages(ks: Handler): seq<string>
  {
    GetPackages(ks, RequiredPackages())
  }

  /** install() asks for every kickstart package, in order, and then for grub-legacy. */
  lemma InstallPackagesEndWithGrub(ks: Handler)
    ensures var r := InstallPackages(ks);
      && |r| == |ks.packageList| + 1
      && r[..|ks.packageList|] == ks.packageList
      && r[|r| - 1] == "grub-legacy"
  {
    var r := InstallPackages(ks);
    assert r[|ks.packageList|..] == ["grub-legacy"];
  }

  /** The first repository at or after from without a baseurl, or |repos|. */
  function FirstWithoutBaseurl(repos: seq<RepoEntry>, from: nat): (k: nat)
    requires from <= |repos|
    decreases |repos| - from
    ensures from <= k <= |repos|
    ensures forall i :: from <= i < k ==> repos[i].baseurl.Some?
    ensures k < |repos| ==> repos[k].baseurl.None?
  {
    if from == |repos| || repos[from].baseurl.None? then from else FirstWithoutBaseurl(repos, from + 1)
  }

  /** The baseurls of repositories that all have one. */
  function BaseUrls(repos: seq<RepoEntry>): (r: seq<string>)
    requires forall i :: 0 <= i < |repos| ==> repos[i].baseurl.Some?
    ensures |r| == |repos| && forall i :: 0 <= i < |repos| ==> r[i] == repos[i].baseurl.value
  {
    seq(|repos|, i requires 0 <= i < |repos| => repos[i].baseurl.value)
  }

  lemma RepoLinesStep(repos: seq<RepoEntry>, i: int)
    requires 0 <= i < |repos| && forall k :: 0 <= k <= i ==> repos[k].baseurl.Some?
    ensures RepoLines(BaseUrls(repos[..i + 1])) == RepoLines(BaseUrls(repos[..i])) + [RepoLine(repos[i].baseurl.value)]
  {
    assert BaseUrls(repos[..i + 1]) == BaseUrls(repos[..i]) + [repos[i].baseurl.value];
  }

  /** What Python raises for "deb " + None. */
  const NoneConcat: string := "TypeError: cannot concatenate 'str' and 'NoneType' objects"

  /**
   * install() with the corrected addRepo and selectPackage: each repository
   * of get_repos, in iteration order, goes to addRepository, which raises at
   * the first one without a baseurl; then every package of the kickstart and
   * grub-legacy goes to selectPackage.
   */
  method Install(apt: Apt, ks: Handler, repos: seq<RepoEntry>, installed: seq<string>, hasPackage: string -> bool)
    returns (r: Result<(), string>)
    requires apt.installer != null && apt.installer.Valid()
    modifies apt, apt.installer
    ensures apt.installer == old(apt.installer) && apt.installer.Valid()
    ensures apt.releasever == old(apt.releasever) && apt.installer.rootdir == old(apt.installer.rootdir)
    ensures r.Ok? <==> forall i :: 0 <= i < |repos| ==> repos[i].baseurl.Some?
    ensures r.Err? ==> r.error == NoneConcat && apt.extraPackages == old(apt.extraPackages)
    ensures var k := FirstWithoutBaseurl(repos, 0);
      apt.installer.repos == old(apt.installer.repos) + RepoLines(BaseUrls(repos[..k]))
    ensures r.Ok? ==> apt.extraPackages == old(apt.extraPackages) + Selectable(InstallPackages(ks), installed, hasPackage)
  {
    var inst := apt.installer;
    for i := 0 to |repos|
      invariant apt.installer == inst && inst.Valid()
      invariant apt.releasever == old(apt.releasever) && inst.rootdir == old(inst.rootdir)
      invariant apt.extraPackages == old(apt.extraPackages)
      invariant FirstWithoutBaseurl(repos, 0) == FirstWithoutBaseurl(repos, i)
      invariant inst.repos == old(inst.repos) + RepoLines(BaseUrls(repos[..i]))
    {
      if repos[i].baseurl.None? {
        return Err(NoneConcat);
      }
      apt.AddRepository(repos[i].baseurl.value);
      RepoLinesStep(repos, i);
    }
    assert repos[..|repos|] == repos;

    var pkgs := GetPackages(ks, RequiredPackages());
    for i := 0 to |pkgs|
      invariant apt.installer == inst && inst.Valid()
      invariant apt.releasever == old(apt.releasever) && inst.rootdir == old(inst.rootdir)
      invariant inst.repos == old(inst.repos) + RepoLines(BaseUrls(repos))
      invariant apt.extraPackages == old(apt.extraPackages) + Selectable(pkgs[..i], installed, hasPackage)
    {
      apt.SelectPackage(pkgs[i], installed, hasPackage);
      SelectableStep(pkgs, i, installed, hasPackage);
      assert old(apt.extraPackages) + Selectable(pkgs[..i + 1], installed, hasPackage)
          == Selected(old(apt.extraPackages) + Selectable(pkgs[..i], installed, hasPackage), pkgs[i], installed, hasPackage);
    }
    assert pkgs[..|pkgs|] == pkgs;
    return Ok(());
  }

  /**
   * The packages install() leaves selected: in order, each kickstart package
   * that is neither installed nor unknown to the installer, then grub-legacy
   * when it qualifies.
   */
  lemma InstallSelection(ks: Handler, installed: seq<string>, hasPackage: string -> bool)
    ensures Selectable(InstallPackages(ks), installed, hasPackage)
         == Selectable(ks.packageList, installed, hasPackage)
            + (if "grub-legacy" !in installed && hasPackage("grub-legacy") then ["grub-legacy"] else [])
  {
    SelectableAppend(ks.packageList, ["grub-legacy"], installed, hasPackage);
    assert Selectable(["grub-legacy"], installed, hasPackage)
        == (if "grub-legacy" !in installed && hasPackage("grub-legacy") then ["grub-legacy"] else [])
           + Selectable([], installed, hasPackage);
  }
}
