/**
 * The boot-menu rules of debianimage/live.py: which kernel is the default,
 * the text of an isolinux stanza, the three stanza lists built per kernel
 * version, the order of the sections of isolinux.cfg, the EFI grub.conf
 * stanzas, the switch to UDF for large images and the 32/64-bit yaboot
 * choice on PowerPC.
 *
 * Every configuration text is a sequence of lines; the source's string is
 * that sequence rendered with Strings.Render (each template piece ends in a
 * newline, so concatenating pieces is concatenating their lines). What a
 * path test (os.path.exists, os.path.isfile) would answer is a parameter
 * `present: string -> bool`; a glob result is a given sequence of paths.
 */
module Live {
  import opened Wrappers
  import opened Strings
  import opened BootKernels

  type Lines = seq<string>

  /** The answers of a path test on the build host. */
  type PathTest = string -> bool

  /** What the creator knows of the image being built. */
  datatype LiveContext = LiveContext(
    instroot: string,            // the install root
    fslabel: string,             // the volume label
    product: string,             // the product name shown in menus
    defaultKernel: Option<string>,
    kernelOptions: string)

  // ---------------------------------------------------------------------
  // Helpers the stanza builders consult

  /** _has_checkisomd5: checkisomd5 is in one of its two install locations. */
  predicate HasCheckIsoMd5(instroot: string, present: PathTest)
  {
    present(instroot + "/usr/lib/anaconda-runtime/checkisomd5") || present(instroot + "/usr/bin/checkisomd5")
  }

  /**
   * __is_default_kernel: a kernel key is the default one when it is the only
   * key, when it equals the configured default, or when it is "kernel-"
   * followed by the configured default.
   */
  predicate IsDefaultKernel(kernel: string, kernels: KernelEntries, defaultKernel: Option<string>)
  {
    if |kernels| == 1 then true
    else if defaultKernel.Some? && kernel == defaultKernel.value then true
    else if StartsWith(kernel, "kernel-") && defaultKernel.Some? && kernel[7..] == defaultKernel.value then true
    else false
  }

  /** The three tests of __is_default_kernel amount to one disjunction over whole names. */
  lemma IsDefaultKernelIff(kernel: string, kernels: KernelEntries, defaultKernel: Option<string>)
    ensures IsDefaultKernel(kernel, kernels, defaultKernel) <==>
      |kernels| == 1 ||
      (defaultKernel.Some? && (kernel == defaultKernel.value || kernel == "kernel-" + defaultKernel.value))
  {
    if defaultKernel.Some? {
      var d := defaultKernel.value;
      if kernel == "kernel-" + d {
        assert kernel[..7] == "kernel-" && kernel[7..] == d;
      }
      if StartsWith(kernel, "kernel-") && kernel[7..] == d {
        assert kernel == kernel[..7] + kernel[7..];
      }
    }
  }

  // ---------------------------------------------------------------------
  // One isolinux stanza

  /** The keyword arguments of __get_image_stanza. */
  datatype StanzaArgs = StanzaArgs(
    fslabel: string, isofstype: string, liveargs: string, long: string,
    short: string, extra: string, help: string, index: string)

  /** The root= value: dracut images find the live root through "live:CDLABEL=". */
  function RootLabel(isDracut: bool, fslabel: string): (r: string)
    ensures isDracut ==> r == "live:CDLABEL=" + fslabel
    ensures !isDracut ==> r == "CDLABEL=" + fslabel
    ensures EndsWith(r, fslabel)
  {
    var r := if isDracut then "live:CDLABEL=" + fslabel else "CDLABEL=" + fslabel;
    assert r[|r| - |fslabel|..] == fslabel;
    r
  }

  /** What precedes " root=" on the append line: the initrd, or the hypervisor and kernel. */
  function AppendHead(isXen: bool, index: string): string
  {
    if isXen then "  append xen" + index + ".gz --- vmlinuz" + index
    else "  append initrd=initrd" + index + ".img"
  }

  /** The root and fstype arguments every append line carries after its head. */
  function RootArgs(isDracut: bool, a: StanzaArgs): string
  {
    " root=" + RootLabel(isDracut, a.fslabel) + " rootfstype=" + a.isofstype + " "
  }

  /** The optional help block of a stanza. */
  function HelpBlock(help: string): (r: Lines)
    ensures help == "" <==> r == []
  {
    if help == "" then [] else ["  text help", "      " + help, "  endtext"]
  }

  /**
   * __get_image_stanza: label, menu label, kernel and append lines, then a
   * help block when a help text is given. A xen stanza boots mboot.c32 and
   * hands it the hypervisor, the kernel and the initrd.
   */
  function ImageStanza(isXen: bool, isDracut: bool, a: StanzaArgs): (r: Lines)
    ensures |r| == if a.help == "" then 4 else 7
    ensures r[0] == "label " + a.short && r[1] == "  menu label " + a.long
    ensures r[2] == if isXen then "  kernel mboot.c32" else "  kernel vmlinuz" + a.index
    ensures StartsWith(r[3], AppendHead(isXen, a.index))
    ensures Occurs(r[3], RootArgs(isDracut, a), |AppendHead(isXen, a.index)|)
    ensures r[3] == AppendHead(isXen, a.index) + RootArgs(isDracut, a)
                    + (a.liveargs + " " + a.extra + (if isXen then " --- initrd" + a.index + ".img" else ""))
    ensures r[4..] == HelpBlock(a.help)
  {
    var root := RootLabel(isDracut, a.fslabel);
    var head := AppendHead(isXen, a.index);
    var tail := a.liveargs + " " + a.extra + (if isXen then " --- initrd" + a.index + ".img" else "");
    var append := head + RootArgs(isDracut, a) + tail;
    assert append[..|head|] == head;
    OccursInMiddle(head, RootArgs(isDracut, a), tail);
    var kernel := if isXen then "  kernel mboot.c32" else "  kernel vmlinuz" + a.index;
    ["label " + a.short, "  menu label " + a.long, kernel, append] + HelpBlock(a.help)
  }

  /** A xen stanza is recognised by its kernel line alone: it boots mboot.c32. */
  lemma XenStanzaBootsMboot(isXen: bool, isDracut: bool, a: StanzaArgs)
    ensures isXen <==> ImageStanza(isXen, isDracut, a)[2] == "  kernel mboot.c32"
  {
    var line := ImageStanza(isXen, isDracut, a)[2];
    if !isXen {
      assert line[9] == 'v';
      assert "  kernel mboot.c32"[9] == 'm';
    }
  }

  // ---------------------------------------------------------------------
  // __get_image_stanzas

  /** What __copy_kernel_and_initramfs finds for a version: a xen hypervisor, a dracut initramfs. */
  datatype BootFiles = BootFiles(isXen: bool, isDracut: bool)

  function BootFilesOf(instroot: string, version: string, present: PathTest): BootFiles
  {
    var bootdir := instroot + "/boot";
    BootFiles(present(bootdir + "/xen.gz-" + Take(version, -3)),
              present(bootdir + "/initramfs-" + version + ".img"))
  }

  /** The kernel options, with dracut told not to ask for LUKS passwords or assemble RAID sets. */
  function KernelOptionsFor(ctx: LiveContext, isDracut: bool): string
  {
    if isDracut then ctx.kernelOptions + " rd.luks=0 rd.md=0 rd.dm=0" else ctx.kernelOptions
  }

  /** The entry's display name: the product, followed by the kernel when it is not the default. */
  function LongName(product: string, kernel: string, isDefault: bool): (r: string)
    ensures isDefault ==> r == product
    ensures !isDefault ==> StartsWith(r, product + " (")
    ensures !isDefault && StartsWith(kernel, "kernel-") ==> r == product + " (" + kernel[7..] + ")"
    ensures !isDefault && !StartsWith(kernel, "kernel-") ==> r == product + " (" + kernel + ")"
  {
    if isDefault then product
    else
      var shown := if StartsWith(kernel, "kernel-") then kernel[7..] else kernel;
      var r := product + " (" + shown + ")";
      assert r[..|product + " ("|] == product + " (";
      r
  }

  /** The kernel key the stanzas are labelled with: the last key (the leftover loop variable). */
  function LastKey(kernels: KernelEntries): string
    requires kernels != []
  {
    kernels[|kernels| - 1].0
  }

  predicate EntryIsDefault(ctx: LiveContext, kernels: KernelEntries)
    requires kernels != []
  {
    IsDefaultKernel(LastKey(kernels), kernels, ctx.defaultKernel)
  }

  /**
   * A stanza as __get_image_stanzas builds it: the arguments handed to
   * __get_image_stanza and whether "  menu default" was appended to it.
   * Its text is StanzaLines.
   */
  datatype Stanza = Stanza(isXen: bool, isDracut: bool, args: StanzaArgs, menuDefault: bool)

  function StanzaLines(s: Stanza): (r: Lines)
    ensures |r| == |ImageStanza(s.isXen, s.isDracut, s.args)| + (if s.menuDefault then 1 else 0)
    ensures r[..|ImageStanza(s.isXen, s.isDracut, s.args)|] == ImageStanza(s.isXen, s.isDracut, s.args)
    ensures s.menuDefault ==> r[|r| - 1] == "  menu default"
    ensures r[0] == "label " + s.args.short
  {
    ImageStanza(s.isXen, s.isDracut, s.args) + (if s.menuDefault then ["  menu default"] else [])
  }

  /** The stanza arguments shared by the three entries of version number i. */
  function EntryArgs(ctx: LiveContext, f: BootFiles, long: string,
                     short: string, extra: string, help: string, i: nat): StanzaArgs
  {
    StanzaArgs(ctx.fslabel, "auto", KernelOptionsFor(ctx, f.isDracut), long,
               short + NatToString(i), extra, help, NatToString(i))
  }

  function Name(ctx: LiveContext, kernels: KernelEntries): string
    requires kernels != []
  {
    LongName(ctx.product, LastKey(kernels), EntryIsDefault(ctx, kernels))
  }

  /** The main-menu stanza of version number i, marked as the menu default when the kernel is. */
  function LinuxEntry(ctx: LiveContext, kernels: KernelEntries, f: BootFiles, i: nat): Stanza
    requires kernels != []
  {
    Stanza(f.isXen, f.isDracut,
           EntryArgs(ctx, f, "^Start " + Name(ctx, kernels), "linux", "", "", i),
           EntryIsDefault(ctx, kernels))
  }

  const BasicHelp: string := "Try this option out if you're having trouble starting."

  /** The basic-graphics stanza of version number i. */
  function BasicEntry(ctx: LiveContext, kernels: KernelEntries, f: BootFiles, i: nat): Stanza
    requires kernels != []
  {
    Stanza(f.isXen, f.isDracut,
           EntryArgs(ctx, f, "Start " + Name(ctx, kernels) + " in ^basic graphics mode.", "basic",
                     "xdriver=vesa nomodeset", BasicHelp, i),
           false)
  }

  /** The media-check stanza of version number i, when checkisomd5 is installed. */
  function CheckEntry(ctx: LiveContext, kernels: KernelEntries, f: BootFiles, i: nat, checkisomd5: bool): Option<Stanza>
    requires kernels != []
  {
    if checkisomd5 then
      Some(Stanza(f.isXen, f.isDracut,
                  EntryArgs(ctx, f, "^Test this media & start " + Name(ctx, kernels), "check",
                            "rd.live.check", "", i),
                  false))
    else None
  }

  /** The index counter only reads "0" on the first version. */
  lemma IndexZero(i: nat)
    ensures NatToString(i) == "0" <==> i == 0
  {
    assert NatToString(0) == "0";
    if i != 0 {
      NatToStringInjective(i, 0);
    }
  }

  /** The boot files of the i-th version, when there is one. */
  function FilesAt(ctx: LiveContext, kernels: KernelEntries, present: PathTest, i: nat): BootFiles
    requires i < |Versions(kernels)|
  {
    BootFilesOf(ctx.instroot, Versions(kernels)[i], present)
  }

  /** The linux entries of all versions, in order. */
  function LinuxEntries(ctx: LiveContext, kernels: KernelEntries, present: PathTest): (r: seq<Stanza>)
    ensures |r| == |Versions(kernels)|
    ensures forall i :: 0 <= i < |r| ==> kernels != [] && r[i] == LinuxEntry(ctx, kernels, FilesAt(ctx, kernels, present, i), i)
  {
    if kernels == [] then []
    else seq(|Versions(kernels)|, i requires 0 <= i < |Versions(kernels)| =>
               LinuxEntry(ctx, kernels, FilesAt(ctx, kernels, present, i), i))
  }

  /** The basic-graphics entries of all versions, in order. */
  function BasicEntries(ctx: LiveContext, kernels: KernelEntries, present: PathTest): (r: seq<Stanza>)
    ensures |r| == |Versions(kernels)|
    ensures forall i :: 0 <= i < |r| ==> kernels != [] && r[i] == BasicEntry(ctx, kernels, FilesAt(ctx, kernels, present, i), i)
  {
    if kernels == [] then []
    else seq(|Versions(kernels)|, i requires 0 <= i < |Versions(kernels)| =>
               BasicEntry(ctx, kernels, FilesAt(ctx, kernels, present, i), i))
  }

  /** The media-check entries of all versions, in order; each None without checkisomd5. */
  function CheckEntries(ctx: LiveContext, kernels: KernelEntries, present: PathTest): (r: seq<Option<Stanza>>)
    ensures |r| == |Versions(kernels)|
    ensures forall i :: 0 <= i < |r| ==>
      kernels != [] && r[i] == CheckEntry(ctx, kernels, FilesAt(ctx, kernels, present, i), i, HasCheckIsoMd5(ctx.instroot, present))
  {
    if kernels == [] then []
    else seq(|Versions(kernels)|, i requires 0 <= i < |Versions(kernels)| =>
               CheckEntry(ctx, kernels, FilesAt(ctx, kernels, present, i), i, HasCheckIsoMd5(ctx.instroot, present)))
  }

  /** linux, basic and check hold the entries of the first i versions. */
  predicate EntriesPrefix(ctx: LiveContext, kernels: KernelEntries, present: PathTest,
                          linux: seq<Stanza>, basic: seq<Stanza>, check: seq<Option<Stanza>>, i: nat)
    requires i <= |Versions(kernels)|
  {
    && linux == LinuxEntries(ctx, kernels, present)[..i]
    && basic == BasicEntries(ctx, kernels, present)[..i]
    && check == CheckEntries(ctx, kernels, present)[..i]
  }

  /** The entries of version number i extend the entry lists of the versions before it. */
  lemma EntriesStep(ctx: LiveContext, kernels: KernelEntries, present: PathTest, i: nat,
                    linux: seq<Stanza>, basic: seq<Stanza>, check: seq<Option<Stanza>>,
                    lin: Stanza, bas: Stanza, chk: Option<Stanza>)
    requires kernels != [] && i < |Versions(kernels)|
    requires EntriesPrefix(ctx, kernels, present, linux, basic, check, i)
    requires var f := BootFilesOf(ctx.instroot, Versions(kernels)[i], present);
      && lin == LinuxEntry(ctx, kernels, f, i) && bas == BasicEntry(ctx, kernels, f, i)
      && chk == CheckEntry(ctx, kernels, f, i, HasCheckIsoMd5(ctx.instroot, present))
    ensures EntriesPrefix(ctx, kernels, present, linux + [lin], basic + [bas], check + [chk], i + 1)
  {
    PrefixSnoc(LinuxEntries(ctx, kernels, present), i, lin);
    PrefixSnoc(BasicEntries(ctx, kernels, present), i, bas);
    PrefixSnoc(CheckEntries(ctx, kernels, present), i, chk);
  }

  /** Lists holding the entries of all versions are the entry lists. */
  lemma EntriesPrefixFull(ctx: LiveContext, kernels: KernelEntries, present: PathTest,
                          linux: seq<Stanza>, basic: seq<Stanza>, check: seq<Option<Stanza>>)
    requires EntriesPrefix(ctx, kernels, present, linux, basic, check, |Versions(kernels)|)
    ensures linux == LinuxEntries(ctx, kernels, present)
    ensures basic == BasicEntries(ctx, kernels, present)
    ensures check == CheckEntries(ctx, kernels, present)
  {
    assert LinuxEntries(ctx, kernels, present)[..|Versions(kernels)|] == LinuxEntries(ctx, kernels, present);
    assert BasicEntries(ctx, kernels, present)[..|Versions(kernels)|] == BasicEntries(ctx, kernels, present);
    assert CheckEntries(ctx, kernels, present)[..|Versions(kernels)|] == CheckEntries(ctx, kernels, present);
  }

  /** A prefix grows by the next element of the sequence. */
  lemma PrefixSnoc<T>(s: seq<T>, i: nat, x: T)
    requires i < |s| && s[i] == x
    ensures s[..i] + [x] == s[..i + 1]
  {
  }

  /** str(int(index) + 1) moves the counter from the i-th to the (i+1)-th decimal. */
  lemma NextIndex(i: nat)
    ensures IsDigits(NatToString(i)) && NatToString(ParseNat(NatToString(i)) + 1) == NatToString(i + 1)
  {
    ParseNatToString(i);
  }

  /** str(int(index) + 1) on the decimal counter of version number i. */
  method NextCounter(index: string, ghost i: nat) returns (next: string)
    requires index == NatToString(i)
    ensures next == NatToString(i + 1)
  {
    NextIndex(i);
    next := NatToString(ParseNat(index) + 1);
  }

  /** The stanzas one pass of the loop builds are the entries of version number i. */
  lemma EntriesOfStep(ctx: LiveContext, kernels: KernelEntries, f: BootFiles, i: nat, lin: Stanza, bas: Stanza, chk: Stanza)
    requires kernels != []
    requires var index := NatToString(i);
      var kernel := LastKey(kernels);
      var long := LongName(ctx.product, kernel, IsDefaultKernel(kernel, kernels, ctx.defaultKernel));
      var opts := KernelOptionsFor(ctx, f.isDracut);
      && lin == Stanza(f.isXen, f.isDracut, StanzaArgs(ctx.fslabel, "auto", opts, "^Start " + long, "linux" + index, "", "", index), false)
      && bas == Stanza(f.isXen, f.isDracut, StanzaArgs(ctx.fslabel, "auto", opts, "Start " + long + " in ^basic graphics mode.",
                                                      "basic" + index, "xdriver=vesa nomodeset", BasicHelp, index), false)
      && chk == Stanza(f.isXen, f.isDracut, StanzaArgs(ctx.fslabel, "auto", opts, "^Test this media & start " + long,
                                                      "check" + index, "rd.live.check", "", index), false)
    ensures lin.(menuDefault := EntryIsDefault(ctx, kernels)) == LinuxEntry(ctx, kernels, f, i)
    ensures bas == BasicEntry(ctx, kernels, f, i)
    ensures Some(chk) == CheckEntry(ctx, kernels, f, i, true)
  {
  }

  /**
   * __get_image_stanzas: one linux, one basic and one check entry per kernel
   * version, in the order of the kernel dictionary. The counter index is a
   * decimal string advanced through int() and str(). The returned firstDracut
   * is what the method leaves in self._isDracut: the first version's dracut
   * flag, or None when there is no version and the attribute is not touched.
   */
  method GetImageStanzas(ctx: LiveContext, kernels: KernelEntries, present: PathTest)
    returns (linux: seq<Stanza>, basic: seq<Stanza>, check: seq<Option<Stanza>>, firstDracut: Option<bool>)
    ensures var vs := Versions(kernels);
      && |linux| == |vs| && |basic| == |vs| && |check| == |vs|
      && (vs == [] ==> firstDracut == None)
      && (vs != [] ==> firstDracut == Some(BootFilesOf(ctx.instroot, vs[0], present).isDracut))
    ensures linux == LinuxEntries(ctx, kernels, present)
    ensures basic == BasicEntries(ctx, kernels, present)
    ensures check == CheckEntries(ctx, kernels, present)
  {
    var versions, kernel := CollectVersions(kernels);
    var checkisomd5 := HasCheckIsoMd5(ctx.instroot, present);
    linux, basic, check, firstDracut := [], [], [], None;
    var index := "0";
    var i := 0;
    while i < |versions|
      invariant 0 <= i <= |versions|
      invariant index == NatToString(i)
      invariant i == 0 ==> firstDracut == None
      invariant i > 0 ==> firstDracut == Some(BootFilesOf(ctx.instroot, versions[0], present).isDracut)
      invariant versions != [] ==> kernels != [] && kernel == Some(LastKey(kernels))
      invariant i <= |Versions(kernels)| && EntriesPrefix(ctx, kernels, present, linux, basic, check, i)
    {
      var f := BootFilesOf(ctx.instroot, versions[i], present);
      IndexZero(i);
      if index == "0" {
        firstDracut := Some(f.isDracut);
      }
      var lin, bas, chk := VersionStanzas(ctx, kernels, kernel.value, f, index, checkisomd5, i);
      EntriesStep(ctx, kernels, present, i, linux, basic, check, lin, bas, chk);
      linux := linux + [lin];
      basic := basic + [bas];
      check := check + [chk];

      index := NextCounter(index, i);
      i := i + 1;
    }
    EntriesPrefixFull(ctx, kernels, present, linux, basic, check);
  }

  /**
   * One pass of the __get_image_stanzas loop for version number i, whose boot
   * files are f: the linux stanza (marked as the menu default for the default
   * kernel), the basic-graphics stanza, and the media-check stanza or None.
   */
  method VersionStanzas(ctx: LiveContext, kernels: KernelEntries, kernel: string, f: BootFiles,
                        index: string, checkisomd5: bool, i: nat)
    returns (lin: Stanza, bas: Stanza, chk: Option<Stanza>)
    requires kernels != [] && kernel == LastKey(kernels) && index == NatToString(i)
    ensures lin == LinuxEntry(ctx, kernels, f, i)
    ensures bas == BasicEntry(ctx, kernels, f, i)
    ensures chk == CheckEntry(ctx, kernels, f, i, checkisomd5)
  {
    var default := IsDefaultKernel(kernel, kernels, ctx.defaultKernel);
    var long := LongName(ctx.product, kernel, default);
    var opts := KernelOptionsFor(ctx, f.isDracut);

    lin := Stanza(f.isXen, f.isDracut,
      StanzaArgs(ctx.fslabel, "auto", opts, "^Start " + long, "linux" + index, "", "", index), false);
    bas := Stanza(f.isXen, f.isDracut,
      StanzaArgs(ctx.fslabel, "auto", opts, "Start " + long + " in ^basic graphics mode.",
                 "basic" + index, "xdriver=vesa nomodeset", BasicHelp, index), false);
    var c := Stanza(f.isXen, f.isDracut,
      StanzaArgs(ctx.fslabel, "auto", opts, "^Test this media & start " + long,
                 "check" + index, "rd.live.check", "", index), false);
    EntriesOfStep(ctx, kernels, f, i, lin, bas, c);
    if default {
      lin := lin.(menuDefault := true);
    }
    if checkisomd5 {
      chk := Some(c);
    } else {
      chk := None;
    }
  }


  // ---------------------------------------------------------------------
  // What the stanza lists promise

  /** An entry's label is its kind followed by its index; different kinds or indices give different labels. */
  lemma LabelInjective(k1: string, i: nat, k2: string, j: nat)
    requires |k1| == |k2|
    requires k1 + NatToString(i) == k2 + NatToString(j)
    ensures k1 == k2 && i == j
  {
    var l1, l2 := k1 + NatToString(i), k2 + NatToString(j);
    assert l1[..|k1|] == k1 && l2[..|k2|] == k2;
    assert l1[|k1|..] == NatToString(i) && l2[|k2|..] == NatToString(j);
    if i != j {
      NatToStringInjective(i, j);
    }
  }

  /**
   * Every entry has its own label (the text of its "label" line): two
   * entries of the same list for different versions differ, and so do
   * entries of different lists.
   */
  lemma EntryLabelsDistinct(ctx: LiveContext, kernels: KernelEntries, f: BootFiles, g: BootFiles, i: nat, j: nat)
    requires kernels != []
    ensures var l1, l2 := LinuxEntry(ctx, kernels, f, i).args.short, LinuxEntry(ctx, kernels, g, j).args.short;
      i != j ==> l1 != l2
    ensures var b1, b2 := BasicEntry(ctx, kernels, f, i).args.short, BasicEntry(ctx, kernels, g, j).args.short;
      i != j ==> b1 != b2
    ensures var c1, c2 := CheckEntry(ctx, kernels, f, i, true).value.args.short,
                          CheckEntry(ctx, kernels, g, j, true).value.args.short;
      i != j ==> c1 != c2
    ensures LinuxEntry(ctx, kernels, f, i).args.short != BasicEntry(ctx, kernels, g, j).args.short
    ensures LinuxEntry(ctx, kernels, f, i).args.short != CheckEntry(ctx, kernels, g, j, true).value.args.short
    ensures BasicEntry(ctx, kernels, f, i).args.short != CheckEntry(ctx, kernels, g, j, true).value.args.short
  {
    var ni, nj := NatToString(i), NatToString(j);
    if "linux" + ni == "basic" + nj { LabelInjective("linux", i, "basic", j); }
    if "linux" + ni == "check" + nj { LabelInjective("linux", i, "check", j); }
    if "basic" + ni == "check" + nj { LabelInjective("basic", i, "check", j); }
    if i != j {
      if "linux" + ni == "linux" + nj { LabelInjective("linux", i, "linux", j); }
      if "basic" + ni == "basic" + nj { LabelInjective("basic", i, "basic", j); }
      if "check" + ni == "check" + nj { LabelInjective("check", i, "check", j); }
    }
  }

  const MenuDefault: string := "  menu default"

  /** No line of a stanza from __get_image_stanza is the "  menu default" marker. */
  lemma ImageStanzaHasNoMarker(isXen: bool, isDracut: bool, a: StanzaArgs)
    ensures MenuDefault !in ImageStanza(isXen, isDracut, a)
  {
    var r := ImageStanza(isXen, isDracut, a);
    assert MenuDefault[2] == 'm' && MenuDefault[7] == 'd';
    forall k | 0 <= k < |r| ensures |r[k]| < 8 || r[k][2] != 'm' || r[k][7] != 'd' {
      if k == 0 {
        assert r[k] == "label " + a.short;
      } else if k == 1 {
        assert r[k] == "  menu label " + a.long;
      } else if k == 2 {
        assert r[k][2] == 'k';
      } else if k == 3 {
        var head := AppendHead(isXen, a.index);
        assert r[k][..|head|] == head;
        assert r[k][2] == head[2] == 'a';
      } else {
        assert r[k] == HelpBlock(a.help)[k - 4];
      }
    }
  }


  /**
   * A linux entry carries the "  menu default" marker exactly when its
   * kernel is the default one, and then as its last line; basic and check
   * entries never carry it.
   */
  lemma MenuDefaultMarksDefaultKernel(ctx: LiveContext, kernels: KernelEntries, f: BootFiles, i: nat, checkisomd5: bool)
    requires kernels != []
    ensures var lines := StanzaLines(LinuxEntry(ctx, kernels, f, i));
      && (MenuDefault in lines <==> EntryIsDefault(ctx, kernels))
      && (EntryIsDefault(ctx, kernels) ==> lines[|lines| - 1] == MenuDefault)
    ensures MenuDefault !in StanzaLines(BasicEntry(ctx, kernels, f, i))
    ensures checkisomd5 ==> MenuDefault !in StanzaLines(CheckEntry(ctx, kernels, f, i, checkisomd5).value)
  {
    StanzaMarker(LinuxEntry(ctx, kernels, f, i));
    StanzaMarker(BasicEntry(ctx, kernels, f, i));
    if checkisomd5 {
      StanzaMarker(CheckEntry(ctx, kernels, f, i, checkisomd5).value);
    }
  }

  /** A stanza's text holds the "  menu default" marker exactly when it is marked, and then as its last line. */
  lemma StanzaMarker(s: Stanza)
    ensures MenuDefault in StanzaLines(s) <==> s.menuDefault
    ensures s.menuDefault ==> StanzaLines(s)[|StanzaLines(s)| - 1] == MenuDefault
  {
    var body := ImageStanza(s.isXen, s.isDracut, s.args);
    ImageStanzaHasNoMarker(s.isXen, s.isDracut, s.args);
    if !s.menuDefault {
      assert StanzaLines(s) == body + [];
    }
  }


  /** A media-check entry exists exactly when checkisomd5 is installed, and it passes rd.live.check. */
  lemma CheckEntryPresence(ctx: LiveContext, kernels: KernelEntries, f: BootFiles, i: nat, checkisomd5: bool)
    requires kernels != []
    ensures CheckEntry(ctx, kernels, f, i, checkisomd5).Some? <==> checkisomd5
    ensures checkisomd5 ==> CheckEntry(ctx, kernels, f, i, checkisomd5).value.args.extra == "rd.live.check"
  {
  }

  // ---------------------------------------------------------------------
  // _configure_syslinux_bootloader

  const MenuModules: seq<string> := ["vesamenu.c32", "menu.c32"]
  const SyslinuxLib: string := "/usr/lib/syslinux/"
  const SyslinuxShare: string := "/usr/share/syslinux/"

  /** A menu module is installed in one of the two syslinux directories. */
  predicate MenuInstalled(instroot: string, isFile: PathTest, menu: string)
  {
    isFile(instroot + SyslinuxLib + menu) || isFile(instroot + SyslinuxShare + menu)
  }

  const NoMenuMessage: string := "syslinux not installed : no suitable *menu.c32 found"

  /**
   * __find_syslinux_menu: vesamenu.c32 when installed, else menu.c32 when
   * installed, else the CreatorError message.
   */
  method FindSyslinuxMenu(instroot: string, isFile: PathTest) returns (r: Result<string, string>)
    ensures r.Ok? <==> MenuInstalled(instroot, isFile, "vesamenu.c32") || MenuInstalled(instroot, isFile, "menu.c32")
    ensures r.Ok? ==> r.value == if MenuInstalled(instroot, isFile, "vesamenu.c32") then "vesamenu.c32" else "menu.c32"
    ensures r.Err? ==> r.error == NoMenuMessage
  {
    var dirs := [SyslinuxLib, SyslinuxShare];
    var m := 0;
    while m < |MenuModules|
      invariant 0 <= m <= |MenuModules|
      invariant forall k :: 0 <= k < m ==> !MenuInstalled(instroot, isFile, MenuModules[k])
    {
      var menu := MenuModules[m];
      var d := 0;
      while d < |dirs|
        invariant 0 <= d <= |dirs|
        invariant forall e :: 0 <= e < d ==> !isFile(instroot + dirs[e] + menu)
      {
        if isFile(instroot + dirs[d] + menu) {
          assert MenuModules[0] == "vesamenu.c32" && MenuModules[1] == "menu.c32";
          assert dirs[0] == SyslinuxLib && dirs[1] == SyslinuxShare;
          return Ok(menu);
        }
        d := d + 1;
      }
      assert !MenuInstalled(instroot, isFile, menu) by {
        assert dirs[0] == SyslinuxLib && dirs[1] == SyslinuxShare;
      }
      m := m + 1;
    }
    assert MenuModules[0] == "vesamenu.c32" && MenuModules[1] == "menu.c32";
    return Err(NoMenuMessage);
  }

  /** __find_syslinux_mboot: the mboot module is needed only when some xen hypervisor is installed. */
  function FindSyslinuxMboot(xenGlob: seq<string>): (r: Option<string>)
    ensures r.Some? <==> xenGlob != []
  {
    if xenGlob == [] then None else Some("mboot.c32")
  }

  /** The syslinux files __copy_syslinux_files copies: isolinux.bin, the menu module, and mboot when given. */
  function SyslinuxFiles(menu: string, mboot: Option<string>): (r: seq<string>)
    ensures |r| == if mboot.Some? then 3 else 2
    ensures r[0] == "isolinux.bin" && r[1] == menu
    ensures mboot.Some? ==> r[2] == mboot.value
  {
    ["isolinux.bin", menu] + (if mboot.Some? then [mboot.value] else [])
  }

  function NotFoundMessage(path: string): string
  {
    "syslinux not installed : " + path + " not found"
  }

  /** How a run of the copy loop ends in the source: files copied, CreatorError, or an unbound path. */
  datatype CopyRun = Copied(paths: seq<string>) | Raised(message: string) | Unbound

  /**
   * __copy_syslinux_files as written: `path` is assigned only when the file
   * is present in one of the two directories, so a file present in neither
   * keeps the path of the previous file (or leaves it unbound for the first
   * file); the isfile test then checks the wrong file.
   */
  function CopySyslinuxFilesAsWritten(instroot: string, files: seq<string>, present: PathTest,
                                      isFile: PathTest, path: Option<string>): (r: CopyRun)
    decreases |files|
    ensures r.Copied? ==> |r.paths| == |files|
  {
    if files == [] then Copied([])
    else
      var f := files[0];
      var p := if present(instroot + SyslinuxLib + f) then Some(instroot + SyslinuxLib + f)
               else if present(instroot + SyslinuxShare + f) then Some(instroot + SyslinuxShare + f)
               else path;
      if p.None? then Unbound
      else if !isFile(p.value) then Raised(NotFoundMessage(p.value))
      else match CopySyslinuxFilesAsWritten(instroot, files[1..], present, isFile, p)
        case Copied(rest) => Copied([p.value] + rest)
        case other => other
  }

  /** Where a syslinux file is taken from: the lib directory when it has it, else the share directory. */
  function SyslinuxSource(instroot: string, f: string, present: PathTest): (r: string)
    ensures present(instroot + SyslinuxLib + f) ==> r == instroot + SyslinuxLib + f
    ensures !present(instroot + SyslinuxLib + f) ==> r == instroot + SyslinuxShare + f
  {
    if present(instroot + SyslinuxLib + f) then instroot + SyslinuxLib + f else instroot + SyslinuxShare + f
  }

  /** The index of the first file whose source is not a regular file, or |files|. */
  function FirstMissing(instroot: string, files: seq<string>, present: PathTest, isFile: PathTest, from: nat): (r: nat)
    requires from <= |files|
    decreases |files| - from
    ensures from <= r <= |files|
    ensures forall k :: from <= k < r ==> isFile(SyslinuxSource(instroot, files[k], present))
    ensures r < |files| ==> !isFile(SyslinuxSource(instroot, files[r], present))
  {
    if from == |files| then from
    else if !isFile(SyslinuxSource(instroot, files[from], present)) then from
    else FirstMissing(instroot, files, present, isFile, from + 1)
  }

  /**
   * __copy_syslinux_files with the missing-file check working: each file is
   * taken from the lib directory, else the share directory, and the first
   * one that is not a regular file there raises the "not found" error.
   */
  method CopySyslinuxFiles(instroot: string, files: seq<string>, present: PathTest, isFile: PathTest)
    returns (r: Result<seq<string>, string>)
    ensures r.Ok? <==> forall k :: 0 <= k < |files| ==> isFile(SyslinuxSource(instroot, files[k], present))
    ensures r.Ok? ==> |r.value| == |files|
    ensures r.Ok? ==> forall k :: 0 <= k < |files| ==> r.value[k] == SyslinuxSource(instroot, files[k], present)
    ensures r.Err? ==> var k := FirstMissing(instroot, files, present, isFile, 0);
      k < |files| && r.error == NotFoundMessage(SyslinuxSource(instroot, files[k], present))
  {
    var copied := [];
    var i := 0;
    while i < |files|
      invariant 0 <= i <= |files|
      invariant FirstMissing(instroot, files, present, isFile, 0) == FirstMissing(instroot, files, present, isFile, i)
      invariant |copied| == i
      invariant forall k :: 0 <= k < i ==> copied[k] == SyslinuxSource(instroot, files[k], present)
      invariant forall k :: 0 <= k < i ==> isFile(copied[k])
    {
      var f := files[i];
      var path;
      if present(instroot + SyslinuxLib + f) {
        path := instroot + SyslinuxLib + f;
      } else {
        path := instroot + SyslinuxShare + f;
      }
      if !isFile(path) {
        return Err(NotFoundMessage(path));
      }
      copied := copied + [path];
      i := i + 1;
    }
    return Ok(copied);
  }

  /**
   * The run exhibiting the copy bug: isolinux.bin and vesamenu.c32 are in
   * the lib directory and mboot.c32 is nowhere. As written, the loop copies
   * vesamenu.c32 a second time in place of mboot.c32 and reports no error;
   * with the check working the missing mboot.c32 is reported. Had
   * isolinux.bin been missing too, the first file would meet an unbound path.
   */
  lemma CopySyslinuxFilesMissesMboot()
    ensures var lib := "/r" + SyslinuxLib;
      var present := (p: string) => p == lib + "isolinux.bin" || p == lib + "vesamenu.c32";
      var files := SyslinuxFiles("vesamenu.c32", Some("mboot.c32"));
      && CopySyslinuxFilesAsWritten("/r", files, present, present, None)
           == Copied([lib + "isolinux.bin", lib + "vesamenu.c32", lib + "vesamenu.c32"])
      && !present(SyslinuxSource("/r", files[2], present))
      && FirstMissing("/r", files, present, present, 0) == 2
    ensures CopySyslinuxFilesAsWritten("/r", ["isolinux.bin"], _ => false, _ => false, None) == Unbound
  {
    var lib := "/r" + SyslinuxLib;
    var share := "/r" + SyslinuxShare;
    var present := (p: string) => p == lib + "isolinux.bin" || p == lib + "vesamenu.c32";
    var files := SyslinuxFiles("vesamenu.c32", Some("mboot.c32"));
    assert files == ["isolinux.bin", "vesamenu.c32", "mboot.c32"];
    assert |lib + "mboot.c32"| != |lib + "isolinux.bin"| && |lib + "mboot.c32"| != |lib + "vesamenu.c32"|;
    assert |share + "mboot.c32"| != |lib + "isolinux.bin"| && |share + "mboot.c32"| != |lib + "vesamenu.c32"|;
    assert (lib + "vesamenu.c32")[|lib|] != (lib + "isolinux.bin")[|lib|];
    assert !present(lib + "mboot.c32") && !present(share + "mboot.c32");
    assert present(lib + "vesamenu.c32") && present(lib + "isolinux.bin");
    var mboot := CopySyslinuxFilesAsWritten("/r", files[2..], present, present, Some(lib + "vesamenu.c32"));
    assert files[2..][0] == "mboot.c32" && files[2..][1..] == [];
    assert "/r" + SyslinuxLib + "mboot.c32" == lib + "mboot.c32";
    assert "/r" + SyslinuxShare + "mboot.c32" == share + "mboot.c32";
    assert CopySyslinuxFilesAsWritten("/r", [], present, present, Some(lib + "vesamenu.c32")) == Copied([]);
    assert mboot == Copied([lib + "vesamenu.c32"]);
    assert files[1..][1..] == files[2..];
    assert files[1..][0] == "vesamenu.c32";
  }

  /** The colour lines of the syslinux menu, fixed in the template. */
  const MenuColors: Lines := [
    "menu color border * #00000000 #00000000 none",
    "menu color sel 0 #ffffffff #00000000 none",
    "menu color title 0 #ff7ba3d0 #00000000 none",
    "menu color tabmsg 0 #ff3a6496 #00000000 none",
    "menu color unsel 0 #84b8ffff #00000000 none",
    "menu color hotsel 0 #84b8ffff #00000000 none",
    "menu color hotkey 0 #ffffffff #00000000 none",
    "menu color help 0 #ffffffff #00000000 none",
    "menu color scrollbar 0 #ffffffff #ff355594 none",
    "menu color timeout 0 #ffffffff #00000000 none",
    "menu color timeout_msg 0 #ffffffff #00000000 none",
    "menu color cmdmark 0 #84b8ffff #00000000 none",
    "menu color cmdline 0 #ffffffff #00000000 none"
  ]

  /** __get_basic_syslinux_config: menu settings, title, timeout (in tenths of a second) and colours. */
  function SyslinuxHeader(menu: string, timeout: int, background: string, title: string): Lines
  {
    MenuSettings(menu, timeout, background, title) + MenuColors + MenuTabmsg
  }

  /** The settings that open the header: default entry, timeout, background, title and layout. */
  function MenuSettings(menu: string, timeout: int, background: string, title: string): Lines
  {
    ["",
     "default " + menu,
     "timeout " + IntToString(timeout),
     "menu background " + background,
     "menu autoboot Starting " + title + " in # second{,s}. Press any key to interrupt.",
     "",
     "menu clear",
     "menu title " + title,
     "menu vshift 8",
     "menu rows 18",
     "menu margin 8",
     "#menu hidden",
     "menu helpmsgrow 15",
     "menu tabmsgrow 13",
     ""]
  }

  /** The lines that close the header. */
  const MenuTabmsg: Lines := ["", "menu tabmsg " + "Press Tab for full configuration options on menu items.", "menu separator"]


  /** __get_memtest_stanza: a memtest entry when the install root has a memtest86 image. */
  function MemtestStanza(memtestGlob: seq<string>): (r: Lines)
    ensures r == [] <==> memtestGlob == []
  {
    if memtestGlob == [] then []
    else [
      "label memtest",
      "  menu label Run a ^memory test.",
      "  text help",
      "    If your system is having issues, an problem with your ",
      "    system's memory may be the cause. Use this utility to ",
      "    see if the memory is working correctly.",
      "  endtext",
      "  kernel memtest"
    ]
  }

  /** __get_local_stanza: boot from the local drive. */
  const LocalStanza: Lines := ["label local", "  menu label Boot from ^local drive", "  localboot 0xffff"]

  const Separator: string := "menu separator"

  /** The opening of the Troubleshooting submenu. */
  const SubmenuBegin: Lines := ["menu begin ^Troubleshooting", "  menu title Troubleshooting"]

  /** The end of the Troubleshooting submenu, with its return-to-main entry. */
  const SubmenuEnd: Lines := [Separator, "label returntomain", "  menu label Return to ^main menu.", "  menu exit", "menu end"]

  /** The splash image is used when anaconda's syslinux splash is installed (in the current or the F13 place). */
  function SyslinuxBackground(instroot: string, present: PathTest): (r: string)
    ensures r == "splash.jpg" || r == ""
    ensures r == "splash.jpg" <==>
              present(instroot + "/usr/share/anaconda/boot/syslinux-vesa-splash.jpg")
              || present(instroot + "/usr/lib/anaconda-runtime/syslinux-vesa-splash.jpg")
  {
    if present(instroot + "/usr/share/anaconda/boot/syslinux-vesa-splash.jpg")
       || present(instroot + "/usr/lib/anaconda-runtime/syslinux-vesa-splash.jpg")
    then "splash.jpg" else ""
  }

  /** The text of each stanza of a list. */
  function Rendered(ss: seq<Stanza>): (r: seq<Lines>)
    ensures |r| == |ss|
    ensures forall i :: 0 <= i < |ss| ==> r[i] == StanzaLines(ss[i])
  {
    seq(|ss|, i requires 0 <= i < |ss| => StanzaLines(ss[i]))
  }

  /** The text of each optional stanza of a list. */
  function RenderedOptions(cs: seq<Option<Stanza>>): (r: seq<Option<Lines>>)
    ensures |r| == |cs|
    ensures forall i :: 0 <= i < |cs| ==> (r[i].Some? <==> cs[i].Some?)
    ensures forall i :: 0 <= i < |cs| && cs[i].Some? ==> r[i].value == StanzaLines(cs[i].value)
  {
    seq(|cs|, i requires 0 <= i < |cs| => if cs[i].Some? then Some(StanzaLines(cs[i].value)) else None)
  }

  /** An optional block's lines: none for None. */
  function OptionLines(c: Option<Lines>): Lines
  {
    if c.Some? then c.value else []
  }

  /**
   * The body of the Troubleshooting submenu: zip(basic, check), each basic
   * stanza followed by its check stanza when there is one; the shorter list
   * ends the pairing, as zip does.
   */
  function Interleave(bs: seq<Lines>, cs: seq<Option<Lines>>): Lines
  {
    if bs == [] || cs == [] then []
    else bs[0] + OptionLines(cs[0]) + Interleave(bs[1..], cs[1..])
  }

  lemma {:induction false} InterleaveSnoc(bs: seq<Lines>, cs: seq<Option<Lines>>, b: Lines, c: Option<Lines>)
    requires |bs| == |cs|
    ensures Interleave(bs + [b], cs + [c]) == Interleave(bs, cs) + b + OptionLines(c)
  {
    if bs == [] {
      assert bs + [b] == [b] && cs + [c] == [c];
    } else {
      assert (bs + [b])[1..] == bs[1..] + [b];
      assert (cs + [c])[1..] == cs[1..] + [c];
      InterleaveSnoc(bs[1..], cs[1..], b, c);
    }
  }

  /** zip stops at the shorter list. */
  lemma {:induction false} InterleaveZip(bs: seq<Lines>, cs: seq<Option<Lines>>, n: nat)
    requires n == if |bs| <= |cs| then |bs| else |cs|
    ensures Interleave(bs[..n], cs[..n]) == Interleave(bs, cs)
  {
    if n > 0 {
      assert bs[..n][1..] == bs[1..][..n - 1];
      assert cs[..n][1..] == cs[1..][..n - 1];
      InterleaveZip(bs[1..], cs[1..], n - 1);
    }
  }

  /** Without checkisomd5 (no check stanzas) the submenu holds exactly the basic stanzas. */
  lemma {:induction false} InterleaveWithoutChecks(bs: seq<Lines>, cs: seq<Option<Lines>>)
    requires |bs| == |cs|
    requires forall k :: 0 <= k < |cs| ==> cs[k].None?
    ensures Interleave(bs, cs) == Concat(bs)
  {
    if bs != [] {
      InterleaveWithoutChecks(bs[1..], cs[1..]);
    }
  }

  /** basic[0], check[0], basic[1], check[1], ... for lists that have a check stanza everywhere. */
  function Alternate(bs: seq<Lines>, cs: seq<Option<Lines>>): (r: seq<Lines>)
    requires |bs| == |cs|
    requires forall k :: 0 <= k < |cs| ==> cs[k].Some?
    ensures |r| == 2 * |bs|
    ensures forall k :: 0 <= k < |bs| ==> r[2 * k] == bs[k] && r[2 * k + 1] == cs[k].value
  {
    if bs == [] then []
    else
      var rest := Alternate(bs[1..], cs[1..]);
      var r := [bs[0], cs[0].value] + rest;
      assert forall k :: 0 <= k < |bs| ==> r[2 * k] == bs[k] && r[2 * k + 1] == cs[k].value by {
        forall k | 1 <= k < |bs|
          ensures r[2 * k] == bs[k] && r[2 * k + 1] == cs[k].value
        {
          var m := k - 1;
          assert 2 * k == 2 * m + 2;
          assert r[2 * m + 2] == rest[2 * m] && r[2 * m + 3] == rest[2 * m + 1];
          assert bs[1..][m] == bs[k] && cs[1..][m] == cs[k];
        }
      }
      r
  }

  /** With a check stanza for every version the submenu alternates basic and check stanzas. */
  lemma {:induction false} InterleaveWithChecks(bs: seq<Lines>, cs: seq<Option<Lines>>)
    requires |bs| == |cs|
    requires forall k :: 0 <= k < |cs| ==> cs[k].Some?
    ensures Interleave(bs, cs) == Concat(Alternate(bs, cs))
  {
    if bs != [] {
      InterleaveWithChecks(bs[1..], cs[1..]);
      var alt := Alternate(bs, cs);
      assert alt[1..][1..] == Alternate(bs[1..], cs[1..]);
    }
  }

  lemma {:induction false} ConcatSnoc(blocks: seq<Lines>, b: Lines)
    ensures Concat(blocks + [b]) == Concat(blocks) + b
  {
    ConcatAppend(blocks, [b]);
    assert Concat([b]) == b + Concat([]);
  }

  /**
   * The layout of isolinux.cfg: the header and a separator, the main menu of
   * linux stanzas and a separator, the Troubleshooting submenu with the basic
   * and check stanzas, the memtest stanza, a separator, the local stanza,
   * and the submenu's end (the x86 _get_isolinux_stanzas adds nothing).
   * The stanzas are given as their text.
   */
  function SyslinuxLayout(header: Lines, linux: seq<Lines>, basic: seq<Lines>, check: seq<Option<Lines>>,
                          memtest: Lines): Lines
  {
    header + [Separator] + Concat(linux) + [Separator] + SubmenuBegin
      + Interleave(basic, check)
      + memtest + [Separator] + LocalStanza + SubmenuEnd
  }

  /** The assembly part of _configure_syslinux_bootloader: cfg built piece by piece. */
  method AssembleSyslinux(header: Lines, linux: seq<Lines>, basic: seq<Lines>, check: seq<Option<Lines>>,
                          memtest: Lines) returns (cfg: Lines)
    ensures cfg == SyslinuxLayout(header, linux, basic, check, memtest)
  {
    cfg := header;
    cfg := cfg + [Separator];
    ghost var top := cfg;
    for i := 0 to |linux|
      invariant cfg == top + Concat(linux[..i])
    {
      ConcatSnoc(linux[..i], linux[i]);
      assert linux[..i + 1] == linux[..i] + [linux[i]];
      cfg := cfg + linux[i];
    }
    assert linux[..|linux|] == linux;
    cfg := cfg + [Separator];
    cfg := cfg + SubmenuBegin;
    ghost var sub := cfg;
    var n := if |basic| <= |check| then |basic| else |check|;
    for i := 0 to n
      invariant cfg == sub + Interleave(basic[..i], check[..i])
    {
      InterleaveSnoc(basic[..i], check[..i], basic[i], check[i]);
      assert basic[..i + 1] == basic[..i] + [basic[i]];
      assert check[..i + 1] == check[..i] + [check[i]];
      cfg := cfg + basic[i];
      if check[i].Some? {
        cfg := cfg + check[i].value;
      }
    }
    InterleaveZip(basic, check, n);
    cfg := cfg + memtest;
    cfg := cfg + [Separator];
    cfg := cfg + LocalStanza;
    cfg := cfg + SubmenuEnd;
  }

  // ---------------------------------------------------------------------
  // The whole of _configure_syslinux_bootloader

  /** The menu module __find_syslinux_menu settles on when one is installed. */
  function SyslinuxMenu(instroot: string, isFile: PathTest): string
  {
    if MenuInstalled(instroot, isFile, "vesamenu.c32") then "vesamenu.c32" else "menu.c32"
  }

  /** Every file __copy_syslinux_files needs is a regular file where it is taken from. */
  predicate SyslinuxFilesThere(instroot: string, files: seq<string>, present: PathTest, isFile: PathTest)
  {
    forall k :: 0 <= k < |files| ==> isFile(SyslinuxSource(instroot, files[k], present))
  }

  /** The isolinux.cfg lines for a kernel dictionary once the boot loader files are in place. */
  function SyslinuxConfig(ctx: LiveContext, timeout: int, title: string, kernels: KernelEntries,
                          present: PathTest, isFile: PathTest, memtestGlob: seq<string>): Lines
  {
    SyslinuxLayout(
      SyslinuxHeader(SyslinuxMenu(ctx.instroot, isFile), timeout * 10, SyslinuxBackground(ctx.instroot, present), title),
      Rendered(LinuxEntries(ctx, kernels, present)),
      Rendered(BasicEntries(ctx, kernels, present)),
      RenderedOptions(CheckEntries(ctx, kernels, present)),
      MemtestStanza(memtestGlob))
  }

  /**
   * _configure_syslinux_bootloader: find the menu module, copy the syslinux
   * files (mboot.c32 only when a xen hypervisor is installed), then write
   * isolinux.cfg. Also returns what self._isDracut holds afterwards (None:
   * untouched). The boot loader timeout is given in seconds.
   */
  method ConfigureSyslinux(ctx: LiveContext, timeout: int, title: string, kernels: KernelEntries,
                           present: PathTest, isFile: PathTest, xenGlob: seq<string>, memtestGlob: seq<string>)
    returns (r: Result<Lines, string>, firstDracut: Option<bool>)
    ensures var menuFound := MenuInstalled(ctx.instroot, isFile, "vesamenu.c32") || MenuInstalled(ctx.instroot, isFile, "menu.c32");
      var files := SyslinuxFiles(SyslinuxMenu(ctx.instroot, isFile), FindSyslinuxMboot(xenGlob));
      && (r.Ok? <==> menuFound && SyslinuxFilesThere(ctx.instroot, files, present, isFile))
      && (!menuFound ==> r == Err(NoMenuMessage))
      && (menuFound && r.Err? ==>
            var k := FirstMissing(ctx.instroot, files, present, isFile, 0);
            k < |files| && r.error == NotFoundMessage(SyslinuxSource(ctx.instroot, files[k], present)))
    ensures r.Ok? ==> r.value == SyslinuxConfig(ctx, timeout, title, kernels, present, isFile, memtestGlob)
    ensures r.Ok? && Versions(kernels) != [] ==>
      firstDracut == Some(BootFilesOf(ctx.instroot, Versions(kernels)[0], present).isDracut)
    ensures r.Err? || Versions(kernels) == [] ==> firstDracut == None
  {
    firstDracut := None;
    var menu := FindSyslinuxMenu(ctx.instroot, isFile);
    if menu.Err? {
      return Err(menu.error), None;
    }
    var files := SyslinuxFiles(menu.value, FindSyslinuxMboot(xenGlob));
    var copied := CopySyslinuxFiles(ctx.instroot, files, present, isFile);
    if copied.Err? {
      return Err(copied.error), None;
    }
    var background := SyslinuxBackground(ctx.instroot, present);
    var header := SyslinuxHeader(menu.value, timeout * 10, background, title);
    var linux, basic, check;
    linux, basic, check, firstDracut := GetImageStanzas(ctx, kernels, present);
    var cfg := AssembleSyslinux(header, Rendered(linux), Rendered(basic), RenderedOptions(check),
                                MemtestStanza(memtestGlob));
    r := Ok(cfg);
  }

  // ---------------------------------------------------------------------
  // Menu structure

  /** A line inside a stanza: indented or a "label" line, never a top-level "menu" command. */
  predicate Nested(line: string)
  {
    |line| > 0 && line[0] != 'm'
  }

  /** No line of a stanza is a top-level menu command. */
  lemma StanzaLinesNested(s: Stanza)
    ensures forall j :: 0 <= j < |StanzaLines(s)| ==> Nested(StanzaLines(s)[j])
  {
    var img := ImageStanza(s.isXen, s.isDracut, s.args);
    forall j | 0 <= j < |img| ensures Nested(img[j]) {
      if j == 3 {
        assert img[3][..|AppendHead(s.isXen, s.args.index)|] == AppendHead(s.isXen, s.args.index);
      } else if j >= 4 {
        assert img[j] in HelpBlock(s.args.help);
      }
    }
    assert forall j :: 0 <= j < |StanzaLines(s)| ==> StanzaLines(s)[j] == if j < |img| then img[j] else MenuDefault;
  }

  predicate AllNested(lines: Lines)
  {
    forall j :: 0 <= j < |lines| ==> Nested(lines[j])
  }

  lemma {:induction false} ConcatNested(blocks: seq<Lines>)
    requires forall i :: 0 <= i < |blocks| ==> AllNested(blocks[i])
    ensures AllNested(Concat(blocks))
  {
    if blocks != [] {
      ConcatNested(blocks[1..]);
      var c := Concat(blocks);
      assert c == blocks[0] + Concat(blocks[1..]);
      assert AllNested(blocks[0]);
      forall j | 0 <= j < |c| ensures Nested(c[j]) {
        if j >= |blocks[0]| {
          assert c[j] == Concat(blocks[1..])[j - |blocks[0]|];
        }
      }
    }
  }

  /** The text of a list of stanzas holds no top-level menu command. */
  lemma RenderedNested(ss: seq<Stanza>)
    ensures AllNested(Concat(Rendered(ss)))
  {
    var r := Rendered(ss);
    forall i | 0 <= i < |r| ensures AllNested(r[i]) {
      assert r[i] == StanzaLines(ss[i]);
      StanzaLinesNested(ss[i]);
    }
    ConcatNested(r);
  }

  /** A line that is not "menu begin ...": too short, or it differs from it at position 5 or 6. */
  predicate NotMenuBegin(t: string)
  {
    |t| < 7 || t[5] != 'b' || t[6] != 'e'
  }

  lemma SettingsNotMenuBegin(menu: string, timeout: int, background: string, title: string)
    ensures forall j :: 0 <= j < |MenuSettings(menu, timeout, background, title)| ==>
      NotMenuBegin(MenuSettings(menu, timeout, background, title)[j])
  {
  }

  lemma ColorsNotMenuBegin()
    ensures forall j :: 0 <= j < |MenuColors| ==> NotMenuBegin(MenuColors[j])
    ensures forall j :: 0 <= j < |MenuTabmsg| ==> NotMenuBegin(MenuTabmsg[j])
  {
  }

  /** The header of isolinux.cfg does not open a submenu. */
  lemma HeaderOpensNoSubmenu(menu: string, timeout: int, background: string, title: string)
    ensures SubmenuBegin[0] !in SyslinuxHeader(menu, timeout, background, title)
  {
    var s := MenuSettings(menu, timeout, background, title);
    SettingsNotMenuBegin(menu, timeout, background, title);
    ColorsNotMenuBegin();
    var h := SyslinuxHeader(menu, timeout, background, title);
    assert !NotMenuBegin(SubmenuBegin[0]);
    forall j | 0 <= j < |h|
      ensures NotMenuBegin(h[j])
    {
      if j < |s| {
        assert h[j] == s[j];
      } else if j < |s| + |MenuColors| {
        assert h[j] == MenuColors[j - |s|];
      } else {
        assert h[j] == MenuTabmsg[j - |s| - |MenuColors|];
      }
    }
  }

  /**
   * The file cfg opens its first submenu right after a header of h lines, a
   * separator, the main-menu text main and another separator, main sits
   * there unchanged, and the file ends the submenu.
   */
  predicate SubmenuAfterMain(cfg: Lines, h: nat, main: Lines)
  {
    var k := h + 1 + |main| + 1;
    && k < |cfg| && cfg[k] == SubmenuBegin[0]
    && cfg[h + 1..h + 1 + |main|] == main
    && (forall j :: 0 <= j < k ==> cfg[j] != SubmenuBegin[0])
    && cfg[|cfg| - 1] == "menu end"
  }

  /** The submenu position in a layout whose header and main-menu text open no submenu. */
  lemma LayoutSubmenuPosition(header: Lines, linux: seq<Lines>, basic: seq<Lines>, check: seq<Option<Lines>>,
                              memtest: Lines)
    requires SubmenuBegin[0] !in header
    requires AllNested(Concat(linux))
    ensures SubmenuAfterMain(SyslinuxLayout(header, linux, basic, check, memtest), |header|, Concat(linux))
  {
    var cfg := SyslinuxLayout(header, linux, basic, check, memtest);
    var main := Concat(linux);
    var prefix := header + [Separator] + main + [Separator];
    var rest := SubmenuBegin + Interleave(basic, check) + memtest + [Separator] + LocalStanza + SubmenuEnd;
    assert cfg == prefix + rest;
    forall j | 0 <= j < |prefix| ensures prefix[j] != SubmenuBegin[0] {
      if j < |header| {
        assert prefix[j] == header[j];
      } else if |header| < j < |header| + 1 + |main| {
        assert prefix[j] == main[j - |header| - 1];
        assert Nested(main[j - |header| - 1]);
      }
    }
    assert cfg[|prefix|] == rest[0];
    assert cfg[|header| + 1..|header| + 1 + |main|] == prefix[|header| + 1..|header| + 1 + |main|];
  }

  /**
   * In isolinux.cfg the Troubleshooting submenu opens right after the main
   * menu: its "menu begin" line is the first one of the file, at the position
   * just past the header, a separator, the linux stanzas and a separator.
   * So every linux stanza is in the main menu; the file ends the submenu.
   */
  lemma SubmenuFollowsMainMenu(ctx: LiveContext, timeout: int, title: string, kernels: KernelEntries,
                               present: PathTest, isFile: PathTest, memtestGlob: seq<string>)
    ensures SubmenuAfterMain(SyslinuxConfig(ctx, timeout, title, kernels, present, isFile, memtestGlob),
                             |SyslinuxHeader(SyslinuxMenu(ctx.instroot, isFile), timeout * 10,
                                             SyslinuxBackground(ctx.instroot, present), title)|,
                             Concat(Rendered(LinuxEntries(ctx, kernels, present))))
  {
    var header := SyslinuxHeader(SyslinuxMenu(ctx.instroot, isFile), timeout * 10,
                                 SyslinuxBackground(ctx.instroot, present), title);
    HeaderOpensNoSubmenu(SyslinuxMenu(ctx.instroot, isFile), timeout * 10, SyslinuxBackground(ctx.instroot, present), title);
    RenderedNested(LinuxEntries(ctx, kernels, present));
    LayoutSubmenuPosition(header, Rendered(LinuxEntries(ctx, kernels, present)),
                          Rendered(BasicEntries(ctx, kernels, present)),
                          RenderedOptions(CheckEntries(ctx, kernels, present)), MemtestStanza(memtestGlob));
  }

  // ---------------------------------------------------------------------
  // EFI grub.conf

  /** The root= value of an EFI stanza: dracut images boot "live:LABEL=". */
  function EfiRootLabel(isDracut: bool, fslabel: string): string
  {
    if isDracut then "live:LABEL=" + fslabel else "CDLABEL=" + fslabel
  }

  /** __get_efi_image_stanza for image number index. */
  function EfiStanza(isDracut: bool, fslabel: string, liveargs: string, long: string, extra: string, index: nat): (r: Lines)
    ensures |r| == 3 && r[0] == "title " + long
    ensures StartsWith(r[1], "  kernel /EFI/boot/vmlinuz" + NatToString(index) + " root=")
    ensures r[1] == "  kernel /EFI/boot/vmlinuz" + NatToString(index) + " root=" + EfiRootLabel(isDracut, fslabel)
                    + " rootfstype=auto " + liveargs + " " + extra
    ensures r[2] == "  initrd /EFI/boot/initrd" + NatToString(index) + ".img"
  {
    var head := "  kernel /EFI/boot/vmlinuz" + NatToString(index) + " root=";
    var kernel := head + EfiRootLabel(isDracut, fslabel) + " rootfstype=auto " + liveargs + " " + extra;
    assert kernel[..|head|] == head;
    ["title " + long, kernel, "  initrd /EFI/boot/initrd" + NatToString(index) + ".img"]
  }

  /** The xen hypervisor copied for image number index, which EFI cannot boot. */
  function EfiXenPath(isodir: string, index: nat): string
  {
    isodir + "/EFI/boot/xen" + NatToString(index) + ".gz"
  }

  /** The lowest index in from..8 without a xen hypervisor, or 9 when there is none. */
  function FirstNonXen(isodir: string, present: PathTest, from: nat): (r: nat)
    requires from <= 9
    decreases 9 - from
    ensures from <= r <= 9
    ensures forall j :: from <= j < r ==> present(EfiXenPath(isodir, j))
    ensures r < 9 ==> !present(EfiXenPath(isodir, r))
  {
    if from == 9 then 9
    else if present(EfiXenPath(isodir, from)) then FirstNonXen(isodir, present, from + 1)
    else from
  }

  /** The settings every EFI stanza takes from the creator. */
  datatype EfiSettings = EfiSettings(isDracut: bool, fslabel: string, kernelOptions: string, checkisomd5: bool)

  /** The stanzas of grub.conf: a boot entry and, with checkisomd5, a verify entry, for the first non-xen image. */
  function EfiStanzas(isodir: string, name: string, s: EfiSettings, present: PathTest): Lines
  {
    var k := FirstNonXen(isodir, present, 0);
    if k == 9 then []
    else EfiStanza(s.isDracut, s.fslabel, s.kernelOptions, name, "", k)
         + (if s.checkisomd5 then EfiStanza(s.isDracut, s.fslabel, s.kernelOptions, "Verify and Boot " + name, "rd.live.check", k) else [])
  }

  /**
   * __get_efi_image_stanzas: the loop over indices 0..8 skips images with a
   * xen hypervisor and stops after the first other one.
   */
  method GetEfiImageStanzas(isodir: string, name: string, s: EfiSettings, present: PathTest) returns (cfg: Lines)
    ensures cfg == EfiStanzas(isodir, name, s, present)
  {
    cfg := [];
    var index := 0;
    while index < 9
      invariant 0 <= index <= 9
      invariant FirstNonXen(isodir, present, 0) == FirstNonXen(isodir, present, index)
      invariant cfg == []
    {
      if present(EfiXenPath(isodir, index)) {
        index := index + 1;
        continue;
      }
      cfg := cfg + EfiStanza(s.isDracut, s.fslabel, s.kernelOptions, name, "", index);
      if s.checkisomd5 {
        cfg := cfg + EfiStanza(s.isDracut, s.fslabel, s.kernelOptions, "Verify and Boot " + name, "rd.live.check", index);
      }
      break;
    }
  }

  /**
   * grub.conf holds at most two stanzas, both for the lowest index without a
   * xen hypervisor; it holds none exactly when all nine indices have one, and
   * two exactly when checkisomd5 is installed as well.
   */
  lemma EfiStanzasForFirstNonXen(isodir: string, name: string, s: EfiSettings, present: PathTest)
    ensures var cfg := EfiStanzas(isodir, name, s, present);
      && (cfg == [] <==> forall j :: 0 <= j < 9 ==> present(EfiXenPath(isodir, j)))
      && (|cfg| == 0 || |cfg| == 3 || |cfg| == 6)
      && (|cfg| == 6 <==> cfg != [] && s.checkisomd5)
    ensures var cfg := EfiStanzas(isodir, name, s, present);
      cfg != [] ==> exists k :: (0 <= k < 9 && !present(EfiXenPath(isodir, k))
        && (forall j :: 0 <= j < k ==> present(EfiXenPath(isodir, j)))
        && StartsWith(cfg[1], "  kernel /EFI/boot/vmlinuz" + NatToString(k) + " root=")
        && (|cfg| == 6 ==> StartsWith(cfg[4], "  kernel /EFI/boot/vmlinuz" + NatToString(k) + " root=")))
  {
    var k := FirstNonXen(isodir, present, 0);
    var cfg := EfiStanzas(isodir, name, s, present);
    if k < 9 {
      var first := EfiStanza(s.isDracut, s.fslabel, s.kernelOptions, name, "", k);
      assert cfg[1] == first[1];
      if s.checkisomd5 {
        var verify := EfiStanza(s.isDracut, s.fslabel, s.kernelOptions, "Verify and Boot " + name, "rd.live.check", k);
        assert cfg[4] == verify[1];
      }
    }
  }

  /** __get_basic_efi_config: default entry, splash image, timeout in seconds and a hidden menu. */
  function EfiHeader(timeout: int): Lines
  {
    ["", "default=0", "splashimage=/EFI/boot/splash.xpm.gz", "timeout " + IntToString(timeout), "hiddenmenu", ""]
  }

  /**
   * The grub.conf of _configure_efi_bootloader: none when the install root
   * has no grub.efi (the EFI directory is removed), else the header and the
   * stanzas.
   */
  function EfiGrubConf(hasGrubEfi: bool, timeout: int, isodir: string, name: string, s: EfiSettings,
                       present: PathTest): (r: Option<Lines>)
    ensures r.None? <==> !hasGrubEfi
    ensures r.Some? ==> |r.value| >= 6 && r.value[..6] == EfiHeader(timeout) && r.value[6..] == EfiStanzas(isodir, name, s, present)
  {
    if !hasGrubEfi then None else Some(EfiHeader(timeout) + EfiStanzas(isodir, name, s, present))
  }

  // ---------------------------------------------------------------------
  // Staging the final image

  /** The size from which the ISO switches to UDF: 4 GiB. */
  const UdfThreshold: nat := 4 * 1024 * 1024 * 1024

  /**
   * self._isofstype after staging an image of the given size. The image
   * measured is LiveOS/ext3fs.img when compression is skipped, and
   * LiveOS/squashfs.img otherwise; either way the same rule applies.
   */
  function IsoFsTypeAfterStaging(isofstype: string, stagedSize: nat): (r: string)
    ensures r == "udf" <==> stagedSize >= UdfThreshold || isofstype == "udf"
    ensures r != isofstype ==> r == "udf"
  {
    if stagedSize >= UdfThreshold then "udf" else isofstype
  }

  /** A larger staged image never switches back from UDF. */
  lemma UdfMonotone(isofstype: string, small: nat, large: nat)
    requires small <= large
    ensures IsoFsTypeAfterStaging(isofstype, small) == "udf" ==> IsoFsTypeAfterStaging(isofstype, large) == "udf"
  {
  }

  // ---------------------------------------------------------------------
  // PowerPC: 32- or 64-bit yaboot

  /** The dictionary __kernel_bits returns: which of "32" and "64" the kernel is. */
  datatype KernelBits = KernelBits(bits32: bool, bits64: bool)

  /** A 64-bit kernel ships the powerpc platforms directory among its modules. */
  function KernelBitsOf(instroot: string, kernel: string, present: PathTest): (r: KernelBits)
    ensures r.bits32 != r.bits64
    ensures r.bits64 <==> present(instroot + "/lib/modules/" + kernel + "/kernel/arch/powerpc/platforms")
  {
    if !present(instroot + "/lib/modules/" + kernel + "/kernel/arch/powerpc/platforms")
    then KernelBits(true, false) else KernelBits(false, true)
  }

  /** The kernel the PowerPC boot loader is set up for: the first version of the first key. */
  function PpcKernel(kernels: KernelEntries): (r: Option<string>)
    ensures r.Some? <==> kernels != [] && kernels[0].1 != []
    ensures r.Some? ==> r.value == kernels[0].1[0]
  {
    if kernels == [] || kernels[0].1 == [] then None else Some(kernels[0].1[0])
  }

  /** What /etc/yaboot.conf becomes. */
  datatype EtcYaboot = CopyPpc32 | CopyPpc64 | DualBits

  /** The if/elif/else at the end of the PowerPC _configure_bootloader. */
  function EtcYabootChoice(bits: KernelBits): EtcYaboot
  {
    if bits.bits32 && !bits.bits64 then CopyPpc32
    else if bits.bits64 && !bits.bits32 then CopyPpc64
    else DualBits
  }

  /** What the bit loop writes into ppc/ppc32 or ppc/ppc64. */
  datatype PpcDirWrite = KernelAndYabootConf | NotSupported

  function PpcDirAction(bits: KernelBits, is64: bool): PpcDirWrite
  {
    if (if is64 then bits.bits64 else bits.bits32) then KernelAndYabootConf else NotSupported
  }

  /** The file /etc/yaboot.conf is copied from, when it is copied. */
  function EtcYabootSource(isodir: string, c: EtcYaboot): (r: Option<string>)
    ensures r.None? <==> c == DualBits
  {
    match c
    case CopyPpc32 => Some(isodir + "/ppc/ppc32/yaboot.conf")
    case CopyPpc64 => Some(isodir + "/ppc/ppc64/yaboot.conf")
    case DualBits => None
  }

  /**
   * For any kernel exactly one of ppc32 and ppc64 gets a kernel and a
   * yaboot.conf, the other a not-supported note, and /etc/yaboot.conf is
   * copied from the directory that got the yaboot.conf: the dual-bits
   * configuration is never written.
   */
  lemma EtcYabootFollowsKernel(instroot: string, isodir: string, kernel: string, present: PathTest)
    ensures var bits := KernelBitsOf(instroot, kernel, present);
      var c := EtcYabootChoice(bits);
      && c != DualBits
      && (PpcDirAction(bits, true) == KernelAndYabootConf <==> PpcDirAction(bits, false) == NotSupported)
      && (c == CopyPpc64 <==> PpcDirAction(bits, true) == KernelAndYabootConf)
      && (c == CopyPpc32 <==> PpcDirAction(bits, false) == KernelAndYabootConf)
      && EtcYabootSource(isodir, c)
         == Some(if bits.bits64 then isodir + "/ppc/ppc64/yaboot.conf" else isodir + "/ppc/ppc32/yaboot.conf")
  {
  }
}
