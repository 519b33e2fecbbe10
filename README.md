# image-creator core, modelled in Dafny

This project models the decision logic of the image creator for Debian
live and appliance images:

- **kickstart helpers** (`imgcreate/kickstart.py`): the helpers that read a
  parsed kickstart (image name, image size and file system, kernel modules,
  boot loader settings, repositories, packages);
- **NetworkConfig** (`imgcreate/kickstart.py`): the interface, sysconfig,
  hosts and resolv.conf files it writes, and the way `apply` validates
  each network line and carries settings from one line to the next;
- **live boot menu** (`debianimage/live.py`): the rules that build the live
  image's boot menus. These are the syslinux `isolinux.cfg` stanzas and
  their layout, the EFI `grub.conf`, the UDF switch, and the PowerPC
  32/64-bit choice;
- **appliance boot** (`debianimage/appliance.py`): the GRUB legacy
  `device.map` and `menu.lst`, the kernel versions found under `/boot`,
  the stage files copied, and `install`;
- **package front end** (`debianimage/aptinst.py`): the `Debootstrap` and
  `Apt` classes.

Modules, one per file:

| module | file | models |
|---|---|---|
| `Wrappers` | wrappers.dfy | `Option` and `Result` |
| `Strings` | strings.dfy | the Python string and list operations the sources use |
| `BootKernels` | bootkernels.dfy | the kernel-version dictionary shared by live and appliance images |
| `Kickstart` | kickstart.dfy | kickstart.py helper functions |
| `KickstartNetwork` | network.dfy | kickstart.py `NetworkConfig` |
| `Live` | live.dfy | live.py |
| `Appliance` | appliance.dfy | appliance.py |
| `AptInst` | aptinst.dfy | aptinst.py |

Conventions:

- A file's content is a sequence of lines, each without its trailing
  newline.
- Questions the code asks of the file system become parameters:
  `os.path.exists` and `os.path.isfile` are `PathTest` predicates, and a
  glob or directory listing is an input sequence.
- Python dictionaries that are iterated become sequences of
  `(key, values)` pairs, taken in iteration order (`KernelEntries`).
- The installer queries `instPackages` and `hasPackage` become
  parameters of the corrected `Apt.SelectPackage` and
  `Apt.DeselectPackage`. The `Debootstrap` class defines neither query, so
  the program as written raises AttributeError there (see Findings).
- Python's `list.remove`, `str.split`, `str.rfind`, negative slicing and
  `"%s" % None` are written out in `Strings`, with the Python semantics.

## Model

| member | source | states |
|---|---|---|
| Kickstart.KickstartStem | imgcreate/kickstart.py:91-94 | the stem is the base name up to its last '.', or the whole base name when it has no '.' |
| Kickstart.DropPrefix | imgcreate/kickstart.py:101-102 | a name starting with the prefix is the prefix followed by the result; any other name is unchanged |
| Kickstart.BuildName | imgcreate/kickstart.py:68-108 | the name always ends with '-' and the whole suffix |
| Kickstart.NameFromStem | imgcreate/kickstart.py:96-108 | the name always ends with '-' and the whole suffix |
| Kickstart.BuildNameWithinLimit | imgcreate/kickstart.py:104-106 | within the limit (or with none), the name is prefix + stem without the prefix + '-' + suffix |
| Kickstart.BuildNameOverLimit | imgcreate/kickstart.py:104-106 | over the limit the prefix is dropped. What precedes '-' + suffix is a leading part of the prefix-less stem, as long as the limit allows; with a limit at most the suffix length, it is Python's negative slice of it |
| Kickstart.BuildNameFits | imgcreate/kickstart.py:75-78 | whenever the limit exceeds the suffix length, the name meets the limit |
| Kickstart.NameFromStemFits | imgcreate/kickstart.py:105-106 | the same bound for a known stem |
| Kickstart.BuildNameKeepsBothPieces | imgcreate/kickstart.py:88 | with a limit no larger than the suffix, the name is longer than the limit |
| Kickstart.GetImageSize | imgcreate/kickstart.py:442-450 | the size in bytes of the LAST "/" partition with a nonzero size when that size is positive; otherwise the default |
| Kickstart.GetImageFstype | imgcreate/kickstart.py:452-456 | the fs type of the FIRST "/" partition naming one; otherwise the default |
| Kickstart.ModuleNamesAppend | imgcreate/kickstart.py:465-469 | the module list of two device lists is the concatenation of theirs |
| Kickstart.ModuleNamesStep | imgcreate/kickstart.py:466-469 | one more device adds exactly its own module names |
| Kickstart.ModuleNamesShape | imgcreate/kickstart.py:466-469 | no module name holds ':'; each device's names join back with ':' to its moduleName |
| Kickstart.GetModules | imgcreate/kickstart.py:458-471 | the module names of every device (one device or the deviceList), in device order, none holding ':' |
| Kickstart.GetTimeout | imgcreate/kickstart.py:473-478 | the boot loader timeout, or the default when it is missing or None |
| Kickstart.GetKernelArgs | imgcreate/kickstart.py:480-485 | the default alone without an append line; otherwise the default, a space and the append line |
| Kickstart.GetDefaultKernel | imgcreate/kickstart.py:487-492 | the configured default kernel unless it is missing, None or empty; otherwise the default |
| Kickstart.RepoEntryOf | imgcreate/kickstart.py:496-516 | the tuple for one repo line; a URL given for its name replaces baseurl and clears mirrorlist, and every other field is kept |
| Kickstart.GetRepos | imgcreate/kickstart.py:494-517 | exactly the repo names are keys, each mapped to the entry of the LAST line with that name |
| Kickstart.GetPackages | imgcreate/kickstart.py:525-526 | the kickstart packages, then the required ones |
| KickstartNetwork.FieldLines | imgcreate/kickstart.py:273-302 | one KEY=value line per field, in order |
| KickstartNetwork.ValuesAppend | imgcreate/kickstart.py:273-302 | a key's values in two pieces of a file are those of each piece, in order |
| KickstartNetwork.ValuesOpt | imgcreate/kickstart.py:276-302 | a conditional line contributes its value only to its own key and only under its condition |
| KickstartNetwork.WithAutoneg | imgcreate/kickstart.py:290-293 | ETHTOOL_OPTS always mentions autoneg; "autoneg off " is put in front exactly when the options did not mention it |
| KickstartNetwork.IfcfgLine | imgcreate/kickstart.py:273-302 | each key gets at most one line, under that key |
| KickstartNetwork.LineValues | imgcreate/kickstart.py:273-302 | a line written under one key holds values of no other key |
| KickstartNetwork.ValuesOfLines | imgcreate/kickstart.py:273-302 | over lines written in an order of distinct keys, a key's values are those of its own line, and none for a key not in the order |
| KickstartNetwork.IfcfgKeysDistinct | imgcreate/kickstart.py:273-302 | write_ifcfg tests each key once, so no key comes twice in its order |
| KickstartNetwork.IfcfgKeyValues | imgcreate/kickstart.py:273-302 | in the interface file a key's values are those of its one line; keys of other files have none |
| KickstartNetwork.IfcfgValueOf | imgcreate/kickstart.py:273-302 | for every key, exactly the values write_ifcfg writes: one for DEVICE, BOOTPROTO and ONBOOT, one or none for each conditional key under its condition, none for any other key |
| KickstartNetwork.IfcfgFixedValues | imgcreate/kickstart.py:273-285 | DEVICE, BOOTPROTO and ONBOOT (on/off) are written exactly once each |
| KickstartNetwork.IfcfgStaticValues | imgcreate/kickstart.py:276-280 | IPADDR and NETMASK are written once, only for a static interface that sets them |
| KickstartNetwork.IfcfgDhcpValues | imgcreate/kickstart.py:295-299 | DHCP_HOSTNAME and DHCP_CLASSID are written once, only for a DHCP interface that sets them |
| KickstartNetwork.IfcfgOptionalValues | imgcreate/kickstart.py:287-302 | ESSID, ETHTOOL_OPTS (with autoneg) and MTU are written once each when set |
| KickstartNetwork.IfcfgOnlyOwnKeys | imgcreate/kickstart.py:267-304 | the interface file holds none of the keys of /etc/sysconfig/network |
| KickstartNetwork.StaticAndDhcpExclusive | imgcreate/kickstart.py:276-299 | no interface file gets both the address fields and the DHCP fields |
| KickstartNetwork.SysconfigFields | imgcreate/kickstart.py:316-336 | the file starts with NETWORKING=yes |
| KickstartNetwork.SysconfigShapeValues | imgcreate/kickstart.py:321-334 | a key's values in three fixed lines and an optional fourth are those of the lines with that key, in order |
| KickstartNetwork.SysconfigValues | imgcreate/kickstart.py:316-336 | NETWORKING, NETWORKING_IPV6 and HOSTNAME are written once each; GATEWAY only when there is one |
| KickstartNetwork.HostsLines | imgcreate/kickstart.py:338-352 | two lines: the IPv4 line is 127.0.0.1, two tabs, the local names (HostsLocalNames), then "localhost.localdomain localhost"; the second is the fixed IPv6 line |
| KickstartNetwork.HostsLocalNames | imgcreate/kickstart.py:340-347 | no local names for an empty or localhost host name; the host name alone without a '.'; otherwise the full name and its short form |
| KickstartNetwork.NonEmpty | imgcreate/kickstart.py:362-363 | the entries kept are exactly the non-empty ones, in order |
| KickstartNetwork.NameserverLines | imgcreate/kickstart.py:362-364 | one line per non-empty entry: line i is "nameserver " followed by the i-th non-empty entry |
| KickstartNetwork.ResolvLines | imgcreate/kickstart.py:354-366 | nothing is written exactly under nodns or without nameservers |
| KickstartNetwork.NetworkProblem | imgcreate/kickstart.py:377-387 | a line is rejected exactly when it has no device, or when it is on boot, not DHCP, and lacks an address or a netmask |
| KickstartNetwork.FinalSettingIsLast | imgcreate/kickstart.py:395-403 | a carried setting is empty exactly when no line gives it; otherwise it comes from the last line that does |
| KickstartNetwork.AnyIpv6Snoc | imgcreate/kickstart.py:392-393 | after one more line the ipv6 flag is on when it was, or when that line asks for it |
| KickstartNetwork.AnyNodnsSnoc | imgcreate/kickstart.py:394 | after one more line the nodns flag is on when it was, or when that line asks for it |
| KickstartNetwork.CarriedFlags | imgcreate/kickstart.py:392-394 | the carried flags are on exactly when some line turns them on |
| KickstartNetwork.CarriedSettings | imgcreate/kickstart.py:395-403 | the host name, gateway and nameservers carried are those of the last line giving them |
| KickstartNetwork.WriteNetworkFilesStep | imgcreate/kickstart.py:389-390 | writing one line's files adds or replaces only that device's interface file and leaves the summary files as they were |
| KickstartNetwork.CarriedInterfaceFiles | imgcreate/kickstart.py:389-390 | there is an interface file for exactly the devices named, holding the last line for that device; the loop writes no summary file |
| KickstartNetwork.SummaryFiles | imgcreate/kickstart.py:405-407 | after the loop, sysconfig and hosts are written from the carried settings; resolv.conf is written exactly when ResolvLines writes something |
| KickstartNetwork.FirstProblem | imgcreate/kickstart.py:377-387 | the index found lies between the start and the end |
| KickstartNetwork.FirstProblemIsFirst | imgcreate/kickstart.py:377-387 | every line before the index passes, and the line at the index is rejected |
| KickstartNetwork.CarryStep | imgcreate/kickstart.py:389-403 | one more accepted line advances the carried settings and the written files by that line |
| KickstartNetwork.Apply | imgcreate/kickstart.py:368-407 | apply succeeds exactly when no line is rejected. On failure it raises the first rejected line's message, having written only the earlier lines' files. On success it writes the interface files plus the summary |
| BootKernels.VersionsAppend | debianimage/appliance.py:218-220 | the versions of two dictionaries' entries are those of each, in order |
| BootKernels.VersionsMembership | debianimage/appliance.py:218-220 | a version is listed exactly when some key lists it |
| BootKernels.CollectVersions | debianimage/live.py:412-415 | all versions, key after key, and the loop variable left on the last key (None for no key) |
| Live.IsDefaultKernelIff | debianimage/live.py:338-348 | a kernel key is the default exactly when it is the only key, equals the configured default, or is "kernel-" followed by it |
| Live.RootLabel | debianimage/live.py:385-388 | root= is "live:CDLABEL=" + label for dracut images, "CDLABEL=" + label otherwise |
| Live.HelpBlock | debianimage/live.py:402-406 | the help block is empty exactly when there is no help text |
| Live.ImageStanza | debianimage/live.py:384-407 | 4 lines, or 7 with help. The label and menu label lines; a kernel line that boots mboot.c32 for xen and vmlinuz<index> otherwise; an append line made of its head, the root and fstype arguments, the live arguments, a space and the extra arguments, followed for xen by " --- initrd<index>.img"; then the help block |
| Live.XenStanzaBootsMboot | debianimage/live.py:390-401 | a stanza is a xen stanza exactly when its kernel line boots mboot.c32 |
| Live.LongName | debianimage/live.py:433-438 | the product name for the default kernel; otherwise the product, " (", the kernel without a leading "kernel-", and ")" |
| Live.StanzaLines | debianimage/live.py:446-457 | a stanza's text starts with its image stanza, and has one more line, "  menu default", exactly when it is the menu default |
| Live.IndexZero | debianimage/live.py:425-429 | the index counter reads "0" only on the first version |
| Live.LinuxEntries | debianimage/live.py:409-484 | one main-menu entry per version, each that version's linux entry |
| Live.BasicEntries | debianimage/live.py:409-484 | one basic-graphics entry per version, each that version's basic entry |
| Live.CheckEntries | debianimage/live.py:409-484 | one optional media-check entry per version |
| Live.EntriesStep | debianimage/live.py:446-480 | appending version i's entries to the entry lists of the first i versions gives those of the first i + 1 |
| Live.EntriesPrefixFull | debianimage/live.py:426-484 | lists holding the entries of all versions are the entry lists |
| Live.NextIndex | debianimage/live.py:482 | str(int(index) + 1) moves the decimal counter from i to i + 1 |
| Live.NextCounter | debianimage/live.py:482 | the counter step turns the decimal of i into the decimal of i + 1 |
| Live.EntriesOfStep | debianimage/live.py:427-480 | the three stanzas one loop pass builds are version i's linux, basic and check entries |
| Live.VersionStanzas | debianimage/live.py:427-480 | one pass of the loop yields version i's linux entry (marked default for the default kernel), its basic entry, and its check entry exactly when checkisomd5 is installed |
| Live.GetImageStanzas | debianimage/live.py:409-484 | one linux, one basic and one check entry per version, in dictionary order; firstDracut is the first version's dracut flag, or None without versions |
| Live.LabelInjective | debianimage/live.py:446-478 | labels of equal-length kinds are equal only for the same kind and the same index |
| Live.EntryLabelsDistinct | debianimage/live.py:446-478 | no two entries of the menu share a label: different indices or different kinds give different labels |
| Live.ImageStanzaHasNoMarker | debianimage/live.py:384-407 | no image stanza line is the "menu default" marker |
| Live.StanzaMarker | debianimage/live.py:446-457 | a stanza's text holds "menu default" exactly when it is marked, and then as its last line |
| Live.MenuDefaultMarksDefaultKernel | debianimage/live.py:431-457 | a linux entry carries "menu default", as its last line, exactly when its kernel is the default; basic and check entries never do |
| Live.CheckEntryPresence | debianimage/live.py:469-480 | a media-check entry exists exactly when checkisomd5 is installed, and it passes rd.live.check |
| Live.FindSyslinuxMenu | debianimage/live.py:263-270 | vesamenu.c32 when installed, else menu.c32 when installed, else the CreatorError |
| Live.FindSyslinuxMboot | debianimage/live.py:272-279 | mboot.c32 is wanted exactly when a xen hypervisor is installed |
| Live.SyslinuxFiles | debianimage/live.py:282-284 | isolinux.bin, then the menu module, then mboot when it is wanted, and nothing else |
| Live.CopySyslinuxFilesAsWritten | debianimage/live.py:281-295 | a run that copies copies one path per file |
| Live.SyslinuxSource | debianimage/live.py:286-290 | a file comes from the lib directory when present there, else from the share directory |
| Live.FirstMissing | debianimage/live.py:286-293 | every file before the index is a regular file where it comes from; the file at the index is not |
| Live.CopySyslinuxFiles | debianimage/live.py:281-295 | succeeds exactly when every file is a regular file where it comes from, copying each from there; otherwise names the first one missing |
| Live.CopySyslinuxFilesMissesMboot | debianimage/live.py:281-295 | as written, a missing mboot.c32 goes unreported and vesamenu.c32 is copied twice; a missing first file meets an unbound path |
| Live.MemtestStanza | debianimage/live.py:486-501 | the memtest stanza is absent exactly when no memtest86 image is installed |
| Live.SyslinuxBackground | debianimage/live.py:297-311 | the background is splash.jpg exactly when anaconda's syslinux splash is present in the current or the F13 place, and nothing otherwise |
| Live.Rendered | debianimage/live.py:530-531 | block i is the text of stanza i, one block per stanza |
| Live.RenderedOptions | debianimage/live.py:538-541 | block i is present exactly when check stanza i is, and is then its text |
| Live.InterleaveSnoc | debianimage/live.py:538-541 | one more pair appends its basic block and its check block, if any |
| Live.InterleaveZip | debianimage/live.py:538 | pairing stops at the shorter list, as zip does |
| Live.InterleaveWithoutChecks | debianimage/live.py:538-541 | without check stanzas the submenu holds exactly the basic stanzas |
| Live.Alternate | debianimage/live.py:538-541 | basic and check blocks alternate, basic first |
| Live.InterleaveWithChecks | debianimage/live.py:538-541 | with a check stanza for every version the submenu alternates basic and check stanzas |
| Live.ConcatSnoc | debianimage/live.py:530-531 | appending one block extends the text by that block |
| Live.AssembleSyslinux | debianimage/live.py:522-554 | isolinux.cfg has this layout: header, main menu, Troubleshooting submenu with basic and check stanzas, memtest, local boot, submenu end |
| Live.ConfigureSyslinux | debianimage/live.py:509-557 | with the corrected file copy (CopySyslinuxFiles, see Findings): succeeds exactly when a menu module is found and every needed file is in place, writing the configuration; otherwise raises the menu error or names the first missing file |
| Live.StanzaLinesNested | debianimage/live.py:384-407 | no stanza line is a top-level menu command |
| Live.ConcatNested | debianimage/live.py:530-531 | stanza texts put together hold no top-level menu command |
| Live.RenderedNested | debianimage/live.py:530-531 | the main menu's text holds no top-level menu command |
| Live.SettingsNotMenuBegin | debianimage/live.py:350-365 | no settings line of the header can be a "menu begin" line |
| Live.ColorsNotMenuBegin | debianimage/live.py:366-382 | no colour line and no closing line of the header can be a "menu begin" line |
| Live.HeaderOpensNoSubmenu | debianimage/live.py:350-382 | the header opens no submenu |
| Live.LayoutSubmenuPosition | debianimage/live.py:522-554 | the submenu opens right after the header, the main menu and two separators, nowhere earlier, and the file ends with "menu end" |
| Live.SubmenuFollowsMainMenu | debianimage/live.py:509-557 | in isolinux.cfg every linux stanza is in the main menu: the submenu's first "menu begin" comes after all of them |
| Live.EfiStanza | debianimage/live.py:581-589 | three lines: the title; the kernel line for vmlinuz<index> with the root label, rootfstype=auto, the live and extra arguments; and the initrd line for initrd<index>.img |
| Live.FirstNonXen | debianimage/live.py:599-602 | every index before the one found has a xen hypervisor, and that index has none |
| Live.GetEfiImageStanzas | debianimage/live.py:591-617 | the stanzas are the boot entry and, with checkisomd5, the verify entry of the first non-xen image |
| Live.EfiStanzasForFirstNonXen | debianimage/live.py:591-617 | no stanza exactly when all nine indices are xen; otherwise one or two stanzas, for the lowest non-xen index, two exactly with checkisomd5 |
| Live.EfiGrubConf | debianimage/live.py:619-650 | nothing without an EFI grub; otherwise the six header lines, then the stanzas |
| Live.IsoFsTypeAfterStaging | debianimage/live.py:226-241 | the ISO switches to UDF exactly when the staged image reaches 4 GiB, and never switches away from UDF |
| Live.UdfMonotone | debianimage/live.py:228-229 | a larger staged image never switches back from UDF |
| Live.KernelBitsOf | debianimage/live.py:685-692 | a kernel is exactly one of 32 and 64 bits; 64 exactly when it ships the powerpc platforms modules |
| Live.PpcKernel | debianimage/live.py:815 | a kernel is taken exactly when the first key lists a version, and it is that first version |
| Live.EtcYabootSource | debianimage/live.py:827-837 | /etc/yaboot.conf is copied from ppc32 or ppc64, and nothing is copied in the dual-bits case |
| Live.EtcYabootFollowsKernel | debianimage/live.py:817-837 | exactly one of ppc32/ppc64 gets the kernel and the other a not-supported note; /etc/yaboot.conf is copied from the one with the kernel, and the dual-bits file is never written |
| Appliance.Disks | debianimage/appliance.py:183-186 | the disk of every partition, in kickstart order |
| Appliance.GrubDisksDistinctSorted | debianimage/appliance.py:183-188 | the GRUB disks are strictly ascending and are exactly the partitions' disks |
| Appliance.DedupStep | debianimage/appliance.py:185-186 | a disk is appended exactly when it is not yet listed |
| Appliance.CollectDisks | debianimage/appliance.py:183-186 | the disks of the partitions, each once, in order of first appearance |
| Appliance.DeviceMap | debianimage/appliance.py:190-194 | device.map line n maps (hdN) to /dev/disk n, one line per disk |
| Appliance.CreateGrubDevices | debianimage/appliance.py:180-200 | the distinct disks in ascending order, and device.map line n maps (hdN) to /dev/disk n |
| Appliance.MenuEntry | debianimage/appliance.py:223-226 | a menu entry has four lines |
| Appliance.MenuEntries | debianimage/appliance.py:222-226 | one entry per version, in order |
| Appliance.CreateGrubConfig | debianimage/appliance.py:202-231 | menu.lst is the header followed by the entries of every version of every kernel |
| Appliance.ConcatQuads | debianimage/appliance.py:222-226 | in blocks of four, line 4k + j is line j of block k |
| Appliance.MenuLstShape | debianimage/appliance.py:210-226 | 3 + 4 lines per version: default=0, timeout=5, hiddenmenu, then each version's title, root (hd0,N), the kernel line booting its vmlinuz with quiet, the root device and the options, and its initrd line |
| Appliance.BootGlob | debianimage/appliance.py:255 | every file found contains the stem; nothing is found exactly when no name starts with it |
| Appliance.VersionsOfFiles | debianimage/appliance.py:258-259 | one version per file: the text between the first and the second occurrence of the stem |
| Appliance.GlobVersions | debianimage/appliance.py:256-259 | the versions of the files found, in glob order |
| Appliance.GetKernelVersions | debianimage/appliance.py:251-267 | the vmlinuz and vmlinux keys, each present only when its glob finds a file |
| Appliance.KernelVersionsKeys | debianimage/appliance.py:251-267 | at most the two keys; each key is present exactly when a name starts with its stem, and it lists some version |
| Appliance.NoOccurrenceOver | debianimage/appliance.py:259 | no occurrence of the stem spans a character the stem lacks |
| Appliance.VersionOfBootFile | debianimage/appliance.py:259 | for a root and version without the stem, the version of root/boot/stem+version is that version |
| Appliance.KernelVersionsOfPlainNames | debianimage/appliance.py:255-265 | for plain names, each key's versions are the name parts after the stem, in listing order |
| Appliance.PlainNameFirst | debianimage/appliance.py:258-259 | a plain file name contributes exactly its part after the stem |
| Appliance.GrubImageDir | debianimage/appliance.py:234-238 | x86_64-pc when it exists, else i386-pc whether it exists or not |
| Appliance.FirstMissingStage | debianimage/appliance.py:241-245 | every stage file before the index is a file; the one at the index is not |
| Appliance.FindGrubImageDir | debianimage/appliance.py:234-238 | the loop stops at x86_64-pc when that directory exists, and otherwise leaves i386-pc, whether or not it exists |
| Appliance.CopyStageFiles | debianimage/appliance.py:240-248 | from a given directory: succeeds exactly when all three stage files are files there, copying each to /boot/grub; otherwise names the first missing one |
| Appliance.CopyGrubFiles | debianimage/appliance.py:233-248 | succeeds exactly when all three stage files are files in the chosen directory, and copies each to /boot/grub; otherwise the CreatorError names the first missing one |
| Appliance.GrubCopies | debianimage/appliance.py:241-248 | each stage file is copied to the same name under /boot/grub |
| Appliance.CopyGrubFilesOutcome | debianimage/appliance.py:241-245 | the first missing stage file is reported, and every one before it was there |
| Appliance.RequiredPackages | debianimage/appliance.py:177-178 | grub-legacy alone |
| Appliance.InstallPackagesEndWithGrub | debianimage/appliance.py:142-144 | install asks for every kickstart package, in order, and then grub-legacy |
| Appliance.FirstWithoutBaseurl | debianimage/appliance.py:138-140 | every repository before the index has a baseurl; the one at the index has none |
| Appliance.BaseUrls | debianimage/appliance.py:139-140 | the baseurls, in order |
| Appliance.RepoLinesStep | debianimage/appliance.py:138-140 | one more repository adds one "deb" line |
| Appliance.Install | debianimage/appliance.py:135-146 | with the corrected addRepo and selectPackage (see Findings): the repositories before the first without a baseurl become sources lines. The call fails exactly when some repository has none, selecting nothing. On success every package that qualifies is selected, in order. The release and the installer's root are unchanged |
| Appliance.InstallSelection | debianimage/appliance.py:142-144 | install selects the qualifying kickstart packages, then grub-legacy when it qualifies |
| AptInst.ArityError | debianimage/aptinst.py:53-56 | a call fails with TypeError naming the method exactly when the arity differs |
| AptInst.RepoLine | debianimage/aptinst.py:53-54 | a sources line is "deb " followed by the URL |
| AptInst.RepoLines | debianimage/aptinst.py:53-54 | one line per URL, in call order |
| AptInst.JoinEndsWithLast | debianimage/aptinst.py:58 | lines joined with newlines end with the last line |
| AptInst.SourcesListRoundTrip | debianimage/aptinst.py:56-64 | splitting the sources.list text at newlines gives back the recorded lines, and the text ends with the last URL |
| AptInst.SourcesListEmpty | debianimage/aptinst.py:58 | with nothing recorded, sources.list is empty |
| AptInst.Debootstrap.constructor | debianimage/aptinst.py:48-51 | a new Debootstrap has its root directory and no repositories |
| AptInst.Debootstrap.AddRepo | debianimage/aptinst.py:53-54 | "deb " + the URL is appended after the earlier lines, and the root is unchanged |
| AptInst.Debootstrap.WriteSourcesList | debianimage/aptinst.py:56-64 | writes root/etc/apt/sources.list with the joined lines and mode 0644 |
| AptInst.AptSourcesAsWrittenRaise | debianimage/aptinst.py:53-64 | as declared, both addRepo and _writeSourcesList raise TypeError on every call |
| AptInst.ConfLines | debianimage/aptinst.py:113-126 | as evidently intended (see Findings): seven lines, [main] then installroot=<the root it is given>, and so on |
| AptInst.WriteConfAsWrittenRaises | debianimage/aptinst.py:113-115 | as written, every call raises NameError; corrected, line 1 is installroot=<root> |
| AptInst.Selected | debianimage/aptinst.py:133-136 | a package is appended exactly when it is not installed and the installer has it |
| AptInst.FirstIndex | debianimage/aptinst.py:141 | the position of the first occurrence |
| AptInst.RemoveFirst | debianimage/aptinst.py:141 | list.remove: one element fewer, the first occurrence dropped and everything else kept in order |
| AptInst.Deselected | debianimage/aptinst.py:138-141 | a ValueError exactly when the installer has the package and it is not selected; unchanged when the installer lacks it; otherwise the first occurrence is removed |
| AptInst.Selectable | debianimage/aptinst.py:133-136 | a package is in the selection exactly when listed, not installed and known to the installer |
| AptInst.SelectableAppend | debianimage/aptinst.py:133-136 | selecting two package lists selects each one's packages, in order |
| AptInst.SelectableStep | debianimage/aptinst.py:133-136 | one more selectPackage call adds that package exactly when it qualifies |
| AptInst.SelectAllAppendsSelectable | debianimage/aptinst.py:133-136 | a run of selectPackage calls appends the qualifying packages, in call order |
| AptInst.SelectTwiceKeepsBoth | debianimage/aptinst.py:133-136 | selecting a qualifying package twice lists it twice more |
| AptInst.DeselectUndoesSelect | debianimage/aptinst.py:133-141 | deselecting a freshly selected package removes one copy; with no copy before, it restores the list, and deselecting again raises |
| AptInst.Apt.constructor | debianimage/aptinst.py:95-100 | keeps releasever, with no extra packages and no installer |
| AptInst.Apt.Setup | debianimage/aptinst.py:129-131 | with the corrected _writeConf (ConfLines, see Findings): writes the configuration for the install root to confpath with mode 0644, and the installer is a new Debootstrap for it |
| AptInst.Apt.SelectPackage | debianimage/aptinst.py:133-136 | corrected, with the installer's answers as parameters (see Findings): extraPackages becomes the selection after this call; nothing else changes |
| AptInst.Apt.DeselectPackage | debianimage/aptinst.py:138-141 | corrected, with the installer's answer as a parameter (see Findings): extraPackages follows the deselection. On ValueError the list is unchanged and the error is returned |
| AptInst.InstallerQueryAsWritten | debianimage/aptinst.py:129-141 | the query raises AttributeError: Apt has no installer attribute, or Debootstrap lacks the queried method |
| AptInst.SelectionAsWrittenRaises | debianimage/aptinst.py:133-141 | as written, selectPackage and deselectPackage raise AttributeError for every package; corrected, they append an available uninstalled package and remove a selected one |
| AptInst.Apt.AddRepository | debianimage/aptinst.py:147-148 | the installer gets one more "deb" line for the URL |

## Left out

- Mounting, loop devices, ISO creation and the md5 implant in live.py:
  these are I/O and external programs.
- `chroot`/subprocess calls and the other `KickstartConfig` classes
  (language, keyboard, timezone, auth, firewall, root password, services,
  X, SELinux): they run programs in the image root.
- `read_kickstart` and pykickstart parsing: the model starts from the
  parsed handler.
- `Kickstart.BuildName`: the default suffix `time.strftime("%Y%m%d%H%M")`
  reads the clock. The suffix is a parameter.
- `Kickstart.GetRepos` returns the dictionary rather than its `values()`.
  The order of Python's dictionary values is not modelled, so
  `Appliance.Install` takes the repositories in any given order.
- Iteration order of the kernel dictionary: it is given as a sequence
  (`KernelEntries`).
- `Appliance.Install` starts from an `Apt` that is already set up.
  appliance.py:137 passes the image root as confpath and the architecture
  as installroot; that call, and `runInstall` (aptinst.py:150-154), are not
  modelled. `runInstall` calls `Debootstrap.setup`, which is declared
  without `self` and so raises TypeError. As written, `install` never
  gets past its first repository: `setup` raises NameError in `_writeConf`,
  and even from a set-up `Apt` every `addRepository` call raises the
  TypeError of `addRepo` (see Findings); the model composes the corrected
  `addRepo` and `selectPackage`.
- The Debootstrap stubs `setup`, `findPackages`, `downloadPackages`,
  `installDpkg`, `installCore`, `installBase` and `debootstrp`
  (aptinst.py:66-91): their bodies do nothing or call `apt.Cache`, which
  is foreign code. For the same reason the constructor's `repoCache`
  (aptinst.py:50) is not a field of the model. `Apt.selectGroup` does nothing. `doFileLogSetup`,
  `close` and `__del__` are empty.
- File copies, `chmod`, directory creation, links and renames are effects,
  not modelled. This covers the kernel and initramfs copies, the EFI file
  moves in `_configure_efi_bootloader`, and the syslinux background copy.
  Only the paths and texts are modelled.
- The text templates of the PowerPC yaboot configuration files, and the
  mips boot loader.
- `KickstartNetwork.IfcfgFields`: write_ifcfg also assigns the amended
  ETHTOOL_OPTS back to `network.ethtool`. The mutation of the kickstart
  object is not modelled; only the written value is.
- `write_wepkey`'s key file content is modelled only as a file request
  (the key itself).
- The x86 `_get_isolinux_stanzas` returns the empty string; the layout
  adds nothing for it.
- Logging calls.
- `Live.PpcKernel`: None stands for the IndexError that `values()[0][0]`
  raises (live.py:815) when there is no kernel or the first lists no
  version; the program does not catch it.

## Findings

| source | as written | input that shows it | evidently intended | confidence | as-written member | corrected member |
|---|---|---|---|---|---|---|
| debianimage/aptinst.py:53-64 | `addRepo(fullurl)` and `_writeSourcesList()` are declared without `self`, and `addRepo` calls `self.repos.appned` | any call `installer.addRepo(url)` from `Apt.addRepository`: two arguments for one parameter raise TypeError | append `"deb " + fullurl` to `self.repos`; write the lines joined by newlines to `<root>/etc/apt/sources.list` with mode 0644 | high; not executed | AptInst.AptSourcesAsWrittenRaise | AptInst.Debootstrap.AddRepo |
| debianimage/aptinst.py:113-115 | `_writeConf(self, confpath, arch)` formats `installroot`, which is neither a parameter nor a global | any `Apt().setup(path, root)`: NameError before the file is written | format the install root passed by `setup` | high; not executed | AptInst.WriteConfAsWrittenRaises | AptInst.ConfLines |
| debianimage/live.py:281-295 | `path` is assigned only when the file is present in the lib or share directory, so a file in neither keeps the previous file's path | isolinux.bin and vesamenu.c32 in the lib directory, xen installed, mboot.c32 nowhere: vesamenu.c32 is copied twice and no error is raised; with isolinux.bin missing too, the first pass meets an unbound `path` | report the missing file (CreatorError naming its share-directory path) | high; not executed | Live.CopySyslinuxFilesMissesMboot | Live.CopySyslinuxFiles |
| debianimage/aptinst.py:133-136 | `selectPackage` asks `self.installer.instPackages()` and `hasPackage(pkg)`, but `setup` raises at line 130 before `self.installer` is assigned, and the `Debootstrap` class defines neither query | any `selectPackage(pkg)`: AttributeError (no attribute `installer`; with a `Debootstrap` installer, no attribute `instPackages`) and the list is unchanged | append `pkg` when the installer has it and it is not installed | high; not executed | AptInst.SelectionAsWrittenRaises | AptInst.Apt.SelectPackage |
| debianimage/aptinst.py:138-141 | `deselectPackage` asks `self.installer.hasPackage(pkg)`, which neither an unset installer nor a `Debootstrap` answers | any `deselectPackage(pkg)`: AttributeError (no attribute `installer`; with a `Debootstrap` installer, no attribute `hasPackage`) | remove the first `pkg` when the installer has it | high; not executed | AptInst.SelectionAsWrittenRaises | AptInst.Apt.DeselectPackage |
