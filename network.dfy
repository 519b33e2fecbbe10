/**
 * NetworkConfig of imgcreate/kickstart.py: it checks each `network`
 * kickstart line and writes the interface files, /etc/sysconfig/network,
 * /etc/hosts and /etc/resolv.conf below the install root. A file is
 * modelled as its lines; the files written are a map from path to lines.
 */
module KickstartNetwork {
  import opened Wrappers
  import opened Strings

  /**
   * A `network` line. Text fields are "" when unset; onboot and nodns are
   * the flags; ipv6 is the --ipv6 text, which counts when non-empty.
   */
  datatype Network = Network(device: string, bootProto: string, ip: string, netmask: string,
                             onboot: bool, essid: string, ethtool: string, hostname: string,
                             dhcpclass: string, mtu: string, wepkey: string, ipv6: string,
                             nodns: bool, gateway: string, nameserver: string)

  /** The keys the configuration files are written with. */
  datatype Key =
    | DEVICE | BOOTPROTO | IPADDR | NETMASK | ONBOOT | ESSID | ETHTOOL_OPTS
    | DHCP_HOSTNAME | DHCP_CLASSID | MTU | NETWORKING | NETWORKING_IPV6 | HOSTNAME | GATEWAY

  function KeyName(k: Key): string
  {
    match k
    case DEVICE => "DEVICE"
    case BOOTPROTO => "BOOTPROTO"
    case IPADDR => "IPADDR"
    case NETMASK => "NETMASK"
    case ONBOOT => "ONBOOT"
    case ESSID => "ESSID"
    case ETHTOOL_OPTS => "ETHTOOL_OPTS"
    case DHCP_HOSTNAME => "DHCP_HOSTNAME"
    case DHCP_CLASSID => "DHCP_CLASSID"
    case MTU => "MTU"
    case NETWORKING => "NETWORKING"
    case NETWORKING_IPV6 => "NETWORKING_IPV6"
    case HOSTNAME => "HOSTNAME"
    case GATEWAY => "GATEWAY"
  }

  /** A KEY=value line of a shell-style configuration file. */
  datatype Field = Field(key: Key, value: string)

  function FieldLines(fields: seq<Field>): (lines: seq<string>)
    ensures |lines| == |fields|
    ensures forall i :: 0 <= i < |fields| ==> lines[i] == KeyName(fields[i].key) + "=" + fields[i].value
  {
    seq(|fields|, i requires 0 <= i < |fields| => KeyName(fields[i].key) + "=" + fields[i].value)
  }

  /** The values written for a key, in file order. */
  function Values(fields: seq<Field>, key: Key): seq<string>
  {
    if fields == [] then []
    else (if fields[0].key == key then [fields[0].value] else []) + Values(fields[1..], key)
  }

  lemma {:induction false} ValuesAppend(a: seq<Field>, b: seq<Field>, key: Key)
    ensures Values(a + b, key) == Values(a, key) + Values(b, key)
  {
    if a == [] {
      assert a + b == b;
    } else {
      assert (a + b)[1..] == a[1..] + b;
      ValuesAppend(a[1..], b, key);
    }
  }

  /** A line that is written only when its condition holds. */
  function Opt(cond: bool, key: Key, value: string): seq<Field>
  {
    if cond then [Field(key, value)] else []
  }

  lemma ValuesOpt(cond: bool, k: Key, v: string, key: Key)
    ensures Values(Opt(cond, k, v), key) == if cond && key == k then [v] else []
  {
    if cond {
      assert Values(Opt(cond, k, v), key) == (if k == key then [v] else []) + Values([], key);
    }
  }

  predicate IsStatic(n: Network) { Lower(n.bootProto) == "static" }
  predicate IsDhcp(n: Network) { Lower(n.bootProto) == "dhcp" }

  /** ETHTOOL_OPTS gets "autoneg off " in front unless it already mentions autoneg. */
  function WithAutoneg(ethtool: string): (r: string)
    ensures Find(r, "autoneg") != -1
    ensures Find(ethtool, "autoneg") != -1 ==> r == ethtool
    ensures Find(ethtool, "autoneg") == -1 ==> r == "autoneg off " + ethtool
  {
    if Find(ethtool, "autoneg") == -1 then
      OccursInMiddle("", "autoneg", " off " + ethtool);
      assert "" + "autoneg" + (" off " + ethtool) == "autoneg off " + ethtool;
      "autoneg off " + ethtool
    else ethtool
  }

  /** The keys of ifcfg-<device>, in the order write_ifcfg writes them. */
  const IfcfgKeys: seq<Key> := [DEVICE, BOOTPROTO, IPADDR, NETMASK, ONBOOT, ESSID, ETHTOOL_OPTS, DHCP_HOSTNAME, DHCP_CLASSID, MTU]

  predicate IsIfcfgKey(k: Key) { k in IfcfgKeys }

  predicate Distinct(keys: seq<Key>)
  {
    forall i, j :: 0 <= i < j < |keys| ==> keys[i] != keys[j]
  }

  /** How ONBOOT spells a flag. */
  function OnOff(b: bool): string
  {
    if b then "on" else "off"
  }

  /** The line write_ifcfg writes for one key, if any, under the condition it tests. */
  function IfcfgLine(n: Network, k: Key): (r: seq<Field>)
    ensures |r| <= 1 && forall f :: f in r ==> f.key == k
  {
    match k
    case DEVICE => Opt(true, DEVICE, n.device)
    case BOOTPROTO => Opt(true, BOOTPROTO, n.bootProto)
    case IPADDR => Opt(IsStatic(n) && n.ip != "", IPADDR, n.ip)
    case NETMASK => Opt(IsStatic(n) && n.netmask != "", NETMASK, n.netmask)
    case ONBOOT => Opt(true, ONBOOT, OnOff(n.onboot))
    case ESSID => Opt(n.essid != "", ESSID, n.essid)
    case ETHTOOL_OPTS => Opt(n.ethtool != "", ETHTOOL_OPTS, WithAutoneg(n.ethtool))
    case DHCP_HOSTNAME => Opt(IsDhcp(n) && n.hostname != "", DHCP_HOSTNAME, n.hostname)
    case DHCP_CLASSID => Opt(IsDhcp(n) && n.dhcpclass != "", DHCP_CLASSID, n.dhcpclass)
    case MTU => Opt(n.mtu != "", MTU, n.mtu)
    case _ => []
  }

  /** The line-per-key function of one interface. */
  function IfcfgLineOf(n: Network): Key -> seq<Field>
  {
    k => IfcfgLine(n, k)
  }

  /** The lines `line` gives for `keys`, in that order. */
  function LinesOf(line: Key -> seq<Field>, keys: seq<Key>): seq<Field>
  {
    if keys == [] then [] else line(keys[0]) + LinesOf(line, keys[1..])
  }

  /** write_ifcfg: the fields of ifcfg-<device>, in the order they are written. */
  function IfcfgFields(n: Network): seq<Field>
  {
    LinesOf(IfcfgLineOf(n), IfcfgKeys)
  }

  /** A line whose fields all carry key `k` holds no value of any other key. */
  lemma {:induction false} LineValues(line: seq<Field>, k: Key, key: Key)
    requires forall f :: f in line ==> f.key == k
    ensures Values(line, key) == if k == key then Values(line, k) else []
  {
    if line != [] {
      assert line[0] in line;
      assert forall f :: f in line[1..] ==> f in line;
      LineValues(line[1..], k, key);
    }
  }

  /** Over distinct keys, a key's values are those of its own line, if it is one of them. */
  lemma {:induction false} ValuesOfLines(line: Key -> seq<Field>, keys: seq<Key>, key: Key)
    requires Distinct(keys)
    requires forall k, f :: f in line(k) ==> f.key == k
    ensures Values(LinesOf(line, keys), key) == if key in keys then Values(line(key), key) else []
  {
    if keys != [] {
      var k, rest := keys[0], LinesOf(line, keys[1..]);
      ValuesAppend(line(k), rest, key);
      LineValues(line(k), k, key);
      assert Distinct(keys[1..]) by {
        forall i, j | 0 <= i < j < |keys[1..]|
          ensures keys[1..][i] != keys[1..][j]
        {
          assert keys[1..][i] == keys[i + 1] && keys[1..][j] == keys[j + 1];
        }
      }
      ValuesOfLines(line, keys[1..], key);
      assert keys == [k] + keys[1..];
      if k == key {
        assert key !in keys[1..] by {
          forall j | 0 <= j < |keys[1..]|
            ensures keys[1..][j] != key
          {
            assert keys[1..][j] == keys[j + 1];
          }
        }
      }
    }
  }

  /** No key of ifcfg-<device> is written twice. */
  lemma IfcfgKeysDistinct()
    ensures Distinct(IfcfgKeys)
  {
  }

  /** In ifcfg-<device>, a key's values are those of the one line written for it. */
  lemma IfcfgKeyValues(n: Network, key: Key)
    ensures Values(IfcfgFields(n), key) == if IsIfcfgKey(key) then Values(IfcfgLine(n, key), key) else []
  {
    IfcfgKeysDistinct();
    ValuesOfLines(IfcfgLineOf(n), IfcfgKeys, key);
  }

  /** What ifcfg-<device> holds for each key: one value for a line always written, one value
      or none for a line written under a condition, and nothing for a key of another file. */
  lemma IfcfgValueOf(n: Network, k: Key)
    ensures Values(IfcfgFields(n), k) == match k
      case DEVICE => [n.device]
      case BOOTPROTO => [n.bootProto]
      case IPADDR => if IsStatic(n) && n.ip != "" then [n.ip] else []
      case NETMASK => if IsStatic(n) && n.netmask != "" then [n.netmask] else []
      case ONBOOT => [OnOff(n.onboot)]
      case ESSID => if n.essid != "" then [n.essid] else []
      case ETHTOOL_OPTS => if n.ethtool != "" then [WithAutoneg(n.ethtool)] else []
      case DHCP_HOSTNAME => if IsDhcp(n) && n.hostname != "" then [n.hostname] else []
      case DHCP_CLASSID => if IsDhcp(n) && n.dhcpclass != "" then [n.dhcpclass] else []
      case MTU => if n.mtu != "" then [n.mtu] else []
      case _ => []
  {
    IfcfgKeyValues(n, k);
    match k
    case DEVICE => ValuesOpt(true, DEVICE, n.device, DEVICE);
    case BOOTPROTO => ValuesOpt(true, BOOTPROTO, n.bootProto, BOOTPROTO);
    case IPADDR => ValuesOpt(IsStatic(n) && n.ip != "", IPADDR, n.ip, IPADDR);
    case NETMASK => ValuesOpt(IsStatic(n) && n.netmask != "", NETMASK, n.netmask, NETMASK);
    case ONBOOT => ValuesOpt(true, ONBOOT, OnOff(n.onboot), ONBOOT);
    case ESSID => ValuesOpt(n.essid != "", ESSID, n.essid, ESSID);
    case ETHTOOL_OPTS => ValuesOpt(n.ethtool != "", ETHTOOL_OPTS, WithAutoneg(n.ethtool), ETHTOOL_OPTS);
    case DHCP_HOSTNAME => ValuesOpt(IsDhcp(n) && n.hostname != "", DHCP_HOSTNAME, n.hostname, DHCP_HOSTNAME);
    case DHCP_CLASSID => ValuesOpt(IsDhcp(n) && n.dhcpclass != "", DHCP_CLASSID, n.dhcpclass, DHCP_CLASSID);
    case MTU => ValuesOpt(n.mtu != "", MTU, n.mtu, MTU);
    case _ =>
  }

  /** DEVICE, BOOTPROTO and ONBOOT are written once each, whatever the line says. */
  lemma IfcfgFixedValues(n: Network)
    ensures Values(IfcfgFields(n), DEVICE) == [n.device]
    ensures Values(IfcfgFields(n), BOOTPROTO) == [n.bootProto]
    ensures Values(IfcfgFields(n), ONBOOT) == [if n.onboot then "on" else "off"]
  {
    IfcfgValueOf(n, DEVICE);
    IfcfgValueOf(n, BOOTPROTO);
    IfcfgValueOf(n, ONBOOT);
  }

  /** IPADDR and NETMASK are written once each, and only for a static interface that sets them. */
  lemma IfcfgStaticValues(n: Network)
    ensures Values(IfcfgFields(n), IPADDR) == if IsStatic(n) && n.ip != "" then [n.ip] else []
    ensures Values(IfcfgFields(n), NETMASK) == if IsStatic(n) && n.netmask != "" then [n.netmask] else []
  {
    IfcfgValueOf(n, IPADDR);
    IfcfgValueOf(n, NETMASK);
  }

  /** DHCP_HOSTNAME and DHCP_CLASSID are written once each, and only for a DHCP interface that sets them. */
  lemma IfcfgDhcpValues(n: Network)
    ensures Values(IfcfgFields(n), DHCP_HOSTNAME) == if IsDhcp(n) && n.hostname != "" then [n.hostname] else []
    ensures Values(IfcfgFields(n), DHCP_CLASSID) == if IsDhcp(n) && n.dhcpclass != "" then [n.dhcpclass] else []
  {
    IfcfgValueOf(n, DHCP_HOSTNAME);
    IfcfgValueOf(n, DHCP_CLASSID);
  }

  /** ESSID, ETHTOOL_OPTS and MTU are written once each when set; ETHTOOL_OPTS always names autoneg. */
  lemma IfcfgOptionalValues(n: Network)
    ensures Values(IfcfgFields(n), ESSID) == if n.essid != "" then [n.essid] else []
    ensures Values(IfcfgFields(n), ETHTOOL_OPTS) == if n.ethtool != "" then [WithAutoneg(n.ethtool)] else []
    ensures Values(IfcfgFields(n), MTU) == if n.mtu != "" then [n.mtu] else []
  {
    IfcfgValueOf(n, ESSID);
    IfcfgValueOf(n, ETHTOOL_OPTS);
    IfcfgValueOf(n, MTU);
  }

  /** ifcfg-<device> holds none of the keys of /etc/sysconfig/network. */
  lemma IfcfgOnlyOwnKeys(n: Network)
    ensures forall k :: !IsIfcfgKey(k) ==> Values(IfcfgFields(n), k) == []
  {
    forall k | !IsIfcfgKey(k)
      ensures Values(IfcfgFields(n), k) == []
    {
      IfcfgKeyValues(n, k);
    }
  }

  /** A static interface never gets the DHCP fields, and a DHCP one never the address fields. */
  lemma StaticAndDhcpExclusive(n: Network)
    ensures Values(IfcfgFields(n), IPADDR) == [] || Values(IfcfgFields(n), DHCP_HOSTNAME) == []
    ensures Values(IfcfgFields(n), NETMASK) == [] || Values(IfcfgFields(n), DHCP_CLASSID) == []
  {
    IfcfgStaticValues(n);
    IfcfgDhcpValues(n);
  }

  /** write_sysconfig: the fields of /etc/sysconfig/network. */
  function SysconfigFields(useipv6: bool, hostname: string, gateway: string): (r: seq<Field>)
    ensures |r| >= 3 && r[0] == Field(NETWORKING, "yes")
  {
    [Field(NETWORKING, "yes"), Field(NETWORKING_IPV6, if useipv6 then "yes" else "no"),
     Field(HOSTNAME, if hostname != "" then hostname else "localhost.localdomain")]
    + Opt(gateway != "", GATEWAY, gateway)
  }

  /** Each key of /etc/sysconfig/network is written once; GATEWAY only when there is one. */
  lemma SysconfigValues(useipv6: bool, hostname: string, gateway: string)
    ensures Values(SysconfigFields(useipv6, hostname, gateway), NETWORKING) == ["yes"]
    ensures Values(SysconfigFields(useipv6, hostname, gateway), NETWORKING_IPV6) == [if useipv6 then "yes" else "no"]
    ensures Values(SysconfigFields(useipv6, hostname, gateway), HOSTNAME) ==
              [if hostname != "" then hostname else "localhost.localdomain"]
    ensures Values(SysconfigFields(useipv6, hostname, gateway), GATEWAY) == if gateway != "" then [gateway] else []
  {
    var h := if hostname != "" then hostname else "localhost.localdomain";
    var v6 := if useipv6 then "yes" else "no";
    assert SysconfigFields(useipv6, hostname, gateway)
        == [Field(NETWORKING, "yes"), Field(NETWORKING_IPV6, v6), Field(HOSTNAME, h)] + Opt(gateway != "", GATEWAY, gateway);
    var fields := SysconfigFields(useipv6, hostname, gateway);
    assert Values(fields, NETWORKING) == ["yes"] by {
      SysconfigShapeValues("yes", v6, h, gateway != "", gateway, NETWORKING);
    }
    assert Values(fields, NETWORKING_IPV6) == [v6] by {
      SysconfigShapeValues("yes", v6, h, gateway != "", gateway, NETWORKING_IPV6);
    }
    assert Values(fields, HOSTNAME) == [h] by {
      SysconfigShapeValues("yes", v6, h, gateway != "", gateway, HOSTNAME);
    }
    assert Values(fields, GATEWAY) == if gateway != "" then [gateway] else [] by {
      SysconfigShapeValues("yes", v6, h, gateway != "", gateway, GATEWAY);
    }
  }

  /** A key's values in a file shaped like /etc/sysconfig/network, whatever the values. */
  lemma SysconfigShapeValues(v1: string, v2: string, v3: string, c: bool, v4: string, key: Key)
    ensures Values([Field(NETWORKING, v1), Field(NETWORKING_IPV6, v2), Field(HOSTNAME, v3)] + Opt(c, GATEWAY, v4), key)
      == (if key == NETWORKING then [v1] else []) + (if key == NETWORKING_IPV6 then [v2] else [])
         + (if key == HOSTNAME then [v3] else []) + (if c && key == GATEWAY then [v4] else [])
  {
    var a, b, d := Opt(true, NETWORKING, v1), Opt(true, NETWORKING_IPV6, v2), Opt(true, HOSTNAME, v3);
    var e := Opt(c, GATEWAY, v4);
    assert [Field(NETWORKING, v1), Field(NETWORKING_IPV6, v2), Field(HOSTNAME, v3)] + e == a + b + d + e;
    ValuesAppend(a, b, key);
    ValuesAppend(a + b, d, key);
    ValuesAppend(a + b + d, e, key);
    ValuesOpt(true, NETWORKING, v1, key);
    ValuesOpt(true, NETWORKING_IPV6, v2, key);
    ValuesOpt(true, HOSTNAME, v3, key);
    ValuesOpt(c, GATEWAY, v4, key);
  }

  const LocalhostNames: string := "localhost.localdomain localhost"

  /** The names write_hosts puts before the localhost names. */
  function LocalNames(hostname: string): string
  {
    if hostname != "" && hostname != "localhost.localdomain" then
      var l := Split(hostname, '.');
      hostname + " " + (if |l| > 1 then l[0] + " " else "")
    else ""
  }

  /** write_hosts: the two lines of /etc/hosts. */
  function HostsLines(hostname: string): (lines: seq<string>)
    ensures |lines| == 2 && lines[1] == "::1\t\tlocalhost6.localdomain6 localhost6"
    ensures lines[0] == "127.0.0.1\t\t" + LocalNames(hostname) + LocalhostNames
    ensures StartsWith(lines[0], "127.0.0.1\t\t") && EndsWith(lines[0], LocalhostNames)
  {
    var line := "127.0.0.1\t\t" + LocalNames(hostname) + LocalhostNames;
    assert line[..|"127.0.0.1\t\t"|] == "127.0.0.1\t\t";
    assert line[|line| - |LocalhostNames|..] == LocalhostNames;
    [line, "::1\t\tlocalhost6.localdomain6 localhost6"]
  }

  /**
   * The loopback line names the host, then its short name when it has a
   * domain, then the localhost names; an unset or default host name adds
   * nothing.
   */
  lemma HostsLocalNames(hostname: string)
    ensures hostname == "" || hostname == "localhost.localdomain" ==> LocalNames(hostname) == ""
    ensures hostname != "" && hostname != "localhost.localdomain" && '.' !in hostname ==>
              LocalNames(hostname) == hostname + " "
    ensures hostname != "" && hostname != "localhost.localdomain" && '.' in hostname ==>
              exists short :: LocalNames(hostname) == hostname + " " + short + " "
                && |short| < |hostname| && hostname[..|short| + 1] == short + "." && '.' !in short
  {
    if hostname != "" && hostname != "localhost.localdomain" {
      var l := Split(hostname, '.');
      SplitFirstPiece(hostname, '.');
      assert LocalNames(hostname) == hostname + " " + (if |l| > 1 then l[0] + " " else "");
      if '.' in hostname {
        var short := l[0];
        assert hostname[..|short| + 1] == short + ".";
        assert LocalNames(hostname) == hostname + " " + short + " ";
      }
    }
  }

  /** The entries of `s` that are not empty, in order. */
  function NonEmpty(s: seq<string>): (r: seq<string>)
    ensures |r| <= |s|
    ensures forall x :: x in r <==> x in s && x != ""
  {
    if s == [] then []
    else if s[0] != "" then [s[0]] + NonEmpty(s[1..])
    else NonEmpty(s[1..])
  }

  /** The nameserver lines of resolv.conf: one per non-empty entry, in order. */
  function NameserverLines(nameservers: seq<string>): (lines: seq<string>)
    ensures |lines| == |NonEmpty(nameservers)|
    ensures forall i :: 0 <= i < |lines| ==> lines[i] == "nameserver " + NonEmpty(nameservers)[i]
    ensures |lines| <= |nameservers|
    ensures forall l :: l in lines ==> exists ns :: ns in nameservers && ns != "" && l == "nameserver " + ns
    ensures forall ns :: ns in nameservers && ns != "" ==> "nameserver " + ns in lines
  {
    var kept := NonEmpty(nameservers);
    var lines := seq(|kept|, i requires 0 <= i < |kept| => "nameserver " + kept[i]);
    assert forall ns :: ns in kept ==> "nameserver " + ns in lines by {
      forall ns | ns in kept ensures "nameserver " + ns in lines {
        var i :| 0 <= i < |kept| && kept[i] == ns;
        assert lines[i] == "nameserver " + ns;
      }
    }
    lines
  }


  /** write_resolv: nothing is written under nodns or without nameservers. */
  function ResolvLines(nodns: bool, nameservers: Option<seq<string>>): (r: Option<seq<string>>)
    ensures r.None? <==> nodns || nameservers.None? || nameservers.value == []
    ensures r.Some? ==> r.value == NameserverLines(nameservers.value)
  {
    if nodns || nameservers.None? || nameservers.value == [] then None
    else Some(NameserverLines(nameservers.value))
  }

  // ---------------------------------------------------------------------
  // apply

  /** The files apply writes; each lies at FilePath below the install root. */
  datatype ConfigFile = Ifcfg(device: string) | WepKeys(device: string) | SysconfigNetwork | EtcHosts | ResolvConf

  /** What is written to a file; Content gives its lines. */
  datatype Written =
    | IfcfgOf(network: Network)
    | WepKeyOf(wepkey: string)
    | SysconfigOf(useipv6: bool, hostname: string, gateway: string)
    | HostsOf(hostname: string)
    | ResolvOf(lines: seq<string>)

  type Files = map<ConfigFile, Written>

  function FilePath(instroot: string, f: ConfigFile): string
  {
    match f
    case Ifcfg(device) => instroot + "/etc/sysconfig/network-scripts/ifcfg-" + device
    case WepKeys(device) => instroot + "/etc/sysconfig/network-scripts/keys-" + device
    case SysconfigNetwork => instroot + "/etc/sysconfig/network"
    case EtcHosts => instroot + "/etc/hosts"
    case ResolvConf => instroot + "/etc/resolv.conf"
  }

  /** The KickstartError message apply raises for a network line, if any. */
  function NetworkProblem(n: Network): (r: Option<string>)
    ensures r.None? <==> n.device != "" && !(n.onboot && !IsDhcp(n) && (n.ip == "" || n.netmask == ""))
  {
    if n.device == "" then
      Some("No --device specified with network kickstart command")
    else if n.onboot && Lower(n.bootProto) != "dhcp" && !(n.ip != "" && n.netmask != "") then
      Some("No IP address and/or netmask specified with static configuration for '" + n.device + "'")
    else None
  }

  /** The lines of a written file. */
  function Content(w: Written): seq<string>
  {
    match w
    case IfcfgOf(n) => FieldLines(IfcfgFields(n))
    case WepKeyOf(key) => ["KEY=" + key]
    case SysconfigOf(useipv6, hostname, gateway) => FieldLines(SysconfigFields(useipv6, hostname, gateway))
    case HostsOf(hostname) => HostsLines(hostname)
    case ResolvOf(lines) => lines
  }

  /** write_ifcfg followed by write_wepkey (which writes only when there is a key). */
  function WriteNetworkFiles(files: Files, n: Network): Files
  {
    var f := files[Ifcfg(n.device) := IfcfgOf(n)];
    if n.wepkey == "" then f else f[WepKeys(n.device) := WepKeyOf(n.wepkey)]
  }

  /** The files the loop of apply has written after the given network lines. */
  function FilesOfNetworks(nets: seq<Network>): Files
  {
    if nets == [] then map[] else WriteNetworkFiles(FilesOfNetworks(nets[..|nets| - 1]), nets[|nets| - 1])
  }

  /** The settings apply carries from one network line to the next. */
  datatype Carried = Carried(useipv6: bool, nodns: bool, hostname: string, gateway: string,
                             nameservers: Option<seq<string>>)

  const Start: Carried := Carried(false, false, "", "", None)

  /** The settings one accepted network line gives. */
  function Absorb(c: Carried, n: Network): Carried
  {
    Carried(c.useipv6 || n.ipv6 != "",
            c.nodns || n.nodns,
            if n.hostname != "" then n.hostname else c.hostname,
            if n.gateway != "" then n.gateway else c.gateway,
            if n.nameserver != "" then Some(Split(n.nameserver, ',')) else c.nameservers)
  }

  /** The settings the loop of apply carries after the given network lines. */
  function CarryOver(nets: seq<Network>): Carried
  {
    if nets == [] then Start else Absorb(CarryOver(nets[..|nets| - 1]), nets[|nets| - 1])
  }

  /** The settings apply carries from line to line: the last non-empty one wins. */
  datatype Setting = Hostname | Gateway | Nameserver

  function SettingOf(n: Network, s: Setting): string
  {
    match s
    case Hostname => n.hostname
    case Gateway => n.gateway
    case Nameserver => n.nameserver
  }

  function FinalSetting(nets: seq<Network>, s: Setting): string
  {
    if nets == [] then ""
    else if SettingOf(nets[|nets| - 1], s) != "" then SettingOf(nets[|nets| - 1], s)
    else FinalSetting(nets[..|nets| - 1], s)
  }

  /** The final setting is that of the last line setting it, or "" when none does. */
  lemma {:induction false} FinalSettingIsLast(nets: seq<Network>, s: Setting)
    ensures FinalSetting(nets, s) == "" <==> forall i :: 0 <= i < |nets| ==> SettingOf(nets[i], s) == ""
    ensures FinalSetting(nets, s) != "" ==>
              exists j :: 0 <= j < |nets| && SettingOf(nets[j], s) == FinalSetting(nets, s)
                && forall k :: j < k < |nets| ==> SettingOf(nets[k], s) == ""
  {
    if nets != [] {
      var last := |nets| - 1;
      var init := nets[..last];
      FinalSettingIsLast(init, s);
      assert forall i :: 0 <= i < |init| ==> init[i] == nets[i];
      if SettingOf(nets[last], s) != "" {
        assert FinalSetting(nets, s) == SettingOf(nets[last], s);
      } else {
        assert FinalSetting(nets, s) == FinalSetting(init, s);
        if FinalSetting(init, s) != "" {
          var j :| 0 <= j < |init| && SettingOf(init[j], s) == FinalSetting(init, s)
                   && forall k :: j < k < |init| ==> SettingOf(init[k], s) == "";
          assert SettingOf(nets[j], s) == FinalSetting(nets, s);
          forall k | j < k < |nets| ensures SettingOf(nets[k], s) == "" {
            if k < last {
              assert SettingOf(init[k], s) == "";
            }
          }
        } else {
          forall i | 0 <= i < |nets| ensures SettingOf(nets[i], s) == "" {
            if i < last {
              assert SettingOf(init[i], s) == "";
            }
          }
        }
      }
    }
  }

  predicate AnyIpv6(nets: seq<Network>) { exists i :: 0 <= i < |nets| && nets[i].ipv6 != "" }
  predicate AnyNodns(nets: seq<Network>) { exists i :: 0 <= i < |nets| && nets[i].nodns }

  /** The nameservers list of apply: the last non-empty nameserver text split on ','. */
  function Nameservers(nets: seq<Network>): Option<seq<string>>
  {
    var ns := FinalSetting(nets, Nameserver);
    if ns == "" then None else Some(Split(ns, ','))
  }

  /** Adding a line to the end: the ipv6 flag is on when it was or when the new line asks for it. */
  lemma AnyIpv6Snoc(init: seq<Network>, last: Network)
    ensures AnyIpv6(init + [last]) == (AnyIpv6(init) || last.ipv6 != "")
  {
    var nets := init + [last];
    if AnyIpv6(nets) && last.ipv6 == "" {
      var i :| 0 <= i < |nets| && nets[i].ipv6 != "";
      assert i < |init| && init[i] == nets[i];
    }
    if AnyIpv6(init) {
      var i :| 0 <= i < |init| && init[i].ipv6 != "";
      assert nets[i] == init[i];
    }
    if last.ipv6 != "" {
      assert nets[|init|] == last;
    }
  }

  /** Adding a line to the end: the nodns flag is on when it was or when the new line asks for it. */
  lemma AnyNodnsSnoc(init: seq<Network>, last: Network)
    ensures AnyNodns(init + [last]) == (AnyNodns(init) || last.nodns)
  {
    var nets := init + [last];
    if AnyNodns(nets) && !last.nodns {
      var i :| 0 <= i < |nets| && nets[i].nodns;
      assert i < |init| && init[i] == nets[i];
    }
    if AnyNodns(init) {
      var i :| 0 <= i < |init| && init[i].nodns;
      assert nets[i] == init[i];
    }
    if last.nodns {
      assert nets[|init|] == last;
    }
  }

  /** The flags apply carries are on once any line turns them on. */
  lemma {:induction false} CarriedFlags(nets: seq<Network>)
    ensures CarryOver(nets).useipv6 == AnyIpv6(nets)
    ensures CarryOver(nets).nodns == AnyNodns(nets)
  {
    if nets != [] {
      var init := nets[..|nets| - 1];
      var last := nets[|nets| - 1];
      CarriedFlags(init);
      assert nets == init + [last];
      AnyIpv6Snoc(init, last);
      AnyNodnsSnoc(init, last);
    }
  }

  /** The host name, gateway and nameservers apply carries are those of the last line giving them. */
  lemma {:induction false} CarriedSettings(nets: seq<Network>)
    ensures CarryOver(nets).hostname == FinalSetting(nets, Hostname)
    ensures CarryOver(nets).gateway == FinalSetting(nets, Gateway)
    ensures CarryOver(nets).nameservers == Nameservers(nets)
  {
    if nets != [] {
      CarriedSettings(nets[..|nets| - 1]);
    }
  }

  /** An interface file exists for exactly the devices named, holding the last line for that device. */
  lemma {:induction false} CarriedInterfaceFiles(nets: seq<Network>, d: string)
    ensures Ifcfg(d) in FilesOfNetworks(nets) <==> exists i :: 0 <= i < |nets| && nets[i].device == d
    ensures Ifcfg(d) in FilesOfNetworks(nets) ==>
              exists i :: 0 <= i < |nets| && nets[i].device == d
                && FilesOfNetworks(nets)[Ifcfg(d)] == IfcfgOf(nets[i])
                && forall k :: i < k < |nets| ==> nets[k].device != d
    ensures SysconfigNetwork !in FilesOfNetworks(nets) && EtcHosts !in FilesOfNetworks(nets)
              && ResolvConf !in FilesOfNetworks(nets)
  {
    if nets != [] {
      var init := nets[..|nets| - 1];
      var last := nets[|nets| - 1];
      var before := FilesOfNetworks(init);
      CarriedInterfaceFiles(init, d);
      WriteNetworkFilesStep(before, last, d);
      assert FilesOfNetworks(nets) == WriteNetworkFiles(before, last);
      if last.device != d {
        if Ifcfg(d) in before {
          var i :| 0 <= i < |init| && init[i].device == d
                   && before[Ifcfg(d)] == IfcfgOf(init[i])
                   && forall k :: i < k < |init| ==> init[k].device != d;
          assert nets[i] == init[i];
          forall k | i < k < |nets| ensures nets[k].device != d {
            if k < |init| {
              assert nets[k] == init[k];
            }
          }
        } else {
          forall i | 0 <= i < |nets| ensures nets[i].device != d {
            if i < |init| {
              assert nets[i] == init[i];
            }
          }
        }
      }
    }
  }

  /** One network line writes its own interface file and, with a key, its key file, and no other. */
  lemma WriteNetworkFilesStep(before: Files, n: Network, d: string)
    ensures Ifcfg(d) in WriteNetworkFiles(before, n) <==> n.device == d || Ifcfg(d) in before
    ensures n.device == d ==> WriteNetworkFiles(before, n)[Ifcfg(d)] == IfcfgOf(n)
    ensures n.device != d && Ifcfg(d) in before ==> WriteNetworkFiles(before, n)[Ifcfg(d)] == before[Ifcfg(d)]
    ensures SysconfigNetwork in WriteNetworkFiles(before, n) <==> SysconfigNetwork in before
    ensures EtcHosts in WriteNetworkFiles(before, n) <==> EtcHosts in before
    ensures ResolvConf in WriteNetworkFiles(before, n) <==> ResolvConf in before
  {
  }

  /** What apply writes once every network line passed: sysconfig, hosts, then resolv.conf. */
  function WriteSummary(files: Files, c: Carried): Files
  {
    var f := files[SysconfigNetwork := SysconfigOf(c.useipv6, c.hostname, c.gateway)][EtcHosts := HostsOf(c.hostname)];
    var resolv := ResolvLines(c.nodns, c.nameservers);
    if resolv.Some? then f[ResolvConf := ResolvOf(resolv.value)] else f
  }

  /**
   * After all lines: /etc/sysconfig/network and /etc/hosts are written from the
   * final settings, and resolv.conf only when ResolvLines gives it lines.
   */
  lemma SummaryFiles(nets: seq<Network>)
    ensures WriteSummary(FilesOfNetworks(nets), CarryOver(nets))[SysconfigNetwork]
            == SysconfigOf(AnyIpv6(nets), FinalSetting(nets, Hostname), FinalSetting(nets, Gateway))
    ensures WriteSummary(FilesOfNetworks(nets), CarryOver(nets))[EtcHosts] == HostsOf(FinalSetting(nets, Hostname))
    ensures ResolvConf in WriteSummary(FilesOfNetworks(nets), CarryOver(nets)) <==> ResolvLines(AnyNodns(nets), Nameservers(nets)).Some?
    ensures ResolvConf in WriteSummary(FilesOfNetworks(nets), CarryOver(nets)) ==>
              WriteSummary(FilesOfNetworks(nets), CarryOver(nets))[ResolvConf]
              == ResolvOf(ResolvLines(AnyNodns(nets), Nameservers(nets)).value)
  {
    CarriedFlags(nets);
    CarriedSettings(nets);
    CarriedInterfaceFiles(nets, "");
  }

  /** The outcome of apply: the files written, and the error raised if any. */
  datatype ApplyResult =
    | Applied(files: Files)
    | ApplyFailed(message: string, files: Files)

  /** The index of the first line from `from` on that apply rejects, or |nets| when none is. */
  function FirstProblem(nets: seq<Network>, from: nat): (j: nat)
    requires from <= |nets|
    ensures from <= j <= |nets|
    decreases |nets| - from
  {
    if from == |nets| then |nets|
    else if NetworkProblem(nets[from]).Some? then from
    else FirstProblem(nets, from + 1)
  }

  /** FirstProblem finds the first rejected line: every line before it passes. */
  lemma {:induction false} FirstProblemIsFirst(nets: seq<Network>, from: nat)
    requires from <= |nets|
    ensures forall k :: from <= k < FirstProblem(nets, from) ==> NetworkProblem(nets[k]).None?
    ensures FirstProblem(nets, from) < |nets| ==> NetworkProblem(nets[FirstProblem(nets, from)]).Some?
    decreases |nets| - from
  {
    if from < |nets| && NetworkProblem(nets[from]).None? {
      FirstProblemIsFirst(nets, from + 1);
      var j := FirstProblem(nets, from + 1);
      assert FirstProblem(nets, from) == j;
      forall k | from <= k < j ensures NetworkProblem(nets[k]).None? {
        if k > from {
          assert from + 1 <= k < FirstProblem(nets, from + 1);
        }
      }
    }
  }

  lemma CarryStep(nets: seq<Network>, i: nat)
    requires i < |nets|
    ensures CarryOver(nets[..i + 1]) == Absorb(CarryOver(nets[..i]), nets[i])
    ensures FilesOfNetworks(nets[..i + 1]) == WriteNetworkFiles(FilesOfNetworks(nets[..i]), nets[i])
  {
    assert nets[..i + 1][..i] == nets[..i];
  }

  /**
   * apply: for each network line in order, check it and, only if it
   * passes, write its files and take its settings; raising stops the loop
   * with the files of the earlier lines already written. After the last
   * line, write the summary files from the carried settings.
   */
  method Apply(nets: seq<Network>) returns (r: ApplyResult)
    ensures r.Applied? <==> FirstProblem(nets, 0) == |nets|
    ensures r.ApplyFailed? ==>
              var j := FirstProblem(nets, 0);
              j < |nets| && NetworkProblem(nets[j]) == Some(r.message) && r.files == FilesOfNetworks(nets[..j])
    ensures r.Applied? ==> r.files == WriteSummary(FilesOfNetworks(nets), CarryOver(nets))
  {
    var files: Files := map[];
    var useipv6 := false;
    var nodns := false;
    var hostname := "";
    var gateway := "";
    var nameservers: Option<seq<string>> := None;
    var i := 0;
    while i < |nets|
      invariant 0 <= i <= |nets|
      invariant FirstProblem(nets, 0) == FirstProblem(nets, i)
      invariant files == FilesOfNetworks(nets[..i])
      invariant Carried(useipv6, nodns, hostname, gateway, nameservers) == CarryOver(nets[..i])
    {
      var network := nets[i];
      var problem := NetworkProblem(network);
      if problem.Some? {
        return ApplyFailed(problem.value, files);
      }
      CarryStep(nets, i);
      files := WriteNetworkFiles(files, network);
      if network.ipv6 != "" {
        useipv6 := true;
      }
      if network.nodns {
        nodns := true;
      }
      if network.hostname != "" {
        hostname := network.hostname;
      }
      if network.gateway != "" {
        gateway := network.gateway;
      }
      if network.nameserver != "" {
        nameservers := Some(Split(network.nameserver, ','));
      }
      i := i + 1;
    }
    assert nets[..i] == nets;
    files := files[SysconfigNetwork := SysconfigOf(useipv6, hostname, gateway)];
    files := files[EtcHosts := HostsOf(hostname)];
    var resolv := ResolvLines(nodns, nameservers);
    if resolv.Some? {
      files := files[ResolvConf := ResolvOf(resolv.value)];
    }
    return Applied(files);
  }
}
