/** Desired state: the memif masters the pods of a node declare. */
module Desired {
  import opened Wrappers
  import opened Vpp
  import opened Text
  import opened Paths
  import opened Dataplane
  import M = MemifApi
  import N = Networks

  // ----- Configuration

  datatype MemifConf = MemifConf(role: string, mode: string, rxQueues: nat, txQueues: nat, ringSize: nat, bufferSize: nat,
                                 secret: string, noZeroCopy: bool, useDma: bool, socketfile: string)

  datatype VhostConf = VhostConf(mode: string, socketfile: string)

  datatype BridgeConf = BridgeConf(bridgeName: string, bridgeId: int)

  datatype UserSpaceConf = UserSpaceConf(engine: string, ifType: string, netType: string, mtu: int, mac: string,
                                         memif: MemifConf, vhost: VhostConf, bridge: BridgeConf)

  datatype NetConf = NetConf(name: string, hostConf: UserSpaceConf, containerConf: UserSpaceConf)

  /** One interface of a pod as ADD records it in the pod's annotation. */
  datatype ConfigurationData = ConfigurationData(containerId: string, ifName: string, name: string, config: UserSpaceConf)

  /** A pod as one listing shows it: its namespace and name, the two annotations ("" when
      missing), and its shared-dir host path ("" when it has none). */
  datatype Pod = Pod(ns: string, name: string, networks: string, configData: string, sharedDir: string)

  /** The library calls whose workings do not matter here: encoding/json. */
  datatype Library = Library(refs: N.JsonReader, entries: string -> Option<seq<ConfigurationData>>,
                             netConf: string -> Option<NetConf>)

  /** How a NAD's config is found; None when it cannot be read. */
  type Lookup = (string, string) -> Option<string>

  // ----- Numbers

  /** Conversion of an int to uint32 drops the high bits. */
  function ToUint32(n: int): uint32 {
    (n % 0x1_0000_0000) as uint32
  }

  predicate AllDigits(s: string) {
    forall k :: 0 <= k < |s| ==> '0' <= s[k] <= '9'
  }

  function Digits(s: string): nat
    requires AllDigits(s)
  {
    if s == "" then 0 else 10 * Digits(s[..|s| - 1]) + (s[|s| - 1] as int - '0' as int)
  }

  /** strconv.ParseUint(s, 10, 32). */
  function ParseUint32(s: string): Option<uint32> {
    if s == "" || !AllDigits(s) then None
    else if Digits(s) >= 0x1_0000_0000 then None
    else Some(Digits(s) as uint32)
  }

  /** A numeric bridge name takes precedence over the bridge id; another name is an error. */
  function BridgeDomainId(b: BridgeConf): Option<uint32> {
    if b.bridgeName != "" then ParseUint32(b.bridgeName) else Some(ToUint32(b.bridgeId))
  }

  // ----- What numbers mean

  function Decimal(n: nat): (s: string)
    ensures s != ""
  {
    (if n < 10 then "" else Decimal(n / 10)) + [(n % 10 + '0' as int) as char]
  }

  predicate IsDigit(c: char) {
    '0' <= c <= '9'
  }

  lemma DigitsSnoc(s: string, c: char)
    requires AllDigits(s) && IsDigit(c)
    ensures AllDigits(s + [c]) && Digits(s + [c]) == 10 * Digits(s) + (c as int - '0' as int)
  {
    assert (s + [c])[..|s|] == s;
  }

  /** Reading a number in decimal gives it back. */
  lemma {:induction false} ReadDecimal(n: nat)
    ensures AllDigits(Decimal(n)) && Digits(Decimal(n)) == n
  {
    if n < 10 {
      DigitsSnoc("", (n + '0' as int) as char);
      assert "" + [(n + '0' as int) as char] == Decimal(n);
    } else {
      ReadDecimal(n / 10);
      DigitsSnoc(Decimal(n / 10), (n % 10 + '0' as int) as char);
      hide Digits;
    }
  }

  lemma {:induction false} LeadingZero(s: string)
    requires AllDigits(s)
    ensures AllDigits("0" + s) && Digits("0" + s) == Digits(s)
  {
    var z := "0" + s;
    if s == "" {
      assert z == "0" && z[..0] == "";
    } else {
      LeadingZero(s[..|s| - 1]);
      assert z[..|z| - 1] == "0" + s[..|s| - 1];
    }
  }

  /** A numeric bridge name stands for its number, leading zeros or not, if that fits, and the
      bridge id is not looked at; any other name is an error; without a name the id counts,
      modulo 2^32. */
  lemma NamedDomain(name: string, id: int, n: nat)
    ensures BridgeDomainId(BridgeConf("", id)).value as int == id % 0x1_0000_0000
    ensures name != "" && !AllDigits(name) ==> BridgeDomainId(BridgeConf(name, id)) == None
    ensures BridgeDomainId(BridgeConf(Decimal(n), id)) == if n < 0x1_0000_0000 then Some(n as uint32) else None
    ensures name != "" && AllDigits(name) ==> BridgeDomainId(BridgeConf("0" + name, id)) == BridgeDomainId(BridgeConf(name, id))
  {
    ReadDecimal(n);
    if AllDigits(name) {
      LeadingZero(name);
    }
  }

  lemma DecimalSnoc(n: nat, c: char)
    requires IsDigit(c)
    ensures n > 0 ==> Decimal(10 * n + (c as int - '0' as int)) == Decimal(n) + [c]
    ensures Decimal(c as int - '0' as int) == [c]
  {
    var d := c as int - '0' as int;
    assert (10 * n + d) / 10 == n && (10 * n + d) % 10 == d;
  }

  lemma DecimalStep(s: string, c: char)
    requires AllDigits(s) && IsDigit(c) && Digits(s) > 0 && Decimal(Digits(s)) == s
    ensures AllDigits(s + [c]) && Decimal(Digits(s + [c])) == s + [c]
  {
    hide Digits, Decimal, AllDigits;
    DigitsSnoc(s, c);
    DecimalSnoc(Digits(s), c);
  }

  lemma OneDigit(c: char)
    requires IsDigit(c)
    ensures AllDigits([c]) && Decimal(Digits([c])) == [c]
  {
    assert [c][..0] == "";
    DecimalSnoc(0, c);
    hide Decimal;
  }

  /** Every numeric name without leading zeros is the decimal form of some number. */
  lemma {:induction false} DecimalOf(s: string)
    requires s != "" && AllDigits(s) && (|s| > 1 ==> s[0] != '0')
    ensures Decimal(Digits(s)) == s
  {
    var n := |s| - 1;
    hide Digits, Decimal;
    if n == 0 {
      OneDigit(s[0]);
      assert s == [s[0]];
    } else {
      NotZero(s[..n]);
      DecimalOf(s[..n]);
      DecimalStep(s[..n], s[n]);
      assert s == s[..n] + [s[n]];
    }
  }

  lemma {:induction false} NotZero(s: string)
    requires s != "" && AllDigits(s) && s[0] != '0'
    ensures Digits(s) > 0
  {
    if |s| > 1 {
      NotZero(s[..|s| - 1]);
    }
  }

  // ----- One interface

  datatype Verdict = Failed | NotOurs | Wanted(m: Memif)

  function DesiredMemif(e: ConfigurationData, host: UserSpaceConf, sharedDir: string): Verdict {
    if !EqualFold(host.ifType, "memif") then NotOurs
    else if host.engine != "" && !EqualFold(host.engine, "vpp") then NotOurs
    else
      var bd := if EqualFold(host.netType, "bridge") then BridgeDomainId(host.bridge) else Some(0);
      if bd.None? then Failed
      else
        var socket := JoinPath(sharedDir, M.SocketFileName(host.memif.socketfile, e.containerId, e.ifName));
        var mode := if host.memif.mode == "" then e.config.memif.mode else host.memif.mode;
        var tuning := Tuning(rxQueues := host.memif.rxQueues, txQueues := host.memif.txQueues,
                             ringSize := host.memif.ringSize, bufferSize := host.memif.bufferSize,
                             secret := host.memif.secret, noZeroCopy := host.memif.noZeroCopy,
                             useDma := host.memif.useDma, hwAddr := host.mac);
        Wanted(Memif(socket, 0, bd.value, mode, 0, tuning, ToUint32(host.mtu)))
  }

  /** The row has the queues, sizes, secret, flags and MAC of the configuration, and VPP's defaults
      of one queue, 1024 descriptors and 2048 bytes where it gives none. */
  ghost predicate TunedAs(row: Iface, host: UserSpaceConf) {
    var c := host.memif;
    && row.MemifRow?
    && row.tuning.rxQueues == (if c.rxQueues == 0 then 1 else c.rxQueues)
    && row.tuning.txQueues == (if c.txQueues == 0 then 1 else c.txQueues)
    && row.tuning.ringSize == (if c.ringSize == 0 then 1024 else c.ringSize)
    && row.tuning.bufferSize == (if c.bufferSize == 0 then 2048 else c.bufferSize)
    && row.tuning.secret == c.secret && row.tuning.hwAddr == host.mac
    && row.tuning.noZeroCopy == c.noZeroCopy && row.tuning.useDma == c.useDma
  }

  /** What the restore makes for an entry of a pod: tuned as the host's configuration says. */
  lemma RestoredTuned(e: ConfigurationData, host: UserSpaceConf, sharedDir: string, t: Tables, x: nat)
    requires var v := DesiredMemif(e, host, sharedDir); v.Wanted? && Configured(t, x, RestoreRequest(v.m))
    ensures TunedAs(t.ifaces[x], host) && t.ifaces[x].role == Master && t.ifaces[x].up
    ensures t.ifaces[x].mtu as int == host.mtu % 0x1_0000_0000
  {
    hide EqualFold, BridgeDomainId, M.SocketFileName, JoinPath, ParseMode;
  }

  // ----- One pod

  /** The verdicts in order, up to the first failure. */
  function Collect(vs: seq<Verdict>): Option<seq<Memif>> {
    if vs == [] then Some([])
    else
      var n := |vs| - 1;
      var before := Collect(vs[..n]);
      match (before, vs[n]) {
        case (None, _) => None
        case (Some(_), Failed) => None
        case (Some(ms), NotOurs) => Some(ms)
        case (Some(ms), Wanted(m)) => Some(ms + [m])
      }
  }

  /** With one network every entry belongs to it; with several the first network whose
      interface name is missing or matches. */
  function NetworkOf(nets: seq<N.NetworkRef>, ifName: string): (i: nat)
    ensures i <= |nets|
    ensures |nets| != 1 ==> forall k :: 0 <= k < i ==> nets[k].iface != "" && nets[k].iface != ifName
    ensures |nets| != 1 && i < |nets| ==> nets[i].iface == "" || nets[i].iface == ifName
  {
    if |nets| == 1 then 0 else FirstMatch(nets, ifName)
  }

  function FirstMatch(nets: seq<N.NetworkRef>, ifName: string): (i: nat)
    ensures i <= |nets|
    ensures forall k :: 0 <= k < i ==> nets[k].iface != "" && nets[k].iface != ifName
    ensures i < |nets| ==> nets[i].iface == "" || nets[i].iface == ifName
  {
    if nets == [] || nets[0].iface == "" || nets[0].iface == ifName then 0 else 1 + FirstMatch(nets[1..], ifName)
  }

  function EntryVerdict(e: ConfigurationData, nets: seq<N.NetworkRef>, hosts: seq<UserSpaceConf>, sharedDir: string): Verdict
    requires |hosts| == |nets|
  {
    var i := NetworkOf(nets, e.ifName);
    if i < |nets| then DesiredMemif(e, hosts[i], sharedDir) else NotOurs
  }

  function Verdicts(es: seq<ConfigurationData>, nets: seq<N.NetworkRef>, hosts: seq<UserSpaceConf>, sharedDir: string): (vs: seq<Verdict>)
    requires |hosts| == |nets|
    ensures |vs| == |es|
  {
    seq(|es|, k requires 0 <= k < |es| => EntryVerdict(es[k], nets, hosts, sharedDir))
  }

  /** A NAD's host configuration; None when it cannot be fetched or parsed. */
  function HostOf(lib: Library, lookup: Lookup, r: N.NetworkRef): Option<UserSpaceConf> {
    match lookup(r.ns, r.name)
    case None => None
    case Some(cfg) => match lib.netConf(cfg) { case None => None case Some(nc) => Some(nc.hostConf) }
  }

  function Hosts(lib: Library, lookup: Lookup, nets: seq<N.NetworkRef>): (r: Option<seq<UserSpaceConf>>)
    ensures r.Some? ==> |r.value| == |nets|
    ensures r.Some? ==> forall k :: 0 <= k < |nets| ==> HostOf(lib, lookup, nets[k]) == Some(r.value[k])
  {
    if nets == [] then Some([])
    else
      var n := |nets| - 1;
      match (Hosts(lib, lookup, nets[..n]), HostOf(lib, lookup, nets[n])) {
        case (Some(hs), Some(h)) => Some(hs + [h])
        case _ => None
      }
  }

  function RefsOf(lib: Library, pod: Pod): seq<N.NetworkRef> {
    N.Parse(lib.refs, pod.networks, pod.ns)
  }

  /** The masters a pod declares; None when its intent cannot be evaluated. */
  function DesiredForPod(lib: Library, pod: Pod, lookup: Lookup): Option<seq<Memif>> {
    var nets := RefsOf(lib, pod);
    if nets == [] || TrimSpace(pod.configData) == "" then Some([])
    else match lib.entries(pod.configData)
      case None => None
      case Some(es) =>
        if es == [] || pod.sharedDir == "" then Some([])
        else match Hosts(lib, lookup, nets)
          case None => None
          case Some(hosts) => Collect(Verdicts(es, nets, hosts, pod.sharedDir))
  }

  /** The node's desired masters: a pod whose intent cannot be evaluated is skipped. */
  function DesiredOf(lib: Library, pods: seq<Pod>, lookup: Lookup): seq<Memif> {
    if pods == [] then []
    else
      var n := |pods| - 1;
      DesiredOf(lib, pods[..n], lookup) +
      match DesiredForPod(lib, pods[n], lookup) { case None => [] case Some(ms) => ms }
  }

  // ----- Facts about the function

  lemma {:induction false} CollectedFrom(vs: seq<Verdict>, m: Memif)
    requires Collect(vs).Some? && m in Collect(vs).value
    ensures Wanted(m) in vs
  {
    var n := |vs| - 1;
    if vs[n] != Wanted(m) {
      CollectedFrom(vs[..n], m);
    }
  }

  /** Every desired socket is one that path.Join made. */
  lemma DesiredCanonical(lib: Library, pod: Pod, lookup: Lookup)
    requires DesiredForPod(lib, pod, lookup).Some?
    ensures forall m :: m in DesiredForPod(lib, pod, lookup).value ==> Canonical(m.socket)
  {
    hide Canonical, Collect, Hosts, TrimSpace, N.Parse;
    forall m | m in DesiredForPod(lib, pod, lookup).value ensures Canonical(m.socket) {
      var nets, es := RefsOf(lib, pod), lib.entries(pod.configData).value;
      var hosts := Hosts(lib, lookup, nets).value;
      var vs := Verdicts(es, nets, hosts, pod.sharedDir);
      CollectedFrom(vs, m);
      var k :| 0 <= k < |vs| && vs[k] == Wanted(m);
      VerdictCanonical(es[k], nets, hosts, pod.sharedDir);
    }
  }

  lemma VerdictCanonical(e: ConfigurationData, nets: seq<N.NetworkRef>, hosts: seq<UserSpaceConf>, sharedDir: string)
    requires |hosts| == |nets|
    ensures var v := EntryVerdict(e, nets, hosts, sharedDir); v.Wanted? ==> Canonical(v.m.socket)
  {
    hide Clean, M.SocketFileName;
    if NetworkOf(nets, e.ifName) < |nets| {
      NamedCanonical(sharedDir, hosts[NetworkOf(nets, e.ifName)].memif.socketfile, e.containerId, e.ifName);
    }
  }

  lemma NamedCanonical(dir: string, override: string, containerId: string, ifName: string)
    ensures Canonical(JoinPath(dir, M.SocketFileName(override, containerId, ifName)))
  {
    var name := M.SocketFileName(override, containerId, ifName);
    CleanSame(Slash(dir, name));
    CleanSame(name);
    hide Clean;
  }

  lemma {:induction false} AllDesiredCanonical(lib: Library, pods: seq<Pod>, lookup: Lookup)
    ensures forall m :: m in DesiredOf(lib, pods, lookup) ==> Canonical(m.socket)
  {
    hide Canonical, DesiredForPod;
    if pods != [] {
      var n := |pods| - 1;
      AllDesiredCanonical(lib, pods[..n], lookup);
      if DesiredForPod(lib, pods[n], lookup).Some? {
        DesiredCanonical(lib, pods[n], lookup);
      }
    }
  }

  lemma {:induction false} CollectFailsExactly(vs: seq<Verdict>)
    ensures Collect(vs) == None <==> Failed in vs
  {
    if vs != [] {
      var n := |vs| - 1;
      CollectFailsExactly(vs[..n]);
      assert vs == vs[..n] + [vs[n]];
    }
  }

  lemma {:induction false} HostsFailExactly(lib: Library, lookup: Lookup, nets: seq<N.NetworkRef>)
    ensures Hosts(lib, lookup, nets) == None <==> exists r :: r in nets && HostOf(lib, lookup, r) == None
  {
    hide HostOf;
    if nets != [] {
      var n := |nets| - 1;
      HostsFailExactly(lib, lookup, nets[..n]);
      assert nets == nets[..n] + [nets[n]];
    }
  }

  /** The intent of a pod can be evaluated, and is empty, when it has no networks, no recorded
      configuration or no shared directory. */
  lemma DeclaresNothing(lib: Library, pod: Pod, lookup: Lookup)
    requires || N.Parse(lib.refs, pod.networks, pod.ns) == [] || TrimSpace(pod.configData) == ""
             || (lib.entries(pod.configData).Some? && (lib.entries(pod.configData).value == [] || pod.sharedDir == ""))
    ensures DesiredForPod(lib, pod, lookup) == Some([])
  {
  }

  lemma UnreadableSkipped(lib: Library, pod: Pod, lookup: Lookup)
    requires N.Parse(lib.refs, pod.networks, pod.ns) != [] && TrimSpace(pod.configData) != "" && lib.entries(pod.configData).None?
    ensures DesiredForPod(lib, pod, lookup) == None
  {
  }

  lemma DeclaringSkipped(lib: Library, pod: Pod, lookup: Lookup, es: seq<ConfigurationData>)
    requires N.Parse(lib.refs, pod.networks, pod.ns) != [] && TrimSpace(pod.configData) != ""
    requires lib.entries(pod.configData) == Some(es) && es != [] && pod.sharedDir != ""
    ensures var nets := N.Parse(lib.refs, pod.networks, pod.ns);
            DesiredForPod(lib, pod, lookup) == None <==>
              || (exists r :: r in nets && HostOf(lib, lookup, r) == None)
              || exists e :: e in es && NetworkOf(nets, e.ifName) < |nets| && UnnumberedAt(lib, lookup, nets[NetworkOf(nets, e.ifName)])
  {
    var nets := N.Parse(lib.refs, pod.networks, pod.ns);
    hide TrimSpace, N.Parse, HostOf, Collect, Verdicts, NetworkOf, UnnumberedAt;
    HostsFailExactly(lib, lookup, nets);
    if Hosts(lib, lookup, nets).Some? {
      var hosts := Hosts(lib, lookup, nets).value;
      hide Hosts;
      CollectFailsExactly(Verdicts(es, nets, hosts, pod.sharedDir));
      VerdictsFail(lib, lookup, es, nets, hosts, pod.sharedDir);
    } else {
      UnreadHost(lib, lookup, nets);
    }
  }

  lemma UnreadHost(lib: Library, lookup: Lookup, nets: seq<N.NetworkRef>)
    requires Hosts(lib, lookup, nets) == None
    ensures exists r :: r in nets && HostOf(lib, lookup, r) == None
  {
    HostsFailExactly(lib, lookup, nets);
  }

  /** When a pod is skipped: its recorded configuration cannot be read, or, unless it declares
      nothing, one of its networks cannot be read or an entry has a bridge name that is no number. */
  lemma SkippedExactly(lib: Library, pod: Pod, lookup: Lookup)
    ensures var nets := N.Parse(lib.refs, pod.networks, pod.ns);
            DesiredForPod(lib, pod, lookup) == None <==>
              && nets != [] && TrimSpace(pod.configData) != ""
              && match lib.entries(pod.configData)
                 case None => true
                 case Some(es) =>
                   && es != [] && pod.sharedDir != ""
                   && ((exists r :: r in nets && HostOf(lib, lookup, r) == None)
                       || exists e :: e in es && NetworkOf(nets, e.ifName) < |nets| && UnnumberedAt(lib, lookup, nets[NetworkOf(nets, e.ifName)]))
  {
    hide *;
    var nets, es := N.Parse(lib.refs, pod.networks, pod.ns), lib.entries(pod.configData);
    if nets == [] || TrimSpace(pod.configData) == "" || (es.Some? && (es.value == [] || pod.sharedDir == "")) {
      DeclaresNothing(lib, pod, lookup);
    } else if es == None {
      UnreadableSkipped(lib, pod, lookup);
    } else {
      DeclaringSkipped(lib, pod, lookup, es.value);
    }
  }

  /** The network is a VPP memif on a bridge domain whose name is no number. */
  ghost predicate UnnumberedAt(lib: Library, lookup: Lookup, r: N.NetworkRef) {
    match HostOf(lib, lookup, r)
    case None => false
    case Some(h) =>
      && EqualFold(h.ifType, "memif") && (h.engine == "" || EqualFold(h.engine, "vpp"))
      && EqualFold(h.netType, "bridge") && h.bridge.bridgeName != "" && ParseUint32(h.bridge.bridgeName) == None
  }

  lemma VerdictsFail(lib: Library, lookup: Lookup, es: seq<ConfigurationData>, nets: seq<N.NetworkRef>, hosts: seq<UserSpaceConf>, sharedDir: string)
    requires |hosts| == |nets| && forall k :: 0 <= k < |nets| ==> HostOf(lib, lookup, nets[k]) == Some(hosts[k])
    ensures Failed in Verdicts(es, nets, hosts, sharedDir) <==>
              exists e :: e in es && NetworkOf(nets, e.ifName) < |nets| && UnnumberedAt(lib, lookup, nets[NetworkOf(nets, e.ifName)])
  {
    hide HostOf, EqualFold, ParseUint32, NetworkOf, M.SocketFileName, JoinPath;
    var vs := Verdicts(es, nets, hosts, sharedDir);
    forall e: ConfigurationData ensures EntryVerdict(e, nets, hosts, sharedDir) == Failed <==>
      NetworkOf(nets, e.ifName) < |nets| && UnnumberedAt(lib, lookup, nets[NetworkOf(nets, e.ifName)])
    {
    }
    if Failed in vs {
      var k :| 0 <= k < |vs| && vs[k] == Failed;
      assert es[k] in es && EntryVerdict(es[k], nets, hosts, sharedDir) == Failed;
    }
    if e :| e in es && EntryVerdict(e, nets, hosts, sharedDir) == Failed {
      var k :| 0 <= k < |es| && es[k] == e;
      assert vs[k] == Failed;
    }
  }

  /** Every master a pod declares is that of one of its entries, with the host configuration of
      the entry's own network; restoring it gives the row this configuration describes. */
  lemma PodTuned(lib: Library, pod: Pod, lookup: Lookup, m: Memif, t: Tables, x: nat) returns (e: ConfigurationData, j: nat, h: UserSpaceConf)
    requires DesiredForPod(lib, pod, lookup).Some? && m in DesiredForPod(lib, pod, lookup).value
    requires Configured(t, x, RestoreRequest(m))
    ensures e in lib.entries(pod.configData).value
    ensures var nets := N.Parse(lib.refs, pod.networks, pod.ns);
            && j < |nets| && j == NetworkOf(nets, e.ifName)
            && var cfg := lookup(nets[j].ns, nets[j].name);
               cfg.Some? && lib.netConf(cfg.value).Some? && h == lib.netConf(cfg.value).value.hostConf
    ensures DesiredMemif(e, h, pod.sharedDir) == Wanted(m) && TunedAs(t.ifaces[x], h)
  {
    hide Collect, TrimSpace, N.Parse, DesiredMemif, Configured, RestoreRequest, TunedAs, Hosts, NetworkOf;
    var nets, es := RefsOf(lib, pod), lib.entries(pod.configData).value;
    var hosts := Hosts(lib, lookup, nets).value;
    var vs := Verdicts(es, nets, hosts, pod.sharedDir);
    CollectedFrom(vs, m);
    var k :| 0 <= k < |vs| && vs[k] == Wanted(m);
    e, j := es[k], NetworkOf(nets, es[k].ifName);
    h := hosts[j];
    RestoredTuned(e, h, pod.sharedDir, t, x);
  }

  /** What a listed pod wants is desired, unless the pod is skipped. */
  lemma {:induction false} DesiredHolds(lib: Library, pods: seq<Pod>, lookup: Lookup, pod: Pod)
    requires pod in pods && DesiredForPod(lib, pod, lookup).Some?
    ensures forall m :: m in DesiredForPod(lib, pod, lookup).value ==> m in DesiredOf(lib, pods, lookup)
  {
    hide DesiredForPod;
    var n := |pods| - 1;
    if pod in pods[..n] {
      DesiredHolds(lib, pods[..n], lookup, pod);
    }
  }
}
