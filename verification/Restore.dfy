/** What ADD records about an interface, and what the daemon later restores from the record. */
module Restore {
  import opened Wrappers
  import opened Vpp
  import opened Text
  import opened Dataplane
  import opened Desired
  import opened CniVpp
  import opened Annotations
  import M = MemifApi
  import N = Networks

  // ----- The record

  function OtherRole(role: string): string {
    if role == "master" then "slave" else "master"
  }

  /** The container's memif settings, completed from the host's. */
  function ContainerMemif(container: MemifConf, host: MemifConf): MemifConf {
    container.(role := if container.role == "" then OtherRole(host.role) else container.role,
               mode := if container.mode == "" then host.mode else container.mode,
               socketfile := host.socketfile)
  }

  /** The container's vhost-user settings, completed from the host's. */
  function ContainerVhost(container: VhostConf, host: VhostConf): VhostConf {
    VhostConf(if container.mode == "" then (if host.mode == "client" then "server" else "client") else container.mode, host.socketfile)
  }

  function Recorded(conf: NetConf, args: CmdArgs, hasIp: bool): ConfigurationData {
    var c := conf.containerConf;
    var ifType := if c.ifType == "" then conf.hostConf.ifType else c.ifType;
    ConfigurationData(args.containerId, args.ifName, conf.name,
      c.(ifType := ifType,
         netType := if c.netType == "" && hasIp then "interface" else c.netType,
         memif := if ifType == "memif" then ContainerMemif(c.memif, conf.hostConf.memif) else c.memif,
         vhost := if ifType == "vhostuser" then ContainerVhost(c.vhost, conf.hostConf.vhost) else c.vhost))
  }

  /** What ADD records makes the two ends a pair: unless the container is configured otherwise it
      gets the other role and the same mode, on the very socket file of the host. */
  lemma RecordedMatches(conf: NetConf, args: CmdArgs, hasIp: bool)
    requires Acceptable(conf) && (conf.containerConf.ifType == "" || conf.containerConf.ifType == "memif")
    ensures var h, e := conf.hostConf.memif, Recorded(Resolved(conf, args), args, hasIp).config;
            && e.ifType == "memif"
            && e.memif.socketfile == M.SocketFileName(h.socketfile, args.containerId, args.ifName) != ""
            && (conf.containerConf.memif.role == "" ==> RoleOf(e.memif.role) == Some(if RoleOf(h.role) == Some(Master) then Slave else Master))
            && (conf.containerConf.memif.mode == "" ==> e.memif.mode != "" && ModeOf(e.memif.mode) == ModeOf(h.mode))
  {
    assert M.SocketFileName("", args.containerId, args.ifName)[0] == 'm';
  }

  /** The same for vhost-user: the container is the server when the host is the client, and the
      client otherwise. Whatever the kind, the record names its attachment and network. */
  lemma RecordedVhostMatches(conf: NetConf, args: CmdArgs, hasIp: bool)
    ensures var r := Recorded(conf, args, hasIp);
            r.containerId == args.containerId && r.ifName == args.ifName && r.name == conf.name
    ensures conf.hostConf.ifType == "vhostuser" && conf.containerConf.ifType == "" ==>
              var v := Recorded(conf, args, hasIp).config.vhost;
              && Recorded(conf, args, hasIp).config.ifType == "vhostuser"
              && v.socketfile == conf.hostConf.vhost.socketfile
              && (conf.containerConf.vhost.mode != "" ==> v.mode == conf.containerConf.vhost.mode)
              && (conf.containerConf.vhost.mode == "" ==>
                    (conf.hostConf.vhost.mode == "client" ==> v.mode == "server")
                    && (conf.hostConf.vhost.mode == "server" ==> v.mode == "client"))
  {
  }

  method FillConfigData(conf: NetConf, args: CmdArgs, hasIp: bool) returns (data: ConfigurationData)
    ensures data == Recorded(conf, args, hasIp)
  {
    var host := conf.hostConf;
    var config := conf.containerConf;
    if config.ifType == "" {
      config := config.(ifType := host.ifType);
    }
    if config.netType == "" {
      if hasIp {
        config := config.(netType := "interface");
      }
    }
    if config.ifType == "memif" {
      var m := config.memif;
      if m.role == "" {
        m := m.(role := if host.memif.role == "master" then "slave" else "master");
      }
      if m.mode == "" {
        m := m.(mode := host.memif.mode);
      }
      m := m.(socketfile := host.memif.socketfile);
      config := config.(memif := m);
    } else if config.ifType == "vhostuser" {
      var v := config.vhost;
      if v.mode == "" {
        if host.vhost.mode == "client" {
          v := v.(mode := "server");
        } else {
          v := v.(mode := "client");
        }
      }
      v := v.(socketfile := host.vhost.socketfile);
      config := config.(vhost := v);
    }
    data := ConfigurationData(args.containerId, args.ifName, conf.name, config);
  }

  /** Records the container's side of an interface in the pod's annotation. */
  method SaveRemoteConfig(codec: Codec, conf: Option<NetConf>, args: Option<CmdArgs>, pod: PodObject?, hasIp: bool) returns (ok: bool)
    modifies pod
    ensures ok <==> conf.Some? && args.Some? && pod != null && codec.enc(Recorded(conf.value, args.value, hasIp)).Some?
    ensures !ok && pod != null ==> pod.annotations == old(pod.annotations)
    ensures ok ==> pod.annotations == old(pod.annotations)[
              "userspace/configuration-data" := Appended(Annotation(old(pod.annotations), "userspace/configuration-data"),
                                          codec.enc(Recorded(conf.value, args.value, hasIp)).value)]
  {
    hide Appended, Annotation, Recorded;
    if conf == None || args == None || pod == null {
      return false;
    }
    var data := FillConfigData(conf.value, args.value, hasIp);
    var modified, err := SetPodAnnotationConfigData(codec, pod, Some(data));
    ok := err == None;
  }

  // ----- One interface

  predicate MtuKept(mtu: int) {
    mtu >= 0 || mtu % 0x1_0000_0000 == 0
  }

  /** An unset host mode is ethernet to ADD, and the container's mode to the daemon. */
  predicate ModeKept(conf: NetConf) {
    conf.hostConf.memif.mode != "" || ParseMode(conf.containerConf.memif.mode) == Ethernet
  }

  /** Bridge domain 0 is a domain to ADD, and no domain to the daemon. */
  predicate DomainKept(h: UserSpaceConf) {
    h.netType == "bridge" ==> BridgeDomainId(h.bridge) != Some(0)
  }

  /** The host configurations whose interface the daemon asks for just as ADD did. */
  predicate Restorable(conf: NetConf) {
    && conf.hostConf.memif.role == "master" && MtuKept(conf.hostConf.mtu)
    && ModeKept(conf) && DomainKept(conf.hostConf)
  }

  lemma Folding()
    ensures EqualFold("memif", "memif") && EqualFold("vpp", "vpp") && EqualFold("bridge", "bridge")
    ensures !EqualFold("interface", "bridge")
    ensures ParseMode("") == Ethernet && ParseMode("ethernet") == Ethernet && ParseMode("ip") == Ip && ParseMode("inject-punt") == PuntInject
  {
    assert Lower("") == "";
    assert Lower("ethernet") == "ethernet";
    assert Lower("ip") == "ip";
    assert Lower("inject-punt") == "inject-punt";
  }

  lemma MtuIff(mtu: int)
    ensures (if mtu > 0 then ToUint32(mtu) else 0) == ToUint32(mtu) <==> MtuKept(mtu)
  {
  }

  lemma ModeIff(conf: NetConf, args: CmdArgs, hasIp: bool)
    requires conf.hostConf.ifType == "memif" && ModeOf(conf.hostConf.memif.mode).Some?
    ensures var e := Recorded(Resolved(conf, args), args, hasIp);
            var mode := if conf.hostConf.memif.mode == "" then e.config.memif.mode else conf.hostConf.memif.mode;
            ParseMode(mode) == ModeOf(conf.hostConf.memif.mode).value <==> ModeKept(conf)
  {
    Folding();
    hide ParseMode, M.SocketFileName;
  }

  /** For every host configuration on which the VPP ADD succeeds, the daemon wants a master on
      the very socket of ADD; it asks VPP for the same thing if and only if the configuration
      is restorable. */
  lemma EntryRestored(conf: NetConf, args: CmdArgs, sharedDir: string, hasIp: bool)
    requires Acceptable(conf) && conf.hostConf.engine == "vpp"
    ensures var v := DesiredMemif(Recorded(Resolved(conf, args), args, hasIp), conf.hostConf, sharedDir);
            && v.Wanted? && v.m.socket == SocketPath(conf, args, sharedDir)
            && (RestoreRequest(v.m) == AddRequest(conf, args, sharedDir) <==> Restorable(conf))
  {
    Folding();
    var h := conf.hostConf;
    MtuIff(h.mtu);
    ModeIff(conf, args, hasIp);
    hide EqualFold, ParseMode, ToUint32, ModeOf, MtuKept, ModeKept, M.SocketFileName, BridgeDomainId, TuningOf;
    assert RoleOf(h.memif.role) == Some(Master) <==> h.memif.role == "master";
  }

  /** So two interfaces, one made by ADD and one by the restore, differ at most in their socket id. */
  lemma RestoredAsAdded(conf: NetConf, args: CmdArgs, sharedDir: string, hasIp: bool,
                        t: Tables, x: nat, t': Tables, x': nat)
    requires Acceptable(conf) && conf.hostConf.engine == "vpp" && Restorable(conf)
    requires Configured(t, x, AddRequest(conf, args, sharedDir))
    requires var v := DesiredMemif(Recorded(Resolved(conf, args), args, hasIp), conf.hostConf, sharedDir);
             v.Wanted? && Configured(t', x', RestoreRequest(v.m))
    ensures SocketOf(t', x') == SocketOf(t, x)
    ensures t'.ifaces[x'] == t.ifaces[x].(socketId := t'.ifaces[x'].socketId)
    ensures forall b :: InBridge(t', b, x') <==> InBridge(t, b, x)
  {
    EntryRestored(conf, args, sharedDir, hasIp);
    hide DesiredMemif, AddRequest, RestoreRequest, Acceptable, Restorable, Recorded, Resolved, M.WithDefaults;
  }

  // ----- A whole pod

  /** One interface ADD made: the network it belongs to, its configuration and arguments, and
      what was recorded. */
  datatype Attachment = Attachment(net: nat, conf: NetConf, args: CmdArgs, hasIp: bool, record: ConfigurationData)

  function Records(atts: seq<Attachment>): seq<ConfigurationData> {
    seq(|atts|, k requires 0 <= k < |atts| => atts[k].record)
  }

  /** A memif of the VPP engine. */
  predicate Ours(conf: NetConf) {
    Acceptable(conf) && conf.hostConf.engine == "vpp"
  }

  /** An interface of another kind or engine. */
  predicate Foreign(conf: NetConf) {
    var h := conf.hostConf;
    !EqualFold(h.ifType, "memif") || (h.engine != "" && !EqualFold(h.engine, "vpp"))
  }

  /** The interfaces the daemon restores, in order. */
  function Mine(atts: seq<Attachment>): seq<Attachment> {
    if atts == [] then []
    else
      var n := |atts| - 1;
      Mine(atts[..n]) + if Ours(atts[n].conf) then [atts[n]] else []
  }

  /** The interface was made from the network it names: from the only network, or from the one
      with its interface name when all networks are named apart. */
  ghost predicate Attached(lib: Library, lookup: Lookup, nets: seq<N.NetworkRef>, a: Attachment) {
    && (Ours(a.conf) || Foreign(a.conf)) && a.record.ifName == a.args.ifName
    && (Ours(a.conf) ==> a.record == Recorded(Resolved(a.conf, a.args), a.args, a.hasIp))
    && a.net < |nets| && HostOf(lib, lookup, nets[a.net]) == Some(a.conf.hostConf)
    && (|nets| == 1 || nets[a.net].iface == a.args.ifName)
  }

  ghost predicate NamedApart(nets: seq<N.NetworkRef>) {
    && (forall j :: 0 <= j < |nets| ==> |nets| == 1 || nets[j].iface != "")
    && (forall i, j :: 0 <= i < j < |nets| ==> nets[i].iface != nets[j].iface)
  }

  /** The configurations of all networks can be read. */
  ghost predicate AllHosts(lib: Library, lookup: Lookup, nets: seq<N.NetworkRef>) {
    forall j :: 0 <= j < |nets| ==> HostOf(lib, lookup, nets[j]).Some?
  }

  lemma {:induction false} HostsRead(lib: Library, lookup: Lookup, nets: seq<N.NetworkRef>)
    requires AllHosts(lib, lookup, nets)
    ensures Hosts(lib, lookup, nets).Some?
  {
    hide HostOf;
    if nets != [] {
      HostsRead(lib, lookup, nets[..|nets| - 1]);
    }
  }

  lemma MatchedNetwork(nets: seq<N.NetworkRef>, net: nat, ifName: string)
    requires NamedApart(nets) && net < |nets| && (|nets| == 1 || nets[net].iface == ifName)
    ensures NetworkOf(nets, ifName) == net
  {
    hide FirstMatch;
    var i := NetworkOf(nets, ifName);
    if |nets| != 1 {
      assert nets[net].iface != "";
      assert !(i < net);
    }
  }

  lemma VerdictOf(lib: Library, lookup: Lookup, nets: seq<N.NetworkRef>, hosts: seq<UserSpaceConf>, a: Attachment, sharedDir: string)
    requires NamedApart(nets) && Attached(lib, lookup, nets, a) && |hosts| == |nets|
    requires HostOf(lib, lookup, nets[a.net]) == Some(hosts[a.net])
    ensures EntryVerdict(a.record, nets, hosts, sharedDir) == DesiredMemif(a.record, a.conf.hostConf, sharedDir)
  {
    hide DesiredMemif, HostOf, Resolved, Recorded, NetworkOf, Ours, Foreign;
    MatchedNetwork(nets, a.net, a.args.ifName);
  }

  lemma SolidText(s: string)
    requires s != "" && s[0] == '[' && s[|s| - 1] == ']'
    ensures TrimSpace(s) == s
  {
    N.TrimNothing(s);
  }

  /** The pod as the API server shows it after the ADDs, and networks that name their interfaces apart. */
  ghost predicate AllRecorded(lib: Library, codec: Codec, pod: Pod, lookup: Lookup, atts: seq<Attachment>) {
    && Faithful(codec) && lib.entries(pod.configData) == Read(codec, pod.configData)
    && (forall c :: c in Records(atts) ==> codec.enc(c).Some?)
    && pod.configData == AppendAll(codec, "", Records(atts))
    && pod.sharedDir != ""
    && NamedApart(RefsOf(lib, pod)) && AllHosts(lib, lookup, RefsOf(lib, pod))
    && forall k :: 0 <= k < |atts| ==> Attached(lib, lookup, RefsOf(lib, pod), atts[k])
  }

  lemma RecordsRead(lib: Library, codec: Codec, pod: Pod, lookup: Lookup, atts: seq<Attachment>)
    requires AllRecorded(lib, codec, pod, lookup, atts) && atts != []
    ensures TrimSpace(pod.configData) != "" && lib.entries(pod.configData) == Some(Records(atts))
    ensures RefsOf(lib, pod) != []
  {
    var cs := Records(atts);
    hide Read, Faithful, TrimSpace, RefsOf, NamedApart, AllHosts, Ours, Foreign;
    assert cs != [];
    AppendsRoundTrip(codec, cs);
    hide Appended;
    AppendedEdges(AppendAll(codec, "", cs[..|cs| - 1]), codec.enc(cs[|cs| - 1]).value);
    SolidText(pod.configData);
    assert Attached(lib, lookup, RefsOf(lib, pod), atts[0]);
  }

  /** The verdict asks for the interface as ADD did, exactly if its configuration is restorable. */
  ghost predicate RestoredAt(a: Attachment, v: Verdict, sharedDir: string) {
    && Acceptable(a.conf) && v.Wanted?
    && v.m.socket == SocketPath(a.conf, a.args, sharedDir)
    && (RestoreRequest(v.m) == AddRequest(a.conf, a.args, sharedDir) <==> Restorable(a.conf))
  }

  ghost predicate JudgedRight(a: Attachment, v: Verdict, sharedDir: string) {
    if Ours(a.conf) then RestoredAt(a, v, sharedDir) else v == NotOurs
  }

  lemma AttachmentRestored(lib: Library, lookup: Lookup, nets: seq<N.NetworkRef>, hosts: seq<UserSpaceConf>, a: Attachment, sharedDir: string)
    requires NamedApart(nets) && Attached(lib, lookup, nets, a) && |hosts| == |nets|
    requires HostOf(lib, lookup, nets[a.net]) == Some(hosts[a.net])
    ensures JudgedRight(a, EntryVerdict(a.record, nets, hosts, sharedDir), sharedDir)
  {
    VerdictOf(lib, lookup, nets, hosts, a, sharedDir);
    if Ours(a.conf) {
      EntryRestored(a.conf, a.args, sharedDir, a.hasIp);
      hide DesiredMemif, AddRequest, RestoreRequest, Restorable, Recorded, Resolved, SocketPath, NamedApart, EntryVerdict, HostOf;
    } else {
      hide NamedApart, EntryVerdict, HostOf, EqualFold;
    }
  }

  lemma PodVerdicts(lib: Library, codec: Codec, pod: Pod, lookup: Lookup, atts: seq<Attachment>) returns (hosts: seq<UserSpaceConf>)
    requires AllRecorded(lib, codec, pod, lookup, atts) && atts != []
    ensures |hosts| == |RefsOf(lib, pod)|
    ensures forall j :: 0 <= j < |hosts| ==> HostOf(lib, lookup, RefsOf(lib, pod)[j]) == Some(hosts[j])
    ensures DesiredForPod(lib, pod, lookup) == Collect(Verdicts(Records(atts), RefsOf(lib, pod), hosts, pod.sharedDir))
  {
    RecordsRead(lib, codec, pod, lookup, atts);
    HostsRead(lib, lookup, RefsOf(lib, pod));
    hosts := Hosts(lib, lookup, RefsOf(lib, pod)).value;
    assert pod.sharedDir != "" && Records(atts) != [];
    hide AllRecorded, RefsOf, Collect, Hosts, TrimSpace, Records, Verdicts;
  }

  lemma VerdictsRestored(lib: Library, lookup: Lookup, nets: seq<N.NetworkRef>, hosts: seq<UserSpaceConf>, atts: seq<Attachment>,
                         vs: seq<Verdict>, sharedDir: string)
    requires NamedApart(nets) && |hosts| == |nets|
    requires forall j :: 0 <= j < |hosts| ==> HostOf(lib, lookup, nets[j]) == Some(hosts[j])
    requires forall k :: 0 <= k < |atts| ==> Attached(lib, lookup, nets, atts[k])
    requires vs == Verdicts(Records(atts), nets, hosts, sharedDir)
    ensures |vs| == |atts| && forall k :: 0 <= k < |atts| ==> JudgedRight(atts[k], vs[k], sharedDir)
  {
    hide NamedApart, EntryVerdict, JudgedRight, HostOf, Recorded, Resolved, Ours, Foreign;
    forall k | 0 <= k < |atts| ensures JudgedRight(atts[k], vs[k], sharedDir) {
      assert Attached(lib, lookup, nets, atts[k]);
      AttachmentRestored(lib, lookup, nets, hosts, atts[k], sharedDir);
    }
  }

  /** Collecting verdicts that are right leaves the wanted ones, in order. */
  lemma {:induction false} CollectMine(atts: seq<Attachment>, vs: seq<Verdict>, sharedDir: string)
    requires |vs| == |atts| && forall k :: 0 <= k < |atts| ==> JudgedRight(atts[k], vs[k], sharedDir)
    ensures Collect(vs).Some? && |Collect(vs).value| == |Mine(atts)|
    ensures forall k :: 0 <= k < |Mine(atts)| ==> RestoredAt(Mine(atts)[k], Wanted(Collect(vs).value[k]), sharedDir)
  {
    hide RestoredAt, Ours;
    if atts != [] {
      var n := |atts| - 1;
      CollectMine(atts[..n], vs[..n], sharedDir);
      assert JudgedRight(atts[n], vs[n], sharedDir);
      if Ours(atts[n].conf) {
        RestoredWanted(atts[n], vs[n], sharedDir);
        assert vs[n] == Wanted(vs[n].m);
      }
    }
  }

  /** From the annotation alone the daemon derives one master per recorded VPP memif, in order,
      and none for any other interface; each is asked for exactly as ADD did if and only if its
      configuration is restorable. */
  lemma PodRestored(lib: Library, codec: Codec, pod: Pod, lookup: Lookup, atts: seq<Attachment>)
    requires AllRecorded(lib, codec, pod, lookup, atts)
    ensures var d := DesiredForPod(lib, pod, lookup);
            && d.Some? && |d.value| == |Mine(atts)|
            && forall k :: 0 <= k < |Mine(atts)| ==> RestoredAt(Mine(atts)[k], Wanted(d.value[k]), pod.sharedDir)
  {
    if atts == [] {
      NothingRecorded(lib, codec, pod, lookup);
      return;
    }
    hide DesiredForPod, RefsOf, Verdicts, Records, RestoredAt, JudgedRight, NamedApart, AllHosts, Faithful, Attached, AppendAll, HostOf, Read, Mine;
    var hosts := PodVerdicts(lib, codec, pod, lookup, atts);
    var vs := Verdicts(Records(atts), RefsOf(lib, pod), hosts, pod.sharedDir);
    VerdictsRestored(lib, lookup, RefsOf(lib, pod), hosts, atts, vs, pod.sharedDir);
    CollectMine(atts, vs, pod.sharedDir);
  }

  lemma RestoredWanted(a: Attachment, v: Verdict, sharedDir: string)
    requires RestoredAt(a, v, sharedDir)
    ensures v.Wanted?
  {
  }

  lemma NothingRecorded(lib: Library, codec: Codec, pod: Pod, lookup: Lookup)
    requires AllRecorded(lib, codec, pod, lookup, [])
    ensures DesiredForPod(lib, pod, lookup) == Some([])
  {
    hide RefsOf;
    assert pod.configData == "";
  }
}
