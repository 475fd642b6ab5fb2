/** CNI ADD and DEL of a vhost-user port on Open vSwitch, and runs of them. */
module CniOvs {
  import opened Wrappers
  import opened Ovsdb
  import opened Ovs

  datatype OvsConf = OvsConf(ifType: string, netType: string, bridgeName: string, socketfile: string, mode: string, cfg: PortConfig)

  /** The bridge ADD uses: the one given, else the integration bridge when the port binds to OVN. */
  function AddBridge(conf: OvsConf): string {
    if conf.bridgeName != "" then conf.bridgeName
    else if conf.cfg.ovnPort != "" then OVN_BRIDGE
    else DEFAULT_BRIDGE
  }

  /** The bridge DEL uses. */
  function DelBridge(conf: OvsConf): string {
    if conf.bridgeName != "" then conf.bridgeName else DEFAULT_BRIDGE
  }

  /** The first twelve characters of the container id are always there to be taken. */
  ghost predicate HasId(conf: OvsConf) {
    |conf.cfg.containerId| >= 12
  }

  function PortName(conf: OvsConf): string
    requires HasId(conf)
  {
    var id := conf.cfg.containerId;
    if conf.socketfile != "" then conf.socketfile
    else id[..12] + "-" + conf.cfg.ifName
  }

  function AddedPort(conf: OvsConf, i: nat): PortRow
    requires HasId(conf)
  {
    PortFor(i, PortName(conf), conf.cfg)
  }

  function AddedIface(conf: OvsConf, path: string): IfaceRow
    requires HasId(conf)
  {
    IfaceFor(path, PortName(conf), conf.mode == "client", conf.cfg)
  }

  /** The rows after a successful ADD. */
  ghost predicate AddedOn(d: Db, d': Db, u: nat, p: nat, i: nat, conf: OvsConf, path: string)
    requires HasId(conf)
  {
    AddDone(d, d', u, p, i, AddedPort(conf, i), AddedIface(conf, path), AddBridge(conf))
  }

  // ----- ADD

  method AddLocalNetworkBridge(s: Server, bridge: string) returns (ok: bool, ghost u: nat)
    requires Integrity(s.db)
    modifies s
    ensures Integrity(s.db) && u !in old(s.db).bridges && s.lost >= old(s.lost)
    ensures s.lost == old(s.lost) ==> ok
    ensures ok ==> s.lost <= old(s.lost) + 1
    ensures !ok ==> s.db == old(s.db)
    ensures ok ==> s.db == if HasBridge(old(s.db), bridge) then old(s.db) else WithBridge(old(s.db), u, bridge)
  {
    hide Integrity, WithBridge, HasBridge;
    u := Above(s.db.bridges.Keys);
    var found, read := FindBridge(s, bridge);
    ok := true;
    if !found {
      ghost var made;
      ok, made := CreateBridge(s, bridge);
      u := if ok then made else u;
    }
  }

  lemma MadeBridgeThere(d: Db, u: nat, bridge: string)
    ensures HasBridge(WithBridge(d, u, bridge), bridge)
  {
    assert IsBridge(WithBridge(d, u, bridge), u, bridge);
  }

  /** ADD on the host. It may leave a new bridge, or a new port too, behind when it fails. */
  method AddOnHost(s: Server, conf: OvsConf, path: string) returns (ok: bool, ghost u: nat, ghost p: nat, ghost i: nat)
    requires Integrity(s.db) && HasId(conf)
    modifies s
    ensures Integrity(s.db) && s.lost >= old(s.lost)
    ensures s.lost == old(s.lost) ==>
              (ok <==> conf.ifType == "vhostuser" && (conf.netType == "bridge" || conf.netType == "")
                       && !HasPort(old(s.db), PortName(conf)) && !HasIface(old(s.db), PortName(conf)))
    ensures ok ==> s.lost <= old(s.lost) + 1
    ensures ok ==> conf.ifType == "vhostuser" && (conf.netType == "bridge" || conf.netType == "")
    ensures ok ==> AddedOn(old(s.db), s.db, u, p, i, conf, path)
    ensures ok ==> PortAsAsked(s.db, p, i, path, PortName(conf), conf.mode == "client", conf.cfg)
    ensures ok ==> On(s.db, AddBridge(conf), PortName(conf))
    ensures u !in old(s.db).bridges
    ensures || s.db == old(s.db)
            || (!HasBridge(old(s.db), AddBridge(conf)) && s.db == WithBridge(old(s.db), u, AddBridge(conf)))
            || AddedOn(old(s.db), s.db, u, p, i, conf, path)
    ensures ok ==> StepOk(old(s.db), Added(AddBridge(conf), PortName(conf)), s.db)
    ensures TryOk(old(s.db), TryAdd(AddBridge(conf), PortName(conf), ok), s.db)
  {
    ok, u, p, i := RunAdd(s, conf, path);
    AddIsStep(old(s.db), s.db, u, p, i, conf, path, ok);
    hide AddDone, On, Integrity, TryOk, StepOk, WithBridge, PortAsAsked;
    if ok {
      AddAddsOne(old(s.db), s.db, u, p, i, AddedPort(conf, i), AddedIface(conf, path), AddBridge(conf));
    }
  }

  lemma AddIsStep(d: Db, d': Db, u: nat, p: nat, i: nat, conf: OvsConf, path: string, ok: bool)
    requires HasId(conf) && u !in d.bridges && (ok ==> AddedOn(d, d', u, p, i, conf, path))
    requires || d' == d
             || (!HasBridge(d, AddBridge(conf)) && d' == WithBridge(d, u, AddBridge(conf)))
             || AddedOn(d, d', u, p, i, conf, path)
    ensures ok ==> StepOk(d, Added(AddBridge(conf), PortName(conf)), d')
    ensures TryOk(d, TryAdd(AddBridge(conf), PortName(conf), ok), d')
  {
    hide AddDone, HasBridge, WithBridge, PortName;
    if AddedOn(d, d', u, p, i, conf, path) {
      assert AddedPort(conf, i).name == PortName(conf);
    }
  }

  /** The steps of ADD. */
  method RunAdd(s: Server, conf: OvsConf, path: string) returns (ok: bool, ghost u: nat, ghost p: nat, ghost i: nat)
    requires Integrity(s.db) && HasId(conf)
    modifies s
    ensures Integrity(s.db) && u !in old(s.db).bridges && s.lost >= old(s.lost)
    ensures s.lost == old(s.lost) ==>
              (ok <==> conf.ifType == "vhostuser" && (conf.netType == "bridge" || conf.netType == "")
                       && !HasPort(old(s.db), PortName(conf)) && !HasIface(old(s.db), PortName(conf)))
    ensures ok ==> s.lost <= old(s.lost) + 1
    ensures ok ==> conf.ifType == "vhostuser" && (conf.netType == "bridge" || conf.netType == "")
    ensures ok ==> AddedOn(old(s.db), s.db, u, p, i, conf, path)
    ensures ok ==> PortAsAsked(s.db, p, i, path, PortName(conf), conf.mode == "client", conf.cfg)
    ensures || s.db == old(s.db)
            || (!HasBridge(old(s.db), AddBridge(conf)) && s.db == WithBridge(old(s.db), u, AddBridge(conf)))
            || AddedOn(old(s.db), s.db, u, p, i, conf, path)
  {
    hide Integrity, WithBridge, HasBridge, HasPort, HasIface, PortAsAsked;
    p, i := 0, 0;
    var bridge := conf.bridgeName;
    if bridge == "" {
      if conf.cfg.ovnPort != "" {
        bridge := OVN_BRIDGE;
      } else {
        bridge := DEFAULT_BRIDGE;
      }
    }
    ok, u := AddLocalNetworkBridge(s, bridge);
    if !ok {
      return;
    }
    ghost var d1 := s.db;
    MadeBridgeThere(old(s.db), u, bridge);
    BridgeKeepsNames(old(s.db), u, bridge, PortName(conf));
    if conf.ifType != "vhostuser" {
      return false, u, p, i;
    }
    var dirReady := s.Works();
    if !dirReady {
      return false, u, p, i;
    }
    ok, p, i := CreateVhostPort(s, path, PortName(conf), conf.mode == "client", bridge, conf.cfg);
    if !ok {
      return;
    }
    assert AddedOn(old(s.db), s.db, u, p, i, conf, path);
    var macRead := s.Works();
    if !macRead || conf.netType == "interface" || (conf.netType != "bridge" && conf.netType != "") {
      return false, u, p, i;
    }
    ok := s.Works();
  }

  lemma BridgeKeepsNames(d: Db, u: nat, bridge: string, name: string)
    ensures var d1 := WithBridge(d, u, bridge);
            HasPort(d1, name) == HasPort(d, name) && HasIface(d1, name) == HasIface(d, name) && d1.ports == d.ports && d1.ifaces == d.ifaces
  {
    SameNames(d, WithBridge(d, u, bridge), name);
  }

  // ----- DEL

  method DelLocalNetworkBridge(s: Server, bridge: string) returns (ok: bool, ghost read: bool)
    requires Integrity(s.db)
    modifies s
    ensures Integrity(s.db) && s.lost >= old(s.lost)
    ensures s.lost == old(s.lost) ==> read && (ok <==> EmptyBridgeDeleted(old(s.db), bridge).Some?)
    ensures ok ==> s.lost == old(s.lost) + if read then 0 else 1
    ensures !ok ==> s.db == old(s.db)
    ensures ok ==> (if read then EmptyBridgeDeleted(old(s.db), bridge) else UnreadBridgeDeleted(old(s.db), bridge)) == Some(s.db)
  {
    hide Integrity, Commit, ApplyAll, HasBridge, HasPorts;
    var found;
    found, read := DoesBridgeContainInterfaces(s, bridge);
    ok := true;
    if !found {
      ok := DeleteBridge(s, bridge);
    }
  }

  /** DEL on the host, of the port whose name ADD saved. When it succeeds the rows are the
      outcome of the reads that were answered; when it fails the port at most is gone. */
  method DelFromHost(s: Server, conf: OvsConf, saved: Option<string>) returns (ok: bool, ghost portRead: bool, ghost bridgeRead: bool)
    requires Integrity(s.db)
    modifies s
    ensures Integrity(s.db) && s.lost >= old(s.lost)
    ensures s.lost == old(s.lost) ==>
              (ok <==> saved.Some? && conf.ifType == "vhostuser" && DelResult(old(s.db), saved.value, DelBridge(conf)).Some?)
    ensures ok ==> s.lost == old(s.lost) + (if portRead then 0 else 1) + if bridgeRead then 0 else 1
    ensures s.lost == old(s.lost) || !ok ==>
              forall c, n :: On(old(s.db), c, n) && !(c == DelBridge(conf) && saved == Some(n)) ==> On(s.db, c, n)
    ensures ok ==> saved.Some? && conf.ifType == "vhostuser"
    ensures saved == None || conf.ifType != "vhostuser" ==> s.db == old(s.db)
    ensures ok ==> DelOutcome(old(s.db), saved.value, DelBridge(conf), portRead, bridgeRead) == Some(s.db)
    ensures !ok ==> || s.db == old(s.db)
                    || (saved.Some? && portRead && PortDeleted(old(s.db), saved.value, DelBridge(conf)) == Some(s.db))
    ensures saved.Some? ==> TryOk(old(s.db), TryDel(DelBridge(conf), saved.value, ok, portRead, bridgeRead), s.db)
    ensures ok && portRead && bridgeRead ==> StepOk(old(s.db), Deleted(DelBridge(conf), saved.value), s.db)
  {
    ok, portRead, bridgeRead := RunDel(s, conf, saved);
    hide Integrity, On, DelOutcome, PortDeleted, TryOk;
    if saved.Some? && (s.lost == old(s.lost) || !ok) {
      DelSpares(old(s.db), s.db, DelBridge(conf), saved.value, ok, portRead, bridgeRead);
    }
  }

  /** The steps of DEL. */
  method RunDel(s: Server, conf: OvsConf, saved: Option<string>) returns (ok: bool, ghost portRead: bool, ghost bridgeRead: bool)
    requires Integrity(s.db)
    modifies s
    ensures Integrity(s.db) && s.lost >= old(s.lost)
    ensures s.lost == old(s.lost) ==>
              (ok <==> saved.Some? && conf.ifType == "vhostuser" && DelResult(old(s.db), saved.value, DelBridge(conf)).Some?)
    ensures ok ==> s.lost == old(s.lost) + (if portRead then 0 else 1) + if bridgeRead then 0 else 1
    ensures ok ==> saved.Some? && conf.ifType == "vhostuser"
    ensures saved == None || conf.ifType != "vhostuser" ==> s.db == old(s.db)
    ensures saved.Some? ==> TryOk(old(s.db), TryDel(DelBridge(conf), saved.value, ok, portRead, bridgeRead), s.db)
  {
    hide Integrity, PortDeleted, EmptyBridgeDeleted, UnreadBridgeDeleted;
    portRead, bridgeRead := false, false;
    if saved == None {
      return false, portRead, bridgeRead;
    }
    var bridge := conf.bridgeName;
    if bridge == "" {
      bridge := DEFAULT_BRIDGE;
    }
    if conf.ifType != "vhostuser" {
      return false, portRead, bridgeRead;
    }
    ok, portRead := DeleteVhostPort(s, saved.value, bridge);
    if !ok {
      return;
    }
    var dirCleaned := s.Works();
    if !dirCleaned {
      return false, portRead, bridgeRead;
    }
    ok, bridgeRead := DelLocalNetworkBridge(s, bridge);
  }

  /** A DEL that fails, or reads everything, leaves every other port where it was. */
  lemma DelSpares(d: Db, d': Db, bridge: string, name: string, ok: bool, portRead: bool, bridgeRead: bool)
    requires Integrity(d) && TryOk(d, TryDel(bridge, name, ok, portRead, bridgeRead), d') && (ok ==> bridgeRead)
    ensures forall c, n :: On(d, c, n) && !(c == bridge && n == name) ==> On(d', c, n)
  {
    hide Integrity, On, DelOutcome, PortDeleted;
    if ok {
      OutcomeShows(d, name, bridge, portRead, bridgeRead);
    } else if d' != d {
      PortDeletedDropsOne(d, name, bridge);
    }
  }

  // ----- ADD, then DEL, of the same attachment

  /** DEL finds the bridge of ADD again if and only if the bridge is named or the port does not
      bind to OVN. */
  lemma SameBridge(conf: OvsConf)
    ensures AddBridge(conf) == DelBridge(conf) <==> conf.bridgeName != "" || conf.cfg.ovnPort == ""
    ensures conf.bridgeName != "" ==> AddBridge(conf) == conf.bridgeName
    ensures conf.bridgeName == "" && conf.cfg.ovnPort != "" ==> AddBridge(conf) == "br-int" && DelBridge(conf) == "br0"
  {
    assert OVN_BRIDGE[2] != DEFAULT_BRIDGE[2];
  }

  /** Two attachments that do not name their ports have different ones, unless the first twelve
      characters of the ids and the interface names are the same. */
  lemma PortsApart(conf: OvsConf, conf': OvsConf)
    requires HasId(conf) && HasId(conf') && conf.socketfile == conf'.socketfile == ""
    ensures PortName(conf) == PortName(conf') <==>
              conf.cfg.containerId[..12] == conf'.cfg.containerId[..12] && conf.cfg.ifName == conf'.cfg.ifName
  {
    var n, n' := PortName(conf), PortName(conf');
    assert n[..12] == conf.cfg.containerId[..12] && n'[..12] == conf'.cfg.containerId[..12];
    assert n[13..] == conf.cfg.ifName && n'[13..] == conf'.cfg.ifName;
  }

  /** The DEL of an attachment fails if and only if ADD put it on the integration bridge by
      default. Otherwise it restores every row if and only if the bridge was not there empty. */
  lemma RoundTrip(d: Db, d': Db, u: nat, p: nat, i: nat, conf: OvsConf, path: string)
    requires HasId(conf) && Integrity(d) && AddedOn(d, d', u, p, i, conf, path)
    ensures var r := DelResult(d', PortName(conf), DelBridge(conf));
            && (r == None <==> conf.bridgeName == "" && conf.cfg.ovnPort != "")
            && (r.Some? ==> (r == Some(d) <==> !EmptyBridge(d, AddBridge(conf))))
  {
    SameBridge(conf);
    var bridge := AddBridge(conf);
    hide Integrity, IfaceFor, DelResult, AddBridge, DelBridge, PortName;
    AddThenDel(d, d', u, p, i, AddedPort(conf, i), AddedIface(conf, path), bridge, DelBridge(conf));
    if EmptyBridge(d, bridge) {
      var b := BridgeId(d, bridge);
      assert b in d.bridges && b !in WithoutBridge(d, b).bridges;
    }
  }

  // ----- Runs

  /** Port `n` is on bridge `bridge`. */
  ghost predicate On(d: Db, bridge: string, n: string) {
    exists b, p :: IsBridge(d, b, bridge) && IsPort(d, p, n) && p in d.bridges[b].ports
  }

  /** Every bridge has a port. */
  ghost predicate Snug(d: Db) {
    forall b :: b in d.bridges ==> d.bridges[b].ports != {}
  }

  ghost predicate Shows(d: Db, pairs: set<(string, string)>) {
    forall bridge, n :: On(d, bridge, n) <==> (bridge, n) in pairs
  }

  datatype Event = Added(bridge: string, port: string) | Deleted(bridge: string, port: string)

  ghost predicate StepOk(d: Db, e: Event, d': Db) {
    match e
    case Added(bridge, n) => exists u: nat, p: nat, i: nat, port: PortRow, iface: IfaceRow :: port.name == n && AddDone(d, d', u, p, i, port, iface, bridge)
    case Deleted(bridge, n) => DelResult(d, n, bridge) == Some(d')
  }

  ghost predicate IsRun(dbs: seq<Db>, events: seq<Event>) {
    |dbs| == |events| + 1 && forall k :: 0 <= k < |events| ==> StepOk(dbs[k], events[k], dbs[k + 1])
  }

  function Expected(pairs: set<(string, string)>, events: seq<Event>): set<(string, string)> {
    if events == [] then pairs
    else
      var before := Expected(pairs, events[..|events| - 1]);
      match events[|events| - 1]
      case Added(bridge, n) => before + {(bridge, n)}
      case Deleted(bridge, n) => before - {(bridge, n)}
  }

  lemma BridgeAddsNothing(d: Db, u: nat, bridge: string, c: string, n: string)
    requires u !in d.bridges
    ensures On(WithBridge(d, u, bridge), c, n) <==> On(d, c, n)
  {
    var d1 := WithBridge(d, u, bridge);
    if b, p :| IsBridge(d1, b, c) && IsPort(d1, p, n) && p in d1.bridges[b].ports {
      assert IsBridge(d, b, c) && IsPort(d, p, n);
    }
    if b, p :| IsBridge(d, b, c) && IsPort(d, p, n) && p in d.bridges[b].ports {
      assert IsBridge(d1, b, c) && IsPort(d1, p, n);
    }
  }

  lemma PortAddsOne(d: Db, p: nat, i: nat, port: PortRow, iface: IfaceRow, bridge: string, c: string, n: string)
    requires Live(d) && p !in d.ports && HasBridge(d, bridge)
    ensures On(WithPort(d, p, i, port, iface, bridge), c, n) <==> On(d, c, n) || (c == bridge && n == port.name)
  {
    var d1 := WithPort(d, p, i, port, iface, bridge);
    if b, q :| IsBridge(d1, b, c) && IsPort(d1, q, n) && q in d1.bridges[b].ports {
      assert IsBridge(d, b, c);
      if q != p {
        assert IsPort(d, q, n) && q in d.bridges[b].ports;
      } else {
        assert p !in d.bridges[b].ports;
      }
    }
    if b, q :| IsBridge(d, b, c) && IsPort(d, q, n) && q in d.bridges[b].ports {
      assert IsBridge(d1, b, c) && IsPort(d1, q, n) && q in d1.bridges[b].ports;
    }
    if c == bridge && n == port.name {
      var b :| b in d.bridges && IsBridge(d, b, bridge);
      assert IsBridge(d1, b, c) && IsPort(d1, p, n) && p in d1.bridges[b].ports;
    }
  }

  lemma AddAddsOne(d: Db, d': Db, u: nat, p: nat, i: nat, port: PortRow, iface: IfaceRow, bridge: string)
    requires Integrity(d) && AddDone(d, d', u, p, i, port, iface, bridge)
    ensures Integrity(d')
    ensures forall c, n :: On(d', c, n) <==> On(d, c, n) || (c == bridge && n == port.name)
    ensures Snug(d) ==> Snug(d')
  {
    var d1 := AddedBridge(d, d', u, p, i, port, iface, bridge);
    AddKeepsSnug(d, d1, u, p, i, port, iface, bridge);
    hide NoGarbage, Unique, HasPort, HasIface, WithBridge, WithPort, Snug;
    WithPortIntegrity(d1, p, i, port, iface, bridge);
    forall c, n ensures On(d', c, n) <==> On(d, c, n) || (c == bridge && n == port.name) {
      if !HasBridge(d, bridge) {
        BridgeAddsNothing(d, u, bridge, c, n);
      }
      PortAddsOne(d1, p, i, port, iface, bridge, c, n);
    }
  }

  lemma AddKeepsSnug(d: Db, d1: Db, u: nat, p: nat, i: nat, port: PortRow, iface: IfaceRow, bridge: string)
    requires d1 == (if HasBridge(d, bridge) then d else WithBridge(d, u, bridge))
    ensures Snug(d) ==> Snug(WithPort(d1, p, i, port, iface, bridge))
  {
    var d' := WithPort(d1, p, i, port, iface, bridge);
    if Snug(d) {
      forall b | b in d'.bridges ensures d'.bridges[b].ports != {} {
        if b in d.bridges && d1.bridges[b] == d.bridges[b] {
          var q :| q in d.bridges[b].ports;
          assert q in d'.bridges[b].ports;
        } else {
          assert p in d'.bridges[b].ports;
        }
      }
    }
  }

  lemma PortDropsOne(d: Db, d1: Db, p: nat, name: string, bridge: string, c: string, n: string)
    requires Integrity(d) && IsPort(d, p, name) && Detachable(d, p, name, bridge)
    requires d1.ports == d.ports - {p} && d1.bridges == WithPorts(d.bridges, bridge, {}, {p})
    ensures On(d1, c, n) <==> On(d, c, n) && !(c == bridge && n == name)
  {
    if b, q :| IsBridge(d1, b, c) && IsPort(d1, q, n) && q in d1.bridges[b].ports {
      assert IsBridge(d, b, c) && IsPort(d, q, n) && q in d.bridges[b].ports;
      assert n != name;
    }
    if On(d, c, n) && !(c == bridge && n == name) {
      var b, q :| IsBridge(d, b, c) && IsPort(d, q, n) && q in d.bridges[b].ports;
      assert q != p;
      assert IsBridge(d1, b, c) && IsPort(d1, q, n) && q in d1.bridges[b].ports;
    }
  }

  lemma NotOn(d: Db, name: string, c: string)
    requires !HasPort(d, name)
    ensures !On(d, c, name)
  {
    assert forall p :: IsPort(d, p, name) ==> p in d.ports;
  }

  lemma EmptyBridgeShowsNothing(d: Db, u: nat, c: string, n: string)
    requires u in d.bridges && d.bridges[u].ports == {}
    ensures On(WithoutBridge(d, u), c, n) <==> On(d, c, n)
  {
    var d1 := WithoutBridge(d, u);
    if b, p :| IsBridge(d1, b, c) && IsPort(d1, p, n) && p in d1.bridges[b].ports {
      assert IsBridge(d, b, c) && IsPort(d, p, n);
    }
    if b, p :| IsBridge(d, b, c) && IsPort(d, p, n) && p in d.bridges[b].ports {
      assert IsBridge(d1, b, c) && IsPort(d1, p, n);
    }
  }

  lemma PortDeletedDropsOne(d: Db, name: string, bridge: string)
    requires Integrity(d) && PortDeleted(d, name, bridge).Some?
    ensures var d1 := PortDeleted(d, name, bridge).value;
            forall c, n :: On(d1, c, n) <==> On(d, c, n) && !(c == bridge && n == name)
  {
    var d1 := PortDeleted(d, name, bridge).value;
    hide PortDeleted;
    PortDeletedFacts(d, name, bridge);
    hide Live, NoGarbage, Unique, Detachable, WithPorts, On;
    forall c, n ensures On(d1, c, n) <==> On(d, c, n) && !(c == bridge && n == name) {
      if HasPort(d, name) {
        PortDropsOne(d, d1, PortId(d, name), name, bridge, c, n);
      } else {
        NotOn(d, name, c);
      }
    }
  }

  /** All bridges but `bridge` have a port. */
  ghost predicate SnugBut(d: Db, bridge: string) {
    forall b :: b in d.bridges && d.bridges[b].name != bridge ==> d.bridges[b].ports != {}
  }

  lemma OnlyThisBridgeChanges(d: Db, d1: Db, p: nat, bridge: string)
    requires Snug(d) && d1.bridges == WithPorts(d.bridges, bridge, {}, {p})
    ensures SnugBut(d1, bridge)
  {
  }

  lemma PortDeletedSnug(d: Db, name: string, bridge: string)
    requires Integrity(d) && PortDeleted(d, name, bridge).Some? && Snug(d)
    ensures SnugBut(PortDeleted(d, name, bridge).value, bridge)
  {
    hide PortDeleted, Live, NoGarbage, Unique, Detachable, HasPort, WithPorts;
    PortDeletedFacts(d, name, bridge);
    if HasPort(d, name) {
      hide Snug;
      OnlyThisBridgeChanges(d, PortDeleted(d, name, bridge).value, PortId(d, name), bridge);
    }
  }

  lemma BridgeDeletedShows(d: Db, d': Db, bridge: string)
    requires Integrity(d) && EmptyBridgeDeleted(d, bridge) == Some(d')
    ensures Integrity(d')
    ensures forall c, n :: On(d', c, n) <==> On(d, c, n)
    ensures SnugBut(d, bridge) ==> Snug(d')
  {
    hide Live, NoGarbage, On, Commit;
    EmptyBridgeDeletedResult(d, bridge);
    if !HasPorts(d, bridge) {
      var b := BridgeId(d, bridge);
      BridgeIdUnique(d, b, bridge);
      hide EmptyBridgeDeleted, HasPorts, HasBridge, WithoutBridge;
      SnugWithout(d, b, bridge);
      forall c, n ensures On(d', c, n) <==> On(d, c, n) {
        EmptyBridgeShowsNothing(d, b, c, n);
      }
    } else {
      SnugWith(d, bridge);
    }
  }

  lemma DelDropsOne(d: Db, d': Db, name: string, bridge: string)
    requires Integrity(d) && DelResult(d, name, bridge) == Some(d')
    ensures Integrity(d')
    ensures forall c, n :: On(d', c, n) <==> On(d, c, n) && !(c == bridge && n == name)
    ensures Snug(d) ==> Snug(d')
  {
    hide Live, NoGarbage, Unique, On, Detachable, Snug, SnugBut, PortDeleted, EmptyBridgeDeleted, WithPorts, HasPort;
    var d1 := PortDeleted(d, name, bridge).value;
    PortDeletedDropsOne(d, name, bridge);
    PortDeletedFacts(d, name, bridge);
    if Snug(d) {
      PortDeletedSnug(d, name, bridge);
    }
    BridgeDeletedShows(d1, d', bridge);
  }

  lemma SnugWithout(d: Db, b: nat, bridge: string)
    requires Unique(d) && IsBridge(d, b, bridge) && d.bridges[b].ports == {}
    ensures SnugBut(d, bridge) ==> Snug(WithoutBridge(d, b))
  {
  }

  lemma SnugWith(d: Db, bridge: string)
    requires Unique(d) && HasPorts(d, bridge)
    ensures SnugBut(d, bridge) ==> Snug(d)
  {
    var b :| b in d.bridges && IsBridge(d, b, bridge) && d.bridges[b].ports != {};
  }

  /** Over any run of ADDs and DELs, the ports on the bridges are exactly those added and not
      deleted since, and the database keeps its integrity and has no bridge without a port. */
  lemma {:induction false} RunShows(dbs: seq<Db>, events: seq<Event>, pairs: set<(string, string)>)
    requires IsRun(dbs, events) && Integrity(dbs[0]) && Snug(dbs[0]) && Shows(dbs[0], pairs)
    ensures var d := dbs[|events|];
            Integrity(d) && Snug(d) && Shows(d, Expected(pairs, events))
  {
    hide Integrity, Snug, On;
    if events != [] {
      var n := |events| - 1;
      RunShows(dbs[..n + 1], events[..n], pairs);
      assert StepOk(dbs[n], events[n], dbs[n + 1]);
      StepShows(dbs[n], events[n], dbs[n + 1], Expected(pairs, events[..n]));
    }
  }

  lemma StepShows(d: Db, e: Event, d': Db, pairs: set<(string, string)>)
    requires StepOk(d, e, d') && Integrity(d) && Snug(d) && Shows(d, pairs)
    ensures Integrity(d') && Snug(d')
    ensures Shows(d', if e.Added? then pairs + {(e.bridge, e.port)} else pairs - {(e.bridge, e.port)})
  {
    hide Integrity, Snug, On, AddDone, DelResult;
    match e {
      case Added(bridge, n) =>
        var u: nat, p: nat, i: nat, port: PortRow, iface: IfaceRow :| port.name == n && AddDone(d, d', u, p, i, port, iface, bridge);
        AddAddsOne(d, d', u, p, i, port, iface, bridge);
      case Deleted(bridge, n) =>
        DelDropsOne(d, d', n, bridge);
    }
  }

  /** So a bridge is there exactly as long as some port on it is. */
  lemma BridgeWhilePorts(d: Db, bridge: string)
    requires Integrity(d) && Snug(d)
    ensures HasBridge(d, bridge) <==> exists n :: On(d, bridge, n)
  {
    if HasBridge(d, bridge) {
      var b := BridgeId(d, bridge);
      assert IsBridge(d, b, bridge);
      var p :| p in d.bridges[b].ports;
      assert IsPort(d, p, d.ports[p].name);
      assert On(d, bridge, d.ports[p].name);
    }
    if n :| On(d, bridge, n) {
      var b, p :| IsBridge(d, b, bridge) && IsPort(d, p, n) && p in d.bridges[b].ports;
      assert HasBridge(d, bridge);
    }
  }

  // ----- Runs in which anything may fail

  /** An ADD or a DEL, whether it succeeded, and which reads of the DEL were answered. */
  datatype Try =
    | TryAdd(bridge: string, port: string, ok: bool)
    | TryDel(bridge: string, port: string, ok: bool, portRead: bool, bridgeRead: bool)

  ghost predicate Adds(d: Db, bridge: string, n: string, d': Db) {
    exists u: nat, p: nat, i: nat, port: PortRow, iface: IfaceRow :: port.name == n && AddDone(d, d', u, p, i, port, iface, bridge)
  }

  ghost predicate MakesBridge(d: Db, bridge: string, d': Db) {
    !HasBridge(d, bridge) && exists u :: u !in d.bridges && d' == WithBridge(d, u, bridge)
  }

  ghost predicate TryOk(d: Db, e: Try, d': Db) {
    match e
    case TryAdd(bridge, n, ok) => Adds(d, bridge, n, d') || (!ok && (d' == d || MakesBridge(d, bridge, d')))
    case TryDel(bridge, n, ok, portRead, bridgeRead) =>
      if ok then DelOutcome(d, n, bridge, portRead, bridgeRead) == Some(d')
      else d' == d || (portRead && PortDeleted(d, n, bridge) == Some(d'))
  }

  ghost predicate IsTries(dbs: seq<Db>, tries: seq<Try>) {
    |dbs| == |tries| + 1 && forall k :: 0 <= k < |tries| ==> TryOk(dbs[k], tries[k], dbs[k + 1])
  }

  function OffBridge(pairs: set<(string, string)>, bridge: string): set<(string, string)> {
    set e | e in pairs && e.0 != bridge
  }

  /** What a DEL that succeeded leaves of the shown ports. */
  function AfterDel(pairs: set<(string, string)>, bridge: string, n: string, portRead: bool, bridgeRead: bool): set<(string, string)> {
    var left := if portRead then pairs - {(bridge, n)} else pairs;
    if bridgeRead then left else OffBridge(left, bridge)
  }

  /** The ports that must be shown after the tries, and those that may be. */
  function Sure(pairs: set<(string, string)>, tries: seq<Try>): set<(string, string)> {
    if tries == [] then pairs
    else
      var before := Sure(pairs, tries[..|tries| - 1]);
      match tries[|tries| - 1]
      case TryAdd(bridge, n, ok) => if ok then before + {(bridge, n)} else before
      case TryDel(bridge, n, ok, portRead, bridgeRead) =>
        if ok then AfterDel(before, bridge, n, portRead, bridgeRead) else before - {(bridge, n)}
  }

  function Possible(pairs: set<(string, string)>, tries: seq<Try>): set<(string, string)> {
    if tries == [] then pairs
    else
      var before := Possible(pairs, tries[..|tries| - 1]);
      match tries[|tries| - 1]
      case TryAdd(bridge, n, ok) => before + {(bridge, n)}
      case TryDel(bridge, n, ok, portRead, bridgeRead) =>
        if ok then AfterDel(before, bridge, n, portRead, bridgeRead) else before
  }

  ghost predicate Within(d: Db, low: set<(string, string)>, high: set<(string, string)>) {
    forall bridge, n :: ((bridge, n) in low ==> On(d, bridge, n)) && (On(d, bridge, n) ==> (bridge, n) in high)
  }

  /** Deleting a bridge unread takes away exactly what was on it. */
  lemma UnreadShows(d: Db, bridge: string)
    requires Integrity(d) && UnreadBridgeDeleted(d, bridge).Some?
    ensures var d' := UnreadBridgeDeleted(d, bridge).value;
            Integrity(d') && forall c, n :: On(d', c, n) <==> On(d, c, n) && c != bridge
  {
    var u := BridgeId(d, bridge);
    assert IsBridge(d, u, bridge);
    DeleteBridgeCommits(d, u, bridge);
    var d' := UnreadBridgeDeleted(d, bridge).value;
    assert d'.bridges == d.bridges - {u};
    assert forall p :: p in d'.ports <==> exists b :: b in d.bridges && b != u && p in d.bridges[b].ports;
    assert forall p :: p in d'.ports ==> p in d.ports && d'.ports[p] == d.ports[p];
    hide UnreadBridgeDeleted, Commit, Integrity, ApplyAll;
    assert Unique(d) && Live(d) by {
      Parts(d);
    }
    forall c, n ensures On(d', c, n) <==> On(d, c, n) && c != bridge {
      BridgeGone(d, d', u, bridge, c, n);
    }
  }

  lemma Parts(d: Db)
    requires Integrity(d)
    ensures Unique(d) && Live(d)
  {
  }

  lemma BridgeGone(d: Db, d': Db, u: nat, bridge: string, c: string, n: string)
    requires Unique(d) && Live(d) && IsBridge(d, u, bridge) && d'.bridges == d.bridges - {u}
    requires forall p :: p in d'.ports <==> exists b :: b in d.bridges && b != u && p in d.bridges[b].ports
    requires forall p :: p in d'.ports ==> p in d.ports && d'.ports[p] == d.ports[p]
    ensures On(d', c, n) <==> On(d, c, n) && c != bridge
  {
    if On(d', c, n) {
      var b, p :| IsBridge(d', b, c) && IsPort(d', p, n) && p in d'.bridges[b].ports;
      assert IsBridge(d, b, c) && IsPort(d, p, n) && p in d.bridges[b].ports;
    }
    if On(d, c, n) && c != bridge {
      var b, p :| IsBridge(d, b, c) && IsPort(d, p, n) && p in d.bridges[b].ports;
      assert IsBridge(d', b, c) && IsPort(d', p, n) && p in d'.bridges[b].ports;
    }
  }

  lemma OutcomeShows(d: Db, name: string, bridge: string, portRead: bool, bridgeRead: bool)
    requires Integrity(d) && DelOutcome(d, name, bridge, portRead, bridgeRead).Some?
    ensures var d' := DelOutcome(d, name, bridge, portRead, bridgeRead).value;
            && Integrity(d')
            && forall c, n :: On(d', c, n) <==> On(d, c, n) && !(portRead && c == bridge && n == name) && (bridgeRead || c != bridge)
  {
    hide Integrity, On, PortDeleted, EmptyBridgeDeleted, UnreadBridgeDeleted;
    var d1 := if portRead then PortDeleted(d, name, bridge).value else d;
    if portRead {
      PortDeletedDropsOne(d, name, bridge);
      PortDeletedIntegrity(d, name, bridge);
    }
    if bridgeRead {
      BridgeDeletedShows(d1, EmptyBridgeDeleted(d1, bridge).value, bridge);
    } else {
      UnreadShows(d1, bridge);
    }
  }

  lemma PortDeletedIntegrity(d: Db, name: string, bridge: string)
    requires Integrity(d) && PortDeleted(d, name, bridge).Some?
    ensures Integrity(PortDeleted(d, name, bridge).value)
  {
    hide PortDeleted, Live, NoGarbage, Unique, Detachable, WithPorts;
    PortDeletedFacts(d, name, bridge);
  }

  lemma TryWithin(d: Db, e: Try, d': Db, low: set<(string, string)>, high: set<(string, string)>)
    requires TryOk(d, e, d') && Integrity(d) && Within(d, low, high)
    ensures Integrity(d')
    ensures match e
            case TryAdd(bridge, n, ok) => Within(d', if ok then low + {(bridge, n)} else low, high + {(bridge, n)})
            case TryDel(bridge, n, ok, portRead, bridgeRead) =>
              if ok then Within(d', AfterDel(low, bridge, n, portRead, bridgeRead), AfterDel(high, bridge, n, portRead, bridgeRead))
              else Within(d', low - {(bridge, n)}, high)
  {
    hide Integrity, On, AddDone, DelOutcome, PortDeleted, WithBridge, HasBridge;
    match e {
      case TryAdd(bridge, n, ok) =>
        if Adds(d, bridge, n, d') {
          var u: nat, p: nat, i: nat, port: PortRow, iface: IfaceRow :| port.name == n && AddDone(d, d', u, p, i, port, iface, bridge);
          AddAddsOne(d, d', u, p, i, port, iface, bridge);
        } else if d' != d {
          MadeShows(d, d', bridge);
        }
      case TryDel(bridge, n, ok, portRead, bridgeRead) =>
        if ok {
          OutcomeShows(d, n, bridge, portRead, bridgeRead);
        } else if d' != d {
          PortDeletedDropsOne(d, n, bridge);
          PortDeletedIntegrity(d, n, bridge);
        }
    }
  }

  lemma MadeShows(d: Db, d': Db, bridge: string)
    requires Integrity(d) && MakesBridge(d, bridge, d')
    ensures Integrity(d') && forall c, n :: On(d', c, n) <==> On(d, c, n)
  {
    hide On, Integrity, WithBridge;
    var u :| u !in d.bridges && d' == WithBridge(d, u, bridge);
    WithBridgeIntegrity(d, u, bridge);
    forall c, n ensures On(d', c, n) <==> On(d, c, n) {
      BridgeAddsNothing(d, u, bridge, c, n);
    }
  }

  /** Over any run, whatever fails and whatever goes unread, the database keeps its integrity,
      and the ports on the bridges are all that must be there and none that cannot. */
  lemma {:induction false} TriesWithin(dbs: seq<Db>, tries: seq<Try>, pairs: set<(string, string)>)
    requires IsTries(dbs, tries) && Integrity(dbs[0]) && Shows(dbs[0], pairs)
    ensures Integrity(dbs[|tries|]) && Within(dbs[|tries|], Sure(pairs, tries), Possible(pairs, tries))
  {
    hide Integrity, On, TryOk;
    if tries != [] {
      var n := |tries| - 1;
      TriesWithin(dbs[..n + 1], tries[..n], pairs);
      TryWithin(dbs[n], tries[n], dbs[n + 1], Sure(pairs, tries[..n]), Possible(pairs, tries[..n]));
    }
  }
}
