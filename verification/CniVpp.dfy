/** CNI ADD and DEL of a memif on the host VPP. */
module CniVpp {
  import opened Wrappers
  import opened Vpp
  import opened Dataplane
  import opened Desired
  import opened Reconcile
  import opened Paths
  import M = MemifApi
  import Bridge

  datatype CmdArgs = CmdArgs(containerId: string, ifName: string)

  /** What ADD leaves on disk for DEL. */
  datatype SavedData = SavedData(swIfIndex: nat, socketId: uint32)

  function RoleOf(role: string): Option<Role> {
    if role == "master" then Some(Master) else if role == "slave" then Some(Slave) else None
  }

  /** ADD knows exactly these mode names; an unset mode is ethernet. */
  function ModeOf(mode: string): Option<Mode> {
    if mode == "" || mode == "ethernet" then Some(Ethernet)
    else if mode == "ip" then Some(Ip)
    else if mode == "inject-punt" then Some(PuntInject)
    else None
  }

  function SocketPath(conf: NetConf, args: CmdArgs, sharedDir: string): string {
    JoinPath(sharedDir, M.SocketFileName(conf.hostConf.memif.socketfile, args.containerId, args.ifName))
  }

  /** Host configurations whose ADD can succeed. */
  predicate Acceptable(conf: NetConf) {
    var h := conf.hostConf;
    && h.ifType == "memif" && RoleOf(h.memif.role).Some? && ModeOf(h.memif.mode).Some?
    && (h.netType == "interface" || (h.netType == "bridge" && BridgeDomainId(h.bridge).Some?))
  }

  /** Which these are: a memif, master or slave, of a mode ADD knows or none, on a numbered bridge
      domain or an interface of its own. */
  lemma AcceptableMeans(conf: NetConf)
    ensures var h := conf.hostConf;
            Acceptable(conf) <==>
              && h.ifType == "memif" && h.memif.role in ["master", "slave"]
              && h.memif.mode in ["", "ethernet", "ip", "inject-punt"]
              && (h.netType == "interface"
                  || (h.netType == "bridge" && (h.bridge.bridgeName == "" || ParseUint32(h.bridge.bridgeName).Some?)))
  {
    hide ParseUint32;
  }

  function TuningOf(h: UserSpaceConf): Tuning {
    var c := h.memif;
    Tuning(rxQueues := c.rxQueues, txQueues := c.txQueues, ringSize := c.ringSize, bufferSize := c.bufferSize,
           secret := c.secret, noZeroCopy := c.noZeroCopy, useDma := c.useDma, hwAddr := h.mac)
  }

  /** What ADD asks VPP for. */
  function AddRequest(conf: NetConf, args: CmdArgs, sharedDir: string): Request
    requires Acceptable(conf)
  {
    var h := conf.hostConf;
    Request(SocketPath(conf, args, sharedDir), RoleOf(h.memif.role).value, ModeOf(h.memif.mode).value, TuningOf(h),
            if h.mtu > 0 then ToUint32(h.mtu) else 0,
            if h.netType == "bridge" then {BridgeDomainId(h.bridge).value} else {})
  }

  /** ADD writes the socket file name and the mode it chose back into the configuration. */
  function Resolved(conf: NetConf, args: CmdArgs): NetConf {
    var m := conf.hostConf.memif;
    var m' := m.(socketfile := M.SocketFileName(m.socketfile, args.containerId, args.ifName),
                 mode := if m.mode == "" then "ethernet" else m.mode);
    conf.(hostConf := conf.hostConf.(memif := m'))
  }

  /** The tables after a successful ADD that created interface `x`. */
  ghost predicate AddDone(t: Tables, t': Tables, x: nat, r: Request) {
    && x !in t.ifaces && t'.ifaces.Keys == t.ifaces.Keys + {x}
    && Grown(t, t', r.role, {r.socket}) && Configured(t', x, r)
    && t'.bridges.Keys == t.bridges.Keys + r.bridge
    && (if r.socket in t.sockets.Values then t'.sockets == t.sockets
        else exists id :: M.IsLeastFree(t.sockets.Keys, id) && t'.sockets == t.sockets[id := r.socket])
  }

  // ----- ADD

  method AddLocalDeviceMemif(ch: Node, conf: NetConf, args: CmdArgs, sharedDir: string)
    returns (ok: bool, conf': NetConf, data: SavedData)
    requires Inv(ch.vpp) && conf.hostConf.ifType == "memif"
    modifies ch
    ensures Inv(ch.vpp) && ch.lost >= old(ch.lost)
    ensures ok <==>
              && ch.lost == old(ch.lost) && RoleOf(conf.hostConf.memif.role).Some? && ModeOf(conf.hostConf.memif.mode).Some?
              && Creatable(old(ch.vpp), SocketPath(conf, args, sharedDir))
    ensures OnlyTouched(old(ch.files), ch.files, SocketPath(conf, args, sharedDir))
    ensures ok ==> RoleOf(conf.hostConf.memif.role).Some? && ModeOf(conf.hostConf.memif.mode).Some? && conf' == Resolved(conf, args)
    ensures ok ==> Created(old(ch.vpp), ch.vpp, data.swIfIndex, SocketPath(conf, args, sharedDir),
                           RoleOf(conf.hostConf.memif.role).value, ModeOf(conf.hostConf.memif.mode).value, TuningOf(conf.hostConf))
    ensures !ok ==> ch.vpp.ifaces == old(ch.vpp).ifaces && ch.vpp.bridges == old(ch.vpp).bridges
    ensures Kept(old(ch.vpp), ch.vpp)
  {
    hide Inv, Created, Kept;
    KeptSelf(ch.vpp);
    ok, conf', data := false, conf, SavedData(0, 0);
    var socketfile := M.SocketFileName(conf.hostConf.memif.socketfile, args.containerId, args.ifName);
    conf' := conf'.(hostConf := conf'.hostConf.(memif := conf'.hostConf.memif.(socketfile := socketfile)));
    var path := JoinPath(sharedDir, socketfile);
    var role := RoleOf(conf.hostConf.memif.role);
    if role == None {
      return;
    }
    if conf'.hostConf.memif.mode == "" {
      conf' := conf'.(hostConf := conf'.hostConf.(memif := conf'.hostConf.memif.(mode := "ethernet")));
    }
    var mode := ModeOf(conf'.hostConf.memif.mode);
    if mode == None {
      return;
    }
    var socketId;
    ok, socketId := M.CreateMemifSocket(ch, path);
    KeptRegistered(old(ch.vpp), ch.vpp, socketId, path);
    if !ok {
      return;
    }
    ghost var t1 := ch.vpp;
    VacantId(old(ch.vpp), t1, socketId, path);
    var x;
    var c := conf.hostConf.memif;
    var tuning := Tuning(rxQueues := c.rxQueues, txQueues := c.txQueues, ringSize := c.ringSize, bufferSize := c.bufferSize,
                         secret := c.secret, noZeroCopy := c.noZeroCopy, useDma := c.useDma, hwAddr := conf.hostConf.mac);
    var p := M.CreateParams(socketId, role.value, mode.value, tuning);
    ok, x := M.CreateMemifInterface(ch, p);
    data := SavedData(x, socketId);
    if ok {
      RequestCreated(old(ch.vpp), t1, x, path, p);
      CreatedKept(old(ch.vpp), ch.vpp, x, path, p.role, p.mode, p.tuning);
    }
  }

  /** Every interface there was is exactly as it was, with its filename and bridge domains. */
  ghost predicate Kept(t: Tables, t': Tables) {
    forall y :: y in t.ifaces ==> SameIface(t, t', y)
  }

  lemma KeptSelf(t: Tables)
    ensures Kept(t, t)
  {
  }

  lemma KeptRegistered(t: Tables, t': Tables, id: uint32, path: string)
    requires Inv(t) && (t' == t || (id !in t.sockets && t' == t.(sockets := t.sockets[id := path])))
    ensures Kept(t, t')
  {
    forall y | y in t.ifaces ensures SameIface(t, t', y) {
      assert IsMemif(t, y) ==> t.ifaces[y].socketId in t.sockets;
    }
  }

  lemma CreatedKept(t: Tables, t': Tables, x: nat, path: string, role: Role, mode: Mode, tuning: Tuning)
    requires Inv(t) && Created(t, t', x, path, role, mode, tuning)
    ensures Kept(t, t')
  {
    forall y | y in t.ifaces ensures SameIface(t, t', y) {
      assert IsMemif(t, y) ==> t.ifaces[y].socketId in t.sockets;
    }
  }

  /** Tuning a new interface keeps the others. */
  lemma TunedKept(t: Tables, t1: Tables, t2: Tables, x: nat)
    requires Kept(t, t1) && x !in t.ifaces && Tuned(t1, t2, x)
    ensures Kept(t, t2)
  {
    forall y | y in t.ifaces ensures SameIface(t, t2, y) {
      TunedSame(t1, t2, x, y);
      SameTransitive(t, t1, t2, y);
    }
  }

  lemma TunedSame(t: Tables, t': Tables, x: nat, y: nat)
    requires Tuned(t, t', x) && y != x && y in t.ifaces
    ensures SameIface(t, t', y)
  {
    assert IsMemif(t, y) ==> SocketOf(t', y) == SocketOf(t, y);
  }

  /** The interface exists with the requested row, in no bridge domain. */
  ghost predicate Created(t: Tables, t': Tables, x: nat, path: string, role: Role, mode: Mode, tuning: Tuning) {
    && x !in t.ifaces && t'.ifaces.Keys == t.ifaces.Keys + {x} && t'.bridges == t.bridges
    && Grown(t, t', role, {path})
    && IsMemif(t', x) && SocketOf(t', x) == path
    && t'.ifaces[x] == M.RequestedRow(M.CreateParams(t'.ifaces[x].socketId, role, mode, tuning))
    && (forall b :: !InBridge(t', b, x))
    && (if path in t.sockets.Values then t'.sockets == t.sockets
        else exists id :: M.IsLeastFree(t.sockets.Keys, id) && t'.sockets == t.sockets[id := path])
  }

  lemma RequestCreated(t: Tables, t1: Tables, x: nat, path: string, p: M.CreateParams)
    requires Inv(t) && Inv(t1) && x !in t.ifaces && p.socketId in t1.sockets && t1.sockets[p.socketId] == path
    requires path in t.sockets.Values ==> t1 == t
    requires path !in t.sockets.Values ==> M.IsLeastFree(t.sockets.Keys, p.socketId) && t1 == t.(sockets := t.sockets[p.socketId := path])
    ensures Created(t, t1.(ifaces := t1.ifaces[x := M.RequestedRow(p)]), x, path, p.role, p.mode, p.tuning)
  {
    hide M.WithDefaults;
    RegisteredGrown(t, t1, p.role, p.socketId, path);
    CreatedGrown(t, t1, x, M.RequestedRow(p), path);
    hide Grown;
    assert forall b :: !InBridge(t, b, x);
  }

  /** ADD on the host. On success exactly one interface was added, configured as requested, its
      index saved; in every case nothing that existed changed. */
  method AddOnHost(ch: Node, conf: NetConf, args: CmdArgs, sharedDir: string)
    returns (ok: bool, conf': NetConf, data: SavedData)
    requires Inv(ch.vpp) && |args.containerId| >= 12
    modifies ch
    ensures Inv(ch.vpp) && ch.lost >= old(ch.lost)
    ensures ok <==> ch.lost == old(ch.lost) && Acceptable(conf) && Creatable(old(ch.vpp), SocketPath(conf, args, sharedDir))
    ensures ok ==> Acceptable(conf) && conf' == Resolved(conf, args)
    ensures ok ==> IsMemif(ch.vpp, data.swIfIndex) && TunedAs(ch.vpp.ifaces[data.swIfIndex], conf.hostConf)
    ensures ch.vpp.ifaces.Keys <= old(ch.vpp).ifaces.Keys + {data.swIfIndex}
    ensures OnlyTouched(old(ch.files), ch.files, SocketPath(conf, args, sharedDir))
    ensures ok ==> AddDone(old(ch.vpp), ch.vpp, data.swIfIndex, AddRequest(conf, args, sharedDir))
    ensures Kept(old(ch.vpp), ch.vpp)
  {
    hide Inv, Created, Tuned, AddDone, Kept, TunedAs, OnlyTouched, Creatable, BridgeDomainId, ToUint32, AddRequest, SocketPath;
    ok, conf', data := false, conf, SavedData(0, 0);
    KeptSelf(ch.vpp);
    UntouchedFiles(ch.files, SocketPath(conf, args, sharedDir));
    var h := conf.hostConf;
    if h.ifType != "memif" {
      return;
    }
    ok, conf', data := AddLocalDeviceMemif(ch, conf, args, sharedDir);
    if !ok {
      return;
    }
    var x := data.swIfIndex;
    ghost var t0, t1 := old(ch.vpp), ch.vpp;
    CreatedFacts(t0, t1, x, SocketPath(conf, args, sharedDir), RoleOf(h.memif.role).value, ModeOf(h.memif.mode).value, TuningOf(h));
    ok := JoinNetwork(ch, h, x);
    TunedFacts(t1, ch.vpp, x);
    TunedKept(t0, t1, ch.vpp, x);
    if !ok {
      return;
    }
    AddDoneFrom(t0, t1, ch.vpp, x, conf, args, sharedDir);
    DoneConfigured(t0, ch.vpp, x, AddRequest(conf, args, sharedDir));
    AddedTuned(conf, args, sharedDir, ch.vpp, x);
    ok := ch.Works();
  }

  lemma UntouchedFiles(files: map<string, int>, path: string)
    ensures OnlyTouched(files, files, path)
  {
  }

  lemma DoneConfigured(t: Tables, t': Tables, x: nat, r: Request)
    requires AddDone(t, t', x, r)
    ensures Configured(t', x, r)
  {
  }

  /** The bridge domains ADD joins. */
  function Domains(h: UserSpaceConf): set<uint32>
    requires h.netType == "bridge" ==> BridgeDomainId(h.bridge).Some?
  {
    if h.netType == "bridge" then {BridgeDomainId(h.bridge).value} else {}
  }

  /** The steps of ADD after the interface is there. */
  method JoinNetwork(ch: Node, h: UserSpaceConf, x: nat) returns (ok: bool)
    requires Inv(ch.vpp) && IsMemif(ch.vpp, x)
    modifies ch`vpp, ch`lost
    ensures Inv(ch.vpp) && Tuned(old(ch.vpp), ch.vpp, x) && ch.lost >= old(ch.lost)
    ensures ok <==> ch.lost == old(ch.lost) && (h.netType == "interface" || (h.netType == "bridge" && BridgeDomainId(h.bridge).Some?))
    ensures ok ==> ch.vpp.bridges.Keys == old(ch.vpp).bridges.Keys + Domains(h)
    ensures ok ==> forall c :: InBridge(ch.vpp, c, x) <==> if h.netType == "bridge" then c in Domains(h) else InBridge(old(ch.vpp), c, x)
    ensures ok ==> var mtu := if h.mtu > 0 then ToUint32(h.mtu) else 0;
                   ch.vpp.ifaces[x] == old(ch.vpp).ifaces[x].(up := true, mtu := if mtu > 0 then mtu else old(ch.vpp).ifaces[x].mtu)
  {
    hide Inv, Tuned, Bridge.OnlyMoves, BridgeDomainId, ToUint32, InBridge;
    ghost var t1 := ch.vpp;
    ok := BringUp(ch, x, if h.mtu > 0 then ToUint32(h.mtu) else 0);
    ghost var t2 := ch.vpp;
    TunedFacts(t1, t2, x);
    SameBridges(t1, t2, x);
    if !ok {
      return;
    }
    if h.netType == "bridge" {
      var bd := BridgeDomainId(h.bridge);
      if bd == None {
        return false;
      }
      ok := Bridge.AddBridgeInterface(ch, bd.value, x);
      MovedTuned(t2, ch.vpp, x);
      MovedKeepsIfaces(t2, ch.vpp, x);
      TunedTransitive(t1, t2, ch.vpp, x);
    } else if h.netType != "interface" {
      return false;
    }
  }

  lemma SameBridges(t: Tables, t': Tables, x: nat)
    requires t'.bridges == t.bridges
    ensures forall c :: InBridge(t', c, x) <==> InBridge(t, c, x)
  {
  }

  /** The row ADD makes: tuned as the configuration says, up, in the role and with the MTU it gives. */
  lemma AddedTuned(conf: NetConf, args: CmdArgs, sharedDir: string, t: Tables, x: nat)
    requires Acceptable(conf) && Configured(t, x, AddRequest(conf, args, sharedDir))
    ensures TunedAs(t.ifaces[x], conf.hostConf) && t.ifaces[x].up
    ensures t.ifaces[x].role == if conf.hostConf.memif.role == "master" then Master else Slave
    ensures conf.hostConf.memif.mode in ["", "ethernet"] ==> t.ifaces[x].mode == Ethernet
    ensures conf.hostConf.memif.mode == "ip" ==> t.ifaces[x].mode == Ip
    ensures conf.hostConf.memif.mode == "inject-punt" ==> t.ifaces[x].mode == PuntInject
    ensures SocketOf(t, x) == SocketPath(conf, args, sharedDir)
    ensures t.ifaces[x].mtu as int == if conf.hostConf.mtu > 0 then conf.hostConf.mtu % 0x1_0000_0000 else 0
  {
    hide BridgeDomainId, SocketPath;
  }

  method BringUp(ch: Node, x: nat, mtu: uint32) returns (ok: bool)
    requires Inv(ch.vpp) && IsMemif(ch.vpp, x)
    modifies ch`vpp, ch`lost
    ensures Inv(ch.vpp) && Tuned(old(ch.vpp), ch.vpp, x)
    ensures ch.lost >= old(ch.lost) && (ok <==> ch.lost == old(ch.lost))
    ensures ch.vpp.bridges == old(ch.vpp).bridges
    ensures ok ==> ch.vpp.ifaces[x] == old(ch.vpp).ifaces[x].(up := true, mtu := if mtu > 0 then mtu else old(ch.vpp).ifaces[x].mtu)
  {
    hide Inv, Tuned, InBridge;
    ghost var t0 := ch.vpp;
    RowTuned(t0, x, t0.ifaces[x]);
    assert t0 == t0.(ifaces := t0.ifaces[x := t0.ifaces[x]]);
    ok := ch.SetUp(x);
    ghost var t1 := ch.vpp;
    if ok {
      RowTuned(t0, x, t0.ifaces[x].(up := true));
    }
    if ok && mtu > 0 {
      ok := ch.SetMtu(x, mtu);
      if ok {
        RowTuned(t1, x, t1.ifaces[x].(mtu := mtu));
        TunedTransitive(t0, t1, ch.vpp, x);
      }
    }
    TunedKeepsInv(t0, ch.vpp, x);
  }

  lemma CreatedFacts(t: Tables, t': Tables, x: nat, path: string, role: Role, mode: Mode, tuning: Tuning)
    requires Created(t, t', x, path, role, mode, tuning)
    ensures IsMemif(t', x) && x !in t.ifaces && t'.ifaces.Keys == t.ifaces.Keys + {x}
    ensures forall y :: y in t.ifaces ==> y in t'.ifaces && t'.ifaces[y] == t.ifaces[y]
  {
  }

  lemma TunedFacts(t: Tables, t': Tables, x: nat)
    requires Tuned(t, t', x)
    ensures IsMemif(t', x) && t'.ifaces.Keys == t.ifaces.Keys
    ensures forall y :: y in t.ifaces && y != x ==> t'.ifaces[y] == t.ifaces[y]
  {
  }

  lemma AddDoneFrom(t0: Tables, t1: Tables, t3: Tables, x: nat, conf: NetConf, args: CmdArgs, sharedDir: string)
    requires Acceptable(conf)
    requires Created(t0, t1, x, SocketPath(conf, args, sharedDir), RoleOf(conf.hostConf.memif.role).value,
                     ModeOf(conf.hostConf.memif.mode).value, TuningOf(conf.hostConf))
    requires Tuned(t1, t3, x) && t3.bridges.Keys == t1.bridges.Keys + Domains(conf.hostConf)
    requires var mtu := if conf.hostConf.mtu > 0 then ToUint32(conf.hostConf.mtu) else 0;
             t3.ifaces[x] == t1.ifaces[x].(up := true, mtu := if mtu > 0 then mtu else t1.ifaces[x].mtu)
    requires forall c :: InBridge(t3, c, x) <==> if conf.hostConf.netType == "bridge" then c in Domains(conf.hostConf) else InBridge(t1, c, x)
    ensures AddDone(t0, t3, x, AddRequest(conf, args, sharedDir))
  {
    var r := AddRequest(conf, args, sharedDir);
    hide BridgeDomainId, TuningOf, ToUint32, RoleOf, ModeOf, M.IsLeastFree, SocketPath, M.WithDefaults;
    GrownThenTuned(t0, t1, t3, r.role, {r.socket}, x);
    hide Grown;
    forall b ensures InBridge(t3, b, x) <==> b in r.bridge {
      assert !InBridge(t1, b, x);
    }
    assert SocketOf(t3, x) == SocketOf(t1, x);
  }

  // ----- DEL

  /** Interface `x` gone, with its bridge memberships, and its socket row if it was the last user. */
  function AfterDelete(t: Tables, x: nat): Tables
    requires x in t.ifaces && t.ifaces[x].MemifRow?
  {
    var sid := t.ifaces[x].socketId;
    var last := sid != 0 && forall y | y in t.ifaces && y != x :: !(t.ifaces[y].MemifRow? && t.ifaces[y].socketId == sid);
    WithoutIface(t, x).(sockets := if last then t.sockets - {sid} else t.sockets)
  }

  ghost predicate NoMemifOn(t: Tables, path: string) {
    forall y :: IsMemif(t, y) ==> SocketOf(t, y) != path
  }

  ghost predicate OneMemifOn(t: Tables, path: string) {
    forall x, y :: IsMemif(t, x) && IsMemif(t, y) && SocketOf(t, x) == path && SocketOf(t, y) == path ==> x == y
  }

  /** The outcome of a DEL that went through, for the memif `x` found on the socket. A failing
      bridge removal is ignored; when it works, the bridge domain goes if it is left empty. */
  ghost predicate DelDone(t: Tables, t': Tables, x: nat, h: UserSpaceConf) {
    && IsMemif(t, x)
    && (t' == AfterDelete(t, x) || (h.netType == "bridge" && t' == AfterDelete(Bridge.Left(t, ToUint32(h.bridge.bridgeId), x), x)))
  }

  /** The outcome of a DEL none of whose requests was lost. */
  function Undone(t: Tables, x: nat, h: UserSpaceConf): Tables
    requires x in t.ifaces && t.ifaces[x].MemifRow?
  {
    AfterDelete(if h.netType == "bridge" then Bridge.Left(t, ToUint32(h.bridge.bridgeId), x) else t, x)
  }

  /** Every interface but `x` is exactly as it was. */
  ghost predicate OthersSame(t: Tables, t': Tables, x: nat) {
    && t.ifaces.Keys - {x} <= t'.ifaces.Keys <= t.ifaces.Keys
    && forall y :: y in t.ifaces && y != x ==> SameIface(t, t', y)
  }

  lemma DeletedIsAfter(t: Tables, t': Tables, x: nat)
    requires IsMemif(t, x) && M.Deleted(t, t', x)
    requires var sid := t.ifaces[x].socketId;
             t'.sockets == if sid != 0 && M.UsersOf(t, sid) == {x} then t.sockets - {sid} else t.sockets
    ensures t' == AfterDelete(t, x)
  {
    var sid := t.ifaces[x].socketId;
    assert M.UsersOf(t, sid) == {x} <==> forall y | y in t.ifaces && y != x :: !(t.ifaces[y].MemifRow? && t.ifaces[y].socketId == sid) by {
      assert x in M.UsersOf(t, sid);
      if forall y | y in t.ifaces && y != x :: !(t.ifaces[y].MemifRow? && t.ifaces[y].socketId == sid) {
        assert M.UsersOf(t, sid) == {x};
      } else {
        var y :| y in t.ifaces && y != x && t.ifaces[y].MemifRow? && t.ifaces[y].socketId == sid;
        assert y in M.UsersOf(t, sid) && y !in {x};
      }
    }
    hide M.UsersOf;
  }

  /** Having left a bridge domain first makes no difference to the memberships after the delete. */
  lemma DetachedThenDeleted(t: Tables, b: uint32, x: nat)
    requires IsMemif(t, x)
    ensures IsMemif(Bridge.Detached(t, b, x), x) && AfterDelete(Bridge.Detached(t, b, x), x) == AfterDelete(t, x)
  {
    var t' := Bridge.Detached(t, b, x);
    forall c | c in t.bridges ensures t'.bridges[c] - {x} == t.bridges[c] - {x} {
    }
    assert WithoutIface(t', x).bridges == WithoutIface(t, x).bridges;
  }

  lemma DeletedOthers(t: Tables, t': Tables, x: nat)
    requires Inv(t) && Inv(t') && IsMemif(t, x) && M.Deleted(t, t', x)
    requires forall i :: i in t'.sockets ==> i in t.sockets && t'.sockets[i] == t.sockets[i]
    ensures OthersSame(t, t', x)
  {
    forall y | y in t.ifaces && y != x ensures SameIface(t, t', y) {
      assert IsMemif(t', y) ==> SocketOf(t', y) == SocketOf(t, y);
    }
  }

  lemma MovedOthers(t: Tables, t': Tables, x: nat)
    requires Bridge.OnlyMoves(t, t', x)
    ensures OthersSame(t, t', x)
  {
  }

  lemma OthersTransitive(t: Tables, t1: Tables, t2: Tables, x: nat)
    requires OthersSame(t, t1, x) && OthersSame(t1, t2, x)
    ensures OthersSame(t, t2, x)
  {
    hide SameIface;
    forall y | y in t.ifaces && y != x ensures SameIface(t, t2, y) {
      SameTransitive(t, t1, t2, y);
    }
  }

  /** Leaves the bridge domain of the bridge id; every error is ignored. */
  method LeaveBridge(ch: Node, h: UserSpaceConf, x: nat)
    requires Inv(ch.vpp) && IsMemif(ch.vpp, x)
    modifies ch`vpp, ch`lost
    ensures Inv(ch.vpp) && IsMemif(ch.vpp, x) && OthersSame(old(ch.vpp), ch.vpp, x) && ch.lost >= old(ch.lost)
    ensures ch.lost == old(ch.lost) ==> ch.vpp == Bridge.Left(old(ch.vpp), ToUint32(h.bridge.bridgeId), x)
    ensures AfterDelete(ch.vpp, x) == AfterDelete(old(ch.vpp), x) || ch.vpp == Bridge.Left(old(ch.vpp), ToUint32(h.bridge.bridgeId), x)
    ensures ch.vpp.ifaces == old(ch.vpp).ifaces && ch.vpp.sockets == old(ch.vpp).sockets
  {
    hide Inv, AfterDelete, OthersSame, Bridge.OnlyMoves, ToUint32;
    var b := ToUint32(h.bridge.bridgeId);
    DetachedThenDeleted(ch.vpp, b, x);
    Bridge.DetachedFacts(ch.vpp, b, x);
    Bridge.LeftFacts(ch.vpp, b, x);
    Unmoved(ch.vpp, x);
    var _ := Bridge.RemoveBridgeInterface(ch, b, x);
    MovedOthers(old(ch.vpp), ch.vpp, x);
  }

  lemma OthersKept(t: Tables, t': Tables, x: nat)
    requires OthersSame(t, t', x)
    ensures forall y :: IsMemif(t, y) && y != x ==> SameIface(t, t', y)
  {
  }

  lemma Unmoved(t: Tables, x: nat)
    ensures Bridge.OnlyMoves(t, t, x)
  {
  }

  /** DEL on the host. `saved` is whatever index ADD wrote down: the interface is looked up by
      its socket instead, so no interface except the one on this socket is ever touched. With
      none on it DEL succeeds and leaves VPP alone. The socket file is removed either way. */
  method DelFromHost(ch: Node, conf: NetConf, args: CmdArgs, sharedDir: string, saved: Option<SavedData>)
    returns (ok: bool, ghost x: nat)
    requires Inv(ch.vpp) && conf.hostConf.ifType == "memif"
    modifies ch
    ensures Inv(ch.vpp) && ch.lost >= old(ch.lost)
    ensures forall z :: IsMemif(old(ch.vpp), z) && SocketOf(old(ch.vpp), z) != SocketPath(conf, args, sharedDir) ==>
              SameIface(old(ch.vpp), ch.vpp, z)
    ensures saved == None ==> !ok && ch.vpp == old(ch.vpp) && ch.files == old(ch.files)
    ensures saved.Some? && NoMemifOn(old(ch.vpp), SocketPath(conf, args, sharedDir)) ==> ok && ch.vpp == old(ch.vpp)
    ensures saved.Some? && !NoMemifOn(old(ch.vpp), SocketPath(conf, args, sharedDir)) ==>
              && IsMemif(old(ch.vpp), x) && SocketOf(old(ch.vpp), x) == SocketPath(conf, args, sharedDir)
              && OthersSame(old(ch.vpp), ch.vpp, x)
              && (ok ==> DelDone(old(ch.vpp), ch.vpp, x, conf.hostConf))
    ensures ch.files == old(ch.files) || ch.files == old(ch.files) - {SocketPath(conf, args, sharedDir)}
    ensures ch.lost == old(ch.lost) && saved.Some? ==>
              && ok && ch.files == old(ch.files) - {SocketPath(conf, args, sharedDir)}
              && (!NoMemifOn(old(ch.vpp), SocketPath(conf, args, sharedDir)) ==> ch.vpp == Undone(old(ch.vpp), x, conf.hostConf))
  {
    hide Inv, AfterDelete, OthersSame, SameIface, SocketOf, M.Deleted;
    x := 0;
    KeptSelf(ch.vpp);
    if saved == None {
      return false, x;
    }
    var t0 := ch.vpp;
    var path := SocketPath(conf, args, sharedDir);
    var idx, found := M.FindMemifBySocket(ch, path);
    if !found {
      var _ := ch.RemoveFile(path);
      return true, x;
    }
    x := idx;
    Unmoved(t0, x);
    MovedOthers(t0, t0, x);
    if conf.hostConf.netType == "bridge" {
      LeaveBridge(ch, conf.hostConf, idx);
    }
    ghost var t1 := ch.vpp;
    ok := DeleteFound(ch, idx);
    OthersTransitive(t0, t1, ch.vpp, x);
    OthersKept(t0, ch.vpp, x);
    var _ := ch.RemoveFile(path);
  }

  method DeleteFound(ch: Node, x: nat) returns (ok: bool)
    requires Inv(ch.vpp) && IsMemif(ch.vpp, x)
    modifies ch`vpp, ch`lost
    ensures Inv(ch.vpp) && OthersSame(old(ch.vpp), ch.vpp, x)
    ensures ch.lost >= old(ch.lost) && (ok <==> ch.lost == old(ch.lost))
    ensures ok ==> ch.vpp == AfterDelete(old(ch.vpp), x)
  {
    hide Inv, AfterDelete, OthersSame, M.UsersOf, M.Deleted;
    ok := M.DeleteMemifInterface(ch, x);
    Unmoved(ch.vpp, x);
    MovedOthers(ch.vpp, ch.vpp, x);
    if ch.vpp != old(ch.vpp) {
      DeletedOthers(old(ch.vpp), ch.vpp, x);
    }
    if ok {
      DeletedIsAfter(old(ch.vpp), ch.vpp, x);
    }
  }

  // ----- Two attachments

  /** Two attachments of one shared directory that do not name their socket files have different
      sockets, unless the first twelve characters of the ids and the interface names are the same.
      (Ids and interface names hold no slash: CNI Specification 1.0.0, section 2.) */
  lemma SocketsApart(conf: NetConf, args: CmdArgs, conf': NetConf, args': CmdArgs, sharedDir: string)
    requires conf.hostConf.memif.socketfile == conf'.hostConf.memif.socketfile == ""
    requires |args.containerId| >= 12 && |args'.containerId| >= 12
    requires '/' !in args.containerId && '/' !in args.ifName && '/' !in args'.containerId && '/' !in args'.ifName
    ensures SocketPath(conf, args, sharedDir) == SocketPath(conf', args', sharedDir) <==>
              args.containerId[..12] == args'.containerId[..12] && args.ifName == args'.ifName
  {
    M.NamesApart(args.containerId, args.ifName, args'.containerId, args'.ifName);
    M.NamePlain(args.containerId, args.ifName);
    M.NamePlain(args'.containerId, args'.ifName);
    hide M.SocketFileName;
    JoinedBase(sharedDir, M.SocketFileName("", args.containerId, args.ifName));
    JoinedBase(sharedDir, M.SocketFileName("", args'.containerId, args'.ifName));
  }

  /** So a DEL leaves the memif of every other attachment exactly as it was. */
  lemma OthersSurvive(t: Tables, t': Tables, conf: NetConf, args: CmdArgs, conf': NetConf, args': CmdArgs, sharedDir: string, y: nat)
    requires forall z :: IsMemif(t, z) && SocketOf(t, z) != SocketPath(conf, args, sharedDir) ==> SameIface(t, t', z)
    requires conf.hostConf.memif.socketfile == conf'.hostConf.memif.socketfile == ""
    requires |args.containerId| >= 12 && |args'.containerId| >= 12
    requires '/' !in args.containerId && '/' !in args.ifName && '/' !in args'.containerId && '/' !in args'.ifName
    requires args.containerId[..12] != args'.containerId[..12] || args.ifName != args'.ifName
    requires IsMemif(t, y) && SocketOf(t, y) == SocketPath(conf', args', sharedDir)
    ensures SameIface(t, t', y)
  {
    SocketsApart(conf, args, conf', args', sharedDir);
    hide SocketPath, SocketOf, SameIface;
  }

  /** After a DEL that went through, with one memif per socket, nothing is left on the socket:
      a second DEL succeeds and changes nothing more in VPP. */
  lemma SecondDelFindsNothing(t: Tables, t': Tables, x: nat, h: UserSpaceConf, path: string)
    requires Inv(t) && OneMemifOn(t, path) && IsMemif(t, x) && SocketOf(t, x) == path
    requires DelDone(t, t', x, h) && OthersSame(t, t', x)
    ensures NoMemifOn(t', path)
  {
    hide Inv, ToUint32;
    assert x !in t'.ifaces;
    forall y | IsMemif(t', y) ensures SocketOf(t', y) != path {
      assert SameIface(t, t', y);
    }
  }

  // ----- ADD, then DEL

  /** When DEL, which looks only at the bridge id, undoes what ADD, which prefers the bridge
      name, did to the bridge domains: the two agree and the domain was not there empty before;
      or they differ, ADD's domain was there before, and DEL's is not an empty one. */
  predicate BridgesRestored(t: Tables, h: UserSpaceConf)
    requires h.netType == "bridge" ==> BridgeDomainId(h.bridge).Some?
  {
    h.netType == "bridge" ==>
      var added, removed := BridgeDomainId(h.bridge).value, ToUint32(h.bridge.bridgeId);
      && !(removed in t.bridges && t.bridges[removed] == {})
      && (added == removed || added in t.bridges)
  }

  lemma AddedSocket(t: Tables, t1: Tables, x: nat, r: Request) returns (id: uint32)
    requires Inv(t) && Inv(t1) && AddDone(t, t1, x, r) && r.socket !in t.sockets.Values
    ensures id != 0 && id !in t.sockets && t1.sockets == t.sockets[id := r.socket] && t1.ifaces[x].socketId == id
    ensures IsMemif(t1, x)
    ensures forall y :: y in t1.ifaces && y != x && t1.ifaces[y].MemifRow? ==> t1.ifaces[y].socketId != id
  {
    id :| M.IsLeastFree(t.sockets.Keys, id) && t1.sockets == t.sockets[id := r.socket];
    hide M.WithDefaults;
    var sid := t1.ifaces[x].socketId;
    assert sid in t1.sockets && t1.sockets[sid] == r.socket;
    forall y | y in t1.ifaces && y != x && t1.ifaces[y].MemifRow? ensures t1.ifaces[y].socketId != id {
      assert y in t.ifaces && IsMemif(t, y);
    }
  }

  lemma AddedIfaces(t: Tables, t1: Tables, x: nat, r: Request)
    requires AddDone(t, t1, x, r)
    ensures t1.ifaces - {x} == t.ifaces && r.bridge == t1.bridges.Keys - (t1.bridges.Keys - r.bridge)
    ensures t1.bridges.Keys == t.bridges.Keys + r.bridge
  {
    hide Configured;
  }

  /** The members ADD found, and none in a domain it made. */
  function MembersBefore(t: Tables, b: uint32): set<nat> {
    if b in t.bridges then t.bridges[b] else {}
  }

  lemma AddedMembers(t: Tables, t1: Tables, x: nat, r: Request, b: uint32)
    requires Inv(t) && Inv(t1) && AddDone(t, t1, x, r) && b in t1.bridges
    ensures t1.bridges[b] - {x} == MembersBefore(t, b)
    ensures t1.bridges[b] <= {x} <==> MembersBefore(t, b) == {}
  {
    hide Configured, M.IsLeastFree;
    forall y | y != x ensures y in t1.bridges[b] <==> y in MembersBefore(t, b) {
      if y in t.ifaces {
        assert InBridge(t1, b, y) <==> InBridge(t, b, y);
      }
    }
    assert x !in MembersBefore(t, b);
  }

  /** The tables a DEL leaves behind, the bridge domain `left` having gone or not. */
  lemma MembersAfter(t: Tables, t1: Tables, u: Tables, x: nat, r: Request)
    requires Inv(t) && Inv(t1) && AddDone(t, t1, x, r) && IsMemif(u, x)
    requires u.bridges.Keys <= t1.bridges.Keys
    requires forall b :: b in u.bridges ==> u.bridges[b] - {x} == t1.bridges[b] - {x}
    ensures AfterDelete(u, x).bridges == t.bridges <==> u.bridges.Keys == t.bridges.Keys
  {
    hide AddDone, Inv;
    forall b | b in u.bridges ensures WithoutIface(u, x).bridges[b] == MembersBefore(t, b) {
      AddedMembers(t, t1, x, r, b);
    }
    assert AfterDelete(u, x).bridges.Keys == u.bridges.Keys;
  }

  lemma BridgesAfter(t: Tables, t1: Tables, x: nat, r: Request, h: UserSpaceConf, b: uint32)
    requires Inv(t) && Inv(t1) && AddDone(t, t1, x, r) && IsMemif(t1, x)
    ensures IsMemif(Bridge.Left(t1, b, x), x)
    ensures AfterDelete(Bridge.Left(t1, b, x), x).bridges == t.bridges <==>
              (if b in t1.bridges && MembersBefore(t, b) == {} then t1.bridges.Keys - {b} else t1.bridges.Keys) == t.bridges.Keys
  {
    var u := Bridge.Left(t1, b, x);
    if b in t1.bridges {
      AddedMembers(t, t1, x, r, b);
    }
    hide AddDone, Inv, MembersBefore, AfterDelete;
    forall c | c in u.bridges ensures u.bridges[c] - {x} == t1.bridges[c] - {x} {
    }
    MembersAfter(t, t1, u, x, r);
  }

  /** The tables below the bridge domains come back. */
  lemma RowsAfter(t: Tables, t1: Tables, u: Tables, x: nat, r: Request)
    requires Inv(t) && Inv(t1) && AddDone(t, t1, x, r) && r.socket !in t.sockets.Values
    requires IsMemif(u, x) && u.ifaces == t1.ifaces && u.sockets == t1.sockets
    ensures AfterDelete(u, x).sockets == t.sockets && AfterDelete(u, x).ifaces == t.ifaces
  {
    var id := AddedSocket(t, t1, x, r);
    AddedIfaces(t, t1, x, r);
    hide AddDone, Inv;
    assert t.sockets[id := r.socket] - {id} == t.sockets;
  }

  /** Whether the bridge domains left are the ones there were at first. */
  lemma DomainsAfter(t: Tables, added: uint32, removed: uint32)
    ensures var keys := t.bridges.Keys + {added};
            (if removed in keys && MembersBefore(t, removed) == {} then keys - {removed} else keys) == t.bridges.Keys
            <==> !(removed in t.bridges && t.bridges[removed] == {}) && (added == removed || added in t.bridges)
  {
    var keys := t.bridges.Keys + {added};
    if removed in keys && MembersBefore(t, removed) == {} {
      if removed in t.bridges {
        assert removed !in keys - {removed};
      } else {
        assert added == removed && keys - {removed} == t.bridges.Keys;
      }
    } else {
      assert added in keys;
      assert added in t.bridges ==> keys == t.bridges.Keys;
    }
  }

  lemma LeftRows(t: Tables, b: uint32, x: nat)
    ensures Bridge.Left(t, b, x).ifaces == t.ifaces && Bridge.Left(t, b, x).sockets == t.sockets
  {
  }

  lemma RequestBridge(conf: NetConf, args: CmdArgs, sharedDir: string)
    requires Acceptable(conf)
    ensures AddRequest(conf, args, sharedDir).socket == SocketPath(conf, args, sharedDir)
    ensures conf.hostConf.netType == "bridge" ==> BridgeDomainId(conf.hostConf.bridge).Some?
    ensures conf.hostConf.netType == "bridge" ==> AddRequest(conf, args, sharedDir).bridge == {BridgeDomainId(conf.hostConf.bridge).value}
    ensures conf.hostConf.netType != "bridge" ==> AddRequest(conf, args, sharedDir).bridge == {}
  {
  }

  /** ADD on a fresh socket and then a DEL whose requests all work restore the sockets and the
      interfaces; they restore the bridge domains if and only if BridgesRestored. */
  lemma AddThenDel(t: Tables, t1: Tables, t2: Tables, x: nat, conf: NetConf, args: CmdArgs, sharedDir: string)
    requires Inv(t) && Inv(t1) && Acceptable(conf)
    requires AddDone(t, t1, x, AddRequest(conf, args, sharedDir))
    requires SocketPath(conf, args, sharedDir) !in t.sockets.Values
    requires IsMemif(t1, x)
    requires t2 == Undone(t1, x, conf.hostConf)
    ensures t2.sockets == t.sockets && t2.ifaces == t.ifaces
    ensures t2.bridges == t.bridges <==> BridgesRestored(t, conf.hostConf)
  {
    hide AddDone, Inv, ToUint32, BridgeDomainId, AddRequest, SocketPath, AfterDelete, Bridge.Left, MembersBefore, BridgesRestored;
    var r, h := AddRequest(conf, args, sharedDir), conf.hostConf;
    var removed := ToUint32(h.bridge.bridgeId);
    RequestBridge(conf, args, sharedDir);
    AddedIfaces(t, t1, x, r);
    LeftRows(t1, removed, x);
    if h.netType == "bridge" {
      var u := Bridge.Left(t1, removed, x);
      BridgesAfter(t, t1, x, r, h, removed);
      RowsAfter(t, t1, u, x, r);
      DomainsAfter(t, BridgeDomainId(h.bridge).value, removed);
      RestoredMeans(t, h);
    } else {
      MembersAfter(t, t1, t1, x, r);
      RowsAfter(t, t1, t1, x, r);
      assert t1.bridges.Keys == t.bridges.Keys;
      RestoredMeans(t, h);
    }
  }

  lemma RestoredMeans(t: Tables, h: UserSpaceConf)
    requires h.netType == "bridge" ==> BridgeDomainId(h.bridge).Some?
    ensures h.netType != "bridge" ==> BridgesRestored(t, h)
    ensures h.netType == "bridge" ==>
              (BridgesRestored(t, h) <==>
                 var added, removed := BridgeDomainId(h.bridge).value, ToUint32(h.bridge.bridgeId);
                 !(removed in t.bridges && t.bridges[removed] == {}) && (added == removed || added in t.bridges))
  {
  }
}
