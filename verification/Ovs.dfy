/** The OVS engine: vhost-user ports on bridges that come and go with them. */
module Ovs {
  import opened Wrappers
  import opened Ovsdb

  const OWNER := "userspace-cni"
  const DEFAULT_BRIDGE := "br0"
  const OVN_BRIDGE := "br-int"

  datatype PortConfig = PortConfig(containerId: string, ifName: string, ovnPort: string, mtu: int, vlanId: int, trunks: seq<int>,
                                   vlanMode: string, ingressRate: int, ingressBurst: int)

  // ----- Looking rows up by name

  predicate IsBridge(d: Db, b: nat, name: string) {
    b in d.bridges && d.bridges[b].name == name
  }

  predicate IsPort(d: Db, p: nat, name: string) {
    p in d.ports && d.ports[p].name == name
  }

  predicate IsIface(d: Db, i: nat, name: string) {
    i in d.ifaces && d.ifaces[i].name == name
  }

  predicate HasBridge(d: Db, name: string) {
    exists b | b in d.bridges :: IsBridge(d, b, name)
  }

  predicate HasPort(d: Db, name: string) {
    exists p | p in d.ports :: IsPort(d, p, name)
  }

  predicate HasIface(d: Db, name: string) {
    exists i | i in d.ifaces :: IsIface(d, i, name)
  }

  /** The bridge is there and has at least one port. */
  predicate HasPorts(d: Db, name: string) {
    exists b | b in d.bridges :: IsBridge(d, b, name) && d.bridges[b].ports != {}
  }

  ghost predicate EmptyBridge(d: Db, name: string) {
    HasBridge(d, name) && !HasPorts(d, name)
  }

  // ----- The transactions

  function NewBridge(name: string): BridgeRow {
    BridgeRow(name, "netdev", {})
  }

  function CreateBridgeOps(u: nat, name: string): seq<Op> {
    [InsertBridge(u, NewBridge(name)), MutateRoots({u}, {})]
  }

  function DeleteBridgeOps(u: nat, name: string): seq<Op> {
    [DeleteBridges(name), MutateRoots({}, {u})]
  }

  function CreatePortOps(p: nat, i: nat, port: PortRow, iface: IfaceRow, bridge: string): seq<Op> {
    [InsertIface(i, iface), InsertPort(p, port), MutatePorts(bridge, {p}, {})]
  }

  function DeletePortOps(p: nat, name: string, bridge: string): seq<Op> {
    [DeleteIfaces(name), DeletePorts(name), MutatePorts(bridge, {}, {p})]
  }

  // ----- What they lead to

  function WithBridge(d: Db, u: nat, name: string): Db {
    d.(roots := d.roots + {u}, bridges := d.bridges[u := NewBridge(name)])
  }

  function WithPort(d: Db, p: nat, i: nat, port: PortRow, iface: IfaceRow, bridge: string): Db {
    d.(ifaces := d.ifaces[i := iface], ports := d.ports[p := port], bridges := WithPorts(d.bridges, bridge, {p}, {}))
  }

  function WithoutBridge(d: Db, u: nat): Db {
    d.(roots := d.roots - {u}, bridges := d.bridges - {u})
  }

  lemma CreateBridgeApplied(d: Db, u: nat, name: string)
    ensures ApplyAll(d, CreateBridgeOps(u, name)) == WithBridge(d, u, name)
  {
    Apply2(d, CreateBridgeOps(u, name));
    assert d.roots + {u} - {} == d.roots + {u};
  }

  lemma CreatePortApplied(d: Db, p: nat, i: nat, port: PortRow, iface: IfaceRow, bridge: string)
    ensures ApplyAll(d, CreatePortOps(p, i, port, iface, bridge)) == WithPort(d, p, i, port, iface, bridge)
  {
    var ops := CreatePortOps(p, i, port, iface, bridge);
    Apply3(d, ops);
  }

  lemma WithBridgeIntegrity(d: Db, u: nat, name: string)
    requires Integrity(d) && u !in d.bridges && !HasBridge(d, name)
    ensures Integrity(WithBridge(d, u, name))
  {
    var d' := WithBridge(d, u, name);
    forall b | b in d.bridges ensures d.bridges[b].name != name {
      assert !IsBridge(d, b, name);
    }
    assert Unique(d') && Live(d');
    hide HasBridge, Unique, Live;
    NoGarbageUp(d, d');
  }

  /** `d'` has all of `d`'s rows, its bridges perhaps with more ports. */
  ghost predicate Extends(d: Db, d': Db) {
    && d.roots <= d'.roots
    && (forall b :: b in d.bridges ==> b in d'.bridges && d.bridges[b].ports <= d'.bridges[b].ports)
    && (forall p :: p in d.ports ==> p in d'.ports && d'.ports[p] == d.ports[p])
  }

  lemma HeldUp(d: Db, d': Db, p: nat)
    requires Extends(d, d') && PortHeld(d, p)
    ensures PortHeld(d', p)
  {
    var b :| b in d.bridges && b in d.roots && p in d.bridges[b].ports;
    assert b in d'.bridges;
  }

  lemma IfaceHeldUp(d: Db, d': Db, i: nat)
    requires Extends(d, d') && IfaceHeld(d, i)
    ensures IfaceHeld(d', i)
  {
    var p :| p in d.ports && PortHeld(d, p) && i in d.ports[p].ifaces;
    HeldUp(d, d', p);
    hide PortHeld;
    assert p in d'.ports;
  }

  lemma NoGarbageUp(d: Db, d': Db)
    requires NoGarbage(d) && Extends(d, d')
    requires forall b :: b in d'.bridges ==> b in d'.roots
    requires forall p :: p in d'.ports && p !in d.ports ==> PortHeld(d', p)
    requires forall i :: i in d'.ifaces && i !in d.ifaces ==> IfaceHeld(d', i)
    ensures NoGarbage(d')
  {
    hide PortHeld, IfaceHeld, Extends;
    forall p | p in d'.ports ensures PortHeld(d', p) {
      if p in d.ports {
        HeldUp(d, d', p);
      }
    }
    forall i | i in d'.ifaces ensures IfaceHeld(d', i) {
      if i in d.ifaces {
        IfaceHeldUp(d, d', i);
      }
    }
  }

  lemma CreateBridgeCommits(d: Db, u: nat, name: string)
    requires Integrity(d) && u !in d.bridges
    ensures Commit(ApplyAll(d, CreateBridgeOps(u, name))) == if HasBridge(d, name) then None else Some(WithBridge(d, u, name))
  {
    CreateBridgeApplied(d, u, name);
    var d' := WithBridge(d, u, name);
    if HasBridge(d, name) {
      var b :| b in d.bridges && IsBridge(d, b, name);
      var g := Collected(d');
      assert u in g.bridges && b in g.bridges;
    } else {
      WithBridgeIntegrity(d, u, name);
      CommitIdempotent(d');
    }
  }

  lemma NobodyHolds(d: Db, p: nat)
    requires Live(d) && p !in d.ports
    ensures forall b :: b in d.bridges ==> p !in d.bridges[b].ports
  {
  }

  lemma NobodyUses(d: Db, i: nat)
    requires Live(d) && i !in d.ifaces
    ensures forall p :: p in d.ports ==> i !in d.ports[p].ifaces
  {
  }

  /** A new port on a bridge that is not there is garbage: the transaction succeeds and leaves nothing. */
  lemma PortOnNoBridge(d: Db, p: nat, i: nat, port: PortRow, iface: IfaceRow, bridge: string)
    requires Integrity(d) && p !in d.ports && i !in d.ifaces && port.ifaces == {i} && !HasBridge(d, bridge)
    ensures Commit(WithPort(d, p, i, port, iface, bridge)) == Some(d)
  {
    var d' := WithPort(d, p, i, port, iface, bridge);
    SameBridges(d, p, bridge);
    WithPortExtends(d, p, i, port, iface, bridge);
    hide WithPorts, HasBridge, Unique, Extends, Commit;
    NobodyHolds(d, p);
    NobodyUses(d, i);
    hide Live;
    assert !PortHeld(d', p);
    hide PortHeld;
    assert !IfaceHeld(d', i);
    hide IfaceHeld;
    CollectedBack(d, d');
    CommitCollected(d');
  }

  lemma CollectedBack(d: Db, d': Db)
    requires NoGarbage(d) && Extends(d, d') && d'.roots == d.roots && d'.bridges == d.bridges
    requires forall q :: q in d'.ports && q !in d.ports ==> !PortHeld(d', q)
    requires forall k :: k in d.ifaces ==> k in d'.ifaces && d'.ifaces[k] == d.ifaces[k]
    requires forall k :: k in d'.ifaces && k !in d.ifaces ==> !IfaceHeld(d', k)
    ensures Collected(d') == d
  {
    forall q | q in d.ports ensures PortHeld(d', q) && d'.ports[q] == d.ports[q] {
      HeldUp(d, d', q);
    }
    forall k | k in d.ifaces ensures IfaceHeld(d', k) {
      IfaceHeldUp(d, d', k);
    }
    hide PortHeld, IfaceHeld;
  }

  lemma CommitCollected(d: Db)
    requires Live(d) && Unique(Collected(d))
    ensures Commit(d) == Some(Collected(d))
  {
  }

  lemma SameBridges(d: Db, p: nat, bridge: string)
    requires !HasBridge(d, bridge)
    ensures WithPorts(d.bridges, bridge, {p}, {}) == d.bridges
  {
    forall b | b in d.bridges ensures d.bridges[b].name != bridge {
      assert !IsBridge(d, b, bridge);
    }
  }

  lemma WithPortExtends(d: Db, p: nat, i: nat, port: PortRow, iface: IfaceRow, bridge: string)
    requires Live(d) && p !in d.ports && i !in d.ifaces && port.ifaces == {i}
    ensures var d' := WithPort(d, p, i, port, iface, bridge); Extends(d, d') && Live(d')
  {
  }

  lemma NewPortHeld(d: Db, p: nat, i: nat, port: PortRow, iface: IfaceRow, bridge: string)
    requires NoGarbage(d) && HasBridge(d, bridge) && port.ifaces == {i}
    ensures var d' := WithPort(d, p, i, port, iface, bridge); PortHeld(d', p) && IfaceHeld(d', i)
  {
    var d' := WithPort(d, p, i, port, iface, bridge);
    var b :| b in d.bridges && IsBridge(d, b, bridge);
    assert b in d'.bridges && p in d'.bridges[b].ports && b in d'.roots;
    assert PortHeld(d', p);
    hide PortHeld;
    assert p in d'.ports && i in d'.ports[p].ifaces;
  }

  lemma WithPortIntegrity(d: Db, p: nat, i: nat, port: PortRow, iface: IfaceRow, bridge: string)
    requires Integrity(d) && p !in d.ports && i !in d.ifaces && port.ifaces == {i} && HasBridge(d, bridge)
    requires !HasPort(d, port.name) && !HasIface(d, iface.name)
    ensures Integrity(WithPort(d, p, i, port, iface, bridge))
  {
    var d' := WithPort(d, p, i, port, iface, bridge);
    WithPortExtends(d, p, i, port, iface, bridge);
    NewPortHeld(d, p, i, port, iface, bridge);
    WithPortUnique(d, p, i, port, iface, bridge);
    hide PortHeld, IfaceHeld, Extends, Live, Unique, HasBridge, HasPort, HasIface;
    NoGarbageUp(d, d');
  }

  lemma WithPortUnique(d: Db, p: nat, i: nat, port: PortRow, iface: IfaceRow, bridge: string)
    requires Unique(d) && !HasPort(d, port.name) && !HasIface(d, iface.name)
    ensures Unique(WithPort(d, p, i, port, iface, bridge))
  {
    forall q | q in d.ports ensures d.ports[q].name != port.name {
      assert !IsPort(d, q, port.name);
    }
    forall j | j in d.ifaces ensures d.ifaces[j].name != iface.name {
      assert !IsIface(d, j, iface.name);
    }
  }

  /** A new port whose name is taken, on a bridge that is there, aborts. */
  lemma TakenNameAborts(d: Db, p: nat, i: nat, port: PortRow, iface: IfaceRow, bridge: string)
    requires Integrity(d) && p !in d.ports && i !in d.ifaces && port.ifaces == {i} && HasBridge(d, bridge)
    requires HasPort(d, port.name) || HasIface(d, iface.name)
    ensures Commit(WithPort(d, p, i, port, iface, bridge)) == None
  {
    var d' := WithPort(d, p, i, port, iface, bridge);
    WithPortExtends(d, p, i, port, iface, bridge);
    NewPortHeld(d, p, i, port, iface, bridge);
    hide PortHeld, IfaceHeld, Extends, Live, HasBridge;
    var g := Collected(d');
    if HasPort(d, port.name) {
      var q :| q in d.ports && IsPort(d, q, port.name);
      HeldUp(d, d', q);
      assert p in g.ports && q in g.ports;
    } else {
      var k :| k in d.ifaces && IsIface(d, k, iface.name);
      IfaceHeldUp(d, d', k);
      assert k in g.ifaces && i in g.ifaces;
    }
  }

  /** What becomes of the transaction that creates a port, in every case. */
  lemma CreatePortCommits(d: Db, p: nat, i: nat, port: PortRow, iface: IfaceRow, bridge: string)
    requires Integrity(d) && p !in d.ports && i !in d.ifaces && port.ifaces == {i}
    ensures Commit(ApplyAll(d, CreatePortOps(p, i, port, iface, bridge))) ==
              if !HasBridge(d, bridge) then Some(d)
              else if HasPort(d, port.name) || HasIface(d, iface.name) then None
              else Some(WithPort(d, p, i, port, iface, bridge))
  {
    hide Integrity, WithPort, HasPort, HasIface, HasBridge, Commit;
    CreatePortApplied(d, p, i, port, iface, bridge);
    if !HasBridge(d, bridge) {
      PortOnNoBridge(d, p, i, port, iface, bridge);
    } else if HasPort(d, port.name) || HasIface(d, iface.name) {
      TakenNameAborts(d, p, i, port, iface, bridge);
    } else {
      WithPortIntegrity(d, p, i, port, iface, bridge);
      CommitIdempotent(WithPort(d, p, i, port, iface, bridge));
    }
  }

  // ----- Deleting a port

  function PortDropped(d: Db, p: nat, name: string, bridge: string): Db {
    d.(ifaces := IfacesBut(d.ifaces, name), ports := PortsBut(d.ports, name),
       bridges := WithPorts(d.bridges, bridge, {}, {p}))
  }

  lemma DeletePortApplied(d: Db, p: nat, name: string, bridge: string)
    ensures ApplyAll(d, DeletePortOps(p, name, bridge)) == PortDropped(d, p, name, bridge)
  {
    Apply3(d, DeletePortOps(p, name, bridge));
  }

  /** No other bridge holds the port, and no other port uses an interface of its name. */
  ghost predicate Detachable(d: Db, p: nat, name: string, bridge: string) {
    && (forall b :: b in d.bridges && p in d.bridges[b].ports ==> d.bridges[b].name == bridge)
    && (forall q, i :: q in d.ports && q != p && i in d.ports[q].ifaces && i in d.ifaces ==> d.ifaces[i].name != name)
  }

  lemma DroppedPorts(d: Db, p: nat, name: string, bridge: string)
    requires Unique(d) && IsPort(d, p, name)
    ensures PortDropped(d, p, name, bridge).ports == d.ports - {p}
  {
  }

  lemma DroppedLive(d: Db, p: nat, name: string, bridge: string)
    requires Integrity(d) && IsPort(d, p, name)
    ensures Live(PortDropped(d, p, name, bridge)) <==> Detachable(d, p, name, bridge)
  {
    var d' := PortDropped(d, p, name, bridge);
    DroppedPorts(d, p, name, bridge);
    hide NoGarbage, Unique;
    if Live(d') {
      forall b | b in d.bridges && p in d.bridges[b].ports ensures d.bridges[b].name == bridge {
        assert b in d'.bridges && p !in d'.ports;
      }
      forall q, i | q in d.ports && q != p && i in d.ports[q].ifaces && i in d.ifaces ensures d.ifaces[i].name != name {
        assert q in d'.ports && i in d'.ports[q].ifaces;
      }
    }
  }

  lemma UniqueDown(d: Db, g: Db)
    requires Unique(d)
    requires forall b :: b in g.bridges ==> b in d.bridges && g.bridges[b].name == d.bridges[b].name
    requires forall p :: p in g.ports ==> p in d.ports && g.ports[p] == d.ports[p]
    requires forall i :: i in g.ifaces ==> i in d.ifaces && g.ifaces[i] == d.ifaces[i]
    ensures Unique(g)
  {
  }

  lemma OthersHeld(d: Db, p: nat, name: string, bridge: string, q: nat)
    requires PortHeld(d, q) && q != p
    ensures PortHeld(PortDropped(d, p, name, bridge), q)
  {
    var d' := PortDropped(d, p, name, bridge);
    var b :| b in d.bridges && b in d.roots && q in d.bridges[b].ports;
    assert b in d'.bridges && q in d'.bridges[b].ports;
  }

  lemma DroppedRows(d: Db, p: nat, name: string, bridge: string)
    requires Integrity(d) && IsPort(d, p, name)
    ensures var g := Collected(PortDropped(d, p, name, bridge));
            g.roots == d.roots && g.ports == d.ports - {p} && g.bridges == WithPorts(d.bridges, bridge, {}, {p})
  {
    var d' := PortDropped(d, p, name, bridge);
    DroppedPorts(d, p, name, bridge);
    hide Unique, Live;
    forall q | q in d'.ports ensures PortHeld(d', q) {
      OthersHeld(d, p, name, bridge, q);
    }
    hide PortHeld, IfaceHeld;
    var g := Collected(d');
    assert g.ports == d'.ports && g.bridges == d'.bridges;
  }

  lemma DroppedUnique(d: Db, p: nat, name: string, bridge: string)
    requires Unique(d)
    ensures Unique(Collected(PortDropped(d, p, name, bridge)))
  {
    hide PortHeld, IfaceHeld, Unique;
    UniqueDown(d, Collected(PortDropped(d, p, name, bridge)));
  }

  /** The transaction goes through if and only if nothing else refers to what it deletes, and
      then takes away just this port. */
  lemma DeletePortCommits(d: Db, p: nat, name: string, bridge: string)
    requires Integrity(d) && IsPort(d, p, name)
    ensures var r := Commit(ApplyAll(d, DeletePortOps(p, name, bridge)));
            && (r.Some? <==> Detachable(d, p, name, bridge))
            && (r.Some? ==> && Integrity(r.value) && r.value.roots == d.roots && r.value.ports == d.ports - {p}
                            && r.value.bridges == WithPorts(d.bridges, bridge, {}, {p}))
  {
    DeletePortApplied(d, p, name, bridge);
    DroppedLive(d, p, name, bridge);
    DroppedRows(d, p, name, bridge);
    DroppedUnique(d, p, name, bridge);
    hide Integrity, Detachable, Live, Unique, Collected, PortDropped, WithPorts, IsPort;
    var d' := PortDropped(d, p, name, bridge);
    if Commit(d').Some? {
      CommitKeepsIntegrity(d');
    }
  }

  // ----- Deleting a bridge

  lemma DeleteBridgeApplied(d: Db, u: nat, name: string)
    requires Unique(d) && IsBridge(d, u, name)
    ensures ApplyAll(d, DeleteBridgeOps(u, name)) == WithoutBridge(d, u)
  {
    Apply2(d, DeleteBridgeOps(u, name));
    assert BridgesBut(d.bridges, name) == d.bridges - {u};
    assert d.roots + {} - {u} == d.roots - {u};
  }

  lemma WithoutBridgeHolds(d: Db, u: nat, p: nat)
    ensures PortHeld(WithoutBridge(d, u), p) <==> exists b :: b in d.bridges && b != u && b in d.roots && p in d.bridges[b].ports
  {
    var d' := WithoutBridge(d, u);
    if PortHeld(d', p) {
      var b :| b in d'.bridges && b in d'.roots && p in d'.bridges[b].ports;
      assert b in d.bridges && b != u;
    }
    if b :| b in d.bridges && b != u && b in d.roots && p in d.bridges[b].ports {
      assert b in d'.bridges;
    }
  }

  /** Deleting a bridge always goes through, and takes the ports with it that only it held. */
  lemma DeleteBridgeCommits(d: Db, u: nat, name: string)
    requires Integrity(d) && IsBridge(d, u, name)
    ensures var r := Commit(ApplyAll(d, DeleteBridgeOps(u, name)));
            && r.Some? && Integrity(r.value) && r.value.bridges == d.bridges - {u}
            && (forall p :: p in r.value.ports <==> exists b :: b in d.bridges && b != u && p in d.bridges[b].ports)
            && (forall p :: p in r.value.ports ==> p in d.ports && r.value.ports[p] == d.ports[p])
  {
    var d' := WithoutBridge(d, u);
    var g := Collected(d');
    DeleteBridgeApplied(d, u, name);
    assert Live(d');
    UniqueDown(d, g);
    hide Unique;
    forall p ensures p in g.ports <==> exists b :: b in d.bridges && b != u && p in d.bridges[b].ports {
      WithoutBridgeHolds(d, u, p);
    }
    hide PortHeld, IfaceHeld, Live, NoGarbage;
    CommitCollected(d');
    CommitKeepsIntegrity(d');
  }

  /** Without ports, a bridge goes alone. */
  lemma DeleteEmptyBridgeCommits(d: Db, u: nat, name: string)
    requires Integrity(d) && IsBridge(d, u, name) && d.bridges[u].ports == {}
    ensures Commit(ApplyAll(d, DeleteBridgeOps(u, name))) == Some(WithoutBridge(d, u)) && Integrity(WithoutBridge(d, u))
  {
    var d' := WithoutBridge(d, u);
    DeleteBridgeApplied(d, u, name);
    assert Live(d');
    UniqueDown(d, d');
    forall p | p in d.ports ensures PortHeld(d', p) {
      assert PortHeld(d, p);
      WithoutBridgeHolds(d, u, p);
    }
    hide PortHeld, Live, Unique;
    forall i | i in d.ifaces ensures IfaceHeld(d', i) {
      assert IfaceHeld(d, i);
    }
    hide IfaceHeld;
    CommitIdempotent(d');
  }

  // ----- DEL as a whole

  ghost function PortId(d: Db, name: string): (p: nat)
    requires HasPort(d, name)
    ensures IsPort(d, p, name)
  {
    var p :| p in d.ports && IsPort(d, p, name); p
  }

  ghost function BridgeId(d: Db, name: string): (b: nat)
    requires HasBridge(d, name)
    ensures IsBridge(d, b, name)
  {
    var b :| b in d.bridges && IsBridge(d, b, name); b
  }

  /** A port that is not there is no error. */
  ghost function PortDeleted(d: Db, name: string, bridge: string): Option<Db> {
    if HasPort(d, name) then Commit(ApplyAll(d, DeletePortOps(PortId(d, name), name, bridge))) else Some(d)
  }

  /** A bridge that is not there is an error; one that has ports stays. */
  ghost function EmptyBridgeDeleted(d: Db, bridge: string): Option<Db> {
    if HasPorts(d, bridge) then Some(d)
    else if HasBridge(d, bridge) then Commit(ApplyAll(d, DeleteBridgeOps(BridgeId(d, bridge), bridge)))
    else None
  }

  /** What a DEL leaves when the server answers every request as the database allows; None when
      the DEL fails. */
  ghost function DelResult(d: Db, name: string, bridge: string): Option<Db> {
    match PortDeleted(d, name, bridge)
    case None => None
    case Some(d1) => EmptyBridgeDeleted(d1, bridge)
  }

  /** A bridge whose ports could not be read is deleted with them. */
  ghost function UnreadBridgeDeleted(d: Db, bridge: string): Option<Db> {
    if HasBridge(d, bridge) then Commit(ApplyAll(d, DeleteBridgeOps(BridgeId(d, bridge), bridge))) else None
  }

  /** What a DEL leaves, by which of its two reads were answered: a port that could not be read
      counts as gone, a bridge whose ports could not be read as empty. */
  ghost function DelOutcome(d: Db, name: string, bridge: string, portRead: bool, bridgeRead: bool): Option<Db> {
    match if portRead then PortDeleted(d, name, bridge) else Some(d)
    case None => None
    case Some(d1) => if bridgeRead then EmptyBridgeDeleted(d1, bridge) else UnreadBridgeDeleted(d1, bridge)
  }

  lemma BridgeIdUnique(d: Db, b: nat, name: string)
    requires Unique(d) && IsBridge(d, b, name)
    ensures HasBridge(d, name) && BridgeId(d, name) == b && (HasPorts(d, name) <==> d.bridges[b].ports != {})
  {
    assert HasBridge(d, name);
    var c := BridgeId(d, name);
    assert IsBridge(d, c, name);
    if HasPorts(d, name) {
      var e :| e in d.bridges && IsBridge(d, e, name) && d.bridges[e].ports != {};
    }
  }

  lemma PortIdUnique(d: Db, p: nat, name: string)
    requires Unique(d) && IsPort(d, p, name)
    ensures HasPort(d, name) && PortId(d, name) == p
  {
    assert HasPort(d, name);
    assert IsPort(d, PortId(d, name), name);
  }

  /** The second half of a DEL, on rows with integrity. */
  lemma EmptyBridgeDeletedResult(d: Db, bridge: string)
    requires Integrity(d)
    ensures EmptyBridgeDeleted(d, bridge) ==
              if HasPorts(d, bridge) then Some(d)
              else if HasBridge(d, bridge) then Some(WithoutBridge(d, BridgeId(d, bridge)))
              else None
    ensures EmptyBridgeDeleted(d, bridge).Some? ==> Integrity(EmptyBridgeDeleted(d, bridge).value)
  {
    if !HasPorts(d, bridge) && HasBridge(d, bridge) {
      var b := BridgeId(d, bridge);
      BridgeIdUnique(d, b, bridge);
      hide Integrity, Commit;
      DeleteEmptyBridgeCommits(d, b, bridge);
    }
  }

  // ----- ADD, then DEL

  /** The rows after an ADD: the bridge made when it was missing, and a new port on it. */
  ghost predicate AddDone(d: Db, d': Db, u: nat, p: nat, i: nat, port: PortRow, iface: IfaceRow, bridge: string) {
    var d1 := if HasBridge(d, bridge) then d else WithBridge(d, u, bridge);
    && u !in d.bridges && p !in d1.ports && i !in d1.ifaces && port.ifaces == {i} && port.name == iface.name
    && !HasPort(d, port.name) && !HasIface(d, iface.name)
    && d' == WithPort(d1, p, i, port, iface, bridge)
  }

  lemma PortsBack(bridges: map<nat, BridgeRow>, name: string, p: nat)
    requires forall b :: b in bridges ==> p !in bridges[b].ports
    ensures WithPorts(WithPorts(bridges, name, {p}, {}), name, {}, {p}) == bridges
  {
    var back := WithPorts(WithPorts(bridges, name, {p}, {}), name, {}, {p});
    forall b | b in bridges ensures back[b] == bridges[b] {
      assert bridges[b].ports + {p} - {} + {} - {p} == bridges[b].ports;
    }
  }

  lemma RowsBack(d: Db, p: nat, i: nat, port: PortRow, iface: IfaceRow)
    requires p !in d.ports && i !in d.ifaces && port.name == iface.name
    requires !HasPort(d, port.name) && !HasIface(d, iface.name)
    ensures PortsBut(d.ports[p := port], port.name) == d.ports && IfacesBut(d.ifaces[i := iface], port.name) == d.ifaces
  {
    forall q | q in d.ports ensures d.ports[q].name != port.name {
      assert !IsPort(d, q, port.name);
    }
    forall j | j in d.ifaces ensures d.ifaces[j].name != iface.name {
      assert !IsIface(d, j, iface.name);
    }
  }

  lemma AddedDropped(d: Db, p: nat, i: nat, port: PortRow, iface: IfaceRow, bridge: string)
    requires Integrity(d) && p !in d.ports && i !in d.ifaces && port.name == iface.name
    requires !HasPort(d, port.name) && !HasIface(d, iface.name)
    ensures PortDropped(WithPort(d, p, i, port, iface, bridge), p, port.name, bridge) == d
  {
    NobodyHolds(d, p);
    hide Integrity, HasPort, HasIface, WithPorts;
    PortsBack(d.bridges, bridge, p);
    RowsBack(d, p, i, port, iface);
  }

  lemma WrongBridgeAborts(d: Db, p: nat, i: nat, port: PortRow, iface: IfaceRow, bridge: string, other: string)
    requires Integrity(d) && p !in d.ports && HasBridge(d, bridge) && other != bridge
    ensures !Live(PortDropped(WithPort(d, p, i, port, iface, bridge), p, port.name, other))
  {
    var e := PortDropped(WithPort(d, p, i, port, iface, bridge), p, port.name, other);
    var b :| b in d.bridges && IsBridge(d, b, bridge);
    assert b in e.bridges && p in e.bridges[b].ports && p !in e.ports;
  }

  lemma MadeBridgeDropped(d: Db, u: nat, bridge: string)
    requires Integrity(d) && u !in d.bridges && !HasBridge(d, bridge)
    ensures var d1 := WithBridge(d, u, bridge);
            EmptyBridgeDeleted(d1, bridge) == Some(d) && Integrity(d1) && HasBridge(d1, bridge)
  {
    var d1 := WithBridge(d, u, bridge);
    WithBridgeIntegrity(d, u, bridge);
    assert IsBridge(d1, u, bridge);
    BridgeIdUnique(d1, u, bridge);
    EmptyBridgeDeletedResult(d1, bridge);
    assert u !in d.roots;
    hide Integrity, HasBridge, HasPorts;
    assert WithoutBridge(d1, u) == d;
  }

  /** ADD and then DEL naming `other`: the DEL fails if and only if it names another bridge;
      otherwise every row is as before, except that a bridge that was there empty is gone. */
  lemma AddThenDel(d: Db, d': Db, u: nat, p: nat, i: nat, port: PortRow, iface: IfaceRow, bridge: string, other: string)
    requires Integrity(d) && AddDone(d, d', u, p, i, port, iface, bridge)
    ensures DelResult(d', port.name, other) ==
              if other != bridge then None
              else if EmptyBridge(d, bridge) then Some(WithoutBridge(d, BridgeId(d, bridge)))
              else Some(d)
  {
    var d1 := AddedBridge(d, d', u, p, i, port, iface, bridge);
    AddThenDeletePort(d1, d', p, i, port, iface, bridge, other);
    hide Integrity, WithPort, HasPort, HasIface, WithBridge, WithoutBridge, PortDeleted;
    if HasBridge(d, bridge) {
      EmptyBridgeDeletedResult(d, bridge);
    } else {
      MadeBridgeDropped(d, u, bridge);
    }
  }

  /** The rows between the two halves of an ADD. */
  lemma AddedBridge(d: Db, d': Db, u: nat, p: nat, i: nat, port: PortRow, iface: IfaceRow, bridge: string) returns (d1: Db)
    requires Integrity(d) && AddDone(d, d', u, p, i, port, iface, bridge)
    ensures d1 == if HasBridge(d, bridge) then d else WithBridge(d, u, bridge)
    ensures Integrity(d1) && HasBridge(d1, bridge) && p !in d1.ports && i !in d1.ifaces
    ensures !HasPort(d1, port.name) && !HasIface(d1, port.name) && d' == WithPort(d1, p, i, port, iface, bridge)
  {
    d1 := if HasBridge(d, bridge) then d else WithBridge(d, u, bridge);
    if !HasBridge(d, bridge) {
      hide HasPorts;
      MadeBridgeDropped(d, u, bridge);
      SameNames(d, d1, port.name);
    }
  }

  lemma SameNames(d: Db, d1: Db, name: string)
    requires d1.ports == d.ports && d1.ifaces == d.ifaces
    ensures HasPort(d1, name) == HasPort(d, name) && HasIface(d1, name) == HasIface(d, name)
  {
  }

  lemma AddThenDeletePort(d: Db, d': Db, p: nat, i: nat, port: PortRow, iface: IfaceRow, bridge: string, other: string)
    requires Integrity(d) && HasBridge(d, bridge) && p !in d.ports && i !in d.ifaces && port.ifaces == {i} && port.name == iface.name
    requires !HasPort(d, port.name) && !HasIface(d, port.name) && d' == WithPort(d, p, i, port, iface, bridge)
    ensures PortDeleted(d', port.name, other) == if other == bridge then Some(d) else None
  {
    assert d'.ports == d.ports[p := port];
    assert IsPort(d', p, port.name);
    hide HasPort, HasIface, HasBridge, WithPort, Live, NoGarbage, Unique, Commit, PortDropped;
    WithPortIntegrity(d, p, i, port, iface, bridge);
    PortIdUnique(d', p, port.name);
    DeletePortApplied(d', p, port.name, other);
    var e := PortDropped(d', p, port.name, other);
    if other != bridge {
      WrongBridgeAborts(d, p, i, port, iface, bridge, other);
      AbortsWhenDead(e);
    } else {
      AddedDropped(d, p, i, port, iface, bridge);
      CommitIdempotent(d);
    }
  }

  lemma AbortsWhenDead(d: Db)
    requires !Live(d)
    ensures Commit(d) == None
  {
  }

  // ----- A second DEL

  lemma NoPortLeft(d: Db, d1: Db, p: nat, name: string)
    requires Unique(d) && IsPort(d, p, name) && d1.ports == d.ports - {p}
    ensures !HasPort(d1, name)
  {
    forall q | q in d1.ports ensures !IsPort(d1, q, name) {
    }
  }

  lemma PortDeletedFacts(d: Db, name: string, bridge: string)
    requires Integrity(d) && PortDeleted(d, name, bridge).Some?
    ensures var d1 := PortDeleted(d, name, bridge).value;
            Integrity(d1) && !HasPort(d1, name) && d1.roots == d.roots
    ensures var d1 := PortDeleted(d, name, bridge).value;
            if HasPort(d, name)
            then && Detachable(d, PortId(d, name), name, bridge) && d1.ports == d.ports - {PortId(d, name)}
                 && d1.bridges == WithPorts(d.bridges, bridge, {}, {PortId(d, name)})
            else d1 == d
  {
    hide Commit, Live, NoGarbage, WithPorts, Detachable;
    if HasPort(d, name) {
      var p := PortId(d, name);
      DeletePortCommits(d, p, name, bridge);
      NoPortLeft(d, PortDeleted(d, name, bridge).value, p, name);
    }
  }

  lemma NoBridgeLeft(d: Db, name: string)
    requires Unique(d) && HasBridge(d, name)
    ensures var d' := WithoutBridge(d, BridgeId(d, name)); !HasBridge(d', name) && !HasPorts(d', name)
  {
    var u := BridgeId(d, name);
    var d' := WithoutBridge(d, u);
    assert IsBridge(d, u, name);
    forall b | b in d'.bridges ensures !IsBridge(d', b, name) {
    }
  }

  /** After a DEL that went through, the same DEL again changes nothing; it succeeds if and only
      if the bridge is still there, kept by another port. */
  lemma SecondDel(d: Db, name: string, bridge: string)
    requires Integrity(d) && DelResult(d, name, bridge).Some?
    ensures var d2 := DelResult(d, name, bridge).value;
            && DelResult(d2, name, bridge) == (if HasBridge(d2, bridge) then Some(d2) else None)
            && (HasBridge(d2, bridge) <==> HasPorts(d2, bridge))
  {
    var d1 := PortDeleted(d, name, bridge).value;
    PortDeletedFacts(d, name, bridge);
    EmptyBridgeDeletedResult(d1, bridge);
    hide Live, NoGarbage, Commit, WithPorts, Detachable, PortDeleted;
    var d2 := DelResult(d, name, bridge).value;
    if HasPorts(d1, bridge) {
      PortsImplyBridge(d1, bridge);
    } else {
      NoBridgeLeft(d1, bridge);
      SameNames(d1, d2, name);
    }
    NothingToDelete(d2, name, bridge);
  }

  lemma PortsImplyBridge(d: Db, bridge: string)
    ensures HasPorts(d, bridge) ==> HasBridge(d, bridge)
  {
  }

  lemma NothingToDelete(d: Db, name: string, bridge: string)
    requires !HasPort(d, name)
    ensures PortDeleted(d, name, bridge) == Some(d)
  {
  }

  lemma UnreadLoses(d: Db, bridge: string, p: nat)
    requires Integrity(d) && UnreadBridgeDeleted(d, bridge).Some?
    requires forall c :: c in d.bridges && p in d.bridges[c].ports ==> d.bridges[c].name == bridge
    ensures p !in UnreadBridgeDeleted(d, bridge).value.ports
  {
    var b := BridgeId(d, bridge);
    assert IsBridge(d, b, bridge);
    forall c | c in d.bridges && c != b ensures p !in d.bridges[c].ports {
      assert d.bridges[c].name == bridge ==> c == b;
    }
    hide Commit, Live, NoGarbage, Unique;
    DeleteBridgeCommits(d, b, bridge);
  }

  /** A DEL whose read of the bridge's ports is not answered and which succeeds all the same
      loses every port that only this bridge held, whoever it belongs to. */
  lemma UnreadBridgeLosesPorts(d: Db, name: string, bridge: string, portRead: bool, p: nat)
    requires Integrity(d) && DelOutcome(d, name, bridge, portRead, false).Some?
    requires forall c :: c in d.bridges && p in d.bridges[c].ports ==> d.bridges[c].name == bridge
    ensures p !in DelOutcome(d, name, bridge, portRead, false).value.ports
  {
    var d1 := if portRead then PortDeleted(d, name, bridge).value else d;
    if portRead {
      StillOnlyHeld(d, name, bridge, p);
    }
    hide PortDeleted, UnreadBridgeDeleted, Live, NoGarbage, Unique;
    UnreadLoses(d1, bridge, p);
  }

  lemma StillOnlyHeld(d: Db, name: string, bridge: string, p: nat)
    requires Integrity(d) && PortDeleted(d, name, bridge).Some?
    requires forall c :: c in d.bridges && p in d.bridges[c].ports ==> d.bridges[c].name == bridge
    ensures var d1 := PortDeleted(d, name, bridge).value;
            Integrity(d1) && forall c :: c in d1.bridges && p in d1.bridges[c].ports ==> d1.bridges[c].name == bridge
  {
    hide PortDeleted, Live, NoGarbage, Unique, Detachable, HasPort;
    PortDeletedFacts(d, name, bridge);
  }

  // ----- The operations, as the code does them

  function IfaceFor(path: string, name: string, client: bool, cfg: PortConfig): IfaceRow {
    var ids := map["owner" := OWNER, "container-id" := cfg.containerId, "interface" := cfg.ifName];
    IfaceRow(name,
             if client then "dpdkvhostuserclient" else "dpdkvhostuser",
             if cfg.ovnPort != "" then ids["iface-id" := cfg.ovnPort] else ids,
             if cfg.mtu > 0 then cfg.mtu else 0,
             if cfg.ingressRate > 0 then cfg.ingressRate else 0,
             if cfg.ingressRate > 0 && cfg.ingressBurst > 0 then cfg.ingressBurst else 0,
             if client then path else "")
  }

  function PortFor(i: nat, name: string, cfg: PortConfig): PortRow {
    PortRow(name, {i}, cfg.vlanMode, if cfg.vlanId > 0 then cfg.vlanId else 0, cfg.trunks)
  }

  /** The port and the interface say what the configuration says: names, kind and ownership, the
      OVN port when there is one, VLAN and trunks, MTU and rates when they are set, and the socket
      OVS connects to when it is the client. */
  ghost predicate PortAsAsked(d: Db, p: nat, i: nat, path: string, name: string, client: bool, cfg: PortConfig) {
    && p in d.ports && i in d.ifaces
    && d.ports[p].name == d.ifaces[i].name == name && d.ports[p].ifaces == {i}
    && d.ports[p].vlanMode == cfg.vlanMode && d.ports[p].trunks == cfg.trunks
    && (cfg.vlanId > 0 ==> d.ports[p].tag == cfg.vlanId) && (cfg.vlanId <= 0 ==> d.ports[p].tag == 0)
    && var row := d.ifaces[i];
       && (client ==> row.kind == "dpdkvhostuserclient" && row.serverPath == path)
       && (!client ==> row.kind == "dpdkvhostuser" && row.serverPath == "")
       && "owner" in row.externalIds && row.externalIds["owner"] == "userspace-cni"
       && "container-id" in row.externalIds && row.externalIds["container-id"] == cfg.containerId
       && "interface" in row.externalIds && row.externalIds["interface"] == cfg.ifName
       && ("iface-id" in row.externalIds <==> cfg.ovnPort != "")
       && (cfg.ovnPort != "" ==> row.externalIds["iface-id"] == cfg.ovnPort)
       && row.externalIds.Keys <= {"owner", "container-id", "interface", "iface-id"}
       && (cfg.mtu > 0 ==> row.mtuRequest == cfg.mtu) && (cfg.mtu <= 0 ==> row.mtuRequest == 0)
       && (cfg.ingressRate > 0 ==> row.policingRate == cfg.ingressRate) && (cfg.ingressRate <= 0 ==> row.policingRate == 0)
       && (cfg.ingressRate > 0 && cfg.ingressBurst > 0 ==> row.policingBurst == cfg.ingressBurst)
       && (cfg.ingressRate <= 0 || cfg.ingressBurst <= 0 ==> row.policingBurst == 0)
  }

  lemma AddedAsAsked(d: Db, p: nat, i: nat, path: string, name: string, client: bool, bridge: string, cfg: PortConfig)
    ensures PortAsAsked(WithPort(d, p, i, PortFor(i, name, cfg), IfaceFor(path, name, client, cfg), bridge), p, i, path, name, client, cfg)
  {
    IdsAsAsked(path, name, client, cfg);
  }

  lemma IdsAsAsked(path: string, name: string, client: bool, cfg: PortConfig)
    ensures var ids := IfaceFor(path, name, client, cfg).externalIds;
            && ids.Keys == {"owner", "container-id", "interface"} + (if cfg.ovnPort != "" then {"iface-id"} else {})
            && ids["owner"] == "userspace-cni" && ids["container-id"] == cfg.containerId && ids["interface"] == cfg.ifName
            && (cfg.ovnPort != "" ==> ids["iface-id"] == cfg.ovnPort)
  {
    assert "iface-id"[2] != "interface"[2] && |"owner"| != |"interface"| && "container-id"[0] != "i"[0];
    assert |"iface-id"| == 8 && |"interface"| == 9 && |"owner"| == 5 && |"container-id"| == 12;
  }

  /** A failing read counts as "not found". */
  method FindBridge(s: Server, bridge: string) returns (found: bool, ghost read: bool)
    modifies s`lost
    ensures s.lost == old(s.lost) + if read then 0 else 1
    ensures found ==> HasBridge(s.db, bridge)
    ensures if read then HasBridge(s.db, bridge) ==> found else !found
  {
    var answered, rows := s.SelectBridges(bridge);
    read := answered;
    if !answered {
      return false, read;
    }
    found := |rows| > 0;
    if found {
      assert IsBridge(s.db, rows[0].0, bridge);
    }
  }

  /** A failing read counts as "no ports". */
  method DoesBridgeContainInterfaces(s: Server, bridge: string) returns (found: bool, ghost read: bool)
    requires Integrity(s.db)
    modifies s`lost
    ensures s.lost == old(s.lost) + if read then 0 else 1
    ensures found ==> HasPorts(s.db, bridge)
    ensures if read then HasPorts(s.db, bridge) ==> found else !found
  {
    var answered, rows := s.SelectBridges(bridge);
    read := answered;
    if !answered {
      return false, read;
    }
    if |rows| == 0 {
      assert !HasPorts(s.db, bridge);
      return false, read;
    }
    found := rows[0].1.ports != {};
    BridgeIdUnique(s.db, rows[0].0, bridge);
  }

  lemma NewBridgeThere(d: Db, u: nat, bridge: string)
    ensures var d1 := WithBridge(d, u, bridge); u in d1.roots && u in d1.bridges && d1.bridges[u] == BridgeRow(bridge, "netdev", {})
  {
  }

  method CreateBridge(s: Server, bridge: string) returns (ok: bool, ghost u: nat)
    requires Integrity(s.db)
    modifies s
    ensures Integrity(s.db) && s.lost >= old(s.lost)
    ensures ok <==> s.lost == old(s.lost) && !HasBridge(old(s.db), bridge)
    ensures !ok ==> s.db == old(s.db)
    ensures ok ==> u !in old(s.db).bridges && !HasBridge(old(s.db), bridge) && s.db == WithBridge(old(s.db), u, bridge)
    ensures ok ==> u in s.db.roots && u in s.db.bridges && s.db.bridges[u] == BridgeRow(bridge, "netdev", {})
  {
    hide Integrity, Commit, ApplyAll, WithBridge, HasBridge;
    var uuid := s.NewUuid();
    u := uuid;
    CreateBridgeCommits(s.db, u, bridge);
    NewBridgeThere(s.db, u, bridge);
    ok := s.Transact(CreateBridgeOps(uuid, bridge));
  }

  method DeleteBridge(s: Server, bridge: string) returns (ok: bool)
    requires Integrity(s.db)
    modifies s
    ensures Integrity(s.db) && s.lost >= old(s.lost)
    ensures ok <==> s.lost == old(s.lost) && HasBridge(old(s.db), bridge)
    ensures !ok ==> s.db == old(s.db)
    ensures ok ==> HasBridge(old(s.db), bridge)
    ensures ok ==> Commit(ApplyAll(old(s.db), DeleteBridgeOps(BridgeId(old(s.db), bridge), bridge))) == Some(s.db)
  {
    hide Live, NoGarbage, Commit, ApplyAll;
    var answered, rows := s.SelectBridges(bridge);
    if !answered || |rows| == 0 {
      return false;
    }
    var b := rows[0].0;
    BridgeIdUnique(s.db, b, bridge);
    DeleteBridgeCommits(s.db, b, bridge);
    ok := s.Transact(DeleteBridgeOps(b, bridge));
  }

  /** Adds the port and its interface; on a bridge that is not there it succeeds all the same,
      and adds nothing. */
  method CreateVhostPort(s: Server, path: string, name: string, client: bool, bridge: string, cfg: PortConfig)
    returns (ok: bool, ghost p: nat, ghost i: nat)
    requires Integrity(s.db)
    modifies s
    ensures Integrity(s.db) && s.lost >= old(s.lost)
    ensures ok <==> s.lost == old(s.lost) && (!HasBridge(old(s.db), bridge) || (!HasPort(old(s.db), name) && !HasIface(old(s.db), name)))
    ensures !ok ==> s.db == old(s.db)
    ensures ok && !HasBridge(old(s.db), bridge) ==> s.db == old(s.db)
    ensures ok && HasBridge(old(s.db), bridge) ==>
              && p !in old(s.db).ports && i !in old(s.db).ifaces && !HasPort(old(s.db), name) && !HasIface(old(s.db), name)
              && s.db == WithPort(old(s.db), p, i, PortFor(i, name, cfg), IfaceFor(path, name, client, cfg), bridge)
              && PortAsAsked(s.db, p, i, path, name, client, cfg)
  {
    hide Integrity, Commit, ApplyAll, WithPort, HasBridge, HasPort, HasIface, PortAsAsked;
    var uuid := s.NewUuid();
    p, i := uuid, uuid;
    AddedAsAsked(s.db, p, i, path, name, client, bridge, cfg);
    var iface := BuildIface(path, name, client, cfg);
    var port := PortRow(name, {uuid}, "", 0, []);
    if cfg.vlanMode != "" {
      port := port.(vlanMode := cfg.vlanMode);
    }
    if cfg.vlanId > 0 {
      port := port.(tag := cfg.vlanId);
    }
    if |cfg.trunks| > 0 {
      port := port.(trunks := cfg.trunks);
    }
    assert port == PortFor(uuid, name, cfg);
    CreatePortCommits(s.db, uuid, uuid, port, iface, bridge);
    ok := s.Transact(CreatePortOps(uuid, uuid, port, iface, bridge));
  }

  method BuildIface(path: string, name: string, client: bool, cfg: PortConfig) returns (iface: IfaceRow)
    ensures iface == IfaceFor(path, name, client, cfg)
  {
    var kind := "dpdkvhostuser";
    if client {
      kind := "dpdkvhostuserclient";
    }
    var ids := map["owner" := OWNER, "container-id" := cfg.containerId, "interface" := cfg.ifName];
    if cfg.ovnPort != "" {
      ids := ids["iface-id" := cfg.ovnPort];
    }
    iface := IfaceRow(name, kind, ids, 0, 0, 0, "");
    if cfg.mtu > 0 {
      iface := iface.(mtuRequest := cfg.mtu);
    }
    if cfg.ingressRate > 0 {
      iface := iface.(policingRate := cfg.ingressRate);
      if cfg.ingressBurst > 0 {
        iface := iface.(policingBurst := cfg.ingressBurst);
      }
    }
    if client {
      iface := iface.(serverPath := path);
    }
  }

  /** Deletes the port by name. One that cannot be found, or not be read, counts as gone. */
  method DeleteVhostPort(s: Server, name: string, bridge: string) returns (ok: bool, ghost read: bool)
    requires Integrity(s.db)
    modifies s
    ensures Integrity(s.db) && s.lost >= old(s.lost)
    ensures s.lost == old(s.lost) ==> read && (ok <==> PortDeleted(old(s.db), name, bridge).Some?)
    ensures ok ==> s.lost == old(s.lost) + if read then 0 else 1
    ensures !ok ==> s.db == old(s.db)
    ensures !read || !HasPort(old(s.db), name) ==> ok
    ensures ok ==> if read then PortDeleted(old(s.db), name, bridge) == Some(s.db) else s.db == old(s.db)
  {
    hide Live, NoGarbage, Commit, ApplyAll;
    var answered, rows := s.SelectPorts(name);
    read := answered;
    if !answered || |rows| == 0 {
      assert read ==> !HasPort(s.db, name);
      return true, read;
    }
    var p := rows[0].0;
    PortIdUnique(s.db, p, name);
    ok := s.Transact(DeletePortOps(p, name, bridge));
  }
}
