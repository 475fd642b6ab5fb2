/** The Open_vSwitch database as far as the plugin uses it, and its transactions: strong
    references and garbage collection (RFC 7047, section 3.2), the checks at commit
    (section 4.1.3) and the operations insert, delete and mutate (section 5.2). */
module Ovsdb {
  import opened Wrappers

  datatype BridgeRow = BridgeRow(name: string, datapathType: string, ports: set<nat>)

  /** Zero, "" and an empty list stand for columns that are not set. */
  datatype PortRow = PortRow(name: string, ifaces: set<nat>, vlanMode: string, tag: int, trunks: seq<int>)

  datatype IfaceRow = IfaceRow(name: string, kind: string, externalIds: map<string, string>, mtuRequest: int,
                               policingRate: int, policingBurst: int, serverPath: string)

  /** `roots` is the bridges column of the one Open_vSwitch row. */
  datatype Db = Db(roots: set<nat>, bridges: map<nat, BridgeRow>, ports: map<nat, PortRow>, ifaces: map<nat, IfaceRow>)

  // ----- Operations

  datatype Op =
    | InsertBridge(u: nat, bridge: BridgeRow)
    | InsertPort(u: nat, port: PortRow)
    | InsertIface(u: nat, iface: IfaceRow)
    | DeleteBridges(name: string)
    | DeletePorts(name: string)
    | DeleteIfaces(name: string)
    | MutateRoots(add: set<nat>, drop: set<nat>)
    | MutatePorts(name: string, add: set<nat>, drop: set<nat>)

  function WithPorts(bridges: map<nat, BridgeRow>, name: string, add: set<nat>, drop: set<nat>): map<nat, BridgeRow> {
    map b | b in bridges :: if bridges[b].name == name then bridges[b].(ports := bridges[b].ports + add - drop) else bridges[b]
  }

  function BridgesBut(bridges: map<nat, BridgeRow>, name: string): map<nat, BridgeRow> {
    map b | b in bridges && bridges[b].name != name :: bridges[b]
  }

  function PortsBut(ports: map<nat, PortRow>, name: string): map<nat, PortRow> {
    map p | p in ports && ports[p].name != name :: ports[p]
  }

  function IfacesBut(ifaces: map<nat, IfaceRow>, name: string): map<nat, IfaceRow> {
    map i | i in ifaces && ifaces[i].name != name :: ifaces[i]
  }

  function Apply(d: Db, op: Op): Db {
    match op
    case InsertBridge(u, row) => d.(bridges := d.bridges[u := row])
    case InsertPort(u, row) => d.(ports := d.ports[u := row])
    case InsertIface(u, row) => d.(ifaces := d.ifaces[u := row])
    case DeleteBridges(name) => d.(bridges := BridgesBut(d.bridges, name))
    case DeletePorts(name) => d.(ports := PortsBut(d.ports, name))
    case DeleteIfaces(name) => d.(ifaces := IfacesBut(d.ifaces, name))
    case MutateRoots(add, drop) => d.(roots := d.roots + add - drop)
    case MutatePorts(name, add, drop) => d.(bridges := WithPorts(d.bridges, name, add, drop))
  }

  function ApplyAll(d: Db, ops: seq<Op>): Db
    decreases |ops|
  {
    if ops == [] then d else ApplyAll(Apply(d, ops[0]), ops[1..])
  }

  lemma Apply2(d: Db, ops: seq<Op>)
    requires |ops| == 2
    ensures ApplyAll(d, ops) == Apply(Apply(d, ops[0]), ops[1])
  {
    hide Apply;
    assert ops[1..] == [ops[1]] && [ops[1]][1..] == [];
    var d1 := Apply(d, ops[0]);
    assert ApplyAll(d, ops) == ApplyAll(d1, [ops[1]]);
    assert ApplyAll(Apply(d1, ops[1]), []) == Apply(d1, ops[1]);
  }

  lemma Apply3(d: Db, ops: seq<Op>)
    requires |ops| == 3
    ensures ApplyAll(d, ops) == Apply(Apply(Apply(d, ops[0]), ops[1]), ops[2])
  {
    hide Apply;
    assert ops[1..][1..] == [ops[2]] && [ops[2]][1..] == [];
    var d1 := Apply(d, ops[0]);
    var d2 := Apply(d1, ops[1]);
    assert ApplyAll(d1, ops[1..]) == ApplyAll(d2, [ops[2]]);
    assert ApplyAll(Apply(d2, ops[2]), []) == Apply(d2, ops[2]);
  }

  // ----- Commit

  /** No row refers to a row that is not there. */
  predicate Live(d: Db) {
    && d.roots <= d.bridges.Keys
    && (forall b | b in d.bridges :: d.bridges[b].ports <= d.ports.Keys)
    && (forall p | p in d.ports :: d.ports[p].ifaces <= d.ifaces.Keys)
  }

  predicate PortHeld(d: Db, p: nat) {
    exists b | b in d.bridges :: b in d.roots && p in d.bridges[b].ports
  }

  predicate IfaceHeld(d: Db, i: nat) {
    exists p | p in d.ports :: PortHeld(d, p) && i in d.ports[p].ifaces
  }

  /** Rows that nothing reachable from the root refers to are dropped. */
  function Collected(d: Db): Db {
    Db(d.roots,
       map b | b in d.bridges && b in d.roots :: d.bridges[b],
       map p | p in d.ports && PortHeld(d, p) :: d.ports[p],
       map i | i in d.ifaces && IfaceHeld(d, i) :: d.ifaces[i])
  }

  /** Names are unique within each table. */
  predicate Unique(d: Db) {
    && (forall b, c | b in d.bridges && c in d.bridges :: d.bridges[b].name == d.bridges[c].name ==> b == c)
    && (forall p, q | p in d.ports && q in d.ports :: d.ports[p].name == d.ports[q].name ==> p == q)
    && (forall i, j | i in d.ifaces && j in d.ifaces :: d.ifaces[i].name == d.ifaces[j].name ==> i == j)
  }

  /** What a transaction leaves, or None when it must abort. */
  function Commit(d: Db): Option<Db> {
    if Live(d) && Unique(Collected(d)) then Some(Collected(d)) else None
  }

  // ----- Integrity

  ghost predicate NoGarbage(d: Db) {
    && (forall b :: b in d.bridges ==> b in d.roots)
    && (forall p :: p in d.ports ==> PortHeld(d, p))
    && (forall i :: i in d.ifaces ==> IfaceHeld(d, i))
  }

  /** Every reference live, every row in use, every name unique. */
  ghost predicate Integrity(d: Db) {
    Live(d) && NoGarbage(d) && Unique(d)
  }

  lemma HeldStaysHeld(d: Db, p: nat)
    requires PortHeld(d, p)
    ensures PortHeld(Collected(d), p)
  {
    var b :| b in d.bridges && b in d.roots && p in d.bridges[b].ports;
    assert b in Collected(d).bridges;
  }

  lemma IfaceStaysHeld(d: Db, i: nat)
    requires IfaceHeld(d, i)
    ensures IfaceHeld(Collected(d), i)
  {
    var p :| p in d.ports && PortHeld(d, p) && i in d.ports[p].ifaces;
    HeldStaysHeld(d, p);
    hide PortHeld;
    assert p in Collected(d).ports;
  }

  lemma CollectedLive(d: Db)
    requires Live(d)
    ensures Live(Collected(d))
  {
    var g := Collected(d);
    forall b, p | b in g.bridges && p in g.bridges[b].ports ensures p in g.ports {
      assert PortHeld(d, p);
    }
    forall p, i | p in g.ports && i in g.ports[p].ifaces ensures i in g.ifaces {
      assert IfaceHeld(d, i);
    }
  }

  /** Whatever the operations of a transaction, the rows it leaves have integrity. */
  lemma CommitKeepsIntegrity(d: Db)
    requires Commit(d).Some?
    ensures Integrity(Commit(d).value)
  {
    var g := Collected(d);
    CollectedLive(d);
    forall p | p in g.ports ensures PortHeld(g, p) {
      HeldStaysHeld(d, p);
    }
    forall i | i in g.ifaces ensures IfaceHeld(g, i) {
      IfaceStaysHeld(d, i);
    }
  }

  /** Rows with integrity commit as they are. */
  lemma CommitIdempotent(d: Db)
    requires Integrity(d)
    ensures Commit(d) == Some(d)
  {
    hide PortHeld, IfaceHeld, Unique, Live;
    assert Collected(d) == d;
  }

  // ----- The server

  class Server {
    var db: Db
    /** How many requests, and steps on the host beside them, failed for no reason the rows show. */
    ghost var lost: nat

    constructor ()
      ensures db == Db({}, map[], map[], map[]) && Integrity(db)
    {
      db := Db({}, map[], map[], map[]);
    }

    /** Whether a request arrives, or a step whose outcome is not modelled works. */
    method Works() returns (ok: bool)
      modifies this`lost
      ensures lost == old(lost) + if ok then 0 else 1
    {
      ok := *;
      if !ok {
        lost := lost + 1;
      }
    }

    /** All operations or none: a transaction that is not lost commits if it can. */
    method Transact(ops: seq<Op>) returns (ok: bool)
      requires Integrity(db)
      modifies this
      ensures Integrity(db) && old(lost) <= lost <= old(lost) + 1
      ensures ok <==> lost == old(lost) && Commit(ApplyAll(old(db), ops)).Some?
      ensures ok ==> Commit(ApplyAll(old(db), ops)) == Some(db)
      ensures !ok ==> db == old(db)
    {
      hide Commit, Integrity, ApplyAll;
      var result := Commit(ApplyAll(db, ops));
      ok := Works();
      ok := ok && result.Some?;
      if ok {
        CommitKeepsIntegrity(ApplyAll(db, ops));
        db := result.value;
      }
    }

    /** A select of the bridges of a name, unless the server does not answer. */
    method SelectBridges(name: string) returns (answered: bool, rows: seq<(nat, BridgeRow)>)
      modifies this`lost
      ensures lost == old(lost) + if answered then 0 else 1
      ensures answered ==> forall k :: 0 <= k < |rows| ==> rows[k].0 in db.bridges && rows[k].1 == db.bridges[rows[k].0] && rows[k].1.name == name
      ensures answered ==> forall b :: b in db.bridges && db.bridges[b].name == name ==> (b, db.bridges[b]) in rows
    {
      answered := Works();
      rows := [];
      var todo := db.bridges.Keys;
      while todo != {}
        invariant todo <= db.bridges.Keys && lost == old(lost) + if answered then 0 else 1
        invariant forall k :: 0 <= k < |rows| ==> rows[k].0 in db.bridges && rows[k].1 == db.bridges[rows[k].0] && rows[k].1.name == name
        invariant forall b :: b in db.bridges && db.bridges[b].name == name ==> b in todo || (b, db.bridges[b]) in rows
      {
        var b :| b in todo;
        todo := todo - {b};
        if db.bridges[b].name == name {
          rows := rows + [(b, db.bridges[b])];
        }
      }
    }

    method SelectPorts(name: string) returns (answered: bool, rows: seq<(nat, PortRow)>)
      modifies this`lost
      ensures lost == old(lost) + if answered then 0 else 1
      ensures answered ==> forall k :: 0 <= k < |rows| ==> rows[k].0 in db.ports && rows[k].1 == db.ports[rows[k].0] && rows[k].1.name == name
      ensures answered ==> forall p :: p in db.ports && db.ports[p].name == name ==> (p, db.ports[p]) in rows
    {
      answered := Works();
      rows := [];
      var todo := db.ports.Keys;
      while todo != {}
        invariant todo <= db.ports.Keys && lost == old(lost) + if answered then 0 else 1
        invariant forall k :: 0 <= k < |rows| ==> rows[k].0 in db.ports && rows[k].1 == db.ports[rows[k].0] && rows[k].1.name == name
        invariant forall p :: p in db.ports && db.ports[p].name == name ==> p in todo || (p, db.ports[p]) in rows
      {
        var p :| p in todo;
        todo := todo - {p};
        if db.ports[p].name == name {
          rows := rows + [(p, db.ports[p])];
        }
      }
    }

    /** An identifier no row has. */
    method NewUuid() returns (u: nat)
      ensures u !in db.bridges && u !in db.ports && u !in db.ifaces
    {
      var used := db.bridges.Keys + db.ports.Keys + db.ifaces.Keys;
      assert Above(used) !in used;
      u :| u !in used;
    }
  }
}
