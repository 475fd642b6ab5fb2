/** The node as the plugin and the restore daemon see it: the VPP tables reached through
    the binary API, and the socket files on disk. A request that is lost changes nothing; any
    request may be. One that is not lost takes effect unless VPP has a reason to refuse it. */
module Vpp {
  import opened Wrappers

  newtype uint32 = x: int | 0 <= x < 0x1_0000_0000

  const MAX_SOCKETS: nat := 0xFFFF_FFFE

  datatype Role = Master | Slave

  datatype Mode = Ethernet | Ip | PuntInject

  /** The memif_create_v2 knobs that are carried through unchanged. */
  datatype Tuning = Tuning(rxQueues: nat, txQueues: nat, ringSize: nat, bufferSize: nat,
                           secret: string, noZeroCopy: bool, useDma: bool, hwAddr: string)

  /** A row of VPP's interface table. Interfaces of other kinds share the index space. */
  datatype Iface =
    | MemifRow(socketId: uint32, id: uint32, role: Role, mode: Mode, tuning: Tuning, up: bool, mtu: uint32)
    | ForeignRow(kind: string)

  datatype Tables = Tables(sockets: map<uint32, string>, ifaces: map<nat, Iface>, bridges: map<uint32, set<nat>>)

  ghost predicate IsMemif(t: Tables, x: nat) {
    x in t.ifaces && t.ifaces[x].MemifRow?
  }

  ghost predicate OnSocketId(t: Tables, x: nat, id: uint32) {
    IsMemif(t, x) && t.ifaces[x].socketId == id
  }

  ghost predicate InBridge(t: Tables, b: uint32, x: nat) {
    b in t.bridges && x in t.bridges[b]
  }

  /** The filename a memif listens on; "" when its socket id is not registered. */
  function SocketOf(t: Tables, x: nat): string
    requires x in t.ifaces && t.ifaces[x].MemifRow?
  {
    var id := t.ifaces[x].socketId;
    if id in t.sockets then t.sockets[id] else ""
  }

  /** VPP refuses two memifs with the same socket id and memif id. */
  predicate SameEndpoint(r: Iface, s: Iface)
    requires r.MemifRow? && s.MemifRow?
  {
    r.socketId == s.socketId && r.id == s.id
  }

  /** What every step of the plugin and of the daemon keeps true of the tables. */
  ghost predicate Inv(t: Tables) {
    && 0 in t.sockets
    && |t.sockets| <= MAX_SOCKETS
    && (forall i, j :: i in t.sockets && j in t.sockets && t.sockets[i] == t.sockets[j] ==> i == j)
    && (forall x :: IsMemif(t, x) ==> t.ifaces[x].socketId in t.sockets)
    && (forall x, y :: IsMemif(t, x) && IsMemif(t, y) && SameEndpoint(t.ifaces[x], t.ifaces[y]) ==> x == y)
    && (forall b :: b in t.bridges ==> t.bridges[b] <= t.ifaces.Keys)
  }

  /** Deleting an interface also takes it out of its bridge domain. */
  function WithoutIface(t: Tables, x: nat): Tables {
    Tables(t.sockets, t.ifaces - {x}, map b | b in t.bridges :: t.bridges[b] - {x})
  }

  /** At most the file at `path` was created or refreshed. */
  ghost predicate OnlyTouched(files: map<string, int>, files': map<string, int>, path: string) {
    && files.Keys <= files'.Keys <= files.Keys + {path}
    && forall p :: p in files && p != path ==> files'[p] == files[p]
  }

  class Node {
    var vpp: Tables
    /** Socket files on disk, with their modification times in seconds. */
    var files: map<string, int>
    /** How many requests and steps on disk failed for no reason the tables show. */
    ghost var lost: nat

    constructor (vpp: Tables, files: map<string, int>)
      ensures this.vpp == vpp && this.files == files
    {
      this.vpp, this.files := vpp, files;
    }

    /** Whether a request arrives, or a step whose outcome is not modelled works. */
    method Works() returns (ok: bool)
      modifies this`lost
      ensures lost == old(lost) + if ok then 0 else 1
    {
      ok := *;
      if !ok {
        lost := lost + 1;
      }
    }

    // ----- Dumps: every row once, in an order VPP does not promise

    method DumpSockets() returns (d: seq<(uint32, string)>)
      ensures forall k :: 0 <= k < |d| ==> d[k].0 in vpp.sockets && d[k].1 == vpp.sockets[d[k].0]
      ensures forall id :: id in vpp.sockets ==> (id, vpp.sockets[id]) in d
    {
      d := [];
      var todo := vpp.sockets.Keys;
      while todo != {}
        invariant todo <= vpp.sockets.Keys
        invariant forall k :: 0 <= k < |d| ==> d[k].0 in vpp.sockets && d[k].1 == vpp.sockets[d[k].0]
        invariant forall id :: id in vpp.sockets ==> id in todo || (id, vpp.sockets[id]) in d
      {
        var id :| id in todo;
        d, todo := d + [(id, vpp.sockets[id])], todo - {id};
      }
    }

    method DumpMemifs() returns (d: seq<(nat, Iface)>)
      ensures forall k :: 0 <= k < |d| ==> IsMemif(vpp, d[k].0) && d[k].1 == vpp.ifaces[d[k].0]
      ensures forall x :: IsMemif(vpp, x) ==> (x, vpp.ifaces[x]) in d
      ensures forall j, k :: 0 <= j < k < |d| ==> d[j].0 != d[k].0
    {
      d := [];
      var todo := vpp.ifaces.Keys;
      while todo != {}
        invariant todo <= vpp.ifaces.Keys
        invariant forall k :: 0 <= k < |d| ==> d[k].0 !in todo && IsMemif(vpp, d[k].0) && d[k].1 == vpp.ifaces[d[k].0]
        invariant forall x :: IsMemif(vpp, x) ==> x in todo || (x, vpp.ifaces[x]) in d
        invariant forall j, k :: 0 <= j < k < |d| ==> d[j].0 != d[k].0
      {
        var x :| x in todo;
        todo := todo - {x};
        if vpp.ifaces[x].MemifRow? {
          d := d + [(x, vpp.ifaces[x])];
        }
      }
    }

    /** The replies to a dump of one bridge domain: how many interfaces it has, or nothing when it
        is not there. */
    method DumpBridge(b: uint32) returns (d: seq<nat>)
      ensures d == if b in vpp.bridges then [|vpp.bridges[b]|] else []
    {
      d := if b in vpp.bridges then [|vpp.bridges[b]|] else [];
    }

    // ----- Requests

    method AddSocketFilename(id: uint32, file: string) returns (ok: bool)
      modifies this`vpp, this`lost
      ensures old(lost) <= lost <= old(lost) + 1
      ensures ok <==> lost == old(lost) && id !in old(vpp).sockets && |old(vpp).sockets| < MAX_SOCKETS
      ensures vpp == if ok then old(vpp).(sockets := old(vpp).sockets[id := file]) else old(vpp)
    {
      ok := Works();
      ok := ok && id !in vpp.sockets && |vpp.sockets| < MAX_SOCKETS;
      if ok {
        vpp := vpp.(sockets := vpp.sockets[id := file]);
      }
    }

    method DelSocketFilename(id: uint32) returns (ok: bool)
      modifies this`vpp, this`lost
      ensures old(lost) <= lost <= old(lost) + 1
      ensures ok <==> lost == old(lost)
      ensures vpp == if ok then old(vpp).(sockets := old(vpp).sockets - {id}) else old(vpp)
    {
      ok := Works();
      if ok {
        vpp := vpp.(sockets := vpp.sockets - {id});
      }
    }

    /** VPP picks an index no interface holds; it refuses an unknown socket id and a second
        memif with the same socket id and memif id. A master's listening file may appear. */
    method CreateMemif(row: Iface) returns (ok: bool, x: nat)
      requires row.MemifRow?
      modifies this
      ensures old(lost) <= lost <= old(lost) + 1
      ensures ok <==>
                && lost == old(lost) && row.socketId in old(vpp).sockets
                && forall y :: OnSocketId(old(vpp), y, row.socketId) ==> old(vpp).ifaces[y].id != row.id
      ensures ok ==> x !in old(vpp).ifaces
      ensures vpp == if ok then old(vpp).(ifaces := old(vpp).ifaces[x := row]) else old(vpp)
      ensures if ok then OnlyTouched(old(files), files, old(vpp).sockets[row.socketId]) else files == old(files)
    {
      ok := Works();
      ok := ok && row.socketId in vpp.sockets
            && forall y | y in vpp.ifaces :: vpp.ifaces[y].MemifRow? && vpp.ifaces[y].socketId == row.socketId
                                             ==> vpp.ifaces[y].id != row.id;
      var used := vpp.ifaces.Keys;
      assert Above(used) !in used;
      x :| x !in used;
      if ok {
        var touch: bool := *;
        if touch && row.role.Master? {
          var now: int := *;
          files := files[vpp.sockets[row.socketId] := now];
        }
        vpp := vpp.(ifaces := vpp.ifaces[x := row]);
      }
    }

    method DeleteMemif(x: nat) returns (ok: bool)
      modifies this`vpp, this`lost
      ensures old(lost) <= lost <= old(lost) + 1
      ensures ok <==> lost == old(lost) && IsMemif(old(vpp), x)
      ensures vpp == if ok then WithoutIface(old(vpp), x) else old(vpp)
    {
      ok := Works();
      ok := ok && x in vpp.ifaces && vpp.ifaces[x].MemifRow?;
      if ok {
        vpp := WithoutIface(vpp, x);
      }
    }

    method SetUp(x: nat) returns (ok: bool)
      modifies this`vpp, this`lost
      ensures old(lost) <= lost <= old(lost) + 1
      ensures ok <==> lost == old(lost) && IsMemif(old(vpp), x)
      ensures vpp == if ok then old(vpp).(ifaces := old(vpp).ifaces[x := old(vpp).ifaces[x].(up := true)]) else old(vpp)
    {
      ok := Works();
      ok := ok && x in vpp.ifaces && vpp.ifaces[x].MemifRow?;
      if ok {
        vpp := vpp.(ifaces := vpp.ifaces[x := vpp.ifaces[x].(up := true)]);
      }
    }

    /** An MTU of 0 is no request at all. */
    method SetMtu(x: nat, mtu: uint32) returns (ok: bool)
      modifies this`vpp, this`lost
      ensures old(lost) <= lost <= old(lost) + 1
      ensures ok <==> lost == old(lost) && (mtu == 0 || IsMemif(old(vpp), x))
      ensures mtu == 0 ==> ok
      ensures vpp == if ok && mtu != 0 then old(vpp).(ifaces := old(vpp).ifaces[x := old(vpp).ifaces[x].(mtu := mtu)]) else old(vpp)
    {
      if mtu == 0 {
        return true;
      }
      ok := Works();
      ok := ok && x in vpp.ifaces && vpp.ifaces[x].MemifRow?;
      if ok {
        vpp := vpp.(ifaces := vpp.ifaces[x := vpp.ifaces[x].(mtu := mtu)]);
      }
    }

    method AddBridgeDomain(b: uint32) returns (ok: bool)
      modifies this`vpp, this`lost
      ensures old(lost) <= lost <= old(lost) + 1
      ensures ok <==> lost == old(lost) && b !in old(vpp).bridges
      ensures vpp == if ok then old(vpp).(bridges := old(vpp).bridges[b := {}]) else old(vpp)
    {
      ok := Works();
      ok := ok && b !in vpp.bridges;
      if ok {
        vpp := vpp.(bridges := vpp.bridges[b := {}]);
      }
    }

    method DelBridgeDomain(b: uint32) returns (ok: bool)
      modifies this`vpp, this`lost
      ensures old(lost) <= lost <= old(lost) + 1
      ensures ok <==> lost == old(lost) && b in old(vpp).bridges && old(vpp).bridges[b] == {}
      ensures vpp == if ok then old(vpp).(bridges := old(vpp).bridges - {b}) else old(vpp)
    {
      ok := Works();
      ok := ok && b in vpp.bridges && vpp.bridges[b] == {};
      if ok {
        vpp := vpp.(bridges := vpp.bridges - {b});
      }
    }

    /** An interface is in one bridge domain at a time, so joining one leaves any other. */
    method JoinBridge(b: uint32, x: nat) returns (ok: bool)
      modifies this`vpp, this`lost
      ensures old(lost) <= lost <= old(lost) + 1
      ensures ok <==> lost == old(lost) && b in old(vpp).bridges && x in old(vpp).ifaces
      ensures !ok ==> vpp == old(vpp)
      ensures ok ==> vpp == old(vpp).(bridges := map c | c in old(vpp).bridges ::
                                                   if c == b then old(vpp).bridges[c] + {x} else old(vpp).bridges[c] - {x})
    {
      ok := Works();
      ok := ok && b in vpp.bridges && x in vpp.ifaces;
      if ok {
        vpp := vpp.(bridges := map c | c in vpp.bridges :: if c == b then vpp.bridges[c] + {x} else vpp.bridges[c] - {x});
      }
    }

    method LeaveBridge(b: uint32, x: nat) returns (ok: bool)
      modifies this`vpp, this`lost
      ensures old(lost) <= lost <= old(lost) + 1
      ensures ok <==> lost == old(lost) && b in old(vpp).bridges
      ensures vpp == if ok then old(vpp).(bridges := old(vpp).bridges[b := old(vpp).bridges[b] - {x}]) else old(vpp)
    {
      ok := Works();
      ok := ok && b in vpp.bridges;
      if ok {
        vpp := vpp.(bridges := vpp.bridges[b := vpp.bridges[b] - {x}]);
      }
    }

    /** os.Remove: an absent file is no error; a present one may resist. */
    method RemoveFile(path: string) returns (ok: bool)
      modifies this`files, this`lost
      ensures old(lost) <= lost <= old(lost) + 1
      ensures ok <==> lost == old(lost)
      ensures path !in old(files) ==> ok
      ensures files == if ok then old(files) - {path} else old(files)
    {
      ok := true;
      if path in files {
        ok := Works();
      }
      if ok {
        files := files - {path};
      }
    }
  }
}
