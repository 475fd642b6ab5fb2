/** The memif wrappers: the socket table with its least-free-id search, find-or-create,
    and delete of a socket row with its last user. */
module MemifApi {
  import opened Vpp

  // ----- The least free socket id

  ghost predicate IsLeastFree(used: set<uint32>, id: uint32) {
    && 0 < id && id !in used
    && forall k: uint32 :: 0 < k < id ==> k in used
  }

  /** The ids 1..n. */
  ghost function Upto(n: uint32): (s: set<uint32>)
    ensures forall k :: k in s <==> 0 < k <= n
    ensures |s| == n as int
    decreases n as int
  {
    if n == 0 then {} else Upto(n - 1) + {n}
  }

  lemma SubsetSize<T>(a: set<T>, b: set<T>)
    requires a <= b
    ensures |a| <= |b|
  {
    assert b == a + (b - a);
  }

  /** Pigeonhole: ids 1..n are all taken only if at least n ids are in use. */
  lemma TakenBound(used: set<uint32>, n: uint32)
    requires forall k: uint32 :: 0 < k <= n ==> k in used
    ensures n as int <= |used|
  {
    assert Upto(n) <= used;
    SubsetSize(Upto(n), used);
  }

  lemma LeastFreeBound(used: set<uint32>, id: uint32)
    requires IsLeastFree(used, id)
    ensures id as int <= |used| + 1
  {
    TakenBound(used, id - 1);
  }

  lemma LeastFreeUnique(used: set<uint32>, a: uint32, b: uint32)
    requires IsLeastFree(used, a) && IsLeastFree(used, b)
    ensures a == b
  {
    assert a < b ==> a in used;
    assert b < a ==> b in used;
  }

  function Ids(used: seq<uint32>): set<uint32> {
    set k | k in used
  }

  lemma {:induction false} DistinctBound(used: seq<uint32>)
    ensures |Ids(used)| <= |used|
  {
    if used != [] {
      var n := |used| - 1;
      DistinctBound(used[..n]);
      assert Ids(used) == Ids(used[..n]) + {used[n]};
    }
  }

  /** The search loop. The list may repeat ids and may hold 0; the id never wraps as long as
      fewer than 2^32 - 1 ids are in use. */
  method FirstFreeId(usedList: seq<uint32>) returns (socketId: uint32)
    requires |Ids(usedList)| <= MAX_SOCKETS
    ensures IsLeastFree(Ids(usedList), socketId)
    ensures socketId as int <= |Ids(usedList)| + 1 <= |usedList| + 1
  {
    ghost var used := Ids(usedList);
    DistinctBound(usedList);
    socketId := 1;
    var done := false;
    while !done
      invariant 0 < socketId
      invariant forall k: uint32 :: 0 < k < socketId ==> k in used
      invariant done ==> socketId !in used
      decreases |used| + 1 - socketId as int, !done
    {
      TakenBound(used, socketId - 1);
      done := true;
      var i := 0;
      while i < |usedList|
        invariant 0 <= i <= |usedList|
        invariant done && forall k :: 0 <= k < i ==> usedList[k] != socketId
      {
        if socketId == usedList[i] {
          TakenBound(used, socketId);
          socketId := socketId + 1;
          done := false;
          break;
        }
        i := i + 1;
      }
    }
    LeastFreeBound(used, socketId);
  }

  // ----- The socket table

  method FindMemifSocket(ch: Node, socketFilename: string) returns (found: bool, socketId: uint32)
    requires Inv(ch.vpp)
    ensures found ==> socketId in ch.vpp.sockets && ch.vpp.sockets[socketId] == socketFilename
    ensures !found ==> socketFilename !in ch.vpp.sockets.Values && IsLeastFree(ch.vpp.sockets.Keys, socketId)
  {
    var dump := ch.DumpSockets();
    var usedList: seq<uint32> := [];
    found, socketId := false, 0;
    var i := 0;
    while i < |dump|
      invariant 0 <= i <= |dump| && !found && |usedList| == i
      invariant forall k :: 0 <= k < i ==> dump[k].1 != socketFilename && usedList[k] == dump[k].0
    {
      if socketFilename == dump[i].1 {
        found, socketId := true, dump[i].0;
        return;
      }
      usedList := usedList + [dump[i].0];
      i := i + 1;
    }
    assert Ids(usedList) == ch.vpp.sockets.Keys by {
      forall id | id in ch.vpp.sockets ensures id in usedList {
        var k :| 0 <= k < |dump| && dump[k] == (id, ch.vpp.sockets[id]);
        assert usedList[k] == id;
      }
    }
    forall id | id in ch.vpp.sockets ensures ch.vpp.sockets[id] != socketFilename {
      var k :| 0 <= k < |dump| && dump[k] == (id, ch.vpp.sockets[id]);
    }
    assert |ch.vpp.sockets.Keys| == |ch.vpp.sockets|;
    socketId := FirstFreeId(usedList);
  }

  /** The filename is registered, or there is room in the table. */
  ghost predicate HasRoom(t: Tables, socketFile: string) {
    socketFile in t.sockets.Values || |t.sockets| < MAX_SOCKETS
  }

  /** Find-or-create: a registered filename keeps its id, a new one takes the least free id. */
  method CreateMemifSocket(ch: Node, socketFile: string) returns (ok: bool, socketId: uint32)
    requires Inv(ch.vpp)
    modifies ch`vpp, ch`lost
    ensures Inv(ch.vpp) && ch.lost >= old(ch.lost)
    ensures ok <==> ch.lost == old(ch.lost) && HasRoom(old(ch.vpp), socketFile)
    ensures socketFile in old(ch.vpp).sockets.Values ==> ok && ch.vpp == old(ch.vpp)
    ensures ok ==> socketId in ch.vpp.sockets && ch.vpp.sockets[socketId] == socketFile
    ensures !ok ==> ch.vpp == old(ch.vpp)
    ensures ok && socketFile !in old(ch.vpp).sockets.Values ==>
              && IsLeastFree(old(ch.vpp).sockets.Keys, socketId)
              && ch.vpp == old(ch.vpp).(sockets := old(ch.vpp).sockets[socketId := socketFile])
  {
    var found;
    found, socketId := FindMemifSocket(ch, socketFile);
    if found {
      return true, socketId;
    }
    var dirReady := ch.Works();
    if !dirReady {
      return false, socketId;
    }
    ok := ch.AddSocketFilename(socketId, socketFile);
  }

  // ----- Interfaces

  datatype CreateParams = CreateParams(socketId: uint32, role: Role, mode: Mode, tuning: Tuning)

  /** Unset queue, ring and buffer sizes take VPP's documented defaults. */
  function WithDefaults(t: Tuning): Tuning {
    t.(rxQueues := if t.rxQueues == 0 then 1 else t.rxQueues,
       txQueues := if t.txQueues == 0 then 1 else t.txQueues,
       ringSize := if t.ringSize == 0 then 1024 else t.ringSize,
       bufferSize := if t.bufferSize == 0 then 2048 else t.bufferSize)
  }

  /** The row a memif request asks for: always memif id 0, down and without an MTU. */
  function RequestedRow(p: CreateParams): Iface {
    MemifRow(p.socketId, 0, p.role, p.mode, WithDefaults(p.tuning), false, 0)
  }

  method CreateMemifInterface(ch: Node, p: CreateParams) returns (ok: bool, x: nat)
    requires Inv(ch.vpp)
    modifies ch
    ensures Inv(ch.vpp) && ch.lost >= old(ch.lost)
    ensures ok <==>
              && ch.lost == old(ch.lost) && p.socketId in old(ch.vpp).sockets
              && forall y :: OnSocketId(old(ch.vpp), y, p.socketId) ==> old(ch.vpp).ifaces[y].id != 0
    ensures !ok ==> ch.vpp == old(ch.vpp) && ch.files == old(ch.files)
    ensures ok ==> x !in old(ch.vpp).ifaces
    ensures ok ==> ch.vpp == old(ch.vpp).(ifaces := old(ch.vpp).ifaces[x := RequestedRow(p)])
    ensures ok ==> OnlyTouched(old(ch.files), ch.files, old(ch.vpp).sockets[p.socketId])
  {
    x := 0;
    if p.tuning.hwAddr != "" {
      var parsed := ch.Works();
      if !parsed {
        return false, x;
      }
    }
    ok, x := ch.CreateMemif(RequestedRow(p));
  }

  method FindMemifInterface(ch: Node, x: nat) returns (socketId: uint32, found: bool)
    ensures found <==> IsMemif(ch.vpp, x)
    ensures found ==> socketId == ch.vpp.ifaces[x].socketId
  {
    var dump := ch.DumpMemifs();
    found, socketId := false, 0;
    var i := 0;
    while i < |dump|
      invariant 0 <= i <= |dump|
      invariant found <==> exists k :: 0 <= k < i && dump[k].0 == x
      invariant found ==> IsMemif(ch.vpp, x) && socketId == ch.vpp.ifaces[x].socketId
    {
      if x == dump[i].0 {
        found, socketId := true, dump[i].1.socketId;
      }
      i := i + 1;
    }
    if IsMemif(ch.vpp, x) {
      assert (x, ch.vpp.ifaces[x]) in dump;
    }
  }

  ghost function UsersOf(t: Tables, socketId: uint32): set<nat> {
    set x | x in t.ifaces && t.ifaces[x].MemifRow? && t.ifaces[x].socketId == socketId
  }

  /** The interfaces dumped so far on the socket id. */
  ghost predicate Counted(dump: seq<(nat, Iface)>, i: nat, socketId: uint32, counted: set<nat>)
    requires i <= |dump| && forall k :: 0 <= k < |dump| ==> dump[k].1.MemifRow?
  {
    forall x :: x in counted <==> exists k :: 0 <= k < i && dump[k].0 == x && dump[k].1.socketId == socketId
  }

  lemma CountedAll(t: Tables, dump: seq<(nat, Iface)>, socketId: uint32, counted: set<nat>)
    requires forall k :: 0 <= k < |dump| ==> dump[k].1.MemifRow? && IsMemif(t, dump[k].0) && dump[k].1 == t.ifaces[dump[k].0]
    requires forall x :: IsMemif(t, x) ==> (x, t.ifaces[x]) in dump
    requires Counted(dump, |dump|, socketId, counted)
    ensures counted == UsersOf(t, socketId)
  {
    forall x | x in UsersOf(t, socketId) ensures x in counted {
      assert IsMemif(t, x);
      var k :| 0 <= k < |dump| && dump[k] == (x, t.ifaces[x]);
    }
    forall x | x in counted ensures x in UsersOf(t, socketId) {
    }
  }

  lemma CountedStep(dump: seq<(nat, Iface)>, i: nat, socketId: uint32, counted: set<nat>)
    requires i < |dump| && forall k :: 0 <= k < |dump| ==> dump[k].1.MemifRow?
    requires forall j, k :: 0 <= j < k < |dump| ==> dump[j].0 != dump[k].0
    requires Counted(dump, i, socketId, counted)
    ensures dump[i].0 !in counted
    ensures Counted(dump, i + 1, socketId, if socketId == dump[i].1.socketId then counted + {dump[i].0} else counted)
  {
  }

  method FindMemifSocketCnt(ch: Node, socketId: uint32) returns (count: nat)
    ensures count == |UsersOf(ch.vpp, socketId)|
  {
    hide UsersOf, Counted;
    var dump := ch.DumpMemifs();
    count := 0;
    ghost var counted: set<nat> := {};
    CountedNone(dump, socketId);
    var i := 0;
    while i < |dump|
      invariant 0 <= i <= |dump|
      invariant count == |counted| && Counted(dump, i, socketId, counted)
    {
      CountedStep(dump, i, socketId, counted);
      if socketId == dump[i].1.socketId {
        count, counted := count + 1, counted + {dump[i].0};
      }
      i := i + 1;
    }
    CountedAll(ch.vpp, dump, socketId, counted);
  }

  lemma CountedNone(dump: seq<(nat, Iface)>, socketId: uint32)
    requires forall k :: 0 <= k < |dump| ==> dump[k].1.MemifRow?
    ensures Counted(dump, 0, socketId, {})
  {
  }

  /** The tables after a successful delete of `x`, with the socket rows left open. */
  ghost predicate Deleted(t: Tables, t': Tables, x: nat) {
    && t'.ifaces == WithoutIface(t, x).ifaces
    && t'.bridges == WithoutIface(t, x).bridges
  }

  lemma WithoutKeepsInv(t: Tables, x: nat)
    requires Inv(t)
    ensures Inv(WithoutIface(t, x))
  {
    var t' := WithoutIface(t, x);
    forall y | IsMemif(t', y) ensures IsMemif(t, y) && t'.ifaces[y] == t.ifaces[y] {
    }
  }

  lemma UsersWithout(t: Tables, x: nat, socketId: uint32)
    requires IsMemif(t, x) && t.ifaces[x].socketId == socketId
    ensures UsersOf(WithoutIface(t, x), socketId) == UsersOf(t, socketId) - {x}
    ensures UsersOf(WithoutIface(t, x), socketId) == {} <==> UsersOf(t, socketId) == {x}
  {
    assert x in UsersOf(t, socketId);
    assert UsersOf(WithoutIface(t, x), socketId) == UsersOf(t, socketId) - {x};
  }

  lemma UnusedDropped(t: Tables, socketId: uint32)
    requires Inv(t) && socketId != 0 && UsersOf(t, socketId) == {}
    ensures Inv(t.(sockets := t.sockets - {socketId}))
  {
    var t' := t.(sockets := t.sockets - {socketId});
    SubsetSize(t'.sockets.Keys, t.sockets.Keys);
    assert |t'.sockets.Keys| == |t'.sockets| && |t.sockets.Keys| == |t.sockets|;
    forall y | IsMemif(t', y) ensures t'.ifaces[y].socketId in t'.sockets {
      assert IsMemif(t, y) && y !in UsersOf(t, socketId);
    }
    assert forall y :: IsMemif(t', y) ==> IsMemif(t, y);
  }

  /** Idempotent delete. The socket row goes exactly when it is not the default socket and
      its last interface went. */
  method DeleteMemifInterface(ch: Node, x: nat) returns (ok: bool)
    requires Inv(ch.vpp)
    modifies ch`vpp, ch`lost
    ensures Inv(ch.vpp) && ch.lost >= old(ch.lost)
    ensures ok <==> ch.lost == old(ch.lost)
    ensures !IsMemif(old(ch.vpp), x) ==> ok && ch.vpp == old(ch.vpp)
    ensures ch.vpp == old(ch.vpp) || (IsMemif(old(ch.vpp), x) && Deleted(old(ch.vpp), ch.vpp, x))
    ensures ok && IsMemif(old(ch.vpp), x) ==>
              var sid := old(ch.vpp).ifaces[x].socketId;
              && Deleted(old(ch.vpp), ch.vpp, x)
              && ch.vpp.sockets == if sid != 0 && UsersOf(old(ch.vpp), sid) == {x}
                                   then old(ch.vpp).sockets - {sid} else old(ch.vpp).sockets
    ensures !ok ==> ch.vpp.sockets == old(ch.vpp).sockets
  {
    hide Inv, UsersOf;
    var socketId, exist := FindMemifInterface(ch, x);
    if !exist {
      return true;
    }
    ok := ch.DeleteMemif(x);
    if !ok {
      return;
    }
    WithoutKeepsInv(old(ch.vpp), x);
    UsersWithout(old(ch.vpp), x, socketId);
    if socketId != 0 {
      var count := FindMemifSocketCnt(ch, socketId);
      if count == 0 {
        UnusedDropped(ch.vpp, socketId);
        ok := ch.DelSocketFilename(socketId);
      }
    }
  }

  /** The index of a memif on the named socket, from live state. */
  method FindMemifBySocket(ch: Node, socketFilename: string) returns (x: nat, found: bool)
    requires Inv(ch.vpp)
    ensures found ==> IsMemif(ch.vpp, x) && SocketOf(ch.vpp, x) == socketFilename
    ensures !found ==> forall y :: IsMemif(ch.vpp, y) ==> SocketOf(ch.vpp, y) != socketFilename
  {
    x, found := 0, false;
    var known, socketId := FindMemifSocket(ch, socketFilename);
    if !known {
      return;
    }
    var dump := ch.DumpMemifs();
    var i := 0;
    while i < |dump|
      invariant 0 <= i <= |dump|
      invariant forall k :: 0 <= k < i ==> dump[k].1.socketId != socketId
    {
      if dump[i].1.socketId == socketId {
        return dump[i].0, true;
      }
      i := i + 1;
    }
    forall y | IsMemif(ch.vpp, y) ensures SocketOf(ch.vpp, y) != socketFilename {
      assert (y, ch.vpp.ifaces[y]) in dump;
    }
  }

  /** The socket's file name: the override, else memif-<container id, 12 characters>-<interface>.sock. */
  function SocketFileName(override: string, containerId: string, ifName: string): string {
    if override != "" then override
    else "memif-" + (if |containerId| > 12 then containerId[..12] else containerId) + "-" + ifName + ".sock"
  }

  /** Without an override the name tells the attachment: its id, as far as it is used, and its interface. */
  lemma NamesApart(id: string, ifName: string, id': string, ifName': string)
    requires |id| >= 12 && |id'| >= 12
    ensures SocketFileName("", id, ifName) == SocketFileName("", id', ifName') <==> id[..12] == id'[..12] && ifName == ifName'
  {
    var s, s' := SocketFileName("", id, ifName), SocketFileName("", id', ifName');
    assert s[6..18] == id[..12] && s'[6..18] == id'[..12];
    assert s[19..|s| - 5] == ifName && s'[19..|s'| - 5] == ifName';
  }

  lemma NamePlain(id: string, ifName: string)
    requires '/' !in id && '/' !in ifName
    ensures var s := SocketFileName("", id, ifName); '/' !in s && s != "" && s != "." && s != ".."
  {
    var s := SocketFileName("", id, ifName);
    assert s[0] == 'm';
  }
}
