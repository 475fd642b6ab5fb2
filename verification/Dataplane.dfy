/** The daemon's view of VPP: dump the managed memif masters, create one, delete one, and
    sweep socket files nothing uses. */
module Dataplane {
  import opened Vpp
  import opened Text
  import opened Paths
  import M = MemifApi
  import Bridge

  const ORPHAN_SOCKET_MIN_AGE: int := 60

  /** A memif master that should exist (desired) or does exist (actual). Masters are matched by socket. */
  datatype Memif = Memif(socket: string, id: uint32, bridgeId: uint32, mode: string, swIfIndex: nat,
                         tuning: Tuning, mtu: uint32)

  const UNTUNED := Tuning(0, 0, 0, 0, "", false, false, "")

  function ParseMode(mode: string): Mode {
    var m := Lower(mode);
    if m == "ip" then Ip
    else if m == "punt-inject" || m == "inject-punt" then PuntInject
    else Ethernet
  }

  function ModeString(mode: Mode): string {
    match mode
    case Ip => "ip"
    case PuntInject => "punt-inject"
    case Ethernet => "ethernet"
  }

  lemma ModeRoundTrip(mode: Mode)
    ensures ParseMode(ModeString(mode)) == mode
    ensures ModeString(Ip) == "ip" && ModeString(PuntInject) == "punt-inject" && ModeString(Ethernet) == "ethernet"
  {
    assert Lower("ip")[0] == 'i';
    assert Lower("punt-inject") == "punt-inject";
    assert Lower("ethernet") == "ethernet";
    assert Lower("ip") == "ip";
  }

  // ----- What a request leads to

  /** What ADD and the restore both ask VPP for; `bridge` is the domain to join, if any. */
  datatype Request = Request(socket: string, role: Role, mode: Mode, tuning: Tuning, mtu: uint32, bridge: set<uint32>)

  /** Interface `x` is exactly what `r` asks for: the row, its filename and its bridge domains. */
  ghost predicate Configured(t: Tables, x: nat, r: Request) {
    && IsMemif(t, x)
    && SocketOf(t, x) == r.socket
    && t.ifaces[x] == MemifRow(t.ifaces[x].socketId, 0, r.role, r.mode, M.WithDefaults(r.tuning), true, r.mtu)
    && forall b :: InBridge(t, b, x) <==> b in r.bridge
  }

  function RestoreRequest(m: Memif): Request {
    Request(m.socket, Master, ParseMode(m.mode), m.tuning, m.mtu, if m.bridgeId == 0 then {} else {m.bridgeId})
  }

  /** Interface `x` was made for `m` and its set-up stopped half way: still down, or up without
      the MTU it was to have, or up with it but not in the bridge domain it was to join. */
  ghost predicate HalfConfigured(t: Tables, x: nat, m: Memif) {
    && IsMemif(t, x) && SocketOf(t, x) == m.socket && (forall b :: !InBridge(t, b, x))
    && var row := t.ifaces[x];
       && row == MemifRow(row.socketId, 0, Master, ParseMode(m.mode), M.WithDefaults(m.tuning), row.up, row.mtu)
       && ((!row.up && row.mtu == 0) || (row.up && row.mtu == 0 && m.mtu > 0) || (row.up && row.mtu == m.mtu && m.bridgeId != 0))
  }

  /** A half configured master is not what was asked for. */
  lemma HalfIsNotWhole(t: Tables, x: nat, m: Memif)
    requires HalfConfigured(t, x, m)
    ensures !Configured(t, x, RestoreRequest(m))
  {
    hide ParseMode, M.WithDefaults;
    assert m.bridgeId != 0 ==> !InBridge(t, m.bridgeId, x);
  }

  /** Nothing that existed changed; new interfaces have memif id 0, role `role` and sockets in `names`. */
  ghost predicate Grown(t: Tables, t': Tables, role: Role, names: set<string>) {
    && (forall i :: i in t.sockets ==> i in t'.sockets && t'.sockets[i] == t.sockets[i])
    && (forall x :: x in t.ifaces ==> x in t'.ifaces && t'.ifaces[x] == t.ifaces[x])
    && t.bridges.Keys <= t'.bridges.Keys
    && (forall b, x :: x in t.ifaces ==> (InBridge(t', b, x) <==> InBridge(t, b, x)))
    && (forall x :: x in t'.ifaces && x !in t.ifaces ==>
          IsMemif(t', x) && t'.ifaces[x].role == role && t'.ifaces[x].id == 0 && SocketOf(t', x) in names)
  }

  /** Only the state, MTU and bridge domains of interface `x` changed. */
  ghost predicate Tuned(t: Tables, t': Tables, x: nat) {
    && IsMemif(t, x)
    && t'.sockets == t.sockets
    && t'.ifaces.Keys == t.ifaces.Keys
    && t.bridges.Keys <= t'.bridges.Keys
    && (forall y :: y in t.ifaces && y != x ==> t'.ifaces[y] == t.ifaces[y])
    && IsMemif(t', x) && t'.ifaces[x] == t.ifaces[x].(up := t'.ifaces[x].up, mtu := t'.ifaces[x].mtu)
    && (forall b, y :: y != x ==> (InBridge(t', b, y) <==> InBridge(t, b, y)))
  }

  lemma TunedKeepsInv(t: Tables, t': Tables, x: nat)
    requires Inv(t) && Tuned(t, t', x)
    ensures Inv(t')
  {
    forall y | IsMemif(t', y) ensures IsMemif(t, y) && SameEndpoint(t.ifaces[y], t'.ifaces[y]) {
    }
    forall b | b in t'.bridges ensures t'.bridges[b] <= t'.ifaces.Keys {
      forall y | y in t'.bridges[b] && y != x ensures y in t.ifaces {
        assert InBridge(t', b, y) && InBridge(t, b, y);
      }
    }
  }

  lemma TunedTransitive(t: Tables, t1: Tables, t2: Tables, x: nat)
    requires Tuned(t, t1, x) && Tuned(t1, t2, x)
    ensures Tuned(t, t2, x)
  {
    forall b, y | y != x ensures InBridge(t2, b, y) <==> InBridge(t, b, y) {
      assert InBridge(t1, b, y) <==> InBridge(t, b, y);
    }
  }

  lemma RowTuned(t: Tables, x: nat, row: Iface)
    requires IsMemif(t, x) && row.MemifRow? && row == t.ifaces[x].(up := row.up, mtu := row.mtu)
    ensures Tuned(t, t.(ifaces := t.ifaces[x := row]), x)
  {
  }

  lemma MovedKeepsIfaces(t: Tables, t': Tables, x: nat)
    requires Bridge.OnlyMoves(t, t', x)
    ensures t'.ifaces == t.ifaces
  {
  }

  lemma MovedTuned(t: Tables, t': Tables, x: nat)
    requires IsMemif(t, x) && Bridge.OnlyMoves(t, t', x) && t.bridges.Keys <= t'.bridges.Keys
    ensures Tuned(t, t', x)
  {
  }

  lemma TunedKeepsKeys(t: Tables, t': Tables, x: nat)
    requires Tuned(t, t', x)
    ensures t'.ifaces.Keys == t.ifaces.Keys && t'.sockets == t.sockets
  {
  }

  lemma RegisteredGrown(t: Tables, t': Tables, role: Role, id: uint32, file: string)
    requires t' == t || (id !in t.sockets && t' == t.(sockets := t.sockets[id := file]))
    ensures Grown(t, t', role, {file})
  {
  }

  /** No memif holds memif id 0 of the socket. */
  ghost predicate Vacant(t: Tables, s: string) {
    forall x :: IsMemif(t, x) && SocketOf(t, x) == s ==> t.ifaces[x].id != 0
  }

  /** VPP takes a memif with id 0 on the socket, which has or gets a row. */
  ghost predicate Creatable(t: Tables, s: string) {
    M.HasRoom(t, s) && Vacant(t, s)
  }

  lemma VacantId(t: Tables, t1: Tables, id: uint32, s: string)
    requires Inv(t) && Inv(t1) && id in t1.sockets && t1.sockets[id] == s
    requires t1 == t || (id !in t.sockets && s !in t.sockets.Values && t1 == t.(sockets := t.sockets[id := s]))
    ensures (forall y :: OnSocketId(t1, y, id) ==> t1.ifaces[y].id != 0) <==> Vacant(t, s)
  {
    forall y | IsMemif(t, y) ensures OnSocketId(t1, y, id) <==> SocketOf(t, y) == s {
      assert SocketOf(t1, y) == SocketOf(t, y) == t.sockets[t.ifaces[y].socketId];
    }
    assert forall y :: IsMemif(t1, y) <==> IsMemif(t, y);
  }

  lemma CreatedGrown(t: Tables, t1: Tables, x: nat, row: Iface, file: string)
    requires row.MemifRow? && Inv(t) && Grown(t, t1, row.role, {file}) && t1.ifaces == t.ifaces && x !in t.ifaces
    requires row.id == 0 && row.socketId in t1.sockets && t1.sockets[row.socketId] == file
    ensures Grown(t, t1.(ifaces := t1.ifaces[x := row]), row.role, {file})
  {
    var t2 := t1.(ifaces := t1.ifaces[x := row]);
    forall b, y | y in t.ifaces ensures InBridge(t2, b, y) <==> InBridge(t, b, y) {
      assert InBridge(t1, b, y) <==> InBridge(t, b, y);
    }
  }

  /** The row asked for, then tuned, is the one the restore request describes. */
  lemma RestoredConfigured(t1: Tables, t2: Tables, t3: Tables, x: nat, p: M.CreateParams, m: Memif)
    requires Inv(t1) && x !in t1.ifaces && p.socketId in t1.sockets && t1.sockets[p.socketId] == m.socket
    requires p.role == Master && p.mode == ParseMode(m.mode) && p.tuning == m.tuning
    requires t2 == t1.(ifaces := t1.ifaces[x := M.RequestedRow(p)]) && Tuned(t2, t3, x)
    requires t3.ifaces[x] == t2.ifaces[x].(up := true, mtu := if m.mtu > 0 then m.mtu else t2.ifaces[x].mtu)
    requires forall b :: InBridge(t3, b, x) <==> if m.bridgeId != 0 then b == m.bridgeId else InBridge(t2, b, x)
    ensures Configured(t3, x, RestoreRequest(m))
  {
    hide ParseMode;
    assert forall b :: !InBridge(t2, b, x);
  }

  /** The row asked for, then tuned as far as the set-up came. */
  lemma StoppedHalf(t1: Tables, t2: Tables, t3: Tables, x: nat, p: M.CreateParams, m: Memif)
    requires Inv(t1) && x !in t1.ifaces && p.socketId in t1.sockets && t1.sockets[p.socketId] == m.socket
    requires p.role == Master && p.mode == ParseMode(m.mode) && p.tuning == m.tuning
    requires t2 == t1.(ifaces := t1.ifaces[x := M.RequestedRow(p)]) && Tuned(t2, t3, x) && Stopped(t2.ifaces[x], t3.ifaces[x], m)
    requires forall b :: InBridge(t3, b, x) <==> InBridge(t2, b, x)
    ensures HalfConfigured(t3, x, m)
  {
    hide ParseMode;
    assert forall b :: !InBridge(t2, b, x);
  }

  /** How far a set-up that failed came with the row. */
  ghost predicate Stopped(row: Iface, row': Iface, m: Memif)
    requires row.MemifRow?
  {
    || row' == row
    || (row' == row.(up := true) && m.mtu > 0)
    || (row' == row.(up := true, mtu := if m.mtu > 0 then m.mtu else row.mtu) && m.bridgeId != 0)
  }

  lemma GrownThenTuned(t: Tables, t1: Tables, t2: Tables, role: Role, names: set<string>, x: nat)
    requires Grown(t, t1, role, names) && Tuned(t1, t2, x) && x !in t.ifaces
    ensures Grown(t, t2, role, names)
  {
    forall y | y in t2.ifaces && y !in t.ifaces
      ensures IsMemif(t2, y) && t2.ifaces[y].role == role && t2.ifaces[y].id == 0 && SocketOf(t2, y) in names
    {
      assert IsMemif(t1, y) && SocketOf(t2, y) == SocketOf(t1, y);
    }
  }

  // ----- The managed masters

  predicate InScope(socket: string, prefixes: seq<string>) {
    prefixes == [] || exists i :: 0 <= i < |prefixes| && HasPrefix(socket, prefixes[i])
  }

  predicate IsManaged(t: Tables, prefixes: seq<string>, x: nat) {
    x in t.ifaces && t.ifaces[x].MemifRow? && t.ifaces[x].role == Master && InScope(SocketOf(t, x), prefixes)
  }

  function Managed(t: Tables, prefixes: seq<string>): set<nat> {
    set x | x in t.ifaces && IsManaged(t, prefixes, x)
  }

  function DumpedMaster(t: Tables, x: nat): Memif
    requires x in t.ifaces && t.ifaces[x].MemifRow?
  {
    Memif(SocketOf(t, x), t.ifaces[x].id, 0, ModeString(t.ifaces[x].mode), x, UNTUNED, 0)
  }

  ghost function Indices(d: seq<Memif>): set<nat> {
    set m | m in d :: m.swIfIndex
  }

  lemma IndicesSnoc(d: seq<Memif>, m: Memif)
    ensures Indices(d + [m]) == Indices(d) + {m.swIfIndex}
  {
    forall x | x in Indices(d) + {m.swIfIndex} ensures x in Indices(d + [m]) {
      if x == m.swIfIndex {
        assert m in d + [m];
      } else {
        var n :| n in d && n.swIfIndex == x;
        assert n in d + [m];
      }
    }
  }

  /** `d` lists the managed masters among the indices `seen`, each once. */
  ghost predicate IsDumpOf(t: Tables, prefixes: seq<string>, d: seq<Memif>, seen: set<nat>) {
    && Indices(d) == seen * Managed(t, prefixes)
    && (forall m :: m in d ==> IsMemif(t, m.swIfIndex) && m == DumpedMaster(t, m.swIfIndex))
    && (forall j, k :: 0 <= j < k < |d| ==> d[j].swIfIndex != d[k].swIfIndex)
  }

  /** `d` lists the managed masters of `t`, each once. */
  ghost predicate IsDump(t: Tables, prefixes: seq<string>, d: seq<Memif>) {
    IsDumpOf(t, prefixes, d, t.ifaces.Keys)
  }

  lemma InScopeMeans(s: string, prefixes: seq<string>)
    ensures InScope(s, prefixes) <==> prefixes == [] || exists p :: p in prefixes && p <= s
  {
    if i :| 0 <= i < |prefixes| && HasPrefix(s, prefixes[i]) {
      assert prefixes[i] in prefixes && prefixes[i] <= s;
    }
    if p :| p in prefixes && p <= s {
      var i :| 0 <= i < |prefixes| && prefixes[i] == p;
      assert HasPrefix(s, prefixes[i]);
    }
  }

  /** Managed is a master in scope: without prefixes any master, else one whose socket starts
      with one of them. */
  lemma ManagedMeans(t: Tables, prefixes: seq<string>, x: nat)
    ensures x in Managed(t, prefixes) <==>
              && x in t.ifaces && t.ifaces[x].MemifRow? && t.ifaces[x].role == Master
              && (prefixes == [] || exists p :: p in prefixes && p <= SocketOf(t, x))
  {
    hide SocketOf, InScope;
    if x in t.ifaces && t.ifaces[x].MemifRow? {
      InScopeMeans(SocketOf(t, x), prefixes);
    }
  }

  /** So what a dump lists. */
  lemma DumpMeans(t: Tables, prefixes: seq<string>, d: seq<Memif>)
    requires IsDump(t, prefixes, d)
    ensures forall x :: (exists m :: m in d && m.swIfIndex == x) <==>
              && x in t.ifaces && t.ifaces[x].MemifRow? && t.ifaces[x].role == Master
              && (prefixes == [] || exists p :: p in prefixes && p <= SocketOf(t, x))
    ensures forall m :: m in d ==> IsMemif(t, m.swIfIndex) && m.socket == SocketOf(t, m.swIfIndex) && m.id == t.ifaces[m.swIfIndex].id
  {
    hide SocketOf, ModeString;
    forall x ensures (exists m :: m in d && m.swIfIndex == x) <==> x in Managed(t, prefixes) {
      assert (exists m :: m in d && m.swIfIndex == x) <==> x in Indices(d);
    }
    hide IsManaged, Managed, IsDumpOf, IsDump;
    forall x { ManagedMeans(t, prefixes, x); }
  }

  lemma InScopeOfAll(sock: string, prefixes: seq<string>)
    ensures |prefixes| == 0 ==> InScope(sock, prefixes)
  {
  }

  lemma DumpNone(t: Tables, prefixes: seq<string>)
    ensures IsDumpOf(t, prefixes, [], {})
  {
  }

  lemma DumpSkip(t: Tables, prefixes: seq<string>, d: seq<Memif>, seen: set<nat>, x: nat)
    requires IsDumpOf(t, prefixes, d, seen) && x !in Managed(t, prefixes)
    ensures IsDumpOf(t, prefixes, d, seen + {x})
  {
    hide IsManaged, SocketOf, InScope;
    assert (seen + {x}) * Managed(t, prefixes) == seen * Managed(t, prefixes);
  }

  lemma DumpKeep(t: Tables, prefixes: seq<string>, d: seq<Memif>, seen: set<nat>, x: nat)
    requires IsDumpOf(t, prefixes, d, seen) && x in Managed(t, prefixes) && x !in seen
    ensures IsDumpOf(t, prefixes, d + [DumpedMaster(t, x)], seen + {x})
  {
    hide SocketOf, InScope, ModeString;
    var m := DumpedMaster(t, x);
    IndicesSnoc(d, m);
    assert (seen + {x}) * Managed(t, prefixes) == seen * Managed(t, prefixes) + {x};
    forall j | 0 <= j < |d| ensures d[j].swIfIndex != x {
      assert d[j] in d && d[j].swIfIndex in Indices(d);
    }
  }

  lemma DumpDone(t: Tables, prefixes: seq<string>, d: seq<Memif>, seen: set<nat>)
    requires IsDumpOf(t, prefixes, d, seen) && Managed(t, prefixes) <= seen
    ensures IsDump(t, prefixes, d)
  {
    hide IsManaged, SocketOf;
    assert seen * Managed(t, prefixes) == t.ifaces.Keys * Managed(t, prefixes);
  }

  // ----- Sweeping

  /** An aged memif socket file that nothing keeps. */
  predicate Stale(files: map<string, int>, keep: set<string>, now: int, p: string) {
    && p in files && p !in keep
    && HasPrefix(Base(p), "memif-") && HasSuffix(Base(p), ".sock")
    && now - files[p] >= ORPHAN_SOCKET_MIN_AGE
  }

  /** Stale means: there, not kept, at least a minute old, and named memif-*.sock. */
  lemma StaleMeans(files: map<string, int>, keep: set<string>, now: int, p: string)
    ensures Stale(files, keep, now, p) <==>
              p in files && p !in keep && now - files[p] >= 60 && exists mid :: Base(p) == "memif-" + mid + ".sock"
  {
    NamedLikeSocket(Base(p));
    hide Base, HasPrefix, HasSuffix;
  }

  lemma NamedLikeSocket(b: string)
    ensures HasPrefix(b, "memif-") && HasSuffix(b, ".sock") <==> exists mid :: b == "memif-" + mid + ".sock"
  {
    if HasPrefix(b, "memif-") && HasSuffix(b, ".sock") {
      assert b[|b| - 5] == '.' && b[..6] == "memif-";
      assert |b| >= 11;
      assert b == "memif-" + b[6..|b| - 5] + ".sock";
    }
    if mid :| b == "memif-" + mid + ".sock" {
      assert b[|b| - 5..] == ".sock" && b[..6] == "memif-";
    }
  }

  function KeptDirs(keep: set<string>): set<string> {
    set k | k in keep :: Dir(k)
  }

  /** A stale file beside a kept socket. */
  predicate Sweepable(files: map<string, int>, keep: set<string>, now: int, p: string) {
    Stale(files, keep, now, p) && Dir(p) in KeptDirs(keep)
  }

  /** The file of a kept socket, at its cleaned path, is swept if and only if it is there, aged and
      named like the plugin's, and kept under other spellings only. */
  lemma KeptFileSwept(files: map<string, int>, keep: set<string>, now: int, k: string)
    requires k in keep && Plain(Base(k))
    ensures Sweepable(files, keep, now, Clean(k)) <==>
              && Clean(k) in files && Clean(k) !in keep
              && HasPrefix(Base(k), "memif-") && HasSuffix(Base(k), ".sock")
              && now - files[Clean(k)] >= ORPHAN_SOCKET_MIN_AGE
  {
    CleanPlain(k);
    hide Clean, Dir, Base, HasPrefix, HasSuffix;
  }

  /** So every stale file goes although its own socket is kept, if that is spelled with two slashes. */
  lemma UncleanLosesFile(files: map<string, int>, now: int, p: string)
    requires Canonical(p) && Plain(Base(p)) && Stale(files, {}, now, p)
    ensures var k := Dir(p) + "//" + Base(p); Clean(k) == p && Sweepable(files, {k}, now, p)
  {
    TwoSlashes(p);
    hide Clean, Dir, Base, HasPrefix, HasSuffix;
    KeptFileSwept(files, {Dir(p) + "//" + Base(p)}, now, Dir(p) + "//" + Base(p));
  }

  /** `name` is a file of directory `dir`, at the path the sweep puts together for it. */
  ghost predicate IsEntry(files: map<string, int>, dir: string, name: string) {
    var path := JoinPath(dir, name);
    path in files && Dir(path) == dir && Base(path) == name
  }

  ghost predicate CanonicalFiles(files: map<string, int>) {
    forall p :: p in files ==> Canonical(p)
  }

  lemma MinusMinus(m: map<string, int>, a: set<string>, b: set<string>)
    ensures (m - a) - b == m - (a + b)
  {
  }

  lemma StaleLater(m: map<string, int>, gone: set<string>, keep: set<string>, now: int, p: string)
    ensures p !in gone ==> (Stale(m - gone, keep, now, p) <==> Stale(m, keep, now, p))
  {
  }

  class VppDataplane {
    const ch: Node
    const prefixes: seq<string>

    constructor (ch: Node, prefixes: seq<string>)
      ensures this.ch == ch && this.prefixes == prefixes
    {
      this.ch, this.prefixes := ch, prefixes;
    }

    method DumpSocketNames() returns (names: map<uint32, string>)
      ensures names == ch.vpp.sockets
    {
      names := map[];
      var socks := ch.DumpSockets();
      var i := 0;
      while i < |socks|
        invariant 0 <= i <= |socks|
        invariant forall id :: id in names ==> id in ch.vpp.sockets && names[id] == ch.vpp.sockets[id]
        invariant forall k :: 0 <= k < i ==> socks[k].0 in names
      {
        names := names[socks[i].0 := socks[i].1];
        i := i + 1;
      }
      forall id | id in ch.vpp.sockets ensures id in names {
        var k :| 0 <= k < |socks| && socks[k] == (id, ch.vpp.sockets[id]);
      }
    }

    method DumpMasters() returns (ok: bool, out: seq<Memif>)
      requires Inv(ch.vpp)
      modifies ch`lost
      ensures ch.lost >= old(ch.lost) && (ok <==> ch.lost == old(ch.lost))
      ensures ok ==> IsDump(ch.vpp, prefixes, out)
      ensures ok ==> forall x :: (exists m :: m in out && m.swIfIndex == x) <==>
                && x in ch.vpp.ifaces && ch.vpp.ifaces[x].MemifRow? && ch.vpp.ifaces[x].role == Master
                && (prefixes == [] || exists p :: p in prefixes && p <= SocketOf(ch.vpp, x))
      ensures ok ==> forall m :: m in out ==> m.socket == SocketOf(ch.vpp, m.swIfIndex) && m.id == ch.vpp.ifaces[m.swIfIndex].id
    {
      hide InScope, ModeString, IsDumpOf, IsDump;
      out := [];
      ok := ch.Works();
      if !ok {
        return;
      }
      var names := DumpSocketNames();
      var dump := ch.DumpMemifs();
      ghost var seen: set<nat> := {};
      DumpNone(ch.vpp, prefixes);
      var i := 0;
      while i < |dump|
        invariant 0 <= i <= |dump| && ch.lost == old(ch.lost)
        invariant forall x :: x in seen <==> exists k :: 0 <= k < i && dump[k].0 == x
        invariant IsDumpOf(ch.vpp, prefixes, out, seen)
      {
        var (x, det) := dump[i];
        ghost var before := seen;
        i, seen := i + 1, seen + {x};
        if det.role != Master {
          DumpSkip(ch.vpp, prefixes, out, before, x);
          continue;
        }
        var sock := names[det.socketId];
        if |prefixes| > 0 && !InScope(sock, prefixes) {
          DumpSkip(ch.vpp, prefixes, out, before, x);
          continue;
        }
        InScopeOfAll(sock, prefixes);
        DumpKeep(ch.vpp, prefixes, out, before, x);
        out := out + [Memif(sock, det.id, 0, ModeString(det.mode), x, UNTUNED, 0)];
      }
      forall x | x in Managed(ch.vpp, prefixes) ensures x in seen {
        var k :| 0 <= k < |dump| && dump[k] == (x, ch.vpp.ifaces[x]);
      }
      DumpDone(ch.vpp, prefixes, out, seen);
      DumpMeans(ch.vpp, prefixes, out);
    }

    /** Creates the master and configures it. A failure after the interface exists leaves the
        interface behind, half configured. */
    method CreateMaster(m: Memif) returns (ok: bool, ghost x: nat)
      requires Inv(ch.vpp)
      modifies ch
      ensures ch.lost >= old(ch.lost) && (ok <==> ch.lost == old(ch.lost) && Creatable(old(ch.vpp), m.socket))
      ensures Inv(ch.vpp) && Grown(old(ch.vpp), ch.vpp, Master, {m.socket})
      ensures || (x !in old(ch.vpp).ifaces && ch.vpp.ifaces.Keys == old(ch.vpp).ifaces.Keys + {x})
              || (!ok && ch.vpp.ifaces.Keys == old(ch.vpp).ifaces.Keys)
      ensures ok ==> Configured(ch.vpp, x, RestoreRequest(m))
      ensures !ok && ch.vpp.ifaces.Keys != old(ch.vpp).ifaces.Keys ==> HalfConfigured(ch.vpp, x, m)
      ensures OnlyTouched(old(ch.files), ch.files, m.socket)
      ensures |ch.vpp.sockets| <= |old(ch.vpp).sockets| + 1
    {
      hide Vacant, Inv, Grown, Tuned, ParseMode, Configured, HalfConfigured, Stopped;
      x := 0;
      ghost var t0 := ch.vpp;
      var socketId;
      ok, socketId := M.CreateMemifSocket(ch, m.socket);
      ghost var t1 := ch.vpp;
      RegisteredGrown(t0, t1, Master, socketId, m.socket);
      if !ok {
        return;
      }
      VacantId(t0, t1, socketId, m.socket);
      var idx;
      var params := M.CreateParams(socketId, Master, ParseMode(m.mode), m.tuning);
      ok, idx := M.CreateMemifInterface(ch, params);
      if !ok {
        return;
      }
      x := idx;
      ghost var t2 := ch.vpp;
      CreatedGrown(t0, t1, idx, M.RequestedRow(params), m.socket);
      ok := SetUpMaster(m, idx);
      GrownThenTuned(t0, t2, ch.vpp, Master, {m.socket}, idx);
      TunedKeepsKeys(t2, ch.vpp, idx);
      if ok {
        RestoredConfigured(t1, t2, ch.vpp, idx, params, m);
      } else {
        StoppedHalf(t1, t2, ch.vpp, idx, params, m);
      }
    }

    /** Brings the new master up, sets its MTU and joins its bridge domain. */
    method SetUpMaster(m: Memif, idx: nat) returns (ok: bool)
      requires Inv(ch.vpp) && IsMemif(ch.vpp, idx)
      modifies ch`vpp, ch`lost
      ensures ch.lost >= old(ch.lost) && (ok <==> ch.lost == old(ch.lost))
      ensures Inv(ch.vpp) && Tuned(old(ch.vpp), ch.vpp, idx)
      ensures ok ==> ch.vpp.ifaces[idx] == old(ch.vpp).ifaces[idx].(up := true, mtu := if m.mtu > 0 then m.mtu else old(ch.vpp).ifaces[idx].mtu)
      ensures ok ==> forall b :: InBridge(ch.vpp, b, idx) <==> if m.bridgeId != 0 then b == m.bridgeId else InBridge(old(ch.vpp), b, idx)
      ensures !ok ==> Stopped(old(ch.vpp).ifaces[idx], ch.vpp.ifaces[idx], m)
      ensures !ok ==> forall b :: InBridge(ch.vpp, b, idx) <==> InBridge(old(ch.vpp), b, idx)
    {
      hide Inv, Tuned, Bridge.OnlyMoves;
      ghost var t0 := ch.vpp;
      RowTuned(t0, idx, t0.ifaces[idx]);
      assert t0 == t0.(ifaces := t0.ifaces[idx := t0.ifaces[idx]]);
      ok := ch.SetUp(idx);
      ghost var t1 := ch.vpp;
      if ok {
        RowTuned(t0, idx, t0.ifaces[idx].(up := true));
      }
      if ok && m.mtu > 0 {
        ok := ch.SetMtu(idx, m.mtu);
        if ok {
          RowTuned(t1, idx, t1.ifaces[idx].(mtu := m.mtu));
          TunedTransitive(t0, t1, ch.vpp, idx);
        }
      }
      TunedKeepsInv(t0, ch.vpp, idx);
      if ok && m.bridgeId != 0 {
        ok := JoinDomain(m.bridgeId, idx, t0);
      }
    }

    method JoinDomain(b: uint32, idx: nat, ghost t0: Tables) returns (ok: bool)
      requires Inv(ch.vpp) && IsMemif(ch.vpp, idx) && Tuned(t0, ch.vpp, idx)
      modifies ch`vpp, ch`lost
      ensures ch.lost >= old(ch.lost) && (ok <==> ch.lost == old(ch.lost))
      ensures Inv(ch.vpp) && Tuned(t0, ch.vpp, idx)
      ensures ch.vpp.ifaces == old(ch.vpp).ifaces
      ensures ok ==> forall c :: InBridge(ch.vpp, c, idx) <==> c == b
      ensures !ok ==> forall c :: InBridge(ch.vpp, c, idx) <==> InBridge(old(ch.vpp), c, idx)
    {
      hide Inv, Tuned, InBridge, Bridge.OnlyMoves;
      ok := Bridge.AddBridgeInterface(ch, b, idx);
      MovedTuned(old(ch.vpp), ch.vpp, idx);
      TunedTransitive(t0, old(ch.vpp), ch.vpp, idx);
      MovedKeepsIfaces(old(ch.vpp), ch.vpp, idx);
    }

    /** Deletes by the dumped index, then removes the socket file as far as the disk lets it. */
    method DeleteMaster(m: Memif) returns (ok: bool)
      requires Inv(ch.vpp)
      modifies ch
      ensures Inv(ch.vpp) && ch.lost >= old(ch.lost)
      ensures ch.lost == old(ch.lost) ==> ok && ch.files == if m.socket != "" then old(ch.files) - {m.socket} else old(ch.files)
      ensures ok ==> ch.lost <= old(ch.lost) + 1 && (ch.lost == old(ch.lost) + 1 ==> ch.files == old(ch.files))
      ensures ch.vpp == old(ch.vpp) || (IsMemif(old(ch.vpp), m.swIfIndex) && M.Deleted(old(ch.vpp), ch.vpp, m.swIfIndex))
      ensures !IsMemif(old(ch.vpp), m.swIfIndex) ==> ok
      ensures ok && IsMemif(old(ch.vpp), m.swIfIndex) ==>
                var sid := old(ch.vpp).ifaces[m.swIfIndex].socketId;
                && M.Deleted(old(ch.vpp), ch.vpp, m.swIfIndex)
                && ch.vpp.sockets == if sid != 0 && M.UsersOf(old(ch.vpp), sid) == {m.swIfIndex}
                                     then old(ch.vpp).sockets - {sid} else old(ch.vpp).sockets
      ensures ok ==> !IsMemif(ch.vpp, m.swIfIndex)
      ensures forall i :: i in ch.vpp.sockets ==> i in old(ch.vpp).sockets && ch.vpp.sockets[i] == old(ch.vpp).sockets[i]
      ensures ch.files == old(ch.files) || (ok && ch.files == old(ch.files) - {m.socket})
    {
      ok := M.DeleteMemifInterface(ch, m.swIfIndex);
      if !ok {
        return;
      }
      if m.socket != "" {
        var _ := ch.RemoveFile(m.socket);
      }
    }

    /** os.ReadDir, the names of the files in one directory. */
    method ReadDir(dir: string) returns (ok: bool, names: set<string>)
      requires CanonicalFiles(ch.files)
      modifies ch`lost
      ensures ch.lost >= old(ch.lost) && (ok <==> ch.lost == old(ch.lost))
      ensures forall n :: n in names ==> IsEntry(ch.files, dir, n)
      ensures ok ==> forall p :: p in ch.files && Dir(p) == dir ==> Base(p) in names
    {
      hide Dir, Base, JoinPath, Clean;
      ok := ch.Works();
      names := if ok then set p | p in ch.files && Dir(p) == dir :: Base(p) else {};
      forall n | n in names ensures IsEntry(ch.files, dir, n) {
        var p :| p in ch.files && Dir(p) == dir && Base(p) == n;
        JoinDirBase(p);
      }
    }

    /** One listed entry: removed when it is stale and does not resist. */
    method SweepEntry(dir: string, name: string, keep: set<string>, now: int) returns (gone: bool)
      requires IsEntry(ch.files, dir, name)
      modifies ch`files, ch`lost
      ensures ch.lost >= old(ch.lost)
      ensures ch.files == if gone then old(ch.files) - {JoinPath(dir, name)} else old(ch.files)
      ensures gone ==> Stale(old(ch.files), keep, now, JoinPath(dir, name))
      ensures ch.lost == old(ch.lost) ==> (gone <==> Stale(old(ch.files), keep, now, JoinPath(dir, name)))
    {
      gone := false;
      if !HasPrefix(name, "memif-") || !HasSuffix(name, ".sock") {
        return;
      }
      var path := JoinPath(dir, name);
      if path in keep {
        return;
      }
      var known := ch.Works();
      if !known || now - ch.files[path] < ORPHAN_SOCKET_MIN_AGE {
        return;
      }
      gone := ch.RemoveFile(path);
    }

    /** The entries of one directory, listed before the first removal. */
    method SweepDir(dir: string, keep: set<string>, now: int) returns (removed: nat, ghost gone: set<string>)
      requires CanonicalFiles(ch.files)
      modifies ch`files, ch`lost
      ensures ch.lost >= old(ch.lost)
      ensures ch.files == old(ch.files) - gone && removed == |gone|
      ensures forall p :: p in gone ==> Stale(old(ch.files), keep, now, p) && Dir(p) == dir
      ensures ch.lost == old(ch.lost) ==> forall p :: Stale(old(ch.files), keep, now, p) && Dir(p) == dir ==> p in gone
    {
      hide Dir, Base, Clean, JoinPath, HasPrefix, HasSuffix;
      removed, gone := 0, {};
      var listed, names := ReadDir(dir);
      var entries := names;
      while entries != {}
        invariant entries <= names && ch.lost >= old(ch.lost) && (ch.lost == old(ch.lost) ==> listed)
        invariant ch.files == old(ch.files) - gone && removed == |gone|
        invariant forall n :: n in entries ==> IsEntry(old(ch.files), dir, n) && JoinPath(dir, n) !in gone
        invariant forall p :: p in gone ==> Stale(old(ch.files), keep, now, p) && Dir(p) == dir
        invariant ch.lost == old(ch.lost) ==> forall n :: n in names - entries && Stale(old(ch.files), keep, now, JoinPath(dir, n)) ==> JoinPath(dir, n) in gone
      {
        var name :| name in entries;
        entries := entries - {name};
        ghost var path := JoinPath(dir, name);
        StaleLater(old(ch.files), gone, keep, now, path);
        var hit := SweepEntry(dir, name, keep, now);
        MinusMinus(old(ch.files), gone, {path});
        if hit {
          removed, gone := removed + 1, gone + {path};
        }
      }
      forall p | listed && Stale(old(ch.files), keep, now, p) && Dir(p) == dir ensures Base(p) in names && JoinPath(dir, Base(p)) == p {
        JoinDirBase(p);
      }
    }

    /** Visits the given directories in any order. */
    method SweepDirs(all: set<string>, keep: set<string>, now: int) returns (removed: nat, ghost gone: set<string>)
      requires CanonicalFiles(ch.files)
      modifies ch`files, ch`lost
      ensures ch.lost >= old(ch.lost)
      ensures ch.files == old(ch.files) - gone && removed == |gone|
      ensures forall p :: p in gone ==> Stale(old(ch.files), keep, now, p) && Dir(p) in all
      ensures ch.lost == old(ch.lost) ==> forall p :: Stale(old(ch.files), keep, now, p) && Dir(p) in all ==> p in gone
    {
      hide Dir, Base, Canonical;
      var dirs := all;
      removed, gone := 0, {};
      while dirs != {}
        invariant dirs <= all && ch.lost >= old(ch.lost)
        invariant ch.files == old(ch.files) - gone && removed == |gone|
        invariant forall p :: p in gone ==> Stale(old(ch.files), keep, now, p) && Dir(p) in all - dirs
        invariant ch.lost == old(ch.lost) ==> forall p :: Stale(old(ch.files), keep, now, p) && Dir(p) in all - dirs ==> p in gone
      {
        var dir :| dir in dirs;
        dirs := dirs - {dir};
        forall p ensures p !in gone ==> (Stale(ch.files, keep, now, p) <==> Stale(old(ch.files), keep, now, p)) {
          StaleLater(old(ch.files), gone, keep, now, p);
        }
        var n, more := SweepDir(dir, keep, now);
        MinusMinus(old(ch.files), gone, more);
        removed, gone := removed + n, gone + more;
      }
    }

    /** What the sweep removes is sweepable, and it removes everything sweepable unless a
        directory or a file resists. */
    method SweepOrphanSockets(keep: set<string>, now: int) returns (removed: nat, ghost gone: set<string>)
      requires CanonicalFiles(ch.files)
      modifies ch`files, ch`lost
      ensures ch.lost >= old(ch.lost)
      ensures ch.files == old(ch.files) - gone && removed == |gone|
      ensures forall p :: p in gone ==> Sweepable(old(ch.files), keep, now, p)
      ensures ch.lost == old(ch.lost) ==> forall p :: Sweepable(old(ch.files), keep, now, p) ==> p in gone
    {
      removed, gone := SweepDirs(KeptDirs(keep), keep, now);
    }
  }
}
