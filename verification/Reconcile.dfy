/** Diff and Reconcile, and the guard that decides whether an orphan may go. */
module Reconcile {
  import opened Vpp
  import opened Rounds
  import opened Dataplane
  import M = MemifApi

  // ----- Diff

  function Sockets(ms: seq<Memif>): set<string> {
    set m | m in ms :: m.socket
  }

  /** The masters of `ms`, in order, whose socket is not in `s`. */
  function Without(ms: seq<Memif>, s: set<string>): (r: seq<Memif>)
    ensures forall m :: m in r <==> m in ms && m.socket !in s
  {
    if ms == [] then []
    else
      var n := |ms| - 1;
      Without(ms[..n], s) + if ms[n].socket in s then [] else [ms[n]]
  }

  lemma {:induction false} WithoutDistinct(ms: seq<Memif>, s: set<string>)
    requires forall j, k :: 0 <= j < k < |ms| ==> ms[j].swIfIndex != ms[k].swIfIndex
    ensures forall j, k :: 0 <= j < k < |Without(ms, s)| ==> Without(ms, s)[j].swIfIndex != Without(ms, s)[k].swIfIndex
  {
    if ms != [] {
      var n := |ms| - 1;
      WithoutDistinct(ms[..n], s);
      forall m | m in Without(ms[..n], s) ensures m.swIfIndex != ms[n].swIfIndex {
        var j :| 0 <= j < n && ms[..n][j] == m;
        assert ms[j] == m;
      }
    }
  }

  method Names(ms: seq<Memif>) returns (names: set<string>)
    ensures names == Sockets(ms)
  {
    names := {};
    for i := 0 to |ms|
      invariant names == Sockets(ms[..i])
    {
      assert Sockets(ms[..i + 1]) == Sockets(ms[..i]) + {ms[i].socket} by { SocketsSnoc(ms, i); }
      names := names + {ms[i].socket};
    }
    assert ms[..|ms|] == ms;
  }

  lemma SocketsSnoc(ms: seq<Memif>, i: nat)
    requires i < |ms|
    ensures Sockets(ms[..i + 1]) == Sockets(ms[..i]) + {ms[i].socket}
  {
    assert ms[..i + 1] == ms[..i] + [ms[i]];
    forall s | s in Sockets(ms[..i]) + {ms[i].socket} ensures s in Sockets(ms[..i + 1]) {
      if s != ms[i].socket {
        var m :| m in ms[..i] && m.socket == s;
        assert m in ms[..i + 1];
      } else {
        assert ms[i] in ms[..i + 1];
      }
    }
  }

  /** Identity is the socket path; both results keep the order of their input. */
  method Diff(desired: seq<Memif>, actual: seq<Memif>) returns (toCreate: seq<Memif>, toDelete: seq<Memif>)
    ensures toCreate == Without(desired, Sockets(actual))
    ensures toDelete == Without(actual, Sockets(desired))
  {
    var have := Names(actual);
    var want := Names(desired);
    toCreate, toDelete := [], [];
    for i := 0 to |desired|
      invariant toCreate == Without(desired[..i], have)
    {
      assert desired[..i + 1][..i] == desired[..i];
      if desired[i].socket !in have {
        toCreate := toCreate + [desired[i]];
      }
    }
    for i := 0 to |actual|
      invariant toDelete == Without(actual[..i], want)
    {
      assert actual[..i + 1][..i] == actual[..i];
      if actual[i].socket !in want {
        toDelete := toDelete + [actual[i]];
      }
    }
    assert desired[..|desired|] == desired && actual[..|actual|] == actual;
  }

  lemma SocketsAppend(ms: seq<Memif>, m: Memif)
    ensures Sockets(ms + [m]) == Sockets(ms) + {m.socket}
  {
    assert (ms + [m])[..|ms|] == ms && (ms + [m])[..|ms| + 1] == ms + [m];
    SocketsSnoc(ms + [m], |ms|);
  }

  // ----- What one attempt may do to the tables

  /** The managed masters whose socket nothing wants. */
  function Orphans(t: Tables, prefixes: seq<string>, want: set<string>): set<nat> {
    set x | x in Managed(t, prefixes) && SocketOf(t, x) !in want
  }

  ghost predicate IsOrphanSocket(t: Tables, prefixes: seq<string>, want: set<string>, s: string) {
    exists x :: x in Orphans(t, prefixes, want) && SocketOf(t, x) == s
  }

  ghost predicate IsManagedSocket(t: Tables, prefixes: seq<string>, s: string) {
    exists x :: x in Managed(t, prefixes) && SocketOf(t, x) == s
  }

  /** Same row, same filename, same bridge domains. */
  ghost predicate SameIface(t: Tables, t': Tables, x: nat) {
    && x in t.ifaces && x in t'.ifaces && t'.ifaces[x] == t.ifaces[x]
    && (IsMemif(t, x) ==> SocketOf(t', x) == SocketOf(t, x))
    && (forall b :: InBridge(t', b, x) <==> InBridge(t, b, x))
  }

  lemma ConfiguredSame(t: Tables, t': Tables, x: nat, r: Request)
    requires SameIface(t, t', x) && Configured(t, x, r)
    ensures Configured(t', x, r)
  {
    forall b ensures InBridge(t', b, x) <==> b in r.bridge {
      assert InBridge(t, b, x) <==> b in r.bridge;
    }
  }

  /** A new interface is exactly what restoring `m` asks for. */
  ghost predicate Restored(t0: Tables, t: Tables, m: Memif) {
    exists x :: x !in t0.ifaces && Configured(t, x, RestoreRequest(m))
  }

  lemma GrownMore(t: Tables, t1: Tables, t2: Tables, names: set<string>, name: string)
    requires Inv(t1) && Grown(t, t1, Master, names) && Grown(t1, t2, Master, {name})
    ensures Grown(t, t2, Master, names + {name})
  {
    forall x | x in t2.ifaces && x !in t.ifaces
      ensures IsMemif(t2, x) && t2.ifaces[x].role == Master && t2.ifaces[x].id == 0 && SocketOf(t2, x) in names + {name}
    {
      if x in t1.ifaces {
        GrownSame(t1, t2, {name}, x);
      }
    }
    forall b, x | x in t.ifaces ensures InBridge(t2, b, x) <==> InBridge(t, b, x) {
      assert InBridge(t1, b, x) <==> InBridge(t, b, x);
    }
  }

  lemma RestoredGrown(t0: Tables, t1: Tables, t2: Tables, names: set<string>, m: Memif)
    requires Inv(t1) && Restored(t0, t1, m) && Grown(t1, t2, Master, names)
    ensures Restored(t0, t2, m)
  {
    var x :| x !in t0.ifaces && Configured(t1, x, RestoreRequest(m));
    GrownSame(t1, t2, names, x);
    ConfiguredSame(t1, t2, x, RestoreRequest(m));
  }

  lemma RestoredShrunk(t0: Tables, t1: Tables, t2: Tables, gone: set<nat>, m: Memif)
    requires Restored(t0, t1, m) && Shrunk(t1, t2, gone) && gone <= t0.ifaces.Keys
    ensures Restored(t0, t2, m)
  {
    hide Configured, SameIface;
    var x :| x !in t0.ifaces && Configured(t1, x, RestoreRequest(m));
    ConfiguredIsMemif(t1, x, RestoreRequest(m));
    ConfiguredSame(t1, t2, x, RestoreRequest(m));
  }

  lemma ConfiguredIsMemif(t: Tables, x: nat, r: Request)
    requires Configured(t, x, r)
    ensures x in t.ifaces
  {
  }

  /** Exactly the interfaces in `gone` went; every other one is as it was. */
  ghost predicate Shrunk(t: Tables, t': Tables, gone: set<nat>) {
    && gone <= t.ifaces.Keys && t'.ifaces.Keys == t.ifaces.Keys - gone
    && forall x :: x in t'.ifaces ==> SameIface(t, t', x)
  }

  lemma ShrunkNone(t: Tables)
    ensures Shrunk(t, t, {})
  {
  }

  lemma ShrunkMore(t: Tables, t1: Tables, t2: Tables, gone: set<nat>, x: nat)
    requires Inv(t1) && Inv(t2) && Shrunk(t, t1, gone) && x in t1.ifaces && M.Deleted(t1, t2, x)
    requires forall i :: i in t2.sockets ==> i in t1.sockets && t2.sockets[i] == t1.sockets[i]
    ensures Shrunk(t, t2, gone + {x})
  {
    assert t2.ifaces.Keys == t1.ifaces.Keys - {x};
    forall y | y in t2.ifaces ensures SameIface(t, t2, y) {
      assert SameIface(t, t1, y);
      assert IsMemif(t2, y) ==> SocketOf(t2, y) == SocketOf(t1, y);
      forall b ensures InBridge(t2, b, y) <==> InBridge(t, b, y) {
        assert InBridge(t1, b, y) <==> InBridge(t, b, y);
      }
    }
  }

  /** Nothing but unwanted managed masters goes, nothing but masters on wanted and so far
      unserved sockets comes, and everything else stays exactly as it was. */
  ghost predicate Attempt(t: Tables, t': Tables, prefixes: seq<string>, want: set<string>) {
    && (forall x :: x in t.ifaces && x in t'.ifaces ==> SameIface(t, t', x))
    && (forall x :: x in t.ifaces && x !in t'.ifaces ==> x in Orphans(t, prefixes, want))
    && (forall x :: x in t'.ifaces && x !in t.ifaces ==>
          && IsMemif(t', x) && t'.ifaces[x].role == Master && t'.ifaces[x].id == 0
          && SocketOf(t', x) in want && !IsManagedSocket(t, prefixes, SocketOf(t', x)))
  }

  lemma GrownSame(t: Tables, t': Tables, names: set<string>, x: nat)
    requires Inv(t) && Grown(t, t', Master, names) && x in t.ifaces
    ensures SameIface(t, t', x)
  {
    assert IsMemif(t, x) ==> t.ifaces[x].socketId in t.sockets;
  }

  lemma SameTransitive(t: Tables, t1: Tables, t2: Tables, x: nat)
    requires SameIface(t, t1, x) && SameIface(t1, t2, x)
    ensures SameIface(t, t2, x)
  {
    forall b ensures InBridge(t2, b, x) <==> InBridge(t, b, x) {
      assert InBridge(t1, b, x) <==> InBridge(t, b, x);
    }
  }

  /** Creates, then deletes of interfaces that were there before the creates. */
  lemma CreatesThenDeletes(t: Tables, t1: Tables, t2: Tables, prefixes: seq<string>, want: set<string>,
                           names: set<string>, gone: set<nat>)
    requires Inv(t) && Grown(t, t1, Master, names)
    requires Shrunk(t1, t2, gone) && gone <= Orphans(t, prefixes, want)
    requires forall s :: s in names ==> s in want && !IsManagedSocket(t, prefixes, s)
    ensures Attempt(t, t2, prefixes, want)
    ensures t.ifaces.Keys - t2.ifaces.Keys == gone
    ensures t2.ifaces.Keys - t.ifaces.Keys == t1.ifaces.Keys - t.ifaces.Keys
  {
    hide IsManagedSocket, IsManaged, Inv, InBridge;
    forall x | x in t.ifaces && x in t2.ifaces ensures SameIface(t, t2, x) {
      GrownSame(t, t1, names, x);
      SameTransitive(t, t1, t2, x);
    }
    assert forall x :: x in t2.ifaces ==> SameIface(t1, t2, x);
  }

  // ----- The guard

  /** A socket file the guard can see. */
  predicate Present(files: map<string, int>, s: string) {
    s != "" && s in files
  }

  /** The node and the rounds so far; the last round is the current one. */
  datatype World = World(vpp: Tables, files: map<string, int>, history: seq<Round>)

  ghost function Past(w: World): seq<Round>
    requires w.history != []
  {
    w.history[..|w.history| - 1]
  }

  ghost function Now(w: World): Round
    requires w.history != []
  {
    w.history[|w.history| - 1]
  }

  /** May an orphan on socket `s` go, judged by the state in which the round began? */
  ghost predicate MayGo(w0: World, grace: int, s: string)
    requires w0.history != []
  {
    MayDelete(Past(w0), grace, Present(w0.files, s), s)
  }

  // ----- One pass over the orphans

  ghost predicate FairTables(t0: Tables, t: Tables, ms: seq<Memif>, gone: set<nat>) {
    Shrunk(t0, t, gone) && gone <= Indices(ms)
  }

  /** Files only go, and only those of orphans that were allowed to go. */
  ghost predicate FairFiles(w0: World, files: map<string, int>, grace: int, gated: bool, ms: seq<Memif>)
    requires w0.history != []
  {
    && files.Keys <= w0.files.Keys && (forall p :: p in files ==> files[p] == w0.files[p])
    && (forall p :: p in w0.files && p !in files ==> p in Sockets(ms) && (gated ==> MayGo(w0, grace, p)))
  }

  ghost predicate Shared(ms: seq<Memif>, s: string) {
    exists j, k :: 0 <= j < k < |ms| && ms[j].socket == s && ms[k].socket == s
  }

  ghost predicate FairRound(w0: World, h: seq<Round>, grace: int, gated: bool, ms: seq<Memif>, gone: set<nat>)
    requires w0.history != []
  {
    && |h| == |w0.history| && h[..|h| - 1] == Past(w0)
    && (!gated ==> h == w0.history)
    && (gated ==>
          && h[|h| - 1].visited == Sockets(ms)
          && (forall p :: p in h[|h| - 1].kept ==> p in Sockets(ms) && Present(w0.files, p))
          && (forall p :: p in h[|h| - 1].kept && p !in h[|h| - 1].dup ==> !MayGo(w0, grace, p))
          && (forall p :: p in h[|h| - 1].dup <==> Shared(ms, p))
          && (forall m :: m in ms && m.swIfIndex in gone ==> MayGo(w0, grace, m.socket)))
  }

  /** A refusal lasts for the round: the file is still there, and the guard would refuse again. */
  ghost predicate Standing(w: World, grace: int, gated: bool)
    requires w.history != []
  {
    gated ==> forall p :: p in Now(w).kept ==> Present(w.files, p) && grace != 1
  }

  /** Holds after every orphan in `ms` has been looked at, or the pass was cut off at the last
      of them: whatever went was allowed to go, and whatever was refused had its file. */
  ghost predicate Fair(w0: World, w: World, grace: int, gated: bool, ms: seq<Memif>, gone: set<nat>)
    requires w0.history != []
  {
    && FairTables(w0.vpp, w.vpp, ms, gone)
    && FairFiles(w0, w.files, grace, gated, ms)
    && FairRound(w0, w.history, grace, gated, ms, gone)
  }

  ghost predicate Went(ms: seq<Memif>, gone: set<nat>, s: string) {
    exists m :: m in ms && m.socket == s && m.swIfIndex in gone
  }

  /** Holds when the pass over `ms` was not cut off: every orphan went or was refused, and one
      went on every socket that may go. */
  ghost predicate Full(w0: World, h: seq<Round>, grace: int, gated: bool, ms: seq<Memif>, gone: set<nat>)
    requires w0.history != [] && h != []
  {
    && (!gated ==> gone == Indices(ms))
    && (gated ==>
          && (forall m :: m in ms ==> m.swIfIndex in gone || m.socket in h[|h| - 1].kept)
          && (forall s :: s in Sockets(ms) && MayGo(w0, grace, s) ==> Went(ms, gone, s)))
  }

  /** What the guard and, if it agrees, the delete of `m` did. */
  ghost predicate Collected(w: World, w': World, grace: int, gated: bool, m: Memif, del: bool, ok: bool)
    requires w.history != []
  {
    && Judged(w, w'.history, grace, gated, m.socket, del)
    && (!del ==> ok && w'.vpp == w.vpp && w'.files == w.files)
    && (w'.vpp == w.vpp || (del && M.Deleted(w.vpp, w'.vpp, m.swIfIndex)))
    && (del && ok ==> m.swIfIndex !in w'.vpp.ifaces)
    && (w'.files == w.files || (del && ok && w'.files == w.files - {m.socket}))
    && (forall i :: i in w'.vpp.sockets ==> i in w.vpp.sockets && w'.vpp.sockets[i] == w.vpp.sockets[i])
  }

  /** Without a guard every orphan may go; with one, exactly as the history says. */
  ghost predicate Judged(w: World, h: seq<Round>, grace: int, gated: bool, s: string, del: bool)
    requires w.history != []
  {
    if gated
    then h == Visit(w.history, s, !del) && (del <==> GivesUp(w.history, grace, Present(w.files, s), s))
    else h == w.history && del
  }

  /** The first answer about a socket is by the state in which the round began; later ones only
      agree where it did, and never take a refusal back. */
  lemma SameVerdict(w0: World, w: World, grace: int, ms: seq<Memif>, gone: set<nat>, s: string)
    requires w0.history != [] && w.history != [] && Fair(w0, w, grace, true, ms, gone) && Standing(w, grace, true)
    ensures GivesUp(w.history, grace, Present(w.files, s), s) ==> MayGo(w0, grace, s)
    ensures s !in Sockets(ms) ==> (GivesUp(w.history, grace, Present(w.files, s), s) <==> MayGo(w0, grace, s))
    ensures s in Now(w).kept ==> !GivesUp(w.history, grace, Present(w.files, s), s)
    ensures Present(w.files, s) ==> Present(w0.files, s)
  {
    hide FairTables, Sockets, Streak, Shared;
    assert Before(w.history) == Past(w0);
  }

  lemma TablesStep(w0: World, w: World, w': World, grace: int, gated: bool, ms: seq<Memif>, gone: set<nat>,
                   m: Memif, del: bool, ok: bool) returns (gone': set<nat>)
    requires FairTables(w0.vpp, w.vpp, ms, gone) && Inv(w.vpp) && Inv(w'.vpp) && m.swIfIndex in w.vpp.ifaces
    requires w.history != [] && Collected(w, w', grace, gated, m, del, ok)
    ensures gone <= gone' <= gone + {m.swIfIndex}
    ensures FairTables(w0.vpp, w'.vpp, ms + [m], gone')
    ensures m.swIfIndex in gone' ==> del || m.swIfIndex in gone
    ensures del && ok ==> m.swIfIndex in gone'
  {
    hide Inv, Judged, Indices, SocketOf, SameIface;
    IndicesSnoc(ms, m);
    gone' := gone;
    if w'.vpp != w.vpp {
      ShrunkMore(w0.vpp, w.vpp, w'.vpp, gone, m.swIfIndex);
      gone' := gone + {m.swIfIndex};
    }
  }

  lemma FilesStep(w0: World, w: World, w': World, grace: int, gated: bool, ms: seq<Memif>, gone: set<nat>,
                  m: Memif, del: bool, ok: bool)
    requires w0.history != [] && w.history != [] && Fair(w0, w, grace, gated, ms, gone) && Standing(w, grace, gated)
    requires Collected(w, w', grace, gated, m, del, ok)
    ensures FairFiles(w0, w'.files, grace, gated, ms + [m])
  {
    SocketsAppend(ms, m);
    if gated {
      SameVerdict(w0, w, grace, ms, gone, m.socket);
    }
    hide FairTables, FairRound, Sockets, MayGo, M.Deleted, Visit, GivesUp;
  }

  lemma StandingStep(w: World, w': World, grace: int, gated: bool, m: Memif, del: bool, ok: bool)
    requires w.history != [] && w'.history != [] && Standing(w, grace, gated) && Collected(w, w', grace, gated, m, del, ok)
    ensures Standing(w', grace, gated)
  {
    hide M.Deleted, Streak;
    if gated {
      forall p | p in Now(w').kept ensures Present(w'.files, p) && grace != 1 {
        if p != m.socket {
          assert p in Now(w).kept;
        }
      }
    }
  }

  lemma SharedSnoc(ms: seq<Memif>, m: Memif, s: string)
    ensures Shared(ms + [m], s) <==> Shared(ms, s) || (s == m.socket && s in Sockets(ms))
  {
    var ms' := ms + [m];
    if Shared(ms', s) {
      var j, k :| 0 <= j < k < |ms'| && ms'[j].socket == s && ms'[k].socket == s;
      if k < |ms| {
        assert ms[j].socket == s && ms[k].socket == s;
      } else {
        assert ms[j] in ms;
      }
    }
    if Shared(ms, s) {
      var j, k :| 0 <= j < k < |ms| && ms[j].socket == s && ms[k].socket == s;
      assert ms'[j].socket == s && ms'[k].socket == s;
    }
    if s == m.socket && s in Sockets(ms) {
      var j :| 0 <= j < |ms| && ms[j].socket == s;
      assert ms'[j].socket == s && ms'[|ms|].socket == s;
    }
  }

  /** What one visit does to the round. */
  lemma VisitedRound(h: seq<Round>, s: string, refused: bool)
    requires h != []
    ensures var h', r, r' := Visit(h, s, refused), h[|h| - 1], Visit(h, s, refused)[|h| - 1];
            && |h'| == |h| && h'[..|h| - 1] == h[..|h| - 1] && r'.visited == r.visited + {s}
            && (forall p :: p in r'.kept <==> if p == s then refused else p in r.kept)
            && (forall p :: p in r'.dup <==> p in r.dup || (p == s && s in r.visited))
  {
  }

  lemma RoundStep(w0: World, w: World, w': World, grace: int, gated: bool, ms: seq<Memif>, gone: set<nat>,
                  m: Memif, del: bool, ok: bool, gone': set<nat>)
    requires w0.history != [] && w.history != [] && Fair(w0, w, grace, gated, ms, gone) && Standing(w, grace, gated)
    requires Collected(w, w', grace, gated, m, del, ok)
    requires m.swIfIndex !in Indices(ms) && gone <= gone' <= gone + {m.swIfIndex}
    requires m.swIfIndex in gone' ==> del
    ensures FairRound(w0, w'.history, grace, gated, ms + [m], gone')
  {
    if gated {
      SameVerdict(w0, w, grace, ms, gone, m.socket);
      VisitedRound(w.history, m.socket, !del);
      hide FairTables, FairFiles, MayGo, M.Deleted, GivesUp, Visit;
      GatedRoundStep(w0, w.history, w'.history, grace, ms, gone, m, del, gone', GivesUp(w.history, grace, Present(w.files, m.socket), m.socket));
    }
  }

  lemma GatedRoundStep(w0: World, h: seq<Round>, h': seq<Round>, grace: int, ms: seq<Memif>, gone: set<nat>,
                       m: Memif, del: bool, gone': set<nat>, verdict: bool)
    requires w0.history != [] && FairRound(w0, h, grace, true, ms, gone) && h' == Visit(h, m.socket, !del) && (del <==> verdict)
    requires verdict ==> MayGo(w0, grace, m.socket)
    requires m.socket !in Sockets(ms) ==> (verdict <==> MayGo(w0, grace, m.socket))
    requires !verdict ==> Present(w0.files, m.socket)
    requires m.swIfIndex !in Indices(ms) && gone <= gone' <= gone + {m.swIfIndex}
    requires m.swIfIndex in gone' ==> del
    ensures FairRound(w0, h', grace, true, ms + [m], gone')
  {
    VisitedRound(h, m.socket, !del);
    SocketsAppend(ms, m);
    hide Visit, MayGo, Sockets, Present, Shared;
    forall p ensures p in h'[|h'| - 1].dup <==> Shared(ms + [m], p) {
      SharedSnoc(ms, m, p);
    }
    forall n | n in ms + [m] && n.swIfIndex in gone' ensures MayGo(w0, grace, n.socket) {
      if n in ms {
        InIndices(ms, n);
      }
    }
  }

  lemma FullStep(w0: World, w: World, w': World, grace: int, gated: bool, ms: seq<Memif>, gone: set<nat>,
                 m: Memif, del: bool, gone': set<nat>)
    requires w0.history != [] && w.history != [] && Fair(w0, w, grace, gated, ms, gone) && Standing(w, grace, gated)
    requires Full(w0, w.history, grace, gated, ms, gone) && Collected(w, w', grace, gated, m, del, true)
    requires m.swIfIndex !in Indices(ms) && gone <= gone' <= gone + {m.swIfIndex}
    requires m.swIfIndex in gone' <==> del
    ensures w'.history != [] && Full(w0, w'.history, grace, gated, ms + [m], gone')
  {
    if !gated {
      hide FairTables, FairFiles, FairRound, Standing, Indices, M.Deleted;
      IndicesSnoc(ms, m);
      return;
    }
    SameVerdict(w0, w, grace, ms, gone, m.socket);
    VisitedRound(w.history, m.socket, !del);
    SocketsAppend(ms, m);
    hide FairTables, FairFiles, FairRound, MayGo, M.Deleted, GivesUp, Visit, Sockets, Indices;
    forall n | n in ms + [m] ensures n.swIfIndex in gone' || n.socket in w'.history[|w'.history| - 1].kept {
      if n in ms && n.swIfIndex !in gone {
        assert n.socket in Now(w).kept;
      }
    }
    forall s | s in Sockets(ms + [m]) && MayGo(w0, grace, s) ensures Went(ms + [m], gone', s) {
      WentStep(ms, gone, m, del, gone', s);
    }
  }

  lemma WentStep(ms: seq<Memif>, gone: set<nat>, m: Memif, del: bool, gone': set<nat>, s: string)
    requires gone <= gone' && (m.swIfIndex in gone' <==> del)
    requires Went(ms, gone, s) || (s == m.socket && del)
    ensures Went(ms + [m], gone', s)
  {
    if Went(ms, gone, s) {
      var n :| n in ms && n.socket == s && n.swIfIndex in gone;
      assert n in ms + [m];
    } else {
      assert m in ms + [m];
    }
  }

  lemma InIndices(ms: seq<Memif>, m: Memif)
    requires m in ms
    ensures m.swIfIndex in Indices(ms)
  {
  }

  /** The state of the pass after `ms`; `whole` unless it was cut off. */
  ghost predicate Progress(w0: World, w: World, grace: int, gated: bool, ms: seq<Memif>, gone: set<nat>, whole: bool) {
    && w0.history != [] && w.history != []
    && Fair(w0, w, grace, gated, ms, gone) && Standing(w, grace, gated)
    && (whole ==> Full(w0, w.history, grace, gated, ms, gone))
  }

  lemma ProgressStep(w0: World, w: World, w': World, grace: int, gated: bool, ms: seq<Memif>, gone: set<nat>,
                     m: Memif, del: bool, ok: bool) returns (gone': set<nat>)
    requires Progress(w0, w, grace, gated, ms, gone, true)
    requires Collected(w, w', grace, gated, m, del, ok) && Inv(w.vpp) && Inv(w'.vpp)
    requires m.swIfIndex !in Indices(ms) && m.swIfIndex !in gone && m.swIfIndex in w.vpp.ifaces
    ensures Progress(w0, w', grace, gated, ms + [m], gone', ok)
    ensures ok ==> |gone'| == |gone| + if del then 1 else 0
    ensures |gone| <= |gone'| <= |gone| + 1
    ensures gone' == gone || (del && gone' == gone + {m.swIfIndex})
  {
    hide Fair, FairTables, FairFiles, FairRound, Standing, Full, Collected, Inv, Indices;
    FairHasTables(w0, w, grace, gated, ms, gone);
    gone' := TablesStep(w0, w, w', grace, gated, ms, gone, m, del, ok);
    HistoryStays(w, w', grace, gated, m, del, ok);
    FilesStep(w0, w, w', grace, gated, ms, gone, m, del, ok);
    StandingStep(w, w', grace, gated, m, del, ok);
    RoundStep(w0, w, w', grace, gated, ms, gone, m, del, ok, gone');
    if ok {
      FullStep(w0, w, w', grace, gated, ms, gone, m, del, gone');
    }
    FairFrom(w0, w', grace, gated, ms + [m], gone');
    hide *;
    assert gone' == gone || gone' == gone + {m.swIfIndex};
  }

  lemma FairHasTables(w0: World, w: World, grace: int, gated: bool, ms: seq<Memif>, gone: set<nat>)
    requires w0.history != [] && Fair(w0, w, grace, gated, ms, gone)
    ensures FairTables(w0.vpp, w.vpp, ms, gone)
  {
  }

  lemma FairFrom(w0: World, w: World, grace: int, gated: bool, ms: seq<Memif>, gone: set<nat>)
    requires w0.history != [] && FairTables(w0.vpp, w.vpp, ms, gone) && FairFiles(w0, w.files, grace, gated, ms)
    requires FairRound(w0, w.history, grace, gated, ms, gone)
    ensures Fair(w0, w, grace, gated, ms, gone)
  {
  }

  lemma HistoryStays(w: World, w': World, grace: int, gated: bool, m: Memif, del: bool, ok: bool)
    requires w.history != [] && Collected(w, w', grace, gated, m, del, ok)
    ensures w'.history != []
  {
  }

  lemma ProgressNone(w0: World, grace: int, gated: bool)
    requires w0.history != [] && Now(w0) == NEW_ROUND
    ensures Progress(w0, w0, grace, gated, [], {}, true) && Progress(w0, w0, grace, gated, [], {}, false)
  {
    ShrunkNone(w0.vpp);
    hide Shrunk, Streak;
  }

  /** Indexes are distinct, so the next orphan has not been touched yet. */
  lemma StillThere(w0: World, w: World, grace: int, gated: bool, ms: seq<Memif>, i: nat, gone: set<nat>)
    requires i < |ms| && Progress(w0, w, grace, gated, ms[..i], gone, true)
    requires forall m :: m in ms ==> IsMemif(w0.vpp, m.swIfIndex)
    requires forall j, k :: 0 <= j < k < |ms| ==> ms[j].swIfIndex != ms[k].swIfIndex
    ensures ms[i].swIfIndex !in Indices(ms[..i]) && ms[i].swIfIndex !in gone
    ensures IsMemif(w.vpp, ms[i].swIfIndex) && w.history != []
  {
    assert ms[i] in ms;
    hide FairFiles, FairRound, Full, Standing;
    assert SameIface(w0.vpp, w.vpp, ms[i].swIfIndex);
  }

  // ----- The whole of a reconcile

  lemma OrphansOfDump(t: Tables, prefixes: seq<string>, dump: seq<Memif>, want: set<string>)
    requires IsDump(t, prefixes, dump)
    ensures Indices(Without(dump, want)) == Orphans(t, prefixes, want)
    ensures forall m :: m in Without(dump, want) ==> m.swIfIndex in Orphans(t, prefixes, want) && m.socket == SocketOf(t, m.swIfIndex)
  {
    hide IsManaged, SocketOf, InScope, ModeString;
    var d := Without(dump, want);
    forall x | x in Orphans(t, prefixes, want) ensures x in Indices(d) {
      assert x in Indices(dump) by {
        assert t.ifaces.Keys * Managed(t, prefixes) == Managed(t, prefixes);
      }
      var m :| m in dump && m.swIfIndex == x;
      assert m in d;
    }
    forall m | m in d ensures m.swIfIndex in Orphans(t, prefixes, want) && m.socket == SocketOf(t, m.swIfIndex) {
      InIndices(dump, m);
    }
  }

  lemma SocketsOfDump(t: Tables, prefixes: seq<string>, dump: seq<Memif>, s: string)
    requires IsDump(t, prefixes, dump)
    ensures s in Sockets(dump) <==> IsManagedSocket(t, prefixes, s)
  {
    hide SocketOf, InScope, ModeString;
    if s in Sockets(dump) {
      var m :| m in dump && m.socket == s;
      InIndices(dump, m);
      assert m.swIfIndex in Managed(t, prefixes) && SocketOf(t, m.swIfIndex) == s;
    }
    if IsManagedSocket(t, prefixes, s) {
      var x :| x in Managed(t, prefixes) && SocketOf(t, x) == s;
      assert x in Indices(dump);
      var m :| m in dump && m.swIfIndex == x;
      assert m.socket == s;
    }
  }

  lemma OrphanSocketsOfDump(t: Tables, prefixes: seq<string>, dump: seq<Memif>, want: set<string>, s: string)
    requires IsDump(t, prefixes, dump)
    ensures s in Sockets(Without(dump, want)) <==> IsOrphanSocket(t, prefixes, want, s)
  {
    OrphansOfDump(t, prefixes, dump, want);
    hide Orphans, SocketOf, Without;
    var d := Without(dump, want);
    if s in Sockets(d) {
      var m :| m in d && m.socket == s;
      assert m.swIfIndex in Orphans(t, prefixes, want) && SocketOf(t, m.swIfIndex) == s;
    }
    if IsOrphanSocket(t, prefixes, want, s) {
      var x :| x in Orphans(t, prefixes, want) && SocketOf(t, x) == s;
      assert x in Indices(d);
      var m :| m in d && m.swIfIndex == x;
      assert m.socket == s;
    }
  }

  /** Two orphans on one socket. */
  ghost predicate TwoOrphans(t: Tables, prefixes: seq<string>, want: set<string>, s: string) {
    exists x, y :: x != y && x in Orphans(t, prefixes, want) && y in Orphans(t, prefixes, want)
                   && SocketOf(t, x) == s && SocketOf(t, y) == s
  }

  lemma SharedOfDump(t: Tables, prefixes: seq<string>, dump: seq<Memif>, want: set<string>, s: string)
    requires IsDump(t, prefixes, dump)
    ensures Shared(Without(dump, want), s) <==> TwoOrphans(t, prefixes, want, s)
  {
    OrphansOfDump(t, prefixes, dump, want);
    WithoutDistinct(dump, want);
    hide Orphans, SocketOf, Without;
    var d := Without(dump, want);
    if Shared(d, s) {
      var j, k :| 0 <= j < k < |d| && d[j].socket == s && d[k].socket == s;
      assert d[j] in d && d[k] in d;
      assert d[j].swIfIndex != d[k].swIfIndex;
    }
    if TwoOrphans(t, prefixes, want, s) {
      var x, y :| x != y && x in Orphans(t, prefixes, want) && y in Orphans(t, prefixes, want)
                  && SocketOf(t, x) == s && SocketOf(t, y) == s;
      var a := DoneAt(d, x);
      var b := DoneAt(d, y);
      TwoPositions(d, a, b, s);
    }
  }

  lemma TwoPositions(d: seq<Memif>, a: Memif, b: Memif, s: string)
    requires a in d && b in d && a != b && a.socket == s && b.socket == s
    ensures Shared(d, s)
  {
    var j :| 0 <= j < |d| && d[j] == a;
    var k :| 0 <= k < |d| && d[k] == b;
    assert j != k;
  }

  /** With memif id 0, as the plugin and the daemon create them, no socket has two masters. */
  lemma OneMasterPerSocket(t: Tables, x: nat, y: nat)
    requires Inv(t) && IsMemif(t, x) && IsMemif(t, y) && t.ifaces[x].id == t.ifaces[y].id == 0
    requires SocketOf(t, x) == SocketOf(t, y)
    ensures x == y
  {
  }

  lemma IdZeroUnshared(t: Tables, prefixes: seq<string>, want: set<string>, s: string)
    requires Inv(t) && forall x :: x in Managed(t, prefixes) && SocketOf(t, x) == s ==> t.ifaces[x].id == 0
    ensures !TwoOrphans(t, prefixes, want, s)
  {
    hide Inv, SocketOf;
    if TwoOrphans(t, prefixes, want, s) {
      var x, y :| x != y && x in Orphans(t, prefixes, want) && y in Orphans(t, prefixes, want)
                  && SocketOf(t, x) == s && SocketOf(t, y) == s;
      OneMasterPerSocket(t, x, y);
    }
  }

  /** Some orphan on the socket went. */
  ghost predicate SomeWent(t: Tables, t': Tables, prefixes: seq<string>, want: set<string>, s: string) {
    exists x :: x in Orphans(t, prefixes, want) && SocketOf(t, x) == s && x !in t'.ifaces
  }

  /** What happened to the rounds and to the orphans. `want` is the set of desired sockets. */
  ghost predicate OrphansHandled(w0: World, w: World, prefixes: seq<string>, grace: int, gated: bool, want: set<string>, ok: bool)
    requires w0.history != []
  {
    && |w.history| == |w0.history| && Past(w) == Past(w0)
    && (!gated ==>
          && w.history == w0.history
          && (ok ==> forall x :: x in Orphans(w0.vpp, prefixes, want) ==> x !in w.vpp.ifaces))
    && (gated ==>
          && (forall s :: s in Now(w).visited ==> IsOrphanSocket(w0.vpp, prefixes, want, s))
          && (forall s :: s in Now(w).kept ==> s in Now(w).visited && Present(w0.files, s) && grace != 1)
          && (forall s :: s in Now(w).kept && s !in Now(w).dup ==> !MayGo(w0, grace, s))
          && (forall s :: s in Now(w).dup ==> TwoOrphans(w0.vpp, prefixes, want, s))
          && (forall x :: x in Orphans(w0.vpp, prefixes, want) && x !in w.vpp.ifaces ==> MayGo(w0, grace, SocketOf(w0.vpp, x)))
          && (ok ==> OrphansDecided(w0, w, prefixes, grace, want)))
  }

  /** In a round that was not cut off every orphan goes or is refused, and on every socket that
      may go one goes. */
  ghost predicate OrphansDecided(w0: World, w: World, prefixes: seq<string>, grace: int, want: set<string>)
    requires w0.history != [] && w.history != []
  {
    && (forall x :: x in Orphans(w0.vpp, prefixes, want) ==> x !in w.vpp.ifaces || SocketOf(w0.vpp, x) in Now(w).kept)
    && (forall s :: TwoOrphans(w0.vpp, prefixes, want, s) ==> s in Now(w).dup)
    && (forall s :: IsOrphanSocket(w0.vpp, prefixes, want, s) && MayGo(w0, grace, s) ==> SomeWent(w0.vpp, w.vpp, prefixes, want, s))
  }

  /** So some orphan on the socket goes if and only if it may; a single one is then kept or goes. */
  lemma Decided(w0: World, w: World, prefixes: seq<string>, grace: int, want: set<string>, x: nat)
    requires w0.history != [] && OrphansHandled(w0, w, prefixes, grace, true, want, true) && x in Orphans(w0.vpp, prefixes, want)
    ensures SomeWent(w0.vpp, w.vpp, prefixes, want, SocketOf(w0.vpp, x)) <==> MayGo(w0, grace, SocketOf(w0.vpp, x))
    ensures !TwoOrphans(w0.vpp, prefixes, want, SocketOf(w0.vpp, x)) ==>
              && (x !in w.vpp.ifaces <==> MayGo(w0, grace, SocketOf(w0.vpp, x)))
              && (SocketOf(w0.vpp, x) in Now(w).kept <==> !MayGo(w0, grace, SocketOf(w0.vpp, x)))
  {
    OrphansUnwanted(w0.vpp, prefixes, want);
    var s := SocketOf(w0.vpp, x);
    hide Orphans, SocketOf, MayGo;
    assert IsOrphanSocket(w0.vpp, prefixes, want, s);
    if SomeWent(w0.vpp, w.vpp, prefixes, want, s) {
      var y :| y in Orphans(w0.vpp, prefixes, want) && SocketOf(w0.vpp, y) == s && y !in w.vpp.ifaces;
      assert y != x ==> TwoOrphans(w0.vpp, prefixes, want, s);
    }
  }

  /** The same by socket. */
  lemma SocketDecided(w0: World, w: World, prefixes: seq<string>, grace: int, want: set<string>, s: string)
    requires w0.history != [] && OrphansHandled(w0, w, prefixes, grace, true, want, true) && IsOrphanSocket(w0.vpp, prefixes, want, s)
    ensures w.history != []
    ensures SomeWent(w0.vpp, w.vpp, prefixes, want, s) <==> MayGo(w0, grace, s)
    ensures !SomeWent(w0.vpp, w.vpp, prefixes, want, s) ==>
              s in Now(w).kept && (s in Now(w).dup <==> TwoOrphans(w0.vpp, prefixes, want, s))
  {
    OrphansUnwanted(w0.vpp, prefixes, want);
    var x :| x in Orphans(w0.vpp, prefixes, want) && SocketOf(w0.vpp, x) == s;
    Decided(w0, w, prefixes, grace, want, x);
    hide Orphans, SocketOf, MayGo, TwoOrphans;
  }

  lemma DoneAreOrphans(t: Tables, prefixes: seq<string>, dump: seq<Memif>, want: set<string>, done: seq<Memif>)
    requires IsDump(t, prefixes, dump) && done <= Without(dump, want)
    ensures forall s :: s in Sockets(done) ==> IsOrphanSocket(t, prefixes, want, s) && s !in want
    ensures forall s :: Shared(done, s) ==> TwoOrphans(t, prefixes, want, s)
    ensures forall m :: m in done ==> m.swIfIndex in Orphans(t, prefixes, want) && m.socket == SocketOf(t, m.swIfIndex)
    ensures done == Without(dump, want) ==> Indices(done) == Orphans(t, prefixes, want)
    ensures done == Without(dump, want) ==> forall s :: TwoOrphans(t, prefixes, want, s) ==> Shared(done, s)
  {
    var d := Without(dump, want);
    OrphansOfDump(t, prefixes, dump, want);
    hide IsDump, SocketOf, Orphans, TwoOrphans, IsOrphanSocket, Without, Shared;
    forall s | s in Sockets(done) ensures IsOrphanSocket(t, prefixes, want, s) && s !in want {
      OrphanSocketsOfDump(t, prefixes, dump, want, s);
      var m :| m in done && m.socket == s;
      assert m in d;
      OrphanIsManaged(t, prefixes, want, s);
    }
    forall s ensures Shared(done, s) ==> TwoOrphans(t, prefixes, want, s)
      ensures done == d && TwoOrphans(t, prefixes, want, s) ==> Shared(done, s)
    {
      SharedDone(t, prefixes, dump, want, done, s);
    }
  }

  lemma SharedDone(t: Tables, prefixes: seq<string>, dump: seq<Memif>, want: set<string>, done: seq<Memif>, s: string)
    requires IsDump(t, prefixes, dump) && done <= Without(dump, want)
    ensures Shared(done, s) ==> TwoOrphans(t, prefixes, want, s)
    ensures done == Without(dump, want) && TwoOrphans(t, prefixes, want, s) ==> Shared(done, s)
  {
    var d := Without(dump, want);
    SharedOfDump(t, prefixes, dump, want, s);
    hide IsDump, TwoOrphans, Without;
    if Shared(done, s) {
      var j, k :| 0 <= j < k < |done| && done[j].socket == s && done[k].socket == s;
      assert d[j] == done[j] && d[k] == done[k];
    }
  }

  lemma DoneAt(done: seq<Memif>, x: nat) returns (m: Memif)
    requires x in Indices(done)
    ensures m in done && m.swIfIndex == x
  {
    m :| m in done && m.swIfIndex == x;
  }

  lemma HandledFromFair(w0: World, w1: World, w: World, prefixes: seq<string>, grace: int,
                        dump: seq<Memif>, want: set<string>, done: seq<Memif>, gone: set<nat>, ok: bool)
    requires w0.history != [] && IsDump(w0.vpp, prefixes, dump) && done <= Without(dump, want)
    requires w1.history == w0.history && (forall s :: s !in want ==> (Present(w1.files, s) <==> Present(w0.files, s)))
    requires FairRound(w1, w.history, grace, true, done, gone) && w.history != [] && Standing(w, grace, true)
    requires forall x :: x in w0.vpp.ifaces ==> (x !in w.vpp.ifaces <==> x in gone)
    requires gone <= Indices(done)
    requires ok ==> done == Without(dump, want) && Full(w1, w.history, grace, true, done, gone)
    ensures OrphansHandled(w0, w, prefixes, grace, true, want, ok)
  {
    DoneAreOrphans(w0.vpp, prefixes, dump, want, done);
    OrphansAreIfaces(w0.vpp, prefixes, want);
    OrphansUnwanted(w0.vpp, prefixes, want);
    RoundFromFair(w0, w1, w, prefixes, grace, want, done, gone);
    hide Without, IsDump, TwoOrphans, IsOrphanSocket, Orphans, SocketOf, Full, Indices, Sockets, Shared, MayGo, Present, OrphansDecided;
    if ok {
      DecidedFromFull(w0, w1, w, prefixes, grace, want, done, gone);
    }
    forall x | x in Orphans(w0.vpp, prefixes, want) && x !in w.vpp.ifaces ensures MayGo(w0, grace, SocketOf(w0.vpp, x)) {
      GoneRight(w0, w1, w, grace, want, done, gone, x);
    }
  }

  lemma DecidedFromFull(w0: World, w1: World, w: World, prefixes: seq<string>, grace: int, want: set<string>,
                        done: seq<Memif>, gone: set<nat>)
    requires w0.history != [] && w.history != [] && w1.history == w0.history && Full(w1, w.history, grace, true, done, gone)
    requires FairRound(w1, w.history, grace, true, done, gone)
    requires forall s :: s !in want ==> (Present(w1.files, s) <==> Present(w0.files, s))
    requires forall x :: x in w0.vpp.ifaces ==> (x !in w.vpp.ifaces <==> x in gone)
    requires Indices(done) == Orphans(w0.vpp, prefixes, want) && Orphans(w0.vpp, prefixes, want) <= w0.vpp.ifaces.Keys
    requires forall m :: m in done ==> m.swIfIndex in Orphans(w0.vpp, prefixes, want) && m.socket == SocketOf(w0.vpp, m.swIfIndex) && m.socket !in want
    requires forall s :: TwoOrphans(w0.vpp, prefixes, want, s) ==> Shared(done, s)
    ensures OrphansDecided(w0, w, prefixes, grace, want)
  {
    OrphansUnwanted(w0.vpp, prefixes, want);
    hide SocketOf, Orphans, Streak, Shared, TwoOrphans, Indices, Present;
    forall x | x in Orphans(w0.vpp, prefixes, want) ensures x !in w.vpp.ifaces || SocketOf(w0.vpp, x) in Now(w).kept {
      var m := DoneAt(done, x);
    }
    forall s | IsOrphanSocket(w0.vpp, prefixes, want, s) && MayGo(w0, grace, s) ensures SomeWent(w0.vpp, w.vpp, prefixes, want, s) {
      var x :| x in Orphans(w0.vpp, prefixes, want) && SocketOf(w0.vpp, x) == s;
      var m := DoneAt(done, x);
      assert s !in want && MayGo(w1, grace, s);
      var n :| n in done && n.socket == s && n.swIfIndex in gone;
    }
  }

  lemma RoundFromFair(w0: World, w1: World, w: World, prefixes: seq<string>, grace: int, want: set<string>,
                      done: seq<Memif>, gone: set<nat>)
    requires w0.history != [] && w1.history == w0.history
    requires FairRound(w1, w.history, grace, true, done, gone) && w.history != [] && Standing(w, grace, true)
    requires forall s :: s !in want ==> (Present(w1.files, s) <==> Present(w0.files, s))
    requires forall s :: s in Sockets(done) ==> IsOrphanSocket(w0.vpp, prefixes, want, s) && s !in want
    requires forall s :: Shared(done, s) ==> TwoOrphans(w0.vpp, prefixes, want, s)
    ensures |w.history| == |w0.history| && Past(w) == Past(w0)
    ensures forall s :: s in Now(w).visited ==> IsOrphanSocket(w0.vpp, prefixes, want, s)
    ensures forall s :: s in Now(w).kept ==> s in Now(w).visited && Present(w0.files, s) && grace != 1
    ensures forall s :: s in Now(w).kept && s !in Now(w).dup ==> !MayGo(w0, grace, s)
    ensures forall s :: s in Now(w).dup ==> TwoOrphans(w0.vpp, prefixes, want, s)
  {
    hide Sockets, IsOrphanSocket, TwoOrphans, Streak, Shared;
    forall s | s in Now(w).kept && s !in Now(w).dup ensures !MayGo(w0, grace, s) {
      assert s in Sockets(done) && !MayGo(w1, grace, s);
    }
  }

  lemma GoneRight(w0: World, w1: World, w: World, grace: int, want: set<string>, done: seq<Memif>, gone: set<nat>, x: nat)
    requires w0.history != [] && w1.history == w0.history
    requires FairRound(w1, w.history, grace, true, done, gone)
    requires x in gone && gone <= Indices(done)
    requires forall m :: m in done ==> IsMemif(w0.vpp, m.swIfIndex) && m.socket == SocketOf(w0.vpp, m.swIfIndex) && m.socket !in want
    requires forall s :: s !in want ==> (Present(w1.files, s) <==> Present(w0.files, s))
    ensures IsMemif(w0.vpp, x) && MayGo(w0, grace, SocketOf(w0.vpp, x))
  {
    var m := DoneAt(done, x);
    hide SocketOf, Indices, Streak;
  }

  lemma OrphansUnwanted(t: Tables, prefixes: seq<string>, want: set<string>)
    ensures forall x :: x in Orphans(t, prefixes, want) ==> IsMemif(t, x) && SocketOf(t, x) !in want
  {
  }

  /** The files that may have disappeared: of orphans that were allowed to go, and stale ones
      beside a kept socket that neither backs a memif nor is wanted. */
  ghost predicate FilesHandled(w0: World, files: map<string, int>, prefixes: seq<string>, grace: int, gated: bool,
                               want: set<string>, now: int)
    requires w0.history != []
  {
    forall p :: p in w0.files && p !in files ==> FileHandled(w0, prefixes, grace, gated, want, now, p)
  }

  ghost predicate FileHandled(w0: World, prefixes: seq<string>, grace: int, gated: bool, want: set<string>, now: int, p: string)
    requires w0.history != []
  {
    && p !in want
    && if IsManagedSocket(w0.vpp, prefixes, p)
       then IsOrphanSocket(w0.vpp, prefixes, want, p) && (gated ==> MayGo(w0, grace, p))
       else exists keep :: IsKeep(w0.vpp, prefixes, want, keep) && Sweepable(w0.files, keep, now, p)
  }

  /** The wanted and the dumped sockets. */
  ghost predicate IsKeep(t: Tables, prefixes: seq<string>, want: set<string>, keep: set<string>) {
    forall s :: s in keep <==> s in want || IsManagedSocket(t, prefixes, s)
  }

  /** At most files at `names` were created or refreshed. */
  ghost predicate FilesGrown(files: map<string, int>, files': map<string, int>, names: set<string>) {
    && files.Keys <= files'.Keys <= files.Keys + names
    && forall p :: p in files && p !in names ==> files'[p] == files[p]
  }

  /** Where a round stopped: listing the pods, dumping, creating or deleting failed, or it ran to
      its end. */
  datatype Stage = AtListing | AtDump | AtCreate | AtDelete | Completed

  /** The newcomer is exactly what some master of `ms` asks for. */
  ghost predicate AsAsked(t: Tables, x: nat, ms: seq<Memif>) {
    exists m :: m in ms && Configured(t, x, RestoreRequest(m))
  }

  ghost predicate HalfAsked(t: Tables, x: nat, ms: seq<Memif>) {
    exists m :: m in ms && HalfConfigured(t, x, m)
  }

  /** The newcomers are as asked, but for at most one whose set-up stopped half way. */
  ghost predicate Newcomers(t0: Tables, t: Tables, ms: seq<Memif>, half: set<nat>) {
    && |half| <= 1
    && forall x :: x in t.ifaces && x !in t0.ifaces ==> if x in half then HalfAsked(t, x, ms) else AsAsked(t, x, ms)
  }

  /** The creates failed at the k-th wanted master: those before it are served, and nothing came
      for those after it. */
  ghost predicate CreatedUpTo(t0: Tables, t: Tables, prefixes: seq<string>, desired: seq<Memif>, k: nat) {
    && k < |desired|
    && (forall m :: m in desired[..k] ==> IsManagedSocket(t0, prefixes, m.socket) || Restored(t0, t, m))
    && (forall x :: x in t.ifaces && x !in t0.ifaces ==> IsMemif(t, x) && SocketOf(t, x) in Sockets(desired[..k + 1]))
  }

  /** What the stage at which a round stopped says about what it did. */
  ghost predicate StageFits(w0: World, w: World, prefixes: seq<string>, desired: seq<Memif>, stage: Stage) {
    && (stage.AtListing? || stage.AtDump? ==> w == w0)
    && (stage.AtCreate? ==>
          && w.history == w0.history && w0.vpp.ifaces.Keys <= w.vpp.ifaces.Keys && w0.files.Keys <= w.files.Keys
          && exists k: nat :: CreatedUpTo(w0.vpp, w.vpp, prefixes, desired, k))
    && (stage.AtDelete? || stage.Completed? ==>
          forall m :: m in desired ==> IsManagedSocket(w0.vpp, prefixes, m.socket) || Restored(w0.vpp, w.vpp, m))
    && (exists half :: Newcomers(w0.vpp, w.vpp, desired, half) && (half == {} || stage.AtCreate?))
  }

  /** How many interfaces a round says it created and deleted: as many as came and went, but for
      one half configured master, or one whose delete failed after the interface had gone. */
  ghost predicate Tallies(t0: Tables, t: Tables, created: nat, deleted: nat, stage: Stage) {
    && created <= |t.ifaces.Keys - t0.ifaces.Keys| <= created + (if stage.AtCreate? then 1 else 0)
    && deleted <= |t0.ifaces.Keys - t.ifaces.Keys| <= deleted + (if stage.AtDelete? then 1 else 0)
  }

  /** One reconcile of `desired`, and where it stopped. */
  ghost predicate Reconciled(w0: World, w: World, prefixes: seq<string>, grace: int, gated: bool,
                             desired: seq<Memif>, now: int, stage: Stage)
  {
    && w0.history != []
    && Inv(w.vpp)
    && Attempt(w0.vpp, w.vpp, prefixes, Sockets(desired))
    && OrphansHandled(w0, w, prefixes, grace, gated, Sockets(desired), stage.Completed?)
    && FilesHandled(w0, w.files, prefixes, grace, gated, Sockets(desired), now)
    && StageFits(w0, w, prefixes, desired, stage)
  }

  lemma NoNewcomers(t: Tables, ms: seq<Memif>)
    ensures Newcomers(t, t, ms, {})
  {
  }

  lemma NewcomersStep(t0: Tables, t: Tables, t': Tables, ms: seq<Memif>, m: Memif, x: nat, ok: bool) returns (half: set<nat>)
    requires Newcomers(t0, t, ms, {}) && Inv(t) && Grown(t, t', Master, {m.socket})
    requires || (x !in t.ifaces && t'.ifaces.Keys == t.ifaces.Keys + {x})
             || (!ok && t'.ifaces.Keys == t.ifaces.Keys)
    requires ok ==> Configured(t', x, RestoreRequest(m))
    requires !ok && t'.ifaces.Keys != t.ifaces.Keys ==> HalfConfigured(t', x, m)
    ensures Newcomers(t0, t', ms + [m], half) && half == if ok || t'.ifaces.Keys == t.ifaces.Keys then {} else {x}
  {
    half := if ok || t'.ifaces.Keys == t.ifaces.Keys then {} else {x};
    hide Inv, Grown, Configured, HalfConfigured, SameIface;
    assert m in ms + [m];
    forall y | y in t'.ifaces && y !in t0.ifaces ensures if y in half then HalfAsked(t', y, ms + [m]) else AsAsked(t', y, ms + [m]) {
      if y in t.ifaces {
        assert AsAsked(t, y, ms) && y !in half;
        GrownSame(t, t', {m.socket}, y);
        AskedLater(t, t', y, ms, m);
      }
    }
  }

  lemma AskedLater(t: Tables, t': Tables, x: nat, ms: seq<Memif>, m: Memif)
    requires AsAsked(t, x, ms) && SameIface(t, t', x)
    ensures AsAsked(t', x, ms + [m])
  {
    hide Configured, SameIface;
    var n :| n in ms && Configured(t, x, RestoreRequest(n));
    ConfiguredSame(t, t', x, RestoreRequest(n));
    assert n in ms + [m];
  }

  lemma NewcomersMore(t0: Tables, t: Tables, ms: seq<Memif>, ms': seq<Memif>, half: set<nat>)
    requires Newcomers(t0, t, ms, half) && forall m :: m in ms ==> m in ms'
    ensures Newcomers(t0, t, ms', half)
  {
    hide Configured, HalfConfigured;
  }

  /** Deleting interfaces that were there before does not touch the newcomers. */
  lemma NewcomersShrunk(t0: Tables, t1: Tables, t2: Tables, ms: seq<Memif>, gone: set<nat>)
    requires Newcomers(t0, t1, ms, {}) && Shrunk(t1, t2, gone) && gone <= t0.ifaces.Keys
    ensures Newcomers(t0, t2, ms, {})
  {
    hide Configured, SameIface;
    forall x | x in t2.ifaces && x !in t0.ifaces ensures AsAsked(t2, x, ms) {
      var m :| m in ms && Configured(t1, x, RestoreRequest(m));
      ConfiguredSame(t1, t2, x, RestoreRequest(m));
    }
  }

  lemma AttemptNone(t: Tables, prefixes: seq<string>, want: set<string>)
    ensures Attempt(t, t, prefixes, want)
  {
  }

  lemma DumpFailed(w0: World, prefixes: seq<string>, grace: int, gated: bool, desired: seq<Memif>, now: int)
    requires w0.history != [] && Now(w0) == NEW_ROUND && Inv(w0.vpp)
    ensures Reconciled(w0, w0, prefixes, grace, gated, desired, now, AtDump)
  {
    AttemptNone(w0.vpp, prefixes, Sockets(desired));
    NoNewcomers(w0.vpp, desired);
    hide Attempt, Inv, Orphans;
    assert forall x :: x in Orphans(w0.vpp, prefixes, Sockets(desired)) ==> x in w0.vpp.ifaces by {
      OrphansAreIfaces(w0.vpp, prefixes, Sockets(desired));
    }
  }

  lemma OrphansAreIfaces(t: Tables, prefixes: seq<string>, want: set<string>)
    ensures Orphans(t, prefixes, want) <= t.ifaces.Keys
  {
  }

  /** Dump, creates, and a pass over the orphans that may have been cut off. */
  lemma OrphansDone(w0: World, w1: World, w: World, prefixes: seq<string>, grace: int, gated: bool, dump: seq<Memif>,
                    desired: seq<Memif>, names: set<string>, done: seq<Memif>, gone: set<nat>, ok: bool)
    requires w0.history != [] && Now(w0) == NEW_ROUND && Inv(w0.vpp) && IsDump(w0.vpp, prefixes, dump)
    requires Grown(w0.vpp, w1.vpp, Master, names) && names <= Sockets(Without(desired, Sockets(dump)))
    requires FilesGrown(w0.files, w1.files, names) && w1.history == w0.history
    requires done <= Without(dump, Sockets(desired)) && Progress(w1, w, grace, gated, done, gone, ok)
    requires ok ==> done == Without(dump, Sockets(desired))
    ensures Attempt(w0.vpp, w.vpp, prefixes, Sockets(desired))
    ensures OrphansHandled(w0, w, prefixes, grace, gated, Sockets(desired), ok)
    ensures w0.vpp.ifaces.Keys - w.vpp.ifaces.Keys == gone
    ensures w.vpp.ifaces.Keys - w0.vpp.ifaces.Keys == w1.vpp.ifaces.Keys - w0.vpp.ifaces.Keys
    ensures Shrunk(w1.vpp, w.vpp, gone) && gone <= w0.vpp.ifaces.Keys
  {
    hide Inv, SocketOf, SameIface, IsManagedSocket, Streak, InScope;
    var want := Sockets(desired);
    OrphansOfDump(w0.vpp, prefixes, dump, want);
    OrphansAreIfaces(w0.vpp, prefixes, want);
    NamesUnserved(w0.vpp, prefixes, dump, desired, names);
    hide Without, Orphans, IsDump, Sockets;
    PrefixIndices(done, Without(dump, want));
    assert gone <= Orphans(w0.vpp, prefixes, want);
    CreatesThenDeletes(w0.vpp, w1.vpp, w.vpp, prefixes, want, names, gone);
    if gated {
      HandledFromFair(w0, w1, w, prefixes, grace, dump, want, done, gone, ok);
    } else {
      hide Attempt, Grown;
    }
  }

  lemma NamesUnserved(t: Tables, prefixes: seq<string>, dump: seq<Memif>, desired: seq<Memif>, names: set<string>)
    requires IsDump(t, prefixes, dump) && names <= Sockets(Without(desired, Sockets(dump)))
    ensures forall s :: s in names ==> s in Sockets(desired) && !IsManagedSocket(t, prefixes, s)
  {
    hide IsDump, IsManagedSocket;
    forall s | s in names ensures s in Sockets(desired) && !IsManagedSocket(t, prefixes, s) {
      var m :| m in Without(desired, Sockets(dump)) && m.socket == s;
      SocketsOfDump(t, prefixes, dump, s);
    }
  }

  lemma PrefixIndices(a: seq<Memif>, b: seq<Memif>)
    requires a <= b
    ensures Indices(a) <= Indices(b)
  {
  }

  lemma FilesDone(w0: World, f1: map<string, int>, f2: map<string, int>, f: map<string, int>, w1: World,
                  prefixes: seq<string>, grace: int, gated: bool, dump: seq<Memif>, desired: seq<Memif>,
                  done: seq<Memif>, swept: set<string>, now: int)
    requires w0.history != [] && w1.history == w0.history && w1.files == f1 && IsDump(w0.vpp, prefixes, dump)
    requires FilesGrown(w0.files, f1, Sockets(desired)) && done <= Without(dump, Sockets(desired))
    requires FairFiles(w1, f2, grace, gated, done)
    requires f == f2 - swept && forall p :: p in swept ==> Sweepable(f2, Sockets(desired) + Sockets(dump), now, p)
    ensures FilesHandled(w0, f, prefixes, grace, gated, Sockets(desired), now)
  {
    var want, keep := Sockets(desired), Sockets(desired) + Sockets(dump);
    forall s ensures s in keep <==> s in want || IsManagedSocket(w0.vpp, prefixes, s) {
      SocketsOfDump(w0.vpp, prefixes, dump, s);
    }
    assert IsKeep(w0.vpp, prefixes, want, keep);
    forall q | q in Sockets(done) ensures q !in want {
      GoneSocket(dump, want, done, q);
    }
    hide Sockets, IsDump, Without, Sweepable, FairFiles, FilesGrown, FileHandled, IsKeep, IsManagedSocket, MayGo;
    forall p | p in w0.files && p !in f ensures FileHandled(w0, prefixes, grace, gated, want, now, p) {
      FileGone(w0, w1, f1, f2, f, grace, gated, want, keep, done, swept, now, p);
      if p in Sockets(done) {
        OrphanOfDone(w0.vpp, prefixes, dump, want, done, p);
      }
      FileHandledBy(w0, prefixes, grace, gated, want, keep, now, p, p in Sockets(done));
    }
  }

  lemma FileHandledBy(w0: World, prefixes: seq<string>, grace: int, gated: bool, want: set<string>, keep: set<string>, now: int,
                      p: string, orphan: bool)
    requires w0.history != [] && IsKeep(w0.vpp, prefixes, want, keep) && p !in want
    requires orphan ==> IsOrphanSocket(w0.vpp, prefixes, want, p) && IsManagedSocket(w0.vpp, prefixes, p)
    requires (orphan && (gated ==> MayGo(w0, grace, p))) || (p !in keep && Sweepable(w0.files, keep, now, p))
    ensures FileHandled(w0, prefixes, grace, gated, want, now, p)
  {
    hide IsManagedSocket, IsOrphanSocket, MayGo, Sweepable;
  }

  lemma OrphanOfDone(t: Tables, prefixes: seq<string>, dump: seq<Memif>, want: set<string>, done: seq<Memif>, s: string)
    requires IsDump(t, prefixes, dump) && done <= Without(dump, want) && s in Sockets(done)
    ensures IsOrphanSocket(t, prefixes, want, s) && IsManagedSocket(t, prefixes, s)
  {
    hide IsDump, IsOrphanSocket, IsManagedSocket, Sockets, Without;
    GoneSocket(dump, want, done, s);
    OrphanSocketsOfDump(t, prefixes, dump, want, s);
    OrphanIsManaged(t, prefixes, want, s);
  }

  /** A file that went was an orphan's, or was swept. */
  lemma FileGone(w0: World, w1: World, f1: map<string, int>, f2: map<string, int>, f: map<string, int>, grace: int, gated: bool,
                 want: set<string>, keep: set<string>, done: seq<Memif>, swept: set<string>, now: int, p: string)
    requires w0.history != [] && w1.history == w0.history && w1.files == f1 && FilesGrown(w0.files, f1, want)
    requires FairFiles(w1, f2, grace, gated, done) && f == f2 - swept && want <= keep
    requires forall q :: q in swept ==> Sweepable(f2, keep, now, q)
    requires forall q :: q in Sockets(done) ==> q !in want
    requires p in w0.files && p !in f
    ensures p !in want
    ensures (p in Sockets(done) && (gated ==> MayGo(w0, grace, p))) || (p !in keep && Sweepable(w0.files, keep, now, p))
  {
    hide Sockets, Streak, Paths.Dir, Paths.Base, Text.HasPrefix, Text.HasSuffix;
    if p in f2 {
      assert p in swept && Sweepable(f2, keep, now, p);
    }
  }

  lemma OrphanIsManaged(t: Tables, prefixes: seq<string>, want: set<string>, s: string)
    requires IsOrphanSocket(t, prefixes, want, s)
    ensures IsManagedSocket(t, prefixes, s) && s !in want
  {
  }

  lemma GoneSocket(dump: seq<Memif>, want: set<string>, done: seq<Memif>, p: string)
    requires done <= Without(dump, want) && p in Sockets(done)
    ensures p in Sockets(Without(dump, want)) && p !in want
  {
    var m :| m in done && m.socket == p;
    assert m in Without(dump, want);
  }

  // ----- The create loop

  /** After the creates: only masters on `names` were added, `added` being their indexes. */
  ghost predicate Added(w0: World, w: World, ms: seq<Memif>, names: set<string>, added: set<nat>) {
    && Inv(w.vpp) && w.history == w0.history
    && Grown(w0.vpp, w.vpp, Master, names) && names <= Sockets(ms)
    && w.vpp.ifaces.Keys == w0.vpp.ifaces.Keys + added && added !! w0.vpp.ifaces.Keys
    && FilesGrown(w0.files, w.files, names)
  }

  lemma AddedNone(w0: World)
    requires Inv(w0.vpp)
    ensures Added(w0, w0, [], {}, {})
  {
  }

  lemma KeysGrow(k0: set<nat>, k: set<nat>, k': set<nat>, added: set<nat>, x: nat, ok: bool) returns (added': set<nat>)
    requires k == k0 + added && added !! k0
    requires (x !in k && k' == k + {x}) || (!ok && k' == k)
    ensures k' == k0 + added' && added' !! k0
    ensures |added'| == |added| + if k' == k then 0 else 1
  {
    added' := if k' == k then added else added + {x};
  }

  lemma FilesTouched(f: map<string, int>, f1: map<string, int>, f2: map<string, int>, names: set<string>, p: string)
    requires FilesGrown(f, f1, names) && OnlyTouched(f1, f2, p)
    ensures FilesGrown(f, f2, names + {p})
  {
  }

  lemma AddedStep(w0: World, w: World, w': World, ms: seq<Memif>, names: set<string>, added: set<nat>,
                  m: Memif, x: nat, ok: bool) returns (added': set<nat>)
    requires Added(w0, w, ms, names, added) && Inv(w'.vpp) && w'.history == w.history
    requires Grown(w.vpp, w'.vpp, Master, {m.socket}) && OnlyTouched(w.files, w'.files, m.socket)
    requires || (x !in w.vpp.ifaces && w'.vpp.ifaces.Keys == w.vpp.ifaces.Keys + {x})
             || (!ok && w'.vpp.ifaces.Keys == w.vpp.ifaces.Keys)
    ensures Added(w0, w', ms + [m], names + {m.socket}, added')
    ensures |added'| == |added| + if w'.vpp.ifaces.Keys == w.vpp.ifaces.Keys then 0 else 1
  {
    hide Inv, Grown, Sockets, FilesGrown, OnlyTouched;
    GrownMore(w0.vpp, w.vpp, w'.vpp, names, m.socket);
    SocketsAppend(ms, m);
    FilesTouched(w0.files, w.files, w'.files, names, m.socket);
    added' := KeysGrow(w0.vpp.ifaces.Keys, w.vpp.ifaces.Keys, w'.vpp.ifaces.Keys, added, x, ok);
  }

  lemma AllRestoredStep(w0: World, w: World, w': World, ms: seq<Memif>, names: set<string>, added: set<nat>,
                        m: Memif, x: nat)
    requires Added(w0, w, ms, names, added) && forall n :: n in ms ==> Restored(w0.vpp, w.vpp, n)
    requires Grown(w.vpp, w'.vpp, Master, {m.socket})
    requires x !in w.vpp.ifaces && Configured(w'.vpp, x, RestoreRequest(m))
    ensures forall n :: n in ms + [m] ==> Restored(w0.vpp, w'.vpp, n)
  {
    forall n | n in ms + [m] ensures Restored(w0.vpp, w'.vpp, n) {
      if n in ms {
        RestoredGrown(w0.vpp, w.vpp, w'.vpp, {m.socket}, n);
      } else {
        assert x !in w0.vpp.ifaces;
      }
    }
  }

  lemma AddedInv(w0: World, w: World, ms: seq<Memif>, names: set<string>, added: set<nat>)
    requires Added(w0, w, ms, names, added)
    ensures Inv(w.vpp) && w.history == w0.history
  {
  }

  lemma NamesWanted(desired: seq<Memif>, have: set<string>, names: set<string>)
    requires names <= Sockets(Without(desired, have))
    ensures names <= Sockets(desired)
  {
    forall s | s in names ensures s in Sockets(desired) {
      var m :| m in Without(desired, have) && m.socket == s;
    }
  }

  lemma FilesGrownMore(f: map<string, int>, f': map<string, int>, names: set<string>, more: set<string>)
    requires FilesGrown(f, f', names) && names <= more
    ensures FilesGrown(f, f', more)
  {
  }

  // ----- When every create can work

  /** VPP takes all of `ms` one after the other: no memif holds id 0 of any of their sockets, and
      no two of them share one. */
  ghost predicate Serviceable(t: Tables, ms: seq<Memif>) {
    forall j :: 0 <= j < |ms| ==> Vacant(t, ms[j].socket) && ms[j].socket !in Sockets(ms[..j])
  }

  lemma ServiceableSnoc(t: Tables, ms: seq<Memif>, m: Memif)
    ensures Serviceable(t, ms + [m]) <==> Serviceable(t, ms) && Vacant(t, m.socket) && m.socket !in Sockets(ms)
  {
    hide Vacant, Sockets;
    var all := ms + [m];
    assert forall j :: 0 <= j < |ms| ==> all[..j] == ms[..j];
    assert all[..|ms|] == ms && all[|ms|] == m;
  }

  lemma {:induction false} ServiceablePrefix(t: Tables, ms: seq<Memif>, some: seq<Memif>)
    requires some <= ms && Serviceable(t, ms)
    ensures Serviceable(t, some)
  {
    hide Vacant, Sockets;
    forall j | 0 <= j < |some| ensures Vacant(t, some[j].socket) && some[j].socket !in Sockets(some[..j]) {
      assert some[..j] == ms[..j];
    }
  }

  /** After some creates a socket is vacant if it was at first and is not one of theirs. */
  lemma VacantAfter(w0: World, w: World, ms: seq<Memif>, names: set<string>, added: set<nat>, s: string)
    requires Creates(w0, w, ms, names, added, {}, true) && Inv(w0.vpp)
    ensures Vacant(w.vpp, s) <==> Vacant(w0.vpp, s) && s !in Sockets(ms)
  {
    hide Newcomers, FilesGrown;
    forall x | IsMemif(w0.vpp, x) ensures IsMemif(w.vpp, x) && SocketOf(w.vpp, x) == SocketOf(w0.vpp, x) && w.vpp.ifaces[x] == w0.vpp.ifaces[x] {
      assert w0.vpp.ifaces[x].socketId in w0.vpp.sockets;
    }
    if s in Sockets(ms) {
      var m :| m in ms && m.socket == s;
      var x :| x !in w0.vpp.ifaces && Configured(w.vpp, x, RestoreRequest(m));
      assert IsMemif(w.vpp, x) && SocketOf(w.vpp, x) == s;
    }
  }

  /** What is not served by `have` VPP takes a master on. */
  ghost predicate Obtainable(t: Tables, desired: seq<Memif>, have: set<string>) {
    forall j :: 0 <= j < |desired| && desired[j].socket !in have ==>
      Vacant(t, desired[j].socket) && desired[j].socket !in Sockets(desired[..j])
  }

  lemma ObtainableSnoc(t: Tables, ms: seq<Memif>, m: Memif, have: set<string>)
    ensures Obtainable(t, ms + [m], have) <==>
              Obtainable(t, ms, have) && (m.socket !in have ==> Vacant(t, m.socket) && m.socket !in Sockets(ms))
  {
    hide Vacant, Sockets;
    var all := ms + [m];
    assert forall j :: 0 <= j < |ms| ==> all[..j] == ms[..j];
    assert all[..|ms|] == ms && all[|ms|] == m;
  }

  /** Every wanted socket is served already, or VPP takes a master on it. */
  ghost predicate Completable(t: Tables, prefixes: seq<string>, desired: seq<Memif>) {
    forall j :: 0 <= j < |desired| && !IsManagedSocket(t, prefixes, desired[j].socket) ==>
      Vacant(t, desired[j].socket) && desired[j].socket !in Sockets(desired[..j])
  }

  lemma {:induction false} ServiceableMeans(t: Tables, desired: seq<Memif>, have: set<string>)
    ensures Serviceable(t, Without(desired, have)) <==> Obtainable(t, desired, have)
  {
    hide Vacant, Serviceable, Sockets;
    if desired != [] {
      var n := |desired| - 1;
      var front, m := desired[..n], desired[n];
      ServiceableMeans(t, front, have);
      ObtainableSnoc(t, front, m, have);
      assert front + [m] == desired;
      hide Obtainable;
      if m.socket !in have {
        ServiceableSnoc(t, Without(front, have), m);
        SocketWithout(front, have, m.socket);
      } else {
        assert Without(front, have) + [] == Without(front, have);
      }
    } else {
      NothingServiceable(t);
    }
  }

  lemma NothingServiceable(t: Tables)
    ensures Serviceable(t, [])
  {
  }

  lemma SocketWithout(ms: seq<Memif>, have: set<string>, s: string)
    requires s !in have
    ensures s in Sockets(Without(ms, have)) <==> s in Sockets(ms)
  {
    if s in Sockets(ms) {
      var m :| m in ms && m.socket == s;
      assert m in Without(ms, have);
    }
  }

  lemma CompletableMeans(t: Tables, prefixes: seq<string>, dump: seq<Memif>, desired: seq<Memif>)
    requires IsDump(t, prefixes, dump)
    ensures Completable(t, prefixes, desired) <==> Serviceable(t, Without(desired, Sockets(dump)))
  {
    hide IsDump, IsManagedSocket, Vacant, Serviceable, Without;
    ServiceableMeans(t, desired, Sockets(dump));
    forall j | 0 <= j < |desired| ensures IsManagedSocket(t, prefixes, desired[j].socket) <==> desired[j].socket in Sockets(dump) {
      SocketsOfDump(t, prefixes, dump, desired[j].socket);
    }
  }

  lemma WithoutLength(ms: seq<Memif>, s: set<string>)
    ensures |Without(ms, s)| <= |ms|
  {
    if ms != [] {
      WithoutLength(ms[..|ms| - 1], s);
    }
  }

  // ----- What no lost request leaves behind

  /** The files of the deleted orphans are gone. */
  ghost predicate FilesGone(done: seq<Memif>, gone: set<nat>, files: map<string, int>) {
    forall m :: m in done && m.swIfIndex in gone && m.socket != "" ==> m.socket !in files
  }

  /** No file of a deleted orphan is left, and none that is sweepable. */
  ghost predicate Tidy(t0: Tables, t: Tables, files: map<string, int>, prefixes: seq<string>, want: set<string>, now: int) {
    && (forall x :: IsMemif(t0, x) && x !in t.ifaces && SocketOf(t0, x) != "" ==> SocketOf(t0, x) !in files)
    && (forall keep, p :: IsKeep(t0, prefixes, want, keep) ==> !Sweepable(files, keep, now, p))
  }

  lemma TidyFrom(w0: World, w1: World, w2: World, files: map<string, int>, t: Tables, prefixes: seq<string>, grace: int, gated: bool,
                 dump: seq<Memif>, desired: seq<Memif>, done: seq<Memif>, gone: set<nat>, now: int)
    requires IsDump(w0.vpp, prefixes, dump) && done <= Without(dump, Sockets(desired))
    requires Progress(w1, w2, grace, gated, done, gone, true) && FilesGone(done, gone, files)
    requires w0.vpp.ifaces.Keys - t.ifaces.Keys == gone
    requires forall p :: !Sweepable(files, Sockets(desired) + Sockets(dump), now, p)
    ensures Tidy(w0.vpp, t, files, prefixes, Sockets(desired), now)
  {
    forall x | x in gone ensures SocketOf(w0.vpp, x) != "" ==> IsMemif(w0.vpp, x) && SocketOf(w0.vpp, x) !in files {
      GoneInDone(w1, w2, grace, gated, done, gone, x);
      var m := DoneAt(done, x);
      assert m in Without(dump, Sockets(desired)) && m in dump;
    }
    forall keep, p | IsKeep(w0.vpp, prefixes, Sockets(desired), keep) ensures !Sweepable(files, keep, now, p) {
      hide IsDump, Sweepable;
      forall s ensures s in keep <==> s in Sockets(desired) + Sockets(dump) {
        SocketsOfDump(w0.vpp, prefixes, dump, s);
      }
      assert keep == Sockets(desired) + Sockets(dump);
    }
  }

  lemma SweptClean(files: map<string, int>, keep: set<string>, now: int, swept: set<string>)
    requires forall p :: Sweepable(files, keep, now, p) ==> p in swept
    ensures forall p :: !Sweepable(files - swept, keep, now, p)
  {
  }

  lemma GoneInDone(w1: World, w2: World, grace: int, gated: bool, done: seq<Memif>, gone: set<nat>, x: nat)
    requires Progress(w1, w2, grace, gated, done, gone, true) && x in gone
    ensures x in Indices(done)
  {
  }

  lemma HandledLater(w0: World, w: World, w': World, prefixes: seq<string>, grace: int, gated: bool, want: set<string>, ok: bool)
    requires w0.history != [] && OrphansHandled(w0, w, prefixes, grace, gated, want, ok)
    requires w'.vpp == w.vpp && w'.history == w.history
    ensures OrphansHandled(w0, w', prefixes, grace, gated, want, ok)
  {
    hide IsManaged;
    assert Past(w') == Past(w) && Now(w') == Now(w);
  }

  /** The whole: what was added, what the pass over the orphans did, what was swept. */
  lemma ReconcileDone(w0: World, w1: World, w2: World, w: World, prefixes: seq<string>, grace: int, gated: bool,
                      dump: seq<Memif>, desired: seq<Memif>, tried: seq<Memif>, names: set<string>, added: set<nat>, half: set<nat>,
                      done: seq<Memif>, gone: set<nat>, swept: set<string>, now: int, stage: Stage)
    requires w0.history != [] && Now(w0) == NEW_ROUND && Inv(w0.vpp) && IsDump(w0.vpp, prefixes, dump)
    requires stage.AtCreate? || stage.AtDelete? || stage.Completed?
    requires Creates(w0, w1, tried, names, added, half, !stage.AtCreate?) && tried <= Without(desired, Sockets(dump))
    requires !stage.AtCreate? ==> tried == Without(desired, Sockets(dump))
    requires stage.AtCreate? ==> w2 == w1 && swept == {} && gone == {} && done == []
    requires done <= Without(dump, Sockets(desired)) && Progress(w1, w2, grace, gated, done, gone, stage.Completed?)
    requires stage.Completed? ==> done == Without(dump, Sockets(desired))
    requires Inv(w2.vpp) && w.vpp == w2.vpp && w.history == w2.history
    requires w.files == w2.files - swept
    requires forall p :: p in swept ==> Sweepable(w2.files, Sockets(desired) + Sockets(dump), now, p)
    ensures Reconciled(w0, w, prefixes, grace, gated, desired, now, stage)
    ensures w.vpp.ifaces.Keys - w0.vpp.ifaces.Keys == added && w0.vpp.ifaces.Keys - w.vpp.ifaces.Keys == gone
  {
    hide Without, IsDump, Sweepable, Inv, Grown, Restored, IsManagedSocket, Sockets, Attempt, FilesHandled, Shrunk, Newcomers, StageFits;
    assert Progress(w1, w2, grace, gated, done, gone, stage.Completed?) ==> FairFiles(w1, w2.files, grace, gated, done);
    hide Progress, FairFiles;
    TriedNames(desired, Sockets(dump), tried, names);
    NamesWanted(desired, Sockets(dump), names);
    FilesGrownMore(w0.files, w1.files, names, Sockets(desired));
    assert FilesGrown(w0.files, w1.files, names);
    hide FilesGrown;
    OrphansDone(w0, w1, w2, prefixes, grace, gated, dump, desired, names, done, gone, stage.Completed?);
    HandledLater(w0, w2, w, prefixes, grace, gated, Sockets(desired), stage.Completed?);
    hide OrphansHandled;
    FilesDone(w0, w1.files, w2.files, w.files, w1, prefixes, grace, gated, dump, desired, done, swept, now);
    StageDone(w0, w1, w, prefixes, dump, desired, tried, names, added, half, gone, stage);
  }

  lemma TriedNames(desired: seq<Memif>, have: set<string>, tried: seq<Memif>, names: set<string>)
    requires tried <= Without(desired, have) && names <= Sockets(tried)
    ensures names <= Sockets(Without(desired, have))
  {
    hide Without;
    forall s | s in names ensures s in Sockets(Without(desired, have)) {
      var m :| m in tried && m.socket == s;
      assert m in Without(desired, have);
    }
  }

  lemma StageDone(w0: World, w1: World, w: World, prefixes: seq<string>, dump: seq<Memif>, desired: seq<Memif>, tried: seq<Memif>,
                  names: set<string>, added: set<nat>, half: set<nat>, gone: set<nat>, stage: Stage)
    requires w0.history != [] && IsDump(w0.vpp, prefixes, dump)
    requires stage.AtCreate? || stage.AtDelete? || stage.Completed?
    requires Creates(w0, w1, tried, names, added, half, !stage.AtCreate?) && tried <= Without(desired, Sockets(dump))
    requires !stage.AtCreate? ==> tried == Without(desired, Sockets(dump))
    requires stage.AtCreate? ==> w.vpp == w1.vpp && w.history == w1.history && w.files == w1.files - {}
    requires Shrunk(w1.vpp, w.vpp, gone) && gone <= w0.vpp.ifaces.Keys
    ensures StageFits(w0, w, prefixes, desired, stage)
  {
    hide IsDump, Inv, Grown, Restored, IsManagedSocket, Sockets, Newcomers, Shrunk, CreatedUpTo;
    forall m | m in tried ensures m in desired {
      assert m in Without(desired, Sockets(dump));
    }
    NewcomersMore(w0.vpp, w1.vpp, tried, desired, half);
    hide Without;
    if stage.AtCreate? {
      var k := StoppedAt(w0, w1, prefixes, dump, desired, tried, names, added, half);
      return;
    }
    NewcomersShrunk(w0.vpp, w1.vpp, w.vpp, desired, gone);
    forall m | m in desired ensures IsManagedSocket(w0.vpp, prefixes, m.socket) || Restored(w0.vpp, w.vpp, m) {
      if m.socket in Sockets(dump) {
        SocketsOfDump(w0.vpp, prefixes, dump, m.socket);
      } else {
        RestoredShrunk(w0.vpp, w1.vpp, w.vpp, gone, m);
      }
    }
  }

  /** Where in `ms` a prefix of the masters without `s` ends. */
  lemma {:induction false} PrefixEnds(ms: seq<Memif>, s: set<string>, tried: seq<Memif>) returns (k: nat)
    requires tried <= Without(ms, s) && tried != []
    ensures k < |ms| && ms[k].socket !in s && ms[k] == tried[|tried| - 1]
    ensures Without(ms[..k], s) == tried[..|tried| - 1]
  {
    var n := |ms| - 1;
    if ms[n].socket !in s && |tried| == |Without(ms, s)| {
      k := n;
      assert tried == Without(ms[..n], s) + [ms[n]];
    } else {
      assert tried <= Without(ms[..n], s);
      k := PrefixEnds(ms[..n], s, tried);
      assert ms[..n][..k] == ms[..k];
    }
  }

  lemma StoppedAt(w0: World, w1: World, prefixes: seq<string>, dump: seq<Memif>, desired: seq<Memif>, tried: seq<Memif>,
                  names: set<string>, added: set<nat>, half: set<nat>) returns (k: nat)
    requires IsDump(w0.vpp, prefixes, dump) && Creates(w0, w1, tried, names, added, half, false)
    requires tried <= Without(desired, Sockets(dump))
    ensures CreatedUpTo(w0.vpp, w1.vpp, prefixes, desired, k)
  {
    hide IsDump, Inv, Newcomers, FilesGrown, IsManagedSocket, Restored, SocketOf;
    k := PrefixEnds(desired, Sockets(dump), tried);
    forall m | m in desired[..k] ensures IsManagedSocket(w0.vpp, prefixes, m.socket) || Restored(w0.vpp, w1.vpp, m) {
      SocketsOfDump(w0.vpp, prefixes, dump, m.socket);
      if m.socket !in Sockets(dump) {
        assert m in Without(desired[..k], Sockets(dump));
      }
    }
    forall s | s in names ensures s in Sockets(desired[..k + 1]) {
      var m :| m in tried && m.socket == s;
      TriedBefore(desired, Sockets(dump), tried, k, m);
    }
  }

  lemma TriedBefore(ms: seq<Memif>, s: set<string>, tried: seq<Memif>, k: nat, m: Memif)
    requires k < |ms| && tried != [] && ms[k] == tried[|tried| - 1] && Without(ms[..k], s) == tried[..|tried| - 1]
    requires m in tried
    ensures m in ms[..k + 1] && m.socket in Sockets(ms[..k + 1])
  {
    if m != ms[k] {
      assert m in tried[..|tried| - 1];
      assert m in ms[..k];
      assert forall i :: 0 <= i < k ==> ms[..k + 1][i] == ms[..k][i];
    } else {
      assert ms[..k + 1][k] == m;
    }
  }

  /** The state of the create loop after it tried `ms`: the last of them may have failed. */
  ghost predicate Creates(w0: World, w: World, ms: seq<Memif>, names: set<string>, added: set<nat>, half: set<nat>, whole: bool) {
    && Added(w0, w, ms, names, added) && Newcomers(w0.vpp, w.vpp, ms, half)
    && (whole ==> half == {} && forall m :: m in ms ==> Restored(w0.vpp, w.vpp, m))
    && (!whole ==> ms != [] && forall m :: m in ms[..|ms| - 1] ==> Restored(w0.vpp, w.vpp, m))
  }

  lemma CreatesNone(w0: World)
    requires Inv(w0.vpp)
    ensures Creates(w0, w0, [], {}, {}, {}, true)
  {
    AddedNone(w0);
    NoNewcomers(w0.vpp, []);
  }

  lemma CreatesStep(w0: World, w: World, w': World, ms: seq<Memif>, names: set<string>, added: set<nat>,
                    m: Memif, x: nat, ok: bool) returns (added': set<nat>, half: set<nat>)
    requires Creates(w0, w, ms, names, added, {}, true) && Inv(w'.vpp) && w'.history == w.history
    requires Grown(w.vpp, w'.vpp, Master, {m.socket}) && OnlyTouched(w.files, w'.files, m.socket)
    requires || (x !in w.vpp.ifaces && w'.vpp.ifaces.Keys == w.vpp.ifaces.Keys + {x})
             || (!ok && w'.vpp.ifaces.Keys == w.vpp.ifaces.Keys)
    requires ok ==> Configured(w'.vpp, x, RestoreRequest(m))
    requires !ok && w'.vpp.ifaces.Keys != w.vpp.ifaces.Keys ==> HalfConfigured(w'.vpp, x, m)
    ensures Creates(w0, w', ms + [m], names + {m.socket}, added', half, ok) && (ok ==> half == {})
    ensures |added'| == |added| + (if ok then 1 else |half|) && |half| <= 1
  {
    hide Added, Restored, Inv, Grown, Configured, HalfConfigured, Newcomers, OnlyTouched;
    AddedInv(w0, w, ms, names, added);
    half := NewcomersStep(w0.vpp, w.vpp, w'.vpp, ms, m, x, ok);
    assert (ms + [m])[..|ms + [m]| - 1] == ms;
    if ok {
      AllRestoredStep(w0, w, w', ms, names, added, m, x);
    } else {
      forall n | n in ms ensures Restored(w0.vpp, w'.vpp, n) {
        RestoredGrown(w0.vpp, w.vpp, w'.vpp, {m.socket}, n);
      }
    }
    added' := AddedStep(w0, w, w', ms, names, added, m, x, ok);
  }

  lemma AddedFacts(w0: World, w: World, desired: seq<Memif>, have: set<string>, tried: seq<Memif>, names: set<string>, added: set<nat>,
                   half: set<nat>, whole: bool)
    requires Creates(w0, w, tried, names, added, half, whole) && tried <= Without(desired, have)
    requires CanonicalFiles(w0.files) && forall m :: m in desired ==> Paths.Canonical(m.socket)
    ensures Inv(w.vpp) && w.history == w0.history && CanonicalFiles(w.files)
    ensures w.vpp.ifaces.Keys - w0.vpp.ifaces.Keys == added && w0.vpp.ifaces.Keys <= w.vpp.ifaces.Keys
  {
    hide Inv, Grown, Newcomers, Restored, Paths.Canonical;
    TriedNames(desired, have, tried, names);
    NamesWanted(desired, have, names);
    hide Without;
  }

  lemma OrphansThere(w0: World, w: World, prefixes: seq<string>, dump: seq<Memif>, desired: seq<Memif>,
                     names: set<string>, added: set<nat>, half: set<nat>)
    requires IsDump(w0.vpp, prefixes, dump) && Creates(w0, w, Without(desired, Sockets(dump)), names, added, half, true)
    ensures forall m :: m in Without(dump, Sockets(desired)) ==> IsMemif(w.vpp, m.swIfIndex)
    ensures var d := Without(dump, Sockets(desired)); forall j, k :: 0 <= j < k < |d| ==> d[j].swIfIndex != d[k].swIfIndex
  {
    hide Inv, Newcomers, Restored, InScope, SocketOf, FilesGrown, Sockets;
    WithoutDistinct(dump, Sockets(desired));
  }

  lemma FilesShrink(w0: World, w: World, grace: int, gated: bool, ms: seq<Memif>, gone: set<nat>, whole: bool)
    requires Progress(w0, w, grace, gated, ms, gone, whole) && CanonicalFiles(w0.files)
    ensures CanonicalFiles(w.files)
  {
    hide FairTables, FairRound, Standing, Full, Paths.Canonical;
  }
}
