/** Concrete traces that show comments of the daemon to promise more than it does. */
module Witness {
  import opened Wrappers
  import opened Vpp
  import opened Rounds
  import opened Dataplane
  import opened Reconcile
  import opened Desired
  import opened Daemon
  import opened Runs
  import Blocking
  import Convergence
  import M = MemifApi

  /** One managed master, index 7, on socket `s`. */
  ghost function OneMaster(s: string): Tables {
    Tables(map[0 := "", 1 := s], map[7 := MemifRow(1, 0, Master, Ethernet, UNTUNED, true, 0)], map[])
  }

  /** And a second one on the same socket, index 8, with memif id 1. */
  ghost function TwoMasters(s: string): Tables {
    Tables(map[0 := "", 1 := s],
           map[7 := MemifRow(1, 0, Master, Ethernet, UNTUNED, true, 0), 8 := MemifRow(1, 1, Master, Ethernet, UNTUNED, true, 0)], map[])
  }

  const EMPTY := Tables(map[0 := ""], map[], map[])

  lemma OneMasterFacts(s: string)
    requires s != ""
    ensures Inv(OneMaster(s)) && Managed(OneMaster(s), []) == {7} && SocketOf(OneMaster(s), 7) == s
    ensures Orphans(OneMaster(s), [], {}) == {7}
    ensures forall u :: IsOrphanSocket(OneMaster(s), [], {}, u) <==> u == s
    ensures forall u :: !TwoOrphans(OneMaster(s), [], {}, u)
    ensures Inv(EMPTY) && Attempt(OneMaster(s), OneMaster(s), [], {}) && Attempt(OneMaster(s), EMPTY, [], {})
    ensures IsManagedSocket(OneMaster(s), [], s)
  {
    assert IsManaged(OneMaster(s), [], 7);
    assert 7 in Orphans(OneMaster(s), [], {}) && SocketOf(OneMaster(s), 7) == s;
    Convergence.ConvergedAtZero(OneMaster(s), [], {});
  }

  lemma TwoMastersFacts(s: string)
    requires s != ""
    ensures Inv(TwoMasters(s)) && Orphans(TwoMasters(s), [], {}) == {7, 8}
    ensures SocketOf(TwoMasters(s), 7) == SocketOf(TwoMasters(s), 8) == s
    ensures forall u :: IsOrphanSocket(TwoMasters(s), [], {}, u) <==> u == s
    ensures forall u :: TwoOrphans(TwoMasters(s), [], {}, u) <==> u == s
    ensures Attempt(TwoMasters(s), EMPTY, [], {}) && IsManagedSocket(TwoMasters(s), [], s)
  {
    var t := TwoMasters(s);
    assert IsManaged(t, [], 7) && IsManaged(t, [], 8);
    assert Orphans(t, [], {}) == {7, 8};
    assert 7 in Orphans(t, [], {}) && SocketOf(t, 7) == s;
    assert 8 in Orphans(t, [], {}) && SocketOf(t, 8) == s;
  }

  /** A completed round that wants nothing: it keeps the one orphan, or every orphan goes. */
  lemma KeptRound(s: string, h: seq<Round>, grace: int)
    requires s != "" && Streak(h, s) + 1 < grace
    ensures Reconciled(Begun(World(OneMaster(s), map[s := 0], h)), World(OneMaster(s), map[s := 0], h + [Round({s}, {s}, {})]),
                       [], grace, true, [], 0, Completed)
  {
    var t := OneMaster(s);
    OneMasterFacts(s);
    NoNewcomers(t, []);
    assert Sockets([]) == {};
    KeptOrphans(s, h, grace);
    hide Attempt, Inv, OrphansHandled, FileHandled, Newcomers, OneMaster;
  }

  lemma KeptOrphans(s: string, h: seq<Round>, grace: int)
    requires s != "" && Streak(h, s) + 1 < grace
    ensures OrphansHandled(Begun(World(OneMaster(s), map[s := 0], h)), World(OneMaster(s), map[s := 0], h + [Round({s}, {s}, {})]),
                           [], grace, true, {}, true)
  {
    var t := OneMaster(s);
    OneMasterFacts(s);
    OrphansUnwanted(t, [], {});
    hide IsOrphanSocket, SocketOf, TwoOrphans, Orphans, Streak, OneMaster, SomeWent, Inv, Attempt, Managed, IsManagedSocket;
    var w, w' := Begun(World(t, map[s := 0], h)), World(t, map[s := 0], h + [Round({s}, {s}, {})]);
    assert Past(w) == h == Past(w') && !MayGo(w, grace, s) && Now(w') == Round({s}, {s}, {});
    assert 7 in Orphans(t, [], {}) && SocketOf(t, 7) == s;
    hide MayGo;
    assert OrphansDecided(w, w', [], grace, {});
    hide OrphansDecided;
  }

  lemma GoneRound(t: Tables, s: string, h: seq<Round>, dup: set<string>, grace: int)
    requires Streak(h, s) + 1 >= grace > 0 && Inv(EMPTY) && Attempt(t, EMPTY, [], {})
    requires forall u :: IsOrphanSocket(t, [], {}, u) <==> u == s
    requires forall u :: TwoOrphans(t, [], {}, u) <==> u in dup
    requires IsManagedSocket(t, [], s) && dup <= {s}
    ensures Reconciled(Begun(World(t, map[s := 0], h)), World(EMPTY, map[], h + [Round({s}, {}, dup)]), [], grace, true, [], 0, Completed)
  {
    hide Attempt, Inv, IsOrphanSocket, SocketOf, TwoOrphans, Orphans, Streak, IsManagedSocket;
    assert Sockets([]) == {};
    var w := Begun(World(t, map[s := 0], h));
    assert Past(w) == h && MayGo(w, grace, s);
    OrphansUnwanted(t, [], {});
    GoneSockets(t, s);
    assert Newcomers(t, EMPTY, [], {});
  }

  lemma GoneSockets(t: Tables, s: string)
    requires forall u :: IsOrphanSocket(t, [], {}, u) <==> u == s
    ensures forall x :: x in Orphans(t, [], {}) ==> IsMemif(t, x) && SocketOf(t, x) == s
    ensures SomeWent(t, EMPTY, [], {}, s)
  {
    OrphansUnwanted(t, [], {});
    hide SocketOf, Orphans;
    assert IsOrphanSocket(t, [], {}, s);
    forall x | x in Orphans(t, [], {}) ensures SocketOf(t, x) == s {
      assert IsOrphanSocket(t, [], {}, SocketOf(t, x));
    }
  }

  lemma KeptStreaks(s: string, kept: Round)
    requires kept == Round({s}, {s}, {})
    ensures Streak([], s) == 0 && Streak([kept], s) == 1 && Streak([kept, kept], s) == 2
  {
    assert [kept][..0] == [] && [kept, kept][..1] == [kept];
  }

  // ----- A skipped pod

  /** A pod that stays live, whose socket file stays, and that is merely skipped twice because
      its NAD cannot be read, loses its master under the default grace of 2. */
  lemma SkippedLivePodLosesMaster(lib: Library, pod: Pod, nads: Lookup, s: string)
    returns (c: Config, ws: seq<World>, steps: seq<Step>)
    requires DesiredForPod(lib, pod, nads) == None && s != ""
    ensures IsRun(c, ws, steps) && |steps| == 3 && c.grace == 2 && Live(c, ws, steps, 2, pod.ns, pod.name, s)
    ensures steps[1].SyncStep? && steps[2].SyncStep?
    ensures IsMemif(ws[2].vpp, 7) && SocketOf(ws[2].vpp, 7) == s && Present(ws[1].files, s) && Present(ws[2].files, s)
    ensures 7 !in ws[3].vpp.ifaces
  {
    hide Reconciled, DesiredForPod, StepOk, Inv, Attempt, Managed, Orphans, IsOrphanSocket, TwoOrphans, Streak, IsManagedSocket, Live;
    c := Config([], 2, lib);
    var sync, kept := SyncStep(Some([pod]), nads, 0, Completed), Round({s}, {s}, {});
    var w0, w1 := World(EMPTY, map[], []), World(OneMaster(s), map[s := 0], []);
    var w2 := World(OneMaster(s), map[s := 0], [kept]);
    var w3 := World(EMPTY, map[], [kept, Round({s}, {}, {})]);
    ws, steps := [w0, w1, w2, w3], [Environment, sync, sync];
    OneMasterFacts(s);
    hide OneMaster;
    KeptStreaks(s, kept);
    KeptRound(s, [], 2);
    assert [] + [kept] == w2.history && [kept] + [Round({s}, {}, {})] == w3.history;
    GoneRound(OneMaster(s), s, w2.history, {}, 2);
    SkippedSyncs(c, w1, w2, pod, nads);
    SkippedSyncs(c, w2, w3, pod, nads);
    RunOf4(c, ws, steps);
    SkippedIsLive(c, ws, steps, pod, nads, s);
    hide IsRun;
  }

  lemma SkippedIsLive(c: Config, ws: seq<World>, steps: seq<Step>, pod: Pod, nads: Lookup, s: string)
    requires DesiredForPod(c.lib, pod, nads) == None && |ws| == |steps| + 1 && |steps| == 3
    requires forall i :: 0 <= i < 3 && steps[i].SyncStep? ==> steps[i] == SyncStep(Some([pod]), nads, 0, Completed)
    ensures Live(c, ws, steps, 2, pod.ns, pod.name, s)
  {
    hide DesiredForPod;
    assert pod in [pod];
  }

  lemma RunOf4(c: Config, ws: seq<World>, steps: seq<Step>)
    requires |ws| == 4 && |steps| == 3 && ws[0].history == [] && steps[0].Environment? && ws[1].history == ws[0].history
    requires StepOk(c, ws[1], steps[1], ws[2]) && StepOk(c, ws[2], steps[2], ws[3])
    ensures IsRun(c, ws, steps)
  {
    assert StepOk(c, ws[0], Environment, ws[1]);
    hide Synced;
  }

  /** A Sync of a node whose only pod is skipped reconciles towards nothing. */
  lemma SkippedSyncs(c: Config, w: World, w': World, pod: Pod, nads: Lookup)
    requires DesiredForPod(c.lib, pod, nads) == None
    requires Reconciled(Begun(w), w', c.prefixes, c.grace, true, [], 0, Completed)
    ensures StepOk(c, w, SyncStep(Some([pod]), nads, 0, Completed), w')
  {
    hide Reconciled, DesiredForPod;
    assert [pod][..0] == [];
    assert DesiredOf(c.lib, [pod], nads) == [];
  }

  lemma EmptySyncs(c: Config, w: World, w': World, nads: Lookup)
    requires Reconciled(Begun(w), w', c.prefixes, c.grace, true, [], 0, Completed)
    ensures StepOk(c, w, SyncStep(Some([]), nads, 0, Completed), w')
  {
    hide Reconciled;
    assert DesiredOf(c.lib, [], nads) == [];
  }

  // ----- A shared socket

  /** Sharing a socket does not keep it from collection: under a grace of 3, an orphan alone on
      it for two rounds and joined by a second one in the third is collected there. */
  lemma SharedSocketGoes(lib: Library, nads: Lookup, s: string) returns (c: Config, ws: seq<World>, steps: seq<Step>)
    requires s != ""
    ensures IsRun(c, ws, steps) && |steps| == 5 && c.grace == 3 && steps[4].SyncStep?
    ensures Crowded(c, ws[4], steps[4], s) && WentAt(c, ws[4], steps[4], ws[5], s)
  {
    hide Reconciled, StepOk, Inv, Attempt, Managed, Orphans, IsOrphanSocket, TwoOrphans, OneMaster, TwoMasters, Crowded, WentAt, Streak, IsManagedSocket, SocketOf;
    c := Config([], 3, lib);
    var sync := SyncStep(Some([]), nads, 0, Completed);
    var kept := Round({s}, {s}, {});
    var w0, w1 := World(EMPTY, map[], []), World(OneMaster(s), map[s := 0], []);
    var w2, w3 := World(OneMaster(s), map[s := 0], [kept]), World(OneMaster(s), map[s := 0], [kept, kept]);
    var w4 := World(TwoMasters(s), map[s := 0], [kept, kept]);
    var w5 := World(EMPTY, map[], [kept, kept, Round({s}, {}, {s})]);
    ws, steps := [w0, w1, w2, w3, w4, w5], [Environment, sync, sync, Environment, sync];
    TwoMastersFacts(s);
    OneMasterFacts(s);
    KeptStreaks(s, kept);
    KeptRound(s, [], 3);
    assert [] + [kept] == [kept] && [kept] + [kept] == [kept, kept];
    KeptRound(s, [kept], 3);
    GoneRound(TwoMasters(s), s, [kept, kept], {s}, 3);
    assert [kept, kept] + [Round({s}, {}, {s})] == w5.history;
    EmptySyncs(c, w1, w2, nads);
    EmptySyncs(c, w2, w3, nads);
    EmptySyncs(c, w4, w5, nads);
    RunOf6(c, ws, steps);
    CrowdedHere(c, w4, w5, nads, s);
    hide IsRun, Crowded, WentAt;
  }

  lemma CrowdedHere(c: Config, w: World, w': World, nads: Lookup, s: string)
    requires s != "" && c.prefixes == [] && w.vpp == TwoMasters(s) && s in w.files && w'.vpp == EMPTY
    ensures var sync := SyncStep(Some([]), nads, 0, Completed); Crowded(c, w, sync, s) && WentAt(c, w, sync, w', s)
  {
    TwoMastersFacts(s);
    hide Inv, Attempt, Orphans, IsOrphanSocket, TwoOrphans, TwoMasters, SocketOf;
    assert DesiredOf(c.lib, [], nads) == [] && Sockets([]) == {};
    GoneSockets(w.vpp, s);
  }

  lemma RunOf6(c: Config, ws: seq<World>, steps: seq<Step>)
    requires |ws| == 6 && |steps| == 5 && ws[0].history == [] && steps[0].Environment? && ws[1].history == ws[0].history
    requires StepOk(c, ws[1], steps[1], ws[2]) && StepOk(c, ws[2], steps[2], ws[3])
    requires steps[3].Environment? && ws[4].history == ws[3].history && StepOk(c, ws[4], steps[4], ws[5])
    ensures IsRun(c, ws, steps)
  {
    assert StepOk(c, ws[0], Environment, ws[1]) && StepOk(c, ws[3], Environment, ws[4]);
    hide Synced;
  }

  // ----- A create that stopped half way

  /** The master is there but down. */
  ghost function HalfCreated(m: Memif): Tables {
    Tables(map[0 := "", 1 := m.socket], map[7 := MemifRow(1, 0, Master, ParseMode(m.mode), M.WithDefaults(m.tuning), false, 0)], map[])
  }

  /** A reconcile may end that way, and then every later one, failing or not, finds the socket
      served and leaves the master down. */
  lemma RetryDoesNotRepair(m: Memif, ws: seq<World>, grace: int, now: int, stages: seq<Stage>)
    requires m.socket != "" && ws != [] && ws[0].vpp == HalfCreated(m)
    requires Convergence.IsRetry(ws, [], grace, [m], now, stages)
    ensures IsMemif(ws[|stages|].vpp, 7) && !ws[|stages|].vpp.ifaces[7].up
    ensures !Convergence.IsRepaired(ws[|stages|].vpp, [], m)
    ensures Reconciled(World(EMPTY, map[], [NEW_ROUND]), World(HalfCreated(m), map[], [NEW_ROUND]), [], grace, false, [m], now, AtCreate)
  {
    var t := HalfCreated(m);
    assert IsManaged(t, [], 7) && SocketOf(t, 7) == m.socket;
    assert m in [m] && m.socket in Sockets([m]);
    HalfReached(m, grace, now);
    hide Reconciled;
    assert Managed(t, []) == {7};
    assert IsManagedSocket(t, [], m.socket);
    assert !Convergence.IsRepaired(t, [], m);
    Convergence.HalfConfiguredStays(ws, [], grace, [m], now, stages, 7);
    Convergence.NeverRepaired(ws, [], grace, [m], now, stages, m);
  }

  lemma HalfReached(m: Memif, grace: int, now: int)
    requires m.socket != ""
    ensures Reconciled(World(EMPTY, map[], [NEW_ROUND]), World(HalfCreated(m), map[], [NEW_ROUND]), [], grace, false, [m], now, AtCreate)
  {
    var t := HalfCreated(m);
    HalfFits(m);
    assert m in [m] && m.socket in Sockets([m]);
    assert forall s :: !IsManagedSocket(EMPTY, [], s);
    hide ParseMode, HalfConfigured, CreatedUpTo, Newcomers;
  }

  lemma HalfFits(m: Memif)
    ensures Newcomers(EMPTY, HalfCreated(m), [m], {7}) && CreatedUpTo(EMPTY, HalfCreated(m), [], [m], 0)
  {
    var t := HalfCreated(m);
    hide ParseMode, Restored, IsManagedSocket, Configured;
    assert HalfConfigured(t, 7, m);
    assert HalfAsked(t, 7, [m]);
    assert m in [m][..1];
  }

  // ----- A socket that is taken

  ghost function SlaveOn(s: string): Tables {
    Tables(map[0 := "", 1 := s], map[7 := MemifRow(1, 0, Slave, Ethernet, M.WithDefaults(UNTUNED), true, 0)], map[])
  }

  /** With a slave on the wanted socket a Sync may end with nothing done, and never better. */
  lemma SlaveStopsRound(m: Memif, grace: int, now: int)
    requires m.socket != ""
    ensures Blocking.Taken(SlaveOn(m.socket), [], m.socket)
    ensures var w := World(SlaveOn(m.socket), map[], [NEW_ROUND]); Reconciled(w, w, [], grace, true, [m], now, AtCreate)
  {
    var t := SlaveOn(m.socket);
    SlaveUnmanaged(m.socket);
    NoNewcomers(t, [m]);
    AttemptNone(t, [], Sockets([m]));
    assert CreatedUpTo(t, t, [], [m], 0);
    hide Newcomers, Attempt, Inv, CreatedUpTo;
  }

  lemma SlaveUnmanaged(s: string)
    requires s != ""
    ensures Inv(SlaveOn(s)) && Managed(SlaveOn(s), []) == {} && Blocking.Taken(SlaveOn(s), [], s)
  {
    var t := SlaveOn(s);
    assert IsMemif(t, 7) && SocketOf(t, 7) == s;
  }
}
