/** Whole runs of a node: rounds of the daemon interleaved with anything else. Between rounds
    the tables and the files may change in any way (CNI ADD and DEL, VPP restarts, pods coming
    and going); only the daemon's memory is its own. */
module Runs {
  import opened Wrappers
  import opened Vpp
  import opened Rounds
  import opened Dataplane
  import opened Reconcile
  import opened Desired
  import opened Daemon

  datatype Config = Config(prefixes: seq<string>, grace: int, lib: Library)

  datatype Step =
    | Environment
    | SyncStep(listing: Option<seq<Pod>>, nads: Lookup, now: int, stage: Stage)

  ghost predicate StepOk(c: Config, w: World, step: Step, w': World) {
    match step
    case Environment => w'.history == w.history
    case SyncStep(listing, nads, now, stage) => Synced(w, w', c.prefixes, c.grace, c.lib, listing, nads, now, stage)
  }

  ghost predicate IsRun(c: Config, ws: seq<World>, steps: seq<Step>) {
    && |ws| == |steps| + 1
    && ws[0].history == []
    && forall i :: 0 <= i < |steps| ==> StepOk(c, ws[i], steps[i], ws[i + 1])
  }

  /** The sockets a Sync wants served; a failed listing wants nothing and touches nothing. */
  ghost function Want(c: Config, step: Step): set<string> {
    if step.SyncStep? && step.listing.Some? then Sockets(DesiredOf(c.lib, step.listing.value, step.nads)) else {}
  }

  /** In this Sync the socket was dumped, wanted by no pod that could be evaluated, and its file was there. */
  ghost predicate OrphanAt(c: Config, w: World, step: Step, s: string) {
    && step.SyncStep? && step.listing.Some?
    && IsOrphanSocket(w.vpp, c.prefixes, Want(c, step), s) && Present(w.files, s)
  }

  /** Step `i` is the Sync of round `r` (counting from 0). */
  ghost predicate IsRound(ws: seq<World>, steps: seq<Step>, i: nat, r: nat)
    requires |ws| == |steps| + 1
  {
    i < |steps| && steps[i].SyncStep? && |ws[i].history| == r
  }

  // ----- One step

  lemma SyncAppends(c: Config, w: World, step: Step, w': World)
    requires StepOk(c, w, step, w') && step.SyncStep?
    ensures |w'.history| == |w.history| + 1 && w'.history[..|w.history|] == w.history
  {
    hide Attempt, FilesHandled, StageFits, Inv, IsOrphanSocket, Orphans, MayGo, DesiredOf, TwoOrphans, OrphansDecided;
    assert Past(Begun(w)) == w.history;
  }

  /** A refusal means that the socket was an orphan with its file there. */
  lemma RefusedIsOrphan(c: Config, w: World, step: Step, w': World, s: string)
    requires StepOk(c, w, step, w') && step.SyncStep? && w'.history != [] && s in Now(w').kept
    ensures OrphanAt(c, w, step, s)
  {
    hide Attempt, FilesHandled, StageFits, Inv, IsOrphanSocket, Orphans, MayGo, DesiredOf, TwoOrphans, OrphansDecided;
    SyncAppends(c, w, step, w');
  }

  /** What a Sync may remove. */
  lemma RemovedWasOrphan(c: Config, w: World, step: Step, w': World, x: nat)
    requires StepOk(c, w, step, w') && step.SyncStep? && x in w.vpp.ifaces && x !in w'.vpp.ifaces
    ensures IsMemif(w.vpp, x) && x in Managed(w.vpp, c.prefixes)
    ensures step.listing.Some? && x in Orphans(w.vpp, c.prefixes, Want(c, step))
    ensures MayDelete(w.history, c.grace, Present(w.files, SocketOf(w.vpp, x)), SocketOf(w.vpp, x))
  {
    hide FilesHandled, StageFits, Inv, DesiredOf, Streak, InScope, TwoOrphans, OrphansDecided;
    assert Past(Begun(w)) == w.history;
  }

  // ----- Along a run

  lemma {:induction false} HistoryGrows(c: Config, ws: seq<World>, steps: seq<Step>, i: nat, n: nat)
    requires IsRun(c, ws, steps) && i <= n <= |steps|
    ensures ws[i].history <= ws[n].history
    decreases n - i
  {
    hide Synced;
    if i < n {
      HistoryGrows(c, ws, steps, i, n - 1);
      assert StepOk(c, ws[n - 1], steps[n - 1], ws[n]);
      if steps[n - 1].SyncStep? {
        SyncAppends(c, ws[n - 1], steps[n - 1], ws[n]);
      }
    }
  }

  /** Every round of the history is the Sync of some step. */
  lemma {:induction false} RoundExists(c: Config, ws: seq<World>, steps: seq<Step>, n: nat, r: nat) returns (i: nat)
    requires IsRun(c, ws, steps) && n <= |steps| && r < |ws[n].history|
    ensures i < n && IsRound(ws, steps, i, r) && |ws[i + 1].history| == r + 1
    decreases n
  {
    hide Synced;
    assert n > 0;
    assert StepOk(c, ws[n - 1], steps[n - 1], ws[n]);
    if steps[n - 1].SyncStep? {
      SyncAppends(c, ws[n - 1], steps[n - 1], ws[n]);
    }
    if r < |ws[n - 1].history| {
      i := RoundExists(c, ws, steps, n - 1, r);
    } else {
      i := n - 1;
    }
  }

  /** What a round recorded is still what the later history says about it. */
  lemma RefusedThen(c: Config, ws: seq<World>, steps: seq<Step>, n: nat, i: nat, r: nat, s: string)
    requires IsRun(c, ws, steps) && i < n <= |steps| && IsRound(ws, steps, i, r)
    requires r < |ws[n].history| && s in ws[n].history[r].kept
    ensures OrphanAt(c, ws[i], steps[i], s)
  {
    hide Synced;
    assert StepOk(c, ws[i], steps[i], ws[i + 1]);
    SyncAppends(c, ws[i], steps[i], ws[i + 1]);
    HistoryGrows(c, ws, steps, i + 1, n);
    assert ws[n].history[r] == ws[i + 1].history[r] == Now(ws[i + 1]);
    RefusedIsOrphan(c, ws[i], steps[i], ws[i + 1], s);
  }

  // ----- Scope

  /** What a Sync may touch: it takes away only masters, and under prefixes only those whose socket
      starts with one of them; everything else, and every interface that stays, is exactly as before. */
  lemma ScopeSafety(c: Config, ws: seq<World>, steps: seq<Step>, n: nat, x: nat)
    requires IsRun(c, ws, steps) && n < |steps| && steps[n].SyncStep? && x in ws[n].vpp.ifaces
    ensures x !in ws[n + 1].vpp.ifaces ==>
              && ws[n].vpp.ifaces[x].MemifRow? && ws[n].vpp.ifaces[x].role == Master
              && (c.prefixes == [] || exists p :: p in c.prefixes && p <= SocketOf(ws[n].vpp, x))
    ensures x in ws[n + 1].vpp.ifaces ==> SameIface(ws[n].vpp, ws[n + 1].vpp, x)
  {
    hide Synced;
    var w, step, w' := ws[n], steps[n], ws[n + 1];
    assert StepOk(c, w, step, w');
    if x !in w'.vpp.ifaces {
      RemovedWasOrphan(c, w, step, w', x);
      ManagedMeans(w.vpp, c.prefixes, x);
    } else {
      StaysSame(c, w, step, w', x);
    }
  }

  lemma StaysSame(c: Config, w: World, step: Step, w': World, x: nat)
    requires StepOk(c, w, step, w') && step.SyncStep? && x in w.vpp.ifaces && x in w'.vpp.ifaces
    ensures SameIface(w.vpp, w'.vpp, x)
  {
    hide FilesHandled, StageFits, Inv, DesiredOf, OrphansHandled, SameIface;
    if step.listing == None {
      assert w'.vpp == w.vpp;
      SameSelf(w.vpp, x);
    }
  }

  lemma SameSelf(t: Tables, x: nat)
    requires x in t.ifaces
    ensures SameIface(t, t, x)
  {
  }

  // ----- Safety

  /** Round `r`, at or before step `n`, had the socket dumped, unwanted and with its file there. */
  ghost predicate OrphanInRound(c: Config, ws: seq<World>, steps: seq<Step>, n: nat, r: nat, s: string)
    requires |ws| == |steps| + 1
  {
    exists i: nat :: i <= n && IsRound(ws, steps, i, r) && OrphanAt(c, ws[i], steps[i], s)
  }

  /** Garbage collection is safe over every run: the daemon removes an interface only if it is
      a managed memif master no evaluated pod wants; and if its socket file is there, only with
      a positive grace, and only if the socket was an orphan with its file there in this round
      and in each of the grace - 1 rounds before it. */
  lemma GcSafety(c: Config, ws: seq<World>, steps: seq<Step>, n: nat, x: nat)
    requires IsRun(c, ws, steps) && n < |steps| && steps[n].SyncStep?
    requires x in ws[n].vpp.ifaces && x !in ws[n + 1].vpp.ifaces
    ensures IsMemif(ws[n].vpp, x) && x in Managed(ws[n].vpp, c.prefixes)
    ensures SocketOf(ws[n].vpp, x) !in Want(c, steps[n])
    ensures SocketOf(ws[n].vpp, x) != "" && SocketOf(ws[n].vpp, x) in ws[n].files ==>
              && 0 < c.grace <= |ws[n].history| + 1
              && forall r :: |ws[n].history| + 1 - c.grace <= r <= |ws[n].history| ==>
                   OrphanInRound(c, ws, steps, n, r, SocketOf(ws[n].vpp, x))
  {
    hide Synced, InScope, Want;
    assert StepOk(c, ws[n], steps[n], ws[n + 1]);
    RemovedWasOrphan(c, ws[n], steps[n], ws[n + 1], x);
    var h, s := ws[n].history, SocketOf(ws[n].vpp, x);
    assert IsOrphanSocket(ws[n].vpp, c.prefixes, Want(c, steps[n]), s);
    hide SocketOf, Managed, Orphans, IsOrphanSocket;
    if Present(ws[n].files, s) {
      StreakBounded(h, s);
      forall r | |h| + 1 - c.grace <= r <= |h| ensures OrphanInRound(c, ws, steps, n, r, s) {
        if r == |h| {
          assert IsRound(ws, steps, n, r);
        } else {
          StreakReaches(h, s, r);
          var i := RoundExists(c, ws, steps, n, r);
          RefusedThen(c, ws, steps, n, i, r, s);
        }
      }
    }
  }

  /** Among the listed pods that could be evaluated none wants the socket. */
  ghost predicate UnwantedAt(c: Config, step: Step, s: string) {
    && step.SyncStep? && step.listing.Some?
    && forall pod :: pod in step.listing.value ==> !Wants(c, step, pod, s)
  }

  /** The pod could be evaluated and declares a master on the socket. */
  ghost predicate Wants(c: Config, step: Step, pod: Pod, s: string)
    requires step.SyncStep?
  {
    DesiredForPod(c.lib, pod, step.nads).Some? && s in Sockets(DesiredForPod(c.lib, pod, step.nads).value)
  }

  ghost predicate UnwantedInRound(c: Config, ws: seq<World>, steps: seq<Step>, n: nat, r: nat, s: string)
    requires |ws| == |steps| + 1
  {
    exists i: nat :: i <= n && IsRound(ws, steps, i, r) && UnwantedAt(c, steps[i], s)
  }

  lemma WantedIsDesired(c: Config, step: Step, pod: Pod, s: string)
    requires step.SyncStep? && step.listing.Some? && pod in step.listing.value && Wants(c, step, pod, s)
    ensures s in Want(c, step)
  {
    hide DesiredForPod;
    DesiredHolds(c.lib, step.listing.value, step.nads, pod);
    var m :| m in DesiredForPod(c.lib, pod, step.nads).value && m.socket == s;
    assert m in DesiredOf(c.lib, step.listing.value, step.nads);
  }

  lemma OrphanUnwanted(c: Config, w: World, step: Step, s: string)
    requires OrphanAt(c, w, step, s)
    ensures UnwantedAt(c, step, s)
  {
    hide DesiredForPod, InScope;
    forall pod | pod in step.listing.value ensures !Wants(c, step, pod, s) {
      if Wants(c, step, pod, s) {
        WantedIsDesired(c, step, pod, s);
      }
    }
  }

  /** A master whose socket file is there goes only when in each of the last grace rounds no pod
      that could be evaluated wanted its socket. */
  lemma UnwantedSafety(c: Config, ws: seq<World>, steps: seq<Step>, n: nat, x: nat)
    requires IsRun(c, ws, steps) && n < |steps| && steps[n].SyncStep?
    requires x in ws[n].vpp.ifaces && x !in ws[n + 1].vpp.ifaces && IsMemif(ws[n].vpp, x)
    requires Present(ws[n].files, SocketOf(ws[n].vpp, x))
    ensures 0 < c.grace <= |ws[n].history| + 1
    ensures forall r :: |ws[n].history| + 1 - c.grace <= r <= |ws[n].history| ==>
              UnwantedInRound(c, ws, steps, n, r, SocketOf(ws[n].vpp, x))
  {
    RunLength(c, ws, steps);
    GcSafety(c, ws, steps, n, x);
    hide IsRun, OrphanAt, Managed, Want, UnwantedAt;
    var h, s := ws[n].history, SocketOf(ws[n].vpp, x);
    hide SocketOf;
    forall r: nat | |h| + 1 - c.grace <= r <= |h| ensures UnwantedInRound(c, ws, steps, n, r, s) {
      assert OrphanInRound(c, ws, steps, n, r, s);
      var i: nat :| i <= n && IsRound(ws, steps, i, r) && OrphanAt(c, ws[i], steps[i], s);
      OrphanUnwanted(c, ws[i], steps[i], s);
    }
  }

  /** The listing has the pod of this namespace and name, and it wants the socket whenever it
      can be evaluated. Its annotations may differ from one listing to the next. */
  ghost predicate ServedAt(c: Config, step: Step, ns: string, name: string, s: string) {
    step.SyncStep? && step.listing.Some? &&
    exists pod :: pod in step.listing.value && pod.ns == ns && pod.name == name
                  && (DesiredForPod(c.lib, pod, step.nads).Some? ==> Wants(c, step, pod, s))
  }

  /** The pod is listed, and its intent could not be evaluated. */
  ghost predicate SkippedAt(c: Config, step: Step, ns: string, name: string) {
    step.SyncStep? && step.listing.Some? &&
    exists pod :: pod in step.listing.value && pod.ns == ns && pod.name == name && DesiredForPod(c.lib, pod, step.nads) == None
  }

  ghost predicate SkippedInRound(c: Config, ws: seq<World>, steps: seq<Step>, n: nat, r: nat, ns: string, name: string)
    requires |ws| == |steps| + 1
  {
    exists i: nat :: i <= n && IsRound(ws, steps, i, r) && SkippedAt(c, steps[i], ns, name)
  }

  /** In the last grace rounds up to step `n`, whenever pods are listed, this one is served. */
  ghost predicate Live(c: Config, ws: seq<World>, steps: seq<Step>, n: nat, ns: string, name: string, s: string)
    requires |ws| == |steps| + 1 && n < |steps|
  {
    forall i :: 0 <= i <= n && steps[i].SyncStep? && steps[i].listing.Some? && |ws[i].history| + c.grace > |ws[n].history| ==>
      ServedAt(c, steps[i], ns, name, s)
  }

  /** A live pod's master whose socket file is there goes only with a positive grace, and only
      when the pod has been skipped in this round and in each of the grace - 1 rounds before. */
  lemma LivePodSafety(c: Config, ws: seq<World>, steps: seq<Step>, n: nat, x: nat, ns: string, name: string)
    requires IsRun(c, ws, steps) && n < |steps| && steps[n].SyncStep?
    requires x in ws[n].vpp.ifaces && x !in ws[n + 1].vpp.ifaces && IsMemif(ws[n].vpp, x)
    requires Present(ws[n].files, SocketOf(ws[n].vpp, x)) && Live(c, ws, steps, n, ns, name, SocketOf(ws[n].vpp, x))
    ensures 0 < c.grace <= |ws[n].history| + 1
    ensures forall r :: |ws[n].history| + 1 - c.grace <= r <= |ws[n].history| ==>
              SkippedInRound(c, ws, steps, n, r, ns, name)
  {
    RunLength(c, ws, steps);
    UnwantedSafety(c, ws, steps, n, x);
    hide IsRun, UnwantedAt, SkippedAt, ServedAt;
    var h, s := ws[n].history, SocketOf(ws[n].vpp, x);
    hide SocketOf;
    forall r: nat | |h| + 1 - c.grace <= r <= |h| ensures SkippedInRound(c, ws, steps, n, r, ns, name) {
      assert UnwantedInRound(c, ws, steps, n, r, s);
      var i: nat :| i <= n && IsRound(ws, steps, i, r) && UnwantedAt(c, steps[i], s);
      UnwantedSkipped(c, steps[i], ns, name, s);
    }
  }

  lemma UnwantedSkipped(c: Config, step: Step, ns: string, name: string, s: string)
    requires UnwantedAt(c, step, s)
    ensures step.SyncStep? && step.listing.Some?
    ensures ServedAt(c, step, ns, name, s) ==> SkippedAt(c, step, ns, name)
  {
    hide DesiredForPod;
  }

  lemma RunLength(c: Config, ws: seq<World>, steps: seq<Step>)
    requires IsRun(c, ws, steps)
    ensures |ws| == |steps| + 1
  {
  }

  // ----- Exactness

  /** A round that fails before the guard, listing the pods, dumping or creating, restarts the
      count of every socket. */
  lemma EarlyFailureRestarts(c: Config, w: World, step: Step, w': World, s: string)
    requires StepOk(c, w, step, w') && step.SyncStep?
    requires step.stage.AtListing? || step.stage.AtDump? || step.stage.AtCreate?
    ensures w'.history == w.history + [NEW_ROUND]
    ensures Streak(w'.history, s) == 0 && Counted(w'.history + [NEW_ROUND], s) == 1
  {
    hide Attempt, FilesHandled, Inv, OrphansHandled, MayGo, DesiredOf, Newcomers;
    assert Before(w'.history + [NEW_ROUND]) == w'.history;
  }

  /** In a completed Sync some orphan goes on a socket if and only if it may; if none does, the
      socket was refused, and refused twice if two orphans share it. */
  lemma GcStep(c: Config, w: World, step: Step, w': World, s: string)
    requires StepOk(c, w, step, w') && step.SyncStep? && step.listing.Some? && step.stage.Completed?
    requires IsOrphanSocket(w.vpp, c.prefixes, Want(c, step), s)
    ensures SomeWent(w.vpp, w'.vpp, c.prefixes, Want(c, step), s) <==> MayDelete(w.history, c.grace, Present(w.files, s), s)
    ensures w'.history != []
    ensures !SomeWent(w.vpp, w'.vpp, c.prefixes, Want(c, step), s) ==>
              && s in Now(w').kept && (s in Now(w').dup <==> TwoOrphans(w.vpp, c.prefixes, Want(c, step), s))
  {
    hide Attempt, FilesHandled, StageFits, Inv, DesiredOf, Streak, IsOrphanSocket, SomeWent, TwoOrphans, OrphansHandled;
    assert Past(Begun(w)) == w.history;
    SocketDecided(Begun(w), w', c.prefixes, c.grace, Want(c, step), s);
  }

  /** Without its file some orphan on a socket goes in every completed Sync, whatever the grace. */
  lemma FilelessGoes(c: Config, ws: seq<World>, steps: seq<Step>, n: nat, s: string)
    requires IsRun(c, ws, steps) && n < |steps| && steps[n].SyncStep? && steps[n].listing.Some? && steps[n].stage.Completed?
    requires IsOrphanSocket(ws[n].vpp, c.prefixes, Want(c, steps[n]), s) && (s == "" || s !in ws[n].files)
    ensures SomeWent(ws[n].vpp, ws[n + 1].vpp, c.prefixes, Want(c, steps[n]), s)
  {
    assert StepOk(c, ws[n], steps[n], ws[n + 1]);
    GcStep(c, ws[n], steps[n], ws[n + 1], s);
    hide Synced, IsOrphanSocket, SomeWent, Streak;
  }

  /** A single orphan on its socket goes itself. */
  lemma SingleWent(t: Tables, t': Tables, prefixes: seq<string>, want: set<string>, x: nat)
    requires x in Orphans(t, prefixes, want) && IsMemif(t, x) && !TwoOrphans(t, prefixes, want, SocketOf(t, x))
    ensures SomeWent(t, t', prefixes, want, SocketOf(t, x)) <==> x !in t'.ifaces
  {
    hide InScope;
    if SomeWent(t, t', prefixes, want, SocketOf(t, x)) {
      var y :| y in Orphans(t, prefixes, want) && SocketOf(t, y) == SocketOf(t, x) && y !in t'.ifaces;
      assert y == x;
    }
  }

  lemma RefusedExactly(c: Config, w: World, step: Step, w': World, s: string)
    requires StepOk(c, w, step, w') && step.SyncStep? && w'.history != []
    requires s in Now(w').kept && c.grace > 0
    ensures s in Now(w').dup ==> c.grace > 1
    ensures s !in Now(w').dup ==> Streak(w.history, s) + 1 < c.grace
  {
    hide Attempt, FilesHandled, StageFits, Inv, IsOrphanSocket, Orphans, DesiredOf, Streak, TwoOrphans, OrphansDecided;
    SyncAppends(c, w, step, w');
    assert Past(Begun(w)) == w.history;
  }

  /** No streak ever reaches the grace: the orphan goes first. */
  lemma {:induction false} StreakBelowGrace(c: Config, ws: seq<World>, steps: seq<Step>, n: nat, s: string)
    requires IsRun(c, ws, steps) && n <= |steps| && c.grace > 0
    ensures Streak(ws[n].history, s) < c.grace
    decreases n
  {
    hide Synced;
    if n > 0 {
      StreakBelowGrace(c, ws, steps, n - 1, s);
      assert StepOk(c, ws[n - 1], steps[n - 1], ws[n]);
      if steps[n - 1].SyncStep? {
        SyncAppends(c, ws[n - 1], steps[n - 1], ws[n]);
        if s in Now(ws[n]).kept {
          RefusedExactly(c, ws[n - 1], steps[n - 1], ws[n], s);
        }
      }
    }
  }

  /** Garbage collection is exact, whatever shares the socket: in a completed Sync that finds an
      orphan on the socket, its file there, some orphan on it goes if and only if the grace is
      positive and the count of rounds that refused the socket is one short of it. */
  lemma GcExact(c: Config, ws: seq<World>, steps: seq<Step>, n: nat, s: string)
    requires IsRun(c, ws, steps) && n < |steps| && Found(c, ws[n], steps[n], s)
    ensures SomeWent(ws[n].vpp, ws[n + 1].vpp, c.prefixes, Want(c, steps[n]), s)
            <==> c.grace > 0 && Streak(ws[n].history, s) + 1 == c.grace
  {
    assert StepOk(c, ws[n], steps[n], ws[n + 1]);
    GcStep(c, ws[n], steps[n], ws[n + 1], s);
    hide Synced, IsOrphanSocket, SomeWent, Streak;
    if c.grace > 0 {
      StreakBelowGrace(c, ws, steps, n, s);
    }
  }

  /** Masters with memif id 0, as the plugin and the daemon create them, never share a socket:
      such an orphan, its file there, goes itself exactly in the grace-th round. */
  lemma GcExactSingle(c: Config, ws: seq<World>, steps: seq<Step>, n: nat, x: nat)
    requires IsRun(c, ws, steps) && n < |steps| && steps[n].SyncStep? && steps[n].listing.Some? && steps[n].stage.Completed?
    requires Inv(ws[n].vpp) && x in Orphans(ws[n].vpp, c.prefixes, Want(c, steps[n]))
    requires Present(ws[n].files, SocketOf(ws[n].vpp, x))
    requires forall y :: y in Managed(ws[n].vpp, c.prefixes) && SocketOf(ws[n].vpp, y) == SocketOf(ws[n].vpp, x) ==> ws[n].vpp.ifaces[y].id == 0
    ensures x !in ws[n + 1].vpp.ifaces <==> c.grace > 0 && Streak(ws[n].history, SocketOf(ws[n].vpp, x)) + 1 == c.grace
  {
    var t, want := ws[n].vpp, Want(c, steps[n]);
    OrphansUnwanted(t, c.prefixes, want);
    IdZeroUnshared(t, c.prefixes, want, SocketOf(t, x));
    SingleWent(t, ws[n + 1].vpp, c.prefixes, want, x);
    hide IsRun, Inv, Orphans, SocketOf, SomeWent, Streak, TwoOrphans, Managed, Want;
    assert IsOrphanSocket(t, c.prefixes, want, SocketOf(t, x));
    GcExact(c, ws, steps, n, SocketOf(t, x));
  }

  /** A completed Sync that finds an orphan on the socket, its file there. */
  ghost predicate Found(c: Config, w: World, step: Step, s: string) {
    step.SyncStep? && step.stage.Completed? && OrphanAt(c, w, step, s)
  }

  /** One of the orphans on the socket went. */
  ghost predicate WentAt(c: Config, w: World, step: Step, w': World, s: string) {
    SomeWent(w.vpp, w'.vpp, c.prefixes, Want(c, step), s)
  }

  ghost predicate SharedAt(c: Config, w: World, step: Step, s: string) {
    TwoOrphans(w.vpp, c.prefixes, Want(c, step), s)
  }

  /** The bound of LivePodSafety is met: if `grace` Syncs, consecutive rounds, complete and each
      finds an orphan on the socket with its file there, one of them removes one, whatever kept
      the pods that want the socket from being evaluated; the rounds between the first and the
      last must find a single one. `at` lists the steps. */
  lemma PersistentOrphanGoes(c: Config, ws: seq<World>, steps: seq<Step>, at: seq<nat>, s: string)
    requires IsRun(c, ws, steps) && c.grace > 0 && |at| == c.grace
    requires forall k :: 0 <= k < |at| ==> at[k] < |steps| && Found(c, ws[at[k]], steps[at[k]], s)
    requires forall k :: 0 <= k < |at| ==> |ws[at[k]].history| == |ws[at[0]].history| + k
    requires forall k :: 0 < k < |at| - 1 ==> !SharedAt(c, ws[at[k]], steps[at[k]], s)
    ensures exists k :: 0 <= k < |at| && WentAt(c, ws[at[k]], steps[at[k]], ws[at[k] + 1], s)
  {
    hide Synced, OrphanAt, WentAt, SharedAt;
    forall k | 0 <= k < |at| ensures
      && |ws[at[k] + 1].history| == |ws[at[0]].history| + k + 1
      && (WentAt(c, ws[at[k]], steps[at[k]], ws[at[k] + 1], s) || s in Now(ws[at[k] + 1]).kept)
      && (WentAt(c, ws[at[k]], steps[at[k]], ws[at[k] + 1], s) || SharedAt(c, ws[at[k]], steps[at[k]], s) || s !in Now(ws[at[k] + 1]).dup)
      && (Streak(ws[at[k]].history, s) + 1 >= c.grace ==> WentAt(c, ws[at[k]], steps[at[k]], ws[at[k] + 1], s))
    {
      var i := at[k];
      assert StepOk(c, ws[i], steps[i], ws[i + 1]);
      SyncAppends(c, ws[i], steps[i], ws[i + 1]);
      FoundThen(c, ws[i], steps[i], ws[i + 1], s);
    }
    var last := at[|at| - 1];
    var h, n := ws[last].history, c.grace - 1;
    if forall k :: 0 <= k < n ==> !WentAt(c, ws[at[k]], steps[at[k]], ws[at[k] + 1], s) {
      forall r | |h| - n <= r < |h| ensures s in h[r].kept && (r > |h| - n ==> s !in h[r].dup) {
        var k := r - (|h| - n);
        LaterRound(c, ws, steps, at[k], last, r);
        assert h[r] == Now(ws[at[k] + 1]);
      }
      StreakBuilt(h, s, n);
    }
  }

  lemma FoundThen(c: Config, w: World, step: Step, w': World, s: string)
    requires StepOk(c, w, step, w') && Found(c, w, step, s) && w'.history != []
    ensures WentAt(c, w, step, w', s) || (s in Now(w').kept && (s in Now(w').dup <==> SharedAt(c, w, step, s)))
    ensures c.grace > 0 && Streak(w.history, s) + 1 >= c.grace ==> WentAt(c, w, step, w', s)
  {
    GcStep(c, w, step, w', s);
    hide Synced, IsOrphanSocket, SomeWent, TwoOrphans;
  }

  /** A step of an earlier round comes earlier, and the later history holds what it recorded. */
  lemma LaterRound(c: Config, ws: seq<World>, steps: seq<Step>, i: nat, n: nat, r: nat)
    requires IsRun(c, ws, steps) && n <= |steps| && IsRound(ws, steps, i, r) && r < |ws[n].history|
    ensures ws[i + 1].history != [] && ws[n].history[r] == Now(ws[i + 1])
  {
    hide Synced;
    assert StepOk(c, ws[i], steps[i], ws[i + 1]);
    SyncAppends(c, ws[i], steps[i], ws[i + 1]);
    if n <= i {
      HistoryGrows(c, ws, steps, n, i);
    } else {
      HistoryGrows(c, ws, steps, i + 1, n);
    }
  }

  // ----- Two masters on one socket

  /** A completed Sync that finds two orphans or more on the socket, its file there. */
  ghost predicate Crowded(c: Config, w: World, step: Step, s: string) {
    Found(c, w, step, s) && SharedAt(c, w, step, s)
  }

  lemma CrowdedStep(c: Config, w: World, step: Step, w': World, s: string)
    requires StepOk(c, w, step, w') && Crowded(c, w, step, s)
    ensures WentAt(c, w, step, w', s) <==> c.grace > 0 && Streak(w.history, s) + 1 >= c.grace
    ensures !WentAt(c, w, step, w', s) ==> Streak(w'.history, s) == 1
    ensures |w'.history| == |w.history| + 1
  {
    SyncAppends(c, w, step, w');
    GcStep(c, w, step, w', s);
    hide Synced, IsOrphanSocket, SomeWent, TwoOrphans;
  }

  /** One of the orphans on the socket went in a Sync among the steps a..n. */
  ghost predicate WentBetween(c: Config, ws: seq<World>, steps: seq<Step>, a: nat, n: nat, s: string)
    requires |ws| == |steps| + 1 && n <= |steps|
  {
    exists i: nat :: a <= i < n && steps[i].SyncStep? && WentAt(c, ws[i], steps[i], ws[i + 1], s)
  }

  /** Masters that share a socket spoil each other's count: while every Sync finds two orphans on
      it, one goes if and only if the count had come far enough before, or the grace is at most
      two and there was a second Sync. */
  lemma {:induction false} CrowdedGoes(c: Config, ws: seq<World>, steps: seq<Step>, a: nat, n: nat, s: string)
    requires IsRun(c, ws, steps) && a <= n <= |steps|
    requires forall i :: a <= i < n && steps[i].SyncStep? ==> Crowded(c, ws[i], steps[i], s)
    ensures |ws[a].history| <= |ws[n].history|
    ensures WentBetween(c, ws, steps, a, n, s) <==>
              && c.grace > 0
              && ((|ws[n].history| > |ws[a].history| && Streak(ws[a].history, s) + 1 >= c.grace)
                  || (|ws[n].history| > |ws[a].history| + 1 && c.grace <= 2))
    ensures !WentBetween(c, ws, steps, a, n, s) ==>
              Streak(ws[n].history, s) == if |ws[n].history| == |ws[a].history| then Streak(ws[a].history, s) else 1
    decreases n
  {
    hide Synced, Crowded, WentAt;
    if n > a {
      CrowdedGoes(c, ws, steps, a, n - 1, s);
      assert StepOk(c, ws[n - 1], steps[n - 1], ws[n]);
      if steps[n - 1].SyncStep? {
        CrowdedStep(c, ws[n - 1], steps[n - 1], ws[n], s);
      }
      assert WentBetween(c, ws, steps, a, n, s) <==>
             WentBetween(c, ws, steps, a, n - 1, s) || (steps[n - 1].SyncStep? && WentAt(c, ws[n - 1], steps[n - 1], ws[n], s));
    }
  }
}
