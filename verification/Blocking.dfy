/** A wanted socket on which VPP will not take a master and the daemon sees none: every round
    stops at its create, serves nothing after it and never comes to the orphans. */
module Blocking {
  import opened Wrappers
  import opened Vpp
  import opened Rounds
  import opened Dataplane
  import opened Reconcile
  import opened Desired
  import opened Daemon
  import opened Runs
  import opened CniVpp
  import R = Restore
  import A = Annotations

  /** A memif that the daemon does not manage holds memif id 0 of the socket: a slave, or a
      master out of scope. */
  ghost predicate Taken(t: Tables, prefixes: seq<string>, s: string) {
    && !IsManagedSocket(t, prefixes, s)
    && exists x :: IsMemif(t, x) && t.ifaces[x].id == 0 && SocketOf(t, x) == s
  }

  // ----- One reconcile

  lemma NobodyComes(t: Tables, t': Tables, prefixes: seq<string>, want: set<string>, s: string, y: nat)
    requires Attempt(t, t', prefixes, want) && Inv(t') && Taken(t, prefixes, s)
    requires y in t'.ifaces && y !in t.ifaces
    ensures IsMemif(t', y) && SocketOf(t', y) != s
  {
    hide InScope;
    var x :| IsMemif(t, x) && t.ifaces[x].id == 0 && SocketOf(t, x) == s;
    assert x in t'.ifaces && SameIface(t, t', x);
    if SocketOf(t', y) == s {
      OneMasterPerSocket(t', x, y);
    }
  }

  lemma NotRestored(t: Tables, t': Tables, prefixes: seq<string>, want: set<string>, m: Memif)
    requires Attempt(t, t', prefixes, want) && Inv(t') && Taken(t, prefixes, m.socket)
    ensures !Restored(t, t', m)
  {
    hide Attempt, Inv, Taken, SocketOf;
    if Restored(t, t', m) {
      var y :| y !in t.ifaces && Configured(t', y, RestoreRequest(m));
      NobodyComes(t, t', prefixes, want, m.socket, y);
    }
  }

  lemma StaysTaken(t: Tables, t': Tables, prefixes: seq<string>, want: set<string>, s: string)
    requires Attempt(t, t', prefixes, want) && Inv(t') && Taken(t, prefixes, s)
    ensures Taken(t', prefixes, s)
  {
    var x :| IsMemif(t, x) && t.ifaces[x].id == 0 && SocketOf(t, x) == s;
    assert x in t'.ifaces && SameIface(t, t', x);
    forall y | y in Managed(t', prefixes) ensures SocketOf(t', y) != s {
      if y in t.ifaces {
        assert SameIface(t, t', y) && y in Managed(t, prefixes);
      } else {
        NobodyComes(t, t', prefixes, want, s, y);
      }
    }
  }

  /** While a wanted socket is taken, a reconcile stops before its deletes: it removes nothing and
      puts nothing to the guard, it serves no socket from the taken one on, and the socket stays taken. */
  lemma TakenStops(w0: World, w: World, prefixes: seq<string>, grace: int, gated: bool, desired: seq<Memif>, now: int, stage: Stage, j: nat)
    requires Reconciled(w0, w, prefixes, grace, gated, desired, now, stage)
    requires j < |desired| && Taken(w0.vpp, prefixes, desired[j].socket)
    ensures stage.AtListing? || stage.AtDump? || stage.AtCreate?
    ensures w.history == w0.history && w0.vpp.ifaces.Keys <= w.vpp.ifaces.Keys && w0.files.Keys <= w.files.Keys
    ensures forall y :: y in w.vpp.ifaces && y !in w0.vpp.ifaces ==> IsMemif(w.vpp, y) && SocketOf(w.vpp, y) in Sockets(desired[..j])
    ensures Taken(w.vpp, prefixes, desired[j].socket)
  {
    hide Inv, Attempt, OrphansHandled, FilesHandled, Taken, Restored, Newcomers, SocketOf, IsManagedSocket;
    var m, want := desired[j], Sockets(desired);
    NotRestored(w0.vpp, w.vpp, prefixes, want, m);
    StaysTaken(w0.vpp, w.vpp, prefixes, want, m.socket);
    Unserved(w0.vpp, prefixes, m.socket);
    assert m in desired;
    if stage.AtCreate? {
      var k: nat :| CreatedUpTo(w0.vpp, w.vpp, prefixes, desired, k);
      InPrefix(desired, k, j);
      forall y | y in w.vpp.ifaces && y !in w0.vpp.ifaces
        ensures IsMemif(w.vpp, y) && SocketOf(w.vpp, y) in Sockets(desired[..j])
      {
        NobodyComes(w0.vpp, w.vpp, prefixes, want, m.socket, y);
        OthersBefore(desired, k, j, SocketOf(w.vpp, y));
      }
    }
  }

  lemma Unserved(t: Tables, prefixes: seq<string>, s: string)
    requires Taken(t, prefixes, s)
    ensures !IsManagedSocket(t, prefixes, s)
  {
  }

  lemma InPrefix(desired: seq<Memif>, k: nat, j: nat)
    requires k <= |desired| && j < |desired|
    ensures j < k ==> desired[j] in desired[..k]
  {
    if j < k {
      assert desired[..k][j] == desired[j];
    }
  }

  lemma OthersBefore(desired: seq<Memif>, k: nat, j: nat, s: string)
    requires k <= j < |desired| && s in Sockets(desired[..k + 1]) && s != desired[j].socket
    ensures s in Sockets(desired[..j])
  {
    var n :| n in desired[..k + 1] && n.socket == s;
    var i :| 0 <= i < k + 1 && desired[..k + 1][i] == n;
    assert desired[..j][i] == n;
  }

  /** A wanted socket out of scope is taken once a round has completed: by the daemon's own master. */
  lemma OutOfScopeTaken(w0: World, w: World, prefixes: seq<string>, grace: int, gated: bool, desired: seq<Memif>, now: int, m: Memif)
    requires Reconciled(w0, w, prefixes, grace, gated, desired, now, Completed)
    requires m in desired && !InScope(m.socket, prefixes)
    ensures Taken(w.vpp, prefixes, m.socket)
  {
    hide Inv, Attempt, OrphansHandled, FilesHandled, Newcomers, InScope;
    assert Restored(w0.vpp, w.vpp, m);
    var x :| x !in w0.vpp.ifaces && Configured(w.vpp, x, RestoreRequest(m));
  }

  /** A reconcile none of whose requests is lost completes (`Completable`) exactly when no wanted
      socket is taken and no two wanted masters share one that is not served. */
  lemma CompletesExactly(t: Tables, prefixes: seq<string>, desired: seq<Memif>)
    ensures Completable(t, prefixes, desired) <==>
              && (forall m :: m in desired ==> !Taken(t, prefixes, m.socket))
              && (forall i, j :: 0 <= i < j < |desired| && desired[i].socket == desired[j].socket ==>
                    IsManagedSocket(t, prefixes, desired[j].socket))
  {
    hide IsManagedSocket, SocketOf;
    forall j | 0 <= j < |desired|
      ensures desired[j].socket in Sockets(desired[..j]) <==> exists i :: 0 <= i < j && desired[i].socket == desired[j].socket
    {
      EarlierSocket(desired, j);
    }
    hide Sockets;
    forall j | 0 <= j < |desired|
      ensures Taken(t, prefixes, desired[j].socket) <==>
                !IsManagedSocket(t, prefixes, desired[j].socket) && !Vacant(t, desired[j].socket)
    {
    }
    hide Taken, Vacant;
    if forall m :: m in desired ==> !Taken(t, prefixes, m.socket) {
      assert forall j :: 0 <= j < |desired| ==> desired[j] in desired;
    }
  }

  lemma EarlierSocket(desired: seq<Memif>, j: nat)
    requires j < |desired|
    ensures desired[j].socket in Sockets(desired[..j]) <==> exists i :: 0 <= i < j && desired[i].socket == desired[j].socket
  {
    if i :| 0 <= i < j && desired[i].socket == desired[j].socket {
      assert desired[..j][i] == desired[i];
    }
  }

  // ----- Runs

  ghost predicate BlockedAt(c: Config, w: World, step: Step) {
    && step.SyncStep? && step.listing.Some?
    && exists m :: m in DesiredOf(c.lib, step.listing.value, step.nads) && Taken(w.vpp, c.prefixes, m.socket)
  }

  ghost predicate BlockedBetween(c: Config, ws: seq<World>, steps: seq<Step>, a: nat, n: nat)
    requires |ws| == |steps| + 1 && n <= |steps|
  {
    forall i :: a <= i < n && steps[i].SyncStep? && steps[i].listing.Some? ==> BlockedAt(c, ws[i], steps[i])
  }

  /** The Sync removed no interface and no file and did not complete. */
  ghost predicate Fruitless(w: World, step: Step, w': World) {
    step.SyncStep? ==>
      && !step.stage.Completed? && !step.stage.AtDelete?
      && w.vpp.ifaces.Keys <= w'.vpp.ifaces.Keys && w.files.Keys <= w'.files.Keys
  }

  lemma BlockedStep(c: Config, w: World, step: Step, w': World, s: string)
    requires StepOk(c, w, step, w') && step.SyncStep? && (step.listing.Some? ==> BlockedAt(c, w, step))
    ensures Fruitless(w, step, w') && Streak(w'.history, s) == 0
  {
    hide Reconciled, DesiredOf, Taken, Streak;
    if step.listing.Some? {
      var desired := DesiredOf(c.lib, step.listing.value, step.nads);
      var m :| m in desired && Taken(w.vpp, c.prefixes, m.socket);
      var j :| 0 <= j < |desired| && desired[j] == m;
      TakenStops(Begun(w), w', c.prefixes, c.grace, true, desired, step.now, step.stage, j);
    }
    EarlyFailureRestarts(c, w, step, w', s);
  }

  /** While every Sync that gets its pods finds a wanted socket taken, no round completes, no
      Sync removes anything, and after any of them the count of every socket starts anew. */
  lemma {:induction false} BlockedRun(c: Config, ws: seq<World>, steps: seq<Step>, a: nat, n: nat, s: string)
    requires IsRun(c, ws, steps) && a <= n <= |steps| && BlockedBetween(c, ws, steps, a, n)
    ensures forall i :: a <= i < n ==> Fruitless(ws[i], steps[i], ws[i + 1])
    ensures (exists i :: a <= i < n && steps[i].SyncStep?) ==> Streak(ws[n].history, s) == 0
    decreases n
  {
    hide Synced, BlockedAt, Streak;
    if a < n {
      BlockedRun(c, ws, steps, a, n - 1, s);
      assert StepOk(c, ws[n - 1], steps[n - 1], ws[n]);
      if steps[n - 1].SyncStep? {
        BlockedStep(c, ws[n - 1], steps[n - 1], ws[n], s);
      }
    }
  }

  // ----- Who blocks

  /** What ADD made blocks the restore of its own socket exactly if it is a slave or out of scope,
      and nothing the daemon manages is on the socket beside it. */
  lemma AddedBlocks(conf: NetConf, args: CmdArgs, sharedDir: string, t: Tables, prefixes: seq<string>, x: nat)
    requires Acceptable(conf) && Configured(t, x, AddRequest(conf, args, sharedDir))
    ensures var s := SocketPath(conf, args, sharedDir);
            Taken(t, prefixes, s) <==>
              (RoleOf(conf.hostConf.memif.role) == Some(Slave) || !InScope(s, prefixes)) && !IsManagedSocket(t, prefixes, s)
  {
    hide InScope, ToUint32, BridgeDomainId, ModeOf, TuningOf, SocketPath;
    var s := SocketPath(conf, args, sharedDir);
    if RoleOf(conf.hostConf.memif.role) == Some(Master) && InScope(s, prefixes) {
      assert x in Managed(t, prefixes) && SocketOf(t, x) == s;
    }
  }

  /** So a pod with a slave interface as ADD made and recorded it blocks every Sync that lists it,
      as long as nothing managed serves its socket. */
  lemma SlavePodBlocks(c: Config, w: World, step: Step, pod: Pod, codec: A.Codec, atts: seq<R.Attachment>, k: nat, x: nat)
    requires step.SyncStep? && step.listing.Some? && pod in step.listing.value
    requires R.AllRecorded(c.lib, codec, pod, step.nads, atts) && k < |R.Mine(atts)|
    requires var a := R.Mine(atts)[k];
             && Acceptable(a.conf) && RoleOf(a.conf.hostConf.memif.role) == Some(Slave)
             && Configured(w.vpp, x, AddRequest(a.conf, a.args, pod.sharedDir))
             && !IsManagedSocket(w.vpp, c.prefixes, SocketPath(a.conf, a.args, pod.sharedDir))
    ensures BlockedAt(c, w, step)
  {
    hide R.AllRecorded, R.Mine, Taken, AddRequest, SocketPath, Configured, DesiredForPod, Acceptable, IsManagedSocket;
    var a := R.Mine(atts)[k];
    AddedBlocks(a.conf, a.args, pod.sharedDir, w.vpp, c.prefixes, x);
    R.PodRestored(c.lib, codec, pod, step.nads, atts);
    var d := DesiredForPod(c.lib, pod, step.nads).value;
    assert R.RestoredAt(a, Wanted(d[k]), pod.sharedDir);
    DesiredHolds(c.lib, step.listing.value, step.nads, pod);
    assert d[k] in d;
  }
}
