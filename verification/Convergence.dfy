/** Repeated reconciles towards one intent with no guard: what converges, and what does not. */
module Convergence {
  import opened Vpp
  import opened Rounds
  import opened Dataplane
  import opened Reconcile

  // ----- The measure

  /** Wanted sockets no managed master serves. */
  ghost function Missing(t: Tables, prefixes: seq<string>, want: set<string>): set<string> {
    set s | s in want && !IsManagedSocket(t, prefixes, s)
  }

  ghost function Distance(t: Tables, prefixes: seq<string>, want: set<string>): nat {
    |Missing(t, prefixes, want)| + |Orphans(t, prefixes, want)|
  }

  ghost predicate AllInScope(want: set<string>, prefixes: seq<string>) {
    forall s :: s in want ==> InScope(s, prefixes)
  }

  ghost function Came(t: Tables, t': Tables): set<nat> {
    t'.ifaces.Keys - t.ifaces.Keys
  }

  lemma SurvivorManaged(t: Tables, t': Tables, prefixes: seq<string>, want: set<string>, x: nat)
    requires Attempt(t, t', prefixes, want) && x in t.ifaces && x in t'.ifaces
    ensures x in Managed(t', prefixes) <==> x in Managed(t, prefixes)
    ensures x in Managed(t, prefixes) ==> SocketOf(t', x) == SocketOf(t, x)
  {
    hide InScope;
    assert SameIface(t, t', x);
  }

  lemma NewcomerManaged(t: Tables, t': Tables, prefixes: seq<string>, want: set<string>, x: nat)
    requires Attempt(t, t', prefixes, want) && AllInScope(want, prefixes) && x in Came(t, t')
    ensures x in Managed(t', prefixes) && SocketOf(t', x) in Missing(t, prefixes, want)
  {
    hide InScope, IsManagedSocket;
  }

  /** Orphans only go. */
  lemma OrphansAfter(t: Tables, t': Tables, prefixes: seq<string>, want: set<string>)
    requires Attempt(t, t', prefixes, want) && AllInScope(want, prefixes)
    ensures Orphans(t', prefixes, want) == Orphans(t, prefixes, want) - Came(t', t)
    ensures Came(t', t) <= Orphans(t, prefixes, want)
  {
    forall x | x in t'.ifaces && x !in t.ifaces ensures x !in Orphans(t', prefixes, want) {
      NewcomerManaged(t, t', prefixes, want, x);
    }
    forall x | x in t.ifaces && x in t'.ifaces ensures x in Orphans(t', prefixes, want) <==> x in Orphans(t, prefixes, want) {
      SurvivorManaged(t, t', prefixes, want, x);
    }
    OrphansAreIfaces(t, prefixes, want);
    OrphansAreIfaces(t', prefixes, want);
    hide Managed;
  }

  ghost function SocketsOf(t: Tables, xs: set<nat>): set<string> {
    set x | x in xs && IsMemif(t, x) :: SocketOf(t, x)
  }

  lemma {:induction false} SocketCount(t: Tables, xs: set<nat>)
    requires Inv(t) && forall x :: x in xs ==> IsMemif(t, x) && t.ifaces[x].id == 0
    ensures |SocketsOf(t, xs)| == |xs|
  {
    hide Inv, SocketOf;
    if xs != {} {
      var x :| x in xs;
      SocketCount(t, xs - {x});
      assert SocketsOf(t, xs) == SocketsOf(t, xs - {x}) + {SocketOf(t, x)};
      if SocketOf(t, x) in SocketsOf(t, xs - {x}) {
        var y :| y in xs - {x} && SocketOf(t, y) == SocketOf(t, x);
        OneMasterPerSocket(t, x, y);
        assert false;
      }
    } else {
      assert SocketsOf(t, xs) == {};
    }
  }

  /** Every newcomer serves one missing socket, and a served socket stays served. */
  lemma MissingAfter(t: Tables, t': Tables, prefixes: seq<string>, want: set<string>)
    requires Attempt(t, t', prefixes, want) && AllInScope(want, prefixes) && Inv(t')
    ensures Missing(t', prefixes, want) == Missing(t, prefixes, want) - SocketsOf(t', Came(t, t'))
    ensures SocketsOf(t', Came(t, t')) <= Missing(t, prefixes, want)
    ensures |SocketsOf(t', Came(t, t'))| == |Came(t, t')|
  {
    NewcomersManaged(t, t', prefixes, want);
    SocketCount(t', Came(t, t'));
    forall s | s in want ensures IsManagedSocket(t', prefixes, s) <==> IsManagedSocket(t, prefixes, s) || s in SocketsOf(t', Came(t, t')) {
      ServedAfter(t, t', prefixes, want, s);
    }
    hide Inv, IsManagedSocket, Attempt, AllInScope, SocketOf, Managed, SocketsOf, Came;
  }

  lemma NewcomersManaged(t: Tables, t': Tables, prefixes: seq<string>, want: set<string>)
    requires Attempt(t, t', prefixes, want) && AllInScope(want, prefixes)
    ensures forall x :: x in Came(t, t') ==> IsMemif(t', x) && t'.ifaces[x].id == 0 && x in Managed(t', prefixes)
    ensures SocketsOf(t', Came(t, t')) <= Missing(t, prefixes, want)
  {
    forall x | x in Came(t, t') ensures IsMemif(t', x) && t'.ifaces[x].id == 0 && x in Managed(t', prefixes)
      && SocketOf(t', x) in Missing(t, prefixes, want)
    {
      NewcomerManaged(t, t', prefixes, want, x);
    }
    hide Attempt, AllInScope, Managed, Came, Missing;
  }

  lemma ServedAfter(t: Tables, t': Tables, prefixes: seq<string>, want: set<string>, s: string)
    requires Attempt(t, t', prefixes, want) && AllInScope(want, prefixes) && s in want
    requires forall x :: x in Came(t, t') ==> IsMemif(t', x) && x in Managed(t', prefixes)
    ensures IsManagedSocket(t', prefixes, s) <==> IsManagedSocket(t, prefixes, s) || s in SocketsOf(t', Came(t, t'))
  {
    if IsManagedSocket(t, prefixes, s) {
      var x :| x in Managed(t, prefixes) && SocketOf(t, x) == s;
      assert x in t'.ifaces;
      SurvivorManaged(t, t', prefixes, want, x);
    }
    if IsManagedSocket(t', prefixes, s) {
      var x :| x in Managed(t', prefixes) && SocketOf(t', x) == s;
      if x in t.ifaces {
        SurvivorManaged(t, t', prefixes, want, x);
      }
    }
    if s in SocketsOf(t', Came(t, t')) {
      var x :| x in Came(t, t') && SocketOf(t', x) == s;
      assert x in Managed(t', prefixes);
    }
  }

  /** Each attempt, cut off or not, comes closer by exactly the interfaces it created and deleted. */
  lemma AttemptProgress(t: Tables, t': Tables, prefixes: seq<string>, want: set<string>)
    requires Attempt(t, t', prefixes, want) && AllInScope(want, prefixes) && Inv(t')
    ensures Distance(t', prefixes, want) + |Came(t, t')| + |Came(t', t)| == Distance(t, prefixes, want)
  {
    OrphansAfter(t, t', prefixes, want);
    MissingAfter(t, t', prefixes, want);
    hide Attempt, Inv, AllInScope, IsManagedSocket, Orphans, Missing, SocketsOf, Came;
    SubsetMinus(Missing(t, prefixes, want), SocketsOf(t', Came(t, t')));
    SubsetMinus(Orphans(t, prefixes, want), Came(t', t));
  }

  lemma SubsetMinus<T>(a: set<T>, b: set<T>)
    requires b <= a
    ensures |a - b| == |a| - |b|
  {
  }

  // ----- Retries

  /** A sequence of reconciles of one intent, with no guard and nothing in between; `stages` says
      how far each of them came. */
  ghost predicate IsRetry(ws: seq<World>, prefixes: seq<string>, grace: int, desired: seq<Memif>, now: int, stages: seq<Stage>) {
    && |ws| == |stages| + 1
    && forall i :: 0 <= i < |stages| ==> Reconciled(ws[i], ws[i + 1], prefixes, grace, false, desired, now, stages[i])
  }

  ghost function Work(ws: seq<World>): nat {
    if |ws| < 2 then 0
    else Work(ws[..|ws| - 1]) + |Came(ws[|ws| - 2].vpp, ws[|ws| - 1].vpp)| + |Came(ws[|ws| - 1].vpp, ws[|ws| - 2].vpp)|
  }

  /** Over any number of retries, however many of them fail, the interfaces created and deleted
      in all are bounded by the distance at the start. */
  lemma {:induction false} BoundedWork(ws: seq<World>, prefixes: seq<string>, grace: int, desired: seq<Memif>, now: int, stages: seq<Stage>)
    requires IsRetry(ws, prefixes, grace, desired, now, stages) && AllInScope(Sockets(desired), prefixes)
    ensures Work(ws) + Distance(ws[|stages|].vpp, prefixes, Sockets(desired)) == Distance(ws[0].vpp, prefixes, Sockets(desired))
    decreases |stages|
  {
    hide Reconciled, AllInScope, Distance, Came;
    var n := |stages|;
    if n > 0 {
      assert IsRetry(ws[..n], prefixes, grace, desired, now, stages[..n - 1]);
      BoundedWork(ws[..n], prefixes, grace, desired, now, stages[..n - 1]);
      assert Reconciled(ws[n - 1], ws[n], prefixes, grace, false, desired, now, stages[n - 1]);
      ReconciledAttempt(ws[n - 1], ws[n], prefixes, grace, desired, now, stages[n - 1]);
      AttemptProgress(ws[n - 1].vpp, ws[n].vpp, prefixes, Sockets(desired));
    }
  }

  lemma ReconciledAttempt(w: World, w': World, prefixes: seq<string>, grace: int, desired: seq<Memif>, now: int, stage: Stage)
    requires Reconciled(w, w', prefixes, grace, false, desired, now, stage)
    ensures Attempt(w.vpp, w'.vpp, prefixes, Sockets(desired)) && Inv(w'.vpp)
  {
  }

  /** The managed sockets are exactly the wanted ones. */
  ghost predicate Converged(t: Tables, prefixes: seq<string>, want: set<string>) {
    forall s :: IsManagedSocket(t, prefixes, s) <==> s in want
  }

  lemma ConvergedAtZero(t: Tables, prefixes: seq<string>, want: set<string>)
    ensures Distance(t, prefixes, want) == 0 <==> Converged(t, prefixes, want)
  {
    assert |Missing(t, prefixes, want)| == 0 <==> Missing(t, prefixes, want) == {};
    assert |Orphans(t, prefixes, want)| == 0 <==> Orphans(t, prefixes, want) == {};
    hide InScope;
    if Converged(t, prefixes, want) {
      assert Missing(t, prefixes, want) == {};
      forall x | x in Managed(t, prefixes) ensures SocketOf(t, x) in want {
        assert IsManagedSocket(t, prefixes, SocketOf(t, x));
      }
    }
    if Distance(t, prefixes, want) == 0 {
      forall s | s in want ensures IsManagedSocket(t, prefixes, s) {
        assert s !in Missing(t, prefixes, want);
      }
      forall s | IsManagedSocket(t, prefixes, s) ensures s in want {
        var x :| x in Managed(t, prefixes) && SocketOf(t, x) == s;
        assert x !in Orphans(t, prefixes, want);
      }
    }
  }

  /** One completed attempt, after any number of failed ones, reaches socket-set equality. */
  lemma CompleteConverges(w: World, w': World, prefixes: seq<string>, grace: int, desired: seq<Memif>, now: int)
    requires Reconciled(w, w', prefixes, grace, false, desired, now, Completed) && AllInScope(Sockets(desired), prefixes)
    ensures Converged(w'.vpp, prefixes, Sockets(desired))
  {
    var want := Sockets(desired);
    ReconciledAttempt(w, w', prefixes, grace, desired, now, Completed);
    forall s | s in want ensures IsManagedSocket(w'.vpp, prefixes, s) {
      var m :| m in desired && m.socket == s;
      WantedServed(w, w', prefixes, grace, false, desired, now, m);
    }
    NoOrphansLeft(w, w', prefixes, grace, desired, now);
    hide Reconciled;
    forall s | IsManagedSocket(w'.vpp, prefixes, s) ensures s in want {
      var x :| x in Managed(w'.vpp, prefixes) && SocketOf(w'.vpp, x) == s;
      assert x !in Orphans(w'.vpp, prefixes, want);
    }
  }

  lemma WantedServed(w: World, w': World, prefixes: seq<string>, grace: int, gated: bool, desired: seq<Memif>, now: int, m: Memif)
    requires Reconciled(w, w', prefixes, grace, gated, desired, now, Completed) && AllInScope(Sockets(desired), prefixes) && m in desired
    ensures IsManagedSocket(w'.vpp, prefixes, m.socket)
  {
    hide OrphansHandled, FilesHandled, InScope, Inv;
    var want := Sockets(desired);
    assert m.socket in want;
    if IsManagedSocket(w.vpp, prefixes, m.socket) {
      var x :| x in Managed(w.vpp, prefixes) && SocketOf(w.vpp, x) == m.socket;
      assert x in w'.vpp.ifaces;
      SurvivorManaged(w.vpp, w'.vpp, prefixes, want, x);
    } else {
      assert Restored(w.vpp, w'.vpp, m);
      var x :| x !in w.vpp.ifaces && Configured(w'.vpp, x, RestoreRequest(m));
      assert x in Came(w.vpp, w'.vpp);
      NewcomerManaged(w.vpp, w'.vpp, prefixes, want, x);
    }
  }

  lemma NoOrphansLeft(w: World, w': World, prefixes: seq<string>, grace: int, desired: seq<Memif>, now: int)
    requires Reconciled(w, w', prefixes, grace, false, desired, now, Completed) && AllInScope(Sockets(desired), prefixes)
    ensures Orphans(w'.vpp, prefixes, Sockets(desired)) == {}
  {
    hide FilesHandled, Inv, Sockets, AllInScope;
    OrphansAfter(w.vpp, w'.vpp, prefixes, Sockets(desired));
    hide Attempt, Managed;
    assert forall x :: x in Orphans(w.vpp, prefixes, Sockets(desired)) ==> x in Came(w'.vpp, w.vpp) by {
      OrphansAreIfaces(w.vpp, prefixes, Sockets(desired));
    }
  }

  /** Converged is stable: any later attempt, whatever becomes of it, creates and deletes nothing. */
  lemma ConvergedIsStable(w: World, w': World, prefixes: seq<string>, grace: int, desired: seq<Memif>, now: int, stage: Stage)
    requires Reconciled(w, w', prefixes, grace, false, desired, now, stage) && AllInScope(Sockets(desired), prefixes)
    requires Converged(w.vpp, prefixes, Sockets(desired))
    ensures w'.vpp.ifaces == w.vpp.ifaces && Converged(w'.vpp, prefixes, Sockets(desired))
  {
    hide OrphansHandled, FilesHandled, Sockets, AllInScope, Converged, Distance, IsManagedSocket, Orphans;
    var want := Sockets(desired);
    ReconciledAttempt(w, w', prefixes, grace, desired, now, stage);
    AttemptProgress(w.vpp, w'.vpp, prefixes, want);
    ConvergedAtZero(w.vpp, prefixes, want);
    ConvergedAtZero(w'.vpp, prefixes, want);
    assert Came(w.vpp, w'.vpp) == {} && Came(w'.vpp, w.vpp) == {};
    assert w'.vpp.ifaces.Keys == w.vpp.ifaces.Keys;
    forall x | x in w.vpp.ifaces ensures w'.vpp.ifaces[x] == w.vpp.ifaces[x] {
      assert SameIface(w.vpp, w'.vpp, x);
    }
  }

  // ----- With the guard

  /** After a completed guarded reconcile the managed sockets are the wanted ones and those of
      the orphans that stayed; of an orphan that is alone on its socket, exactly if the guard
      had to keep it. */
  lemma GuardedResult(w: World, w': World, prefixes: seq<string>, grace: int, desired: seq<Memif>, now: int, s: string)
    requires Reconciled(w, w', prefixes, grace, true, desired, now, Completed) && AllInScope(Sockets(desired), prefixes)
    ensures IsManagedSocket(w'.vpp, prefixes, s) <==>
              s in Sockets(desired) || exists x :: x in Orphans(w.vpp, prefixes, Sockets(desired)) && x in w'.vpp.ifaces && SocketOf(w.vpp, x) == s
    ensures !TwoOrphans(w.vpp, prefixes, Sockets(desired), s) ==>
              (IsManagedSocket(w'.vpp, prefixes, s) <==>
                 s in Sockets(desired) || (IsOrphanSocket(w.vpp, prefixes, Sockets(desired), s) && !MayGo(w, grace, s)))
  {
    var want := Sockets(desired);
    StayedManaged(w, w', prefixes, grace, desired, now, s);
    hide IsManagedSocket, FilesHandled, StageFits, Inv, Sockets, InScope, Streak, TwoOrphans, Attempt, MayGo;
    if !TwoOrphans(w.vpp, prefixes, want, s) && IsOrphanSocket(w.vpp, prefixes, want, s) {
      OrphansUnwanted(w.vpp, prefixes, want);
      var x :| x in Orphans(w.vpp, prefixes, want) && SocketOf(w.vpp, x) == s;
      Decided(w, w', prefixes, grace, want, x);
      OnlyOrphan(w.vpp, prefixes, want, x);
    }
  }

  lemma OnlyOrphan(t: Tables, prefixes: seq<string>, want: set<string>, x: nat)
    requires x in Orphans(t, prefixes, want) && IsMemif(t, x) && !TwoOrphans(t, prefixes, want, SocketOf(t, x))
    ensures forall y :: y in Orphans(t, prefixes, want) && SocketOf(t, y) == SocketOf(t, x) ==> y == x
  {
    hide InScope;
  }

  lemma StayedManaged(w: World, w': World, prefixes: seq<string>, grace: int, desired: seq<Memif>, now: int, s: string)
    requires Reconciled(w, w', prefixes, grace, true, desired, now, Completed) && AllInScope(Sockets(desired), prefixes)
    ensures IsManagedSocket(w'.vpp, prefixes, s) <==>
              s in Sockets(desired) || exists x :: x in Orphans(w.vpp, prefixes, Sockets(desired)) && x in w'.vpp.ifaces && SocketOf(w.vpp, x) == s
  {
    var want := Sockets(desired);
    if s in want {
      var m :| m in desired && m.socket == s;
      WantedServed(w, w', prefixes, grace, true, desired, now, m);
    } else {
      hide FilesHandled, StageFits, OrphansHandled, Inv, Sockets, InScope;
      if IsManagedSocket(w'.vpp, prefixes, s) {
        var x :| x in Managed(w'.vpp, prefixes) && SocketOf(w'.vpp, x) == s;
        assert x in w.vpp.ifaces;
        SurvivorManaged(w.vpp, w'.vpp, prefixes, want, x);
        assert x in Orphans(w.vpp, prefixes, want);
      }
      if x :| x in Orphans(w.vpp, prefixes, want) && x in w'.vpp.ifaces && SocketOf(w.vpp, x) == s {
        SurvivorManaged(w.vpp, w'.vpp, prefixes, want, x);
      }
    }
  }

  // ----- What retrying does not repair

  /** A managed master on a wanted socket is never touched again, so a create that failed after
      its interface existed leaves that interface down, without MTU or bridge, for good. */
  lemma {:induction false} HalfConfiguredStays(ws: seq<World>, prefixes: seq<string>, grace: int, desired: seq<Memif>,
                                               now: int, stages: seq<Stage>, x: nat)
    requires IsRetry(ws, prefixes, grace, desired, now, stages)
    requires x in Managed(ws[0].vpp, prefixes) && SocketOf(ws[0].vpp, x) in Sockets(desired)
    ensures SameIface(ws[0].vpp, ws[|stages|].vpp, x)
    decreases |stages|
  {
    hide Reconciled, Sockets, InScope;
    var n := |stages|;
    if n > 0 {
      assert IsRetry(ws[..n], prefixes, grace, desired, now, stages[..n - 1]);
      HalfConfiguredStays(ws[..n], prefixes, grace, desired, now, stages[..n - 1], x);
      assert Reconciled(ws[n - 1], ws[n], prefixes, grace, false, desired, now, stages[n - 1]);
      ReconciledAttempt(ws[n - 1], ws[n], prefixes, grace, desired, now, stages[n - 1]);
      assert x !in Orphans(ws[n - 1].vpp, prefixes, Sockets(desired));
      assert SameIface(ws[n - 1].vpp, ws[n].vpp, x);
      SameTransitive(ws[0].vpp, ws[n - 1].vpp, ws[n].vpp, x);
    }
  }

  /** A managed master is exactly what `m` asks for. */
  ghost predicate IsRepaired(t: Tables, prefixes: seq<string>, m: Memif) {
    exists x :: x in Managed(t, prefixes) && Configured(t, x, RestoreRequest(m))
  }

  /** When a reconcile repairs: after a completed one a wanted master is as asked if and only if
      no managed master was on its socket before, or one that was there was so already. */
  lemma RepairedExactly(w: World, w': World, prefixes: seq<string>, grace: int, gated: bool, desired: seq<Memif>, now: int, m: Memif)
    requires Reconciled(w, w', prefixes, grace, gated, desired, now, Completed) && m in desired && InScope(m.socket, prefixes)
    ensures IsRepaired(w'.vpp, prefixes, m) <==> !IsManagedSocket(w.vpp, prefixes, m.socket) || IsRepaired(w.vpp, prefixes, m)
  {
    hide OrphansHandled, FilesHandled, InScope, Inv, Sockets;
    assert m.socket in Sockets(desired) by {
      InSockets(desired, m);
    }
    if !IsManagedSocket(w.vpp, prefixes, m.socket) {
      FreshlyRestored(w.vpp, w'.vpp, prefixes, m);
    } else {
      if IsRepaired(w.vpp, prefixes, m) {
        var x :| x in Managed(w.vpp, prefixes) && Configured(w.vpp, x, RestoreRequest(m));
        StaysAsItWas(w.vpp, w'.vpp, prefixes, Sockets(desired), x, m);
      }
      if IsRepaired(w'.vpp, prefixes, m) {
        var x :| x in Managed(w'.vpp, prefixes) && Configured(w'.vpp, x, RestoreRequest(m));
        WasAsItIs(w.vpp, w'.vpp, prefixes, Sockets(desired), x, m);
      }
    }
  }

  lemma InSockets(ms: seq<Memif>, m: Memif)
    requires m in ms
    ensures m.socket in Sockets(ms)
  {
  }

  lemma FreshlyRestored(t: Tables, t': Tables, prefixes: seq<string>, m: Memif)
    requires Restored(t, t', m) && InScope(m.socket, prefixes)
    ensures IsRepaired(t', prefixes, m)
  {
    hide InScope;
    var x :| x !in t.ifaces && Configured(t', x, RestoreRequest(m));
    assert x in Managed(t', prefixes);
  }

  lemma StaysAsItWas(t: Tables, t': Tables, prefixes: seq<string>, want: set<string>, x: nat, m: Memif)
    requires Attempt(t, t', prefixes, want) && m.socket in want
    requires x in Managed(t, prefixes) && Configured(t, x, RestoreRequest(m))
    ensures IsRepaired(t', prefixes, m)
  {
    hide InScope;
    assert x !in Orphans(t, prefixes, want);
    SurvivorManaged(t, t', prefixes, want, x);
    ConfiguredSame(t, t', x, RestoreRequest(m));
  }

  lemma WasAsItIs(t: Tables, t': Tables, prefixes: seq<string>, want: set<string>, x: nat, m: Memif)
    requires Attempt(t, t', prefixes, want) && IsManagedSocket(t, prefixes, m.socket)
    requires x in Managed(t', prefixes) && Configured(t', x, RestoreRequest(m))
    ensures IsRepaired(t, prefixes, m)
  {
    hide InScope;
    assert SocketOf(t', x) == m.socket;
    assert x in t.ifaces;
    SurvivorManaged(t, t', prefixes, want, x);
    assert SameIface(t, t', x);
    SameBack(t, t', x);
    ConfiguredSame(t', t, x, RestoreRequest(m));
  }

  lemma SameBack(t: Tables, t': Tables, x: nat)
    requires SameIface(t, t', x)
    ensures SameIface(t', t, x)
  {
  }

  /** One attempt, wherever it stopped, repairs no wanted master whose socket is served otherwise. */
  lemma UnrepairedStep(t: Tables, t': Tables, prefixes: seq<string>, want: set<string>, m: Memif)
    requires Attempt(t, t', prefixes, want) && m.socket in want
    requires IsManagedSocket(t, prefixes, m.socket) && !IsRepaired(t, prefixes, m)
    ensures IsManagedSocket(t', prefixes, m.socket) && !IsRepaired(t', prefixes, m)
  {
    var x :| x in Managed(t, prefixes) && SocketOf(t, x) == m.socket;
    assert x !in Orphans(t, prefixes, want);
    SurvivorManaged(t, t', prefixes, want, x);
    hide Attempt, InScope, IsManaged, Configured, Orphans;
    if IsRepaired(t', prefixes, m) {
      var y :| y in Managed(t', prefixes) && Configured(t', y, RestoreRequest(m));
      WasAsItIs(t, t', prefixes, want, y, m);
    }
  }

  /** So once a create stopped half way, no number of retries repairs that master. */
  lemma {:induction false} NeverRepaired(ws: seq<World>, prefixes: seq<string>, grace: int, desired: seq<Memif>,
                                         now: int, stages: seq<Stage>, m: Memif)
    requires IsRetry(ws, prefixes, grace, desired, now, stages) && m in desired
    requires IsManagedSocket(ws[0].vpp, prefixes, m.socket) && !IsRepaired(ws[0].vpp, prefixes, m)
    ensures IsManagedSocket(ws[|stages|].vpp, prefixes, m.socket) && !IsRepaired(ws[|stages|].vpp, prefixes, m)
    decreases |stages|
  {
    hide Reconciled, Sockets, IsManagedSocket, IsRepaired;
    var n := |stages|;
    if n > 0 {
      assert IsRetry(ws[..n], prefixes, grace, desired, now, stages[..n - 1]);
      NeverRepaired(ws[..n], prefixes, grace, desired, now, stages[..n - 1], m);
      assert Reconciled(ws[n - 1], ws[n], prefixes, grace, false, desired, now, stages[n - 1]);
      ReconciledAttempt(ws[n - 1], ws[n], prefixes, grace, desired, now, stages[n - 1]);
      InSockets(desired, m);
      UnrepairedStep(ws[n - 1].vpp, ws[n].vpp, prefixes, Sockets(desired), m);
    }
  }
}
