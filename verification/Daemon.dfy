/** The reconciler: one round of restore and garbage collection. */
module Daemon {
  import opened Vpp
  import opened Rounds
  import opened Dataplane
  import opened Reconcile
  import opened Desired
  import opened Wrappers
  import Nads
  import Paths
  import M = MemifApi

  class Reconciler {
    const dp: VppDataplane
    /** How many consecutive rounds a socket-present orphan must persist; 0 keeps it until its socket is gone. */
    const grace: int
    var orphanSeen: map<string, OrphanRound>
    var round: nat
    /** The rounds so far, the last one being the current one. */
    ghost var history: seq<Round>

    ghost predicate Valid()
      reads this
    {
      round == |history| && Tracks(orphanSeen, history, grace)
    }

    ghost function Snapshot(): World
      reads this, dp.ch
    {
      World(dp.ch.vpp, dp.ch.files, history)
    }

    constructor (dp: VppDataplane, grace: int)
      ensures Valid() && this.dp == dp && this.grace == grace && history == []
    {
      this.dp, this.grace, orphanSeen, round, history := dp, grace, map[], 0, [];
    }

    /** May this orphan go? Yes when its socket file is gone; with the file there, exactly when
        the streak of rounds that refused its socket reaches, with this visit, a positive grace. */
    method ShouldGC(m: Memif) returns (del: bool)
      requires Valid() && round > 0
      modifies this`orphanSeen, this`history
      ensures Valid()
      ensures Judged(old(Snapshot()), history, grace, true, m.socket, del)
      ensures m.socket == "" || m.socket !in dp.ch.files ==> del
      ensures m.socket != "" && m.socket in dp.ch.files && del ==> grace > 0
    {
      hide Tracks, Streak;
      var s := m.socket;
      if !Present(dp.ch.files, s) {
        TracksGivenUp(orphanSeen, history, grace, s);
        orphanSeen := orphanSeen - {s};
        history := Visit(history, s, false);
        return true;
      }
      if grace <= 0 {
        TracksUncounted(orphanSeen, history, grace, s);
        history := Visit(history, s, true);
        return false;
      }
      var rec := if s in orphanSeen then orphanSeen[s] else OrphanRound(0, 0);
      if rec.lastRound == round - 1 {
        rec := rec.(count := rec.count + 1);
      } else {
        rec := rec.(count := 1);
      }
      rec := rec.(lastRound := round);
      assert rec == OrphanRound(NextCount(orphanSeen, round, s), round);
      NextCountExact(orphanSeen, history, grace, s);
      if rec.count >= grace {
        TracksGivenUp(orphanSeen, history, grace, s);
        assert orphanSeen[s := rec] - {s} == orphanSeen - {s};
        orphanSeen := orphanSeen[s := rec];
        orphanSeen := orphanSeen - {s};
        history := Visit(history, s, false);
        return true;
      }
      TracksRefused(orphanSeen, history, grace, s);
      orphanSeen := orphanSeen[s := rec];
      history := Visit(history, s, true);
      return false;
    }

    /** Puts one orphan to the guard, if there is one, and deletes it if it may go. */
    method Collect(m: Memif, gated: bool) returns (del: bool, ok: bool)
      requires Valid() && round > 0 && Inv(dp.ch.vpp) && IsMemif(dp.ch.vpp, m.swIfIndex)
      modifies this`orphanSeen, this`history, dp.ch
      ensures Valid() && Inv(dp.ch.vpp) && dp.ch.lost >= old(dp.ch.lost)
      ensures dp.ch.lost == old(dp.ch.lost) ==> ok && (del && m.socket != "" ==> m.socket !in dp.ch.files)
      ensures Collected(old(Snapshot()), Snapshot(), grace, gated, m, del, ok)
    {
      hide Inv, Tracks, GivesUp;
      del, ok := true, true;
      if gated {
        del := ShouldGC(m);
        if !del {
          return;
        }
      }
      ok := dp.DeleteMaster(m);
      DeletedGone(old(dp.ch.vpp), dp.ch.vpp, m.swIfIndex);
    }

    lemma DeletedGone(t: Tables, t': Tables, x: nat)
      ensures M.Deleted(t, t', x) ==> x !in t'.ifaces
      ensures IsMemif(t, x) && t' == t ==> IsMemif(t', x)
    {
    }

    /** The delete loop: stops at the first failing delete. */
    method DeleteOrphans(toDelete: seq<Memif>, gated: bool)
      returns (deleted: nat, ok: bool, ghost done: seq<Memif>, ghost gone: set<nat>)
      requires Valid() && round > 0 && Inv(dp.ch.vpp)
      requires Now(Snapshot()) == NEW_ROUND
      requires forall m :: m in toDelete ==> IsMemif(dp.ch.vpp, m.swIfIndex)
      requires forall j, k :: 0 <= j < k < |toDelete| ==> toDelete[j].swIfIndex != toDelete[k].swIfIndex
      modifies this`orphanSeen, this`history, dp.ch
      ensures Valid() && Inv(dp.ch.vpp) && dp.ch.lost >= old(dp.ch.lost)
      ensures dp.ch.lost == old(dp.ch.lost) ==> ok && FilesGone(done, gone, dp.ch.files)
      ensures done <= toDelete && Progress(old(Snapshot()), Snapshot(), grace, gated, done, gone, ok)
      ensures ok ==> done == toDelete
      ensures deleted <= |gone| <= deleted + if ok then 0 else 1
    {
      hide Inv, Tracks, Progress, Collected, Fair, Full, Standing;
      ghost var w0 := Snapshot();
      deleted, ok, done, gone := 0, true, [], {};
      ProgressNone(w0, grace, gated);
      var i := 0;
      while i < |toDelete|
        invariant 0 <= i <= |toDelete| && ok && done == toDelete[..i]
        invariant Valid() && Inv(dp.ch.vpp) && dp.ch.lost >= old(dp.ch.lost)
        invariant dp.ch.lost == old(dp.ch.lost) ==> FilesGone(done, gone, dp.ch.files)
        invariant Progress(w0, Snapshot(), grace, gated, done, gone, true)
        invariant deleted == |gone|
      {
        var m := toDelete[i];
        ghost var w := Snapshot();
        StillThere(w0, w, grace, gated, toDelete, i, gone);
        var del;
        del, ok := Collect(m, gated);
        ghost var gone' := ProgressStep(w0, w, Snapshot(), grace, gated, done, gone, m, del, ok);
        FilesGoneStep(w, Snapshot(), grace, gated, done, gone, m, del, ok, gone', dp.ch.lost == old(dp.ch.lost));
        gone := gone';
        assert toDelete[..i + 1] == toDelete[..i] + [m];
        done := done + [m];
        if !ok {
          return;
        }
        if del {
          deleted := deleted + 1;
        }
        i := i + 1;
      }
    }

    lemma FilesGoneStep(w: World, w': World, grace: int, gated: bool, done: seq<Memif>, gone: set<nat>, m: Memif, del: bool, ok: bool,
                        gone': set<nat>, kept: bool)
      requires w.history != [] && Collected(w, w', grace, gated, m, del, ok) && m.swIfIndex !in Indices(done)
      requires gone' == gone || (del && gone' == gone + {m.swIfIndex})
      requires kept ==> FilesGone(done, gone, w.files) && (del && m.socket != "" ==> m.socket !in w'.files)
      requires m.swIfIndex !in gone
      ensures kept ==> FilesGone(done + [m], gone', w'.files)
    {
      hide Judged;
      assert forall n :: n in done ==> n.swIfIndex in Indices(done);
    }

    /** The create loop: stops at the first failing create, the last of those it tried. */
    method CreateMissing(toCreate: seq<Memif>)
      returns (created: nat, ok: bool, ghost tried: seq<Memif>, ghost names: set<string>, ghost added: set<nat>, ghost half: set<nat>)
      requires Valid() && Inv(dp.ch.vpp)
      modifies dp.ch
      ensures Valid() && dp.ch.lost >= old(dp.ch.lost)
      ensures dp.ch.lost == old(dp.ch.lost) && |old(dp.ch.vpp).sockets| + |toCreate| <= MAX_SOCKETS ==>
                (ok <==> Serviceable(old(dp.ch.vpp), toCreate))
      ensures Creates(old(Snapshot()), Snapshot(), tried, names, added, half, ok)
      ensures tried <= toCreate && (ok ==> tried == toCreate && half == {})
      ensures |added| == created + |half| && |half| <= 1
    {
      hide Tracks, Creates, Inv, Grown, Configured, HalfConfigured, Serviceable, Vacant, OnlyTouched, Sockets;
      ghost var w0 := Snapshot();
      NothingServiceable(w0.vpp);
      created, ok, tried, names, added, half := 0, true, [], {}, {}, {};
      CreatesNone(w0);
      var i := 0;
      while i < |toCreate|
        invariant 0 <= i <= |toCreate| && ok && half == {} && tried == toCreate[..i]
        invariant Valid() && Inv(dp.ch.vpp) && dp.ch.lost >= old(dp.ch.lost)
        invariant |dp.ch.vpp.sockets| <= |old(dp.ch.vpp).sockets| + i
        invariant dp.ch.lost == old(dp.ch.lost) ==> Serviceable(w0.vpp, tried)
        invariant Creates(w0, Snapshot(), tried, names, added, half, true) && |added| == created
      {
        var m := toCreate[i];
        ghost var w := Snapshot();
        ghost var x;
        VacantAfter(w0, w, tried, names, added, m.socket);
        ServiceableSnoc(w0.vpp, tried, m);
        ok, x := dp.CreateMaster(m);
        added, half := CreatesStep(w0, w, Snapshot(), tried, names, added, m, x, ok);
        names := names + {m.socket};
        assert toCreate[..i + 1] == toCreate[..i] + [m];
        tried := tried + [m];
        if !ok {
          if Serviceable(w0.vpp, toCreate) {
            ServiceablePrefix(w0.vpp, toCreate, tried);
          }
          return;
        }
        created := created + 1;
        i := i + 1;
      }
    }

    /** The second half of a reconcile: the deletes and, when none of them failed, the sweep,
        whose own failures are ignored. `w2` is the world between the two. */
    method DeleteAndSweep(toDelete: seq<Memif>, gated: bool, desired: seq<Memif>, actual: seq<Memif>, now: int)
      returns (deleted: nat, ok: bool, ghost done: seq<Memif>, ghost gone: set<nat>, ghost swept: set<string>, ghost w2: World)
      requires Valid() && round > 0 && Inv(dp.ch.vpp)
      requires Now(Snapshot()) == NEW_ROUND && CanonicalFiles(dp.ch.files)
      requires forall m :: m in toDelete ==> IsMemif(dp.ch.vpp, m.swIfIndex)
      requires forall j, k :: 0 <= j < k < |toDelete| ==> toDelete[j].swIfIndex != toDelete[k].swIfIndex
      modifies this`orphanSeen, this`history, dp.ch
      ensures Valid() && CanonicalFiles(dp.ch.files) && dp.ch.lost >= old(dp.ch.lost)
      ensures dp.ch.lost == old(dp.ch.lost) ==>
                && ok && FilesGone(done, gone, dp.ch.files)
                && forall p :: !Sweepable(dp.ch.files, Sockets(desired) + Sockets(actual), now, p)
      ensures done <= toDelete && Progress(old(Snapshot()), w2, grace, gated, done, gone, ok)
      ensures ok ==> done == toDelete
      ensures deleted <= |gone| <= deleted + if ok then 0 else 1
      ensures Inv(w2.vpp) && dp.ch.vpp == w2.vpp && history == w2.history && dp.ch.files == w2.files - swept
      ensures if ok then forall p :: p in swept ==> Sweepable(w2.files, Sockets(desired) + Sockets(actual), now, p) else swept == {}
    {
      hide Tracks, Inv, Progress, Sockets, Sweepable, Paths.Canonical;
      ghost var w1 := Snapshot();
      deleted, ok, done, gone := DeleteOrphans(toDelete, gated);
      w2, swept := Snapshot(), {};
      FilesShrink(w1, w2, grace, gated, done, gone, ok);
      if ok {
        var keep := Names(desired);
        var used := Names(actual);
        var _, gone' := dp.SweepOrphanSockets(keep + used, now);
        swept := gone';
        if dp.ch.lost == old(dp.ch.lost) {
          SweptClean(w2.files, keep + used, now, swept);
        }
      }
    }

    method Dump() returns (ok: bool, actual: seq<Memif>)
      requires Valid() && Inv(dp.ch.vpp)
      modifies dp.ch`lost
      ensures dp.ch.lost >= old(dp.ch.lost) && (ok <==> dp.ch.lost == old(dp.ch.lost))
      ensures ok ==> IsDump(dp.ch.vpp, dp.prefixes, actual)
    {
      hide IsDump;
      ok, actual := dp.DumpMasters();
    }

    /** Dump, create what is missing, delete what is orphaned and may go, sweep. It stops at the
        first error of the dataplane. */
    method Reconcile(desired: seq<Memif>, gated: bool, now: int)
      returns (created: nat, deleted: nat, ok: bool, ghost stage: Stage)
      requires Valid() && round > 0 && Now(Snapshot()) == NEW_ROUND && Inv(dp.ch.vpp)
      requires CanonicalFiles(dp.ch.files) && forall m :: m in desired ==> Paths.Canonical(m.socket)
      modifies this`orphanSeen, this`history, dp.ch
      ensures Valid()
      ensures Reconciled(old(Snapshot()), Snapshot(), dp.prefixes, grace, gated, desired, now, stage)
      ensures (ok <==> stage.Completed?) && !stage.AtListing?
      ensures CanonicalFiles(dp.ch.files) && dp.ch.lost >= old(dp.ch.lost)
      ensures dp.ch.lost == old(dp.ch.lost) && |old(dp.ch.vpp).sockets| + |desired| <= MAX_SOCKETS ==>
                (stage.Completed? <==> Completable(old(dp.ch.vpp), dp.prefixes, desired))
      ensures dp.ch.lost == old(dp.ch.lost) && stage.Completed? ==>
                Tidy(old(dp.ch.vpp), dp.ch.vpp, dp.ch.files, dp.prefixes, Sockets(desired), now)
      ensures Tallies(old(dp.ch.vpp), dp.ch.vpp, created, deleted, stage)
    {
      hide Tracks, Inv, Reconciled, Creates, Added, Restored, Newcomers, Progress, Sockets, Without, IsDump, Sweepable, Paths.Canonical,
           Completable, Serviceable, Tidy, FilesGone, SocketOf, InScope;
      ghost var w0 := Snapshot();
      created, deleted, stage := 0, 0, AtDump;
      var actual;
      ok, actual := Dump();
      if !ok {
        DumpFailed(w0, dp.prefixes, grace, gated, desired, now);
        return;
      }
      CompletableMeans(w0.vpp, dp.prefixes, actual, desired);
      WithoutLength(desired, Sockets(actual));
      var toCreate, toDelete := Diff(desired, actual);
      ghost var tried, names, added, half, done, gone, swept, w2;
      created, ok, tried, names, added, half := CreateMissing(toCreate);
      ghost var w1 := Snapshot();
      AddedFacts(w0, w1, desired, Sockets(actual), tried, names, added, half, ok);
      ProgressNone(w1, grace, gated);
      if !ok {
        stage := AtCreate;
        ReconcileDone(w0, w1, w1, w1, dp.prefixes, grace, gated, actual, desired, tried, names, added, half, [], {}, {}, now, stage);
        return;
      }
      OrphansThere(w0, w1, dp.prefixes, actual, desired, names, added, half);
      deleted, ok, done, gone, swept, w2 := DeleteAndSweep(toDelete, gated, desired, actual, now);
      stage := if ok then Completed else AtDelete;
      ReconcileDone(w0, w1, w2, Snapshot(), dp.prefixes, grace, gated, actual, desired, tried, names, added, half, done, gone, swept, now, stage);
      if dp.ch.lost == old(dp.ch.lost) {
        TidyFrom(w0, w1, w2, dp.ch.files, dp.ch.vpp, dp.prefixes, grace, gated, actual, desired, done, gone, now);
      }
    }

    /** One round: list the pods, derive their masters with NADs read at most once each, and
        reconcile. A pod that cannot be evaluated is skipped. A failed listing still counts as
        a round, in which nothing is put to the guard. `seen` is what the memo made of `nads`:
        the same, unless two references share a key. */
    method Sync(lib: Library, listing: Option<seq<Pod>>, nads: Lookup, now: int)
      returns (created: nat, deleted: nat, ok: bool, ghost stage: Stage, ghost seen: Lookup)
      requires Valid() && Inv(dp.ch.vpp) && CanonicalFiles(dp.ch.files)
      modifies this, dp.ch
      ensures Valid() && Inv(dp.ch.vpp) && CanonicalFiles(dp.ch.files)
      ensures Synced(old(Snapshot()), Snapshot(), dp.prefixes, grace, lib, listing, seen, now, stage)
      ensures (ok <==> stage.Completed?) && Nads.Memoized(nads, seen)
      ensures Tallies(old(dp.ch.vpp), dp.ch.vpp, created, deleted, stage)
      ensures dp.ch.lost >= old(dp.ch.lost)
      ensures dp.ch.lost == old(dp.ch.lost) && listing.Some? ==>
                var desired := DesiredOf(lib, listing.value, seen);
                && (|old(dp.ch.vpp).sockets| + |desired| <= MAX_SOCKETS ==>
                      (stage.Completed? <==> Completable(old(dp.ch.vpp), dp.prefixes, desired)))
                && (stage.Completed? ==> Tidy(old(dp.ch.vpp), dp.ch.vpp, dp.ch.files, dp.prefixes, Sockets(desired), now))
      ensures listing.Some? && Nads.Apart(lib, listing.value) ==>
                Synced(old(Snapshot()), Snapshot(), dp.prefixes, grace, lib, listing, nads, now, stage)
    {
      hide Completable, Tidy, Sockets, Tracks, Inv, Reconciled, Nads.Apart, Nads.Memoized, DesiredForPod, Paths.Canonical;
      round := round + 1;
      TracksNewRound(orphanSeen, history, grace);
      history := history + [NEW_ROUND];
      if listing == None {
        MemoizedSelf(nads);
        return 0, 0, false, AtListing, nads;
      }
      var pods := listing.value;
      var desired;
      desired, seen := Nads.DesiredMasters(lib, pods, nads);
      AllDesiredCanonical(lib, pods, seen);
      ghost var w0 := Snapshot();
      created, deleted, ok, stage := Reconcile(desired, true, now);
      ReconciledInv(w0, Snapshot(), dp.prefixes, grace, desired, now, stage);
    }
  }

  lemma MemoizedSelf(nads: Lookup)
    ensures Nads.Memoized(nads, nads)
  {
    hide Nads.Key;
    forall ns, name ensures Nads.SaidFor(nads, ns, name, nads(ns, name)) {
      assert Nads.Key(ns, name) == Nads.Key(ns, name);
    }
  }

  lemma ReconciledInv(w0: World, w: World, prefixes: seq<string>, grace: int, desired: seq<Memif>, now: int, stage: Stage)
    requires Reconciled(w0, w, prefixes, grace, true, desired, now, stage)
    ensures Inv(w.vpp)
  {
  }

  /** The world as a round begins. */
  ghost function Begun(w: World): World {
    w.(history := w.history + [NEW_ROUND])
  }

  /** One Sync, and where it stopped. */
  ghost predicate Synced(w: World, w': World, prefixes: seq<string>, grace: int, lib: Library,
                         listing: Option<seq<Pod>>, nads: Lookup, now: int, stage: Stage)
  {
    match listing
    case None => stage.AtListing? && w' == Begun(w)
    case Some(pods) => !stage.AtListing? && Reconciled(Begun(w), w', prefixes, grace, true, DesiredOf(lib, pods, nads), now, stage)
  }
}
