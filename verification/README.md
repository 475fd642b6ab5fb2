# Userspace CNI: a verified model

The userspace CNI plugin gives pods interfaces on a node's software switch. On VPP an
interface is a memif: ADD creates the host's master, DEL removes it, and a restore daemon
puts lost masters back after a VPP restart and garbage-collects the ones no pod wants. On
Open vSwitch an interface is a vhost-user port on a bridge that comes and goes with its
ports. The project models both engines, the records that connect them and the daemon's
loops, and proves what holds over all inputs, all runs and all places where a request may
fail. Where a comment of the code promises more than the code does, the exact condition is
proved and a concrete trace shows the difference.

`dafny verify dfyconfig.toml` checks everything.

## The modules

| file | what it models |
|---|---|
| `Vpp` | VPP's tables (memif sockets, interfaces, bridge domains), the socket files, and the requests that change them; any request may be lost |
| `MemifApi`, `Bridge` | the wrappers over those requests: socket ids, reference counting, bridge domains |
| `Dataplane` | the daemon's dump, create, delete and sweep |
| `Rounds`, `Reconcile`, `Daemon` | the guard over rounds, one reconcile, and the daemon with its counters |
| `Runs`, `Convergence`, `Blocking`, `Witness` | whole runs of a node, retries, sockets on which every round stops, and counterexample traces |
| `Networks`, `Desired`, `Nads` | the Multus annotation, the masters the pods declare, and the memo of NAD reads |
| `CniVpp` | CNI ADD and DEL on VPP |
| `Annotations`, `Restore` | the configuration-data annotation, what ADD records there, and restore against ADD |
| `Ovsdb`, `Ovs`, `CniOvs` | OVSDB transactions, the OVS operations, and CNI ADD and DEL on them |
| `Watch` | when the daemon's watch loop syncs |
| `Text`, `Paths`, `Wrappers` | Go's string functions, path.Clean and path.Join, Option |

Every object the code updates in place is a class here (`Vpp.Node`, `Daemon.Reconciler`,
`Nads.NadCache`, `Annotations.PodObject`, `Ovsdb.Server`), and every loop is a loop. The
specifications are predicates on values, so that one call's contract composes into
statements about runs.

The daemon keeps a counter and a round number per orphan socket. The specification
(`Rounds.Streak`) has no counter: it looks at the history of rounds, which says what was put
to the guard, what it refused and what it saw twice. `Rounds.Tracks` says that the counter is
exactly that streak, for every socket and within a round too; `Reconciler.ShouldGC` is proved
to keep it and to answer exactly by it. `Reconcile.Reconciled` says where a round stopped,
and for each stage what it can have done.

Any request may be lost, and a lost one changes nothing. The node and the OVSDB server count
what was lost (`lost`), so the contract of every operation also says what it comes to when
nothing was: it fails exactly for the reasons the tables or the rows give, and otherwise does
all it promises.

Some results worth pointing at:

- *Safety of garbage collection over every run* (`Runs.GcSafety`): between two Syncs VPP, the
  files and the pods may change in any way; the daemon still removes a master whose socket
  file is there only after the grace's worth of consecutive rounds in which the socket was
  dumped and wanted by no pod that could be evaluated. `Reconciler.Sync` keeps to the runs'
  step relation wherever the tables it finds have the invariant `Vpp.Inv`, which every
  modelled operation of the plugin keeps, and files go by cleaned paths.
- *When exactly an orphan goes* (`Runs.GcExact`): in a completed Sync one of the orphans on a
  socket whose file is there goes if and only if the grace is positive and the streak is one
  short of it, whatever shares the socket. A round that fails before the guard restarts every
  streak (`Runs.EarlyFailureRestarts`).
- *The comment at pkg/daemon/daemon.go:108-110* says a skipped pod's master is never
  collected. It is, after as many consecutive skips as the grace: `Runs.LivePodSafety` has
  the bound, in which only the last rounds matter and the pod's annotations may change,
  `Runs.PersistentOrphanGoes` shows that it is met, and `Witness.SkippedLivePodLosesMaster`
  is a run under the default grace of 2.
- *Masters that share a socket* spoil each other's count, because the second visit of a round
  starts it afresh. While every Sync finds two orphans on the socket, its file there, one goes
  if and only if the streak had come far enough before, or the grace is at most two and there
  is a second Sync (`Runs.CrowdedGoes`). So under a larger grace they may stay for good, and
  they need not: `Witness.SharedSocketGoes` is a run under grace 3 in which one goes.
- *The comment at pkg/daemon/reconcile.go:104-105* says the next reconcile repairs a failed
  one. Sockets converge as soon as one reconcile completes, and all retries together create
  and delete at most what is missing and orphaned (`Convergence.BoundedWork`,
  `CompleteConverges`). A wanted master is
  as asked after a completed reconcile if and only if no managed master was on its socket
  before, or one there was so already (`Convergence.RepairedExactly`); so one whose create
  stopped half way stays down for good (`Witness.RetryDoesNotRepair`).
- *A round may never complete.* Where a memif the daemon does not manage, a slave or a master
  out of scope, holds memif id 0 of a wanted socket, VPP refuses the master and each round
  stops there: no later master comes back, nothing is removed, and every count starts anew
  (`Blocking.TakenStops`, `BlockedRun`). The daemon ignores the role of the host's end, so a
  pod whose host configuration says slave does this to the whole node
  (`Blocking.SlavePodBlocks`; `AddedBlocks` has the exact condition). When no request is lost a
  Sync completes exactly if there is no such socket and no two wanted masters share one that is
  not served (`Reconciler.Sync`, `Blocking.CompletesExactly`).
- *Nobody else's interfaces are touched.* Over every run a Sync takes away only masters whose
  socket starts with one of the prefixes, and leaves every other interface exactly as it was
  (`Runs.ScopeSafety`); a DEL leaves the memifs and the ports of every other attachment alone
  (`CniVpp.OthersSurvive`, `CniOvs.DelFromHost`), and two attachments never share a socket or a
  port name unless they are told to (`CniVpp.SocketsApart`, `CniOvs.PortsApart`).
- *Restore asks for what ADD asked for* exactly when the role is master, the MTU survives
  the conversion to uint32, the mode survives the container's default, and the bridge
  domain is not 0 (`Restore.EntryRestored`, `Restore.PodRestored`).
- *ADD then DEL on VPP* restores the bridge domains exactly under `CniVpp.BridgesRestored`:
  ADD prefers the bridge name, DEL knows only the bridge id.
- *ADD then DEL on OVS* fails exactly when the port was bound to OVN on the default bridge,
  and otherwise restores all rows exactly when the bridge was not there empty
  (`CniOvs.RoundTrip`). A DEL that cannot read a bridge's ports and succeeds all the same
  loses the ports of others (`Ovs.UnreadBridgeLosesPorts`).
- *Appending to the configuration-data annotation* keeps a readable array readable exactly
  when the array is not empty and has no white space around it (`Annotations.AppendExact`).

## Model

| member | source | states |
|---|---|---|
| `MemifApi.FirstFreeId` | cnivpp/api/memif/memif.go:502-521 | the search terminates with the least positive id not in the list, whatever repeats or zeros it holds; the id is at most the number of distinct used ids plus one, so it never wraps below 2^32 - 1 ids |
| `MemifApi.LeastFreeBound` | cnivpp/api/memif/memif.go:506-521 | pigeonhole: the least free positive id is at most one more than the number of used ids |
| `MemifApi.LeastFreeUnique` | cnivpp/api/memif/memif.go:506-521 | the least free id is determined by the used set, whatever order the dump came in |
| `MemifApi.FindMemifSocket` | cnivpp/api/memif/memif.go:468-524 | finds the id of a registered filename; for another one returns the least free id of the table |
| `MemifApi.CreateMemifSocket` | cnivpp/api/memif/memif.go:233-285 | a registered filename keeps its id and changes nothing; a new one is registered under the least free id; a failure changes nothing; the table invariant is kept; unless something was lost it succeeds exactly when there is room |
| `MemifApi.CreateMemifInterface` | cnivpp/api/memif/memif.go:81-132 | adds exactly one interface on a fresh index, with the requested row; VPP refuses a second memif with id 0 on the socket and nothing else, unless the request is lost |
| `MemifApi.FindMemifInterface` | cnivpp/api/memif/memif.go:344-366 | finds the socket id of exactly the memif indexes |
| `MemifApi.FindMemifSocketCnt` | cnivpp/api/memif/memif.go:369-390 | counts the interfaces on a socket id |
| `MemifApi.DeleteMemifInterface` | cnivpp/api/memif/memif.go:137-192 | an absent memif is no error; otherwise the interface and its memberships go, and the socket row goes if and only if it is not id 0 and this was its last interface; the table invariant is kept; it fails only when a request is lost |
| `MemifApi.WithoutKeepsInv` | cnivpp/api/memif/memif.go:137-170 | removing an interface keeps sockets registered, filenames unique and endpoints distinct |
| `MemifApi.UnusedDropped` | cnivpp/api/memif/memif.go:170-192 | dropping a socket id without users keeps every remaining interface's socket registered |
| `MemifApi.FindMemifBySocket` | cnivpp/api/memif/memif.go:446-466 | finds a memif whose live socket has this filename if there is one, and only such a one |
| `MemifApi.NamesApart` | cnivpp/api/memif/memif.go:431-440 | without an override the socket file name determines the first twelve characters of the id and the interface name |
| `Bridge.FindBridge` | cnivpp/api/bridge/bridge.go:215-249 | from the replies of the dump: a bridge domain is found exactly when it is there, and found without members exactly when it is empty |
| `Bridge.CreateBridge` | cnivpp/api/bridge/bridge.go:36-71 | creates an absent bridge domain empty and leaves a present one alone; it fails exactly when its request is lost |
| `Bridge.DeleteBridge` | cnivpp/api/bridge/bridge.go:74-100 | deletes a bridge domain only when it is there and empty; it fails exactly when its request is lost |
| `Bridge.AddBridgeInterface` | cnivpp/api/bridge/bridge.go:103-134 | on success the interface is in this bridge domain and no other, created if absent; no other interface moves, even on failure; for an interface that is there it fails exactly when a request is lost |
| `Bridge.RemoveBridgeInterface` | cnivpp/api/bridge/bridge.go:137-168 | takes the interface out; the bridge domain goes if and only if nothing else is in it; it fails exactly when a request is lost or the domain is not there |
| `Dataplane.ModeRoundTrip` | pkg/daemon/dataplane_vpp.go:220-240 | parsing a printed mode gives the mode back |
| `Dataplane.VppDataplane.DumpSocketNames` | pkg/daemon/dataplane_vpp.go:203-218 | the map of all registered filenames |
| `Dataplane.VppDataplane.DumpMasters` | pkg/daemon/dataplane_vpp.go:71-102 | lists exactly the memifs of role master whose socket starts with one of the prefixes, all masters when there are none, each once with its live socket and id |
| `Dataplane.ManagedMeans` | pkg/daemon/dataplane_vpp.go:62-93 | managed means: a memif master and, under prefixes, one whose socket starts with one of them |
| `Dataplane.VppDataplane.CreateMaster` | pkg/daemon/dataplane_vpp.go:104-141 | on success a new interface is exactly as requested; on failure at most one is left, down, without its MTU or out of its bridge domain according to the step that failed; nothing that existed changes either way; unless something was lost it succeeds exactly when no memif holds id 0 of the socket and there is room for it |
| `Dataplane.HalfIsNotWhole` | pkg/daemon/dataplane_vpp.go:126-139 | a master whose set-up stopped half way is never what was asked for |
| `Dataplane.VppDataplane.SetUpMaster` | pkg/daemon/dataplane_vpp.go:126-140 | only the state, MTU and bridge domains of the new interface change |
| `Dataplane.VppDataplane.DeleteMaster` | pkg/daemon/dataplane_vpp.go:143-156 | removes the memif at the dumped index, its socket row exactly if it was the last user, and then its socket file, and nothing else; unless something was lost all of that |
| `Dataplane.VppDataplane.SweepDir` | pkg/daemon/dataplane_vpp.go:178-198 | removes only stale memif socket files of the directory, and all of them unless reading the directory, a file's age or removing one fails |
| `Dataplane.VppDataplane.SweepOrphanSockets` | pkg/daemon/dataplane_vpp.go:162-201 | in any order of directories, removes exactly the aged memif socket files beside a kept socket that are not kept themselves; fewer only when a directory or file resists |
| `Dataplane.StaleMeans` | pkg/daemon/dataplane_vpp.go:183-193 | stale means: there, not kept, at least a minute old, and named memif-*.sock |
| `Paths.CleanSame` | pkg/daemon/dataplane_vpp.go:170-186 | cleaning a path keeps its components and whether it is rooted, and cleaning again changes nothing |
| `Paths.JoinDirBase` | pkg/daemon/dataplane_vpp.go:172-186 | the sweep looks up a listed file under its cleaned path: joining any path's directory and last element gives that path, cleaned |
| `Paths.CleanPlain` | pkg/daemon/dataplane_vpp.go:170-173 | cleaning leaves a plain last element and its directory as they are |
| `Dataplane.KeptFileSwept` | pkg/daemon/dataplane_vpp.go:170-198 | the file of a kept socket is swept if and only if it is aged, named like the plugin's, and kept under other spellings only |
| `Dataplane.UncleanLosesFile` | pkg/daemon/dataplane_vpp.go:164-189 | a socket that is kept, but spelled with two slashes, loses its aged file |
| `Reconcile.Diff` | pkg/daemon/reconcile.go:80-100 | the desired masters whose socket is not there and the actual ones whose socket is not wanted, each in order |
| `Reconcile.CreatesThenDeletes` | pkg/daemon/reconcile.go:116-131 | creates followed by deletes at dumped indexes remove exactly the dumped orphans, never a wanted or just created master, and leave every other interface as it was |
| `Reconcile.OrphansOfDump` | pkg/daemon/reconcile.go:94-98 | what Diff deletes from a dump is exactly the set of unwanted managed masters |
| `Reconcile.ReconcileDone` | pkg/daemon/reconcile.go:111-144 | dump, creates, a pass over the orphans and the sweep, each of which may be cut off, together make one reconcile that stopped at that stage, from which the results on runs follow |
| `Reconcile.Decided` | pkg/daemon/reconcile.go:123-131 | after a completed pass some orphan on a socket went if and only if the guard had to give it up at its first visit; a single one is kept or goes accordingly |
| `Reconcile.IdZeroUnshared` | pkg/daemon/desired.go:140 | masters with memif id 0 never share a socket |
| `Rounds.NextCountExact` | pkg/daemon/daemon.go:88-93 | the count is one more than the streak of rounds that refused the socket, and one at a second visit of the round: for every socket, whatever shares it |
| `Rounds.TracksRefused` | pkg/daemon/daemon.go:88-94 | a refusal with the counter set keeps every counter exactly what the history says |
| `Rounds.TracksGivenUp` | pkg/daemon/daemon.go:77-80 | so does giving a socket up and dropping its counter |
| `Rounds.TracksNewRound` | pkg/daemon/daemon.go:112 | so does the start of a round |
| `Rounds.NextRoundCounts` | pkg/daemon/daemon.go:84-94 | between rounds the counter of any socket holds its streak: the first visit of the next round counts one more |
| `Rounds.StreakReaches` | pkg/daemon/daemon.go:88-94 | a streak of n means that each of the last n rounds refused the socket |
| `Rounds.StreakBuilt` | pkg/daemon/daemon.go:88-94 | conversely n refusals in a row, none but the first of them a repeated one, make a streak of n |
| `Daemon.Reconciler.ShouldGC` | pkg/daemon/daemon.go:76-100 | for every socket and every visit: yes if and only if the socket file is gone, or the grace is positive and the streak, with this visit, reaches it; at a second visit of a round the streak counts one |
| `Daemon.Reconciler.Collect` | pkg/daemon/reconcile.go:123-130 | deletes an orphan if and only if the guard, when there is one, agrees |
| `Daemon.Reconciler.DeleteOrphans` | pkg/daemon/reconcile.go:123-131 | cut off or not, only the orphans looked at and allowed to go went, and each was still there under its dumped index; the count returned is that of the ones that went, or one less when a delete failed after its interface had gone; unless something was lost no delete fails and the files of what went are gone |
| `Daemon.Reconciler.CreateMissing` | pkg/daemon/reconcile.go:117-122 | cut off or not, only masters on the wanted and absent sockets came, each exactly as requested but for at most one whose set-up stopped half way; when complete, all of them; the count returned is that of the masters that came, without the half configured one; unless something was lost it completes exactly when no memif holds id 0 of any of the sockets and no two are the same |
| `Daemon.Reconciler.Reconcile` | pkg/daemon/reconcile.go:111-144 | says where it stopped; whatever fails, no wanted or unmanaged interface changes or goes, newcomers are as requested but for at most one half configured one, orphans go only as the guard allows, wanted or dumped socket files are not swept; a failed dump changes nothing, a failed create deletes nothing and puts nothing to the guard, which leaves the masters before the failing one served and the ones after it uncreated, and from the deletes on every wanted socket is served; the counts returned are those of the interfaces that came and went, each one less at most when its loop was cut off; unless something was lost it completes exactly when every wanted socket is served or free for a master of its own, and then leaves no sweepable file and none of a deleted orphan |
| `Daemon.Reconciler.Sync` | pkg/daemon/daemon.go:111-148 | one round towards the masters of the pods that can be evaluated, for what the memo makes of the API server's answers, which is just these answers unless two references share a key; a failed listing counts as a round and changes nothing; the counts returned are those of Reconcile; the table invariant and the counters' meaning are kept; unless something was lost it completes exactly as Reconcile does, as tidily |
| `Runs.ScopeSafety` | pkg/daemon/dataplane_vpp.go:71-102 | over every run a Sync takes away only masters, under prefixes only those whose socket starts with one; every interface that stays keeps its row, filename and bridge domains |
| `Runs.GcSafety` | pkg/daemon/daemon.go:68-100 | over every run the daemon removes only managed masters no evaluated pod wants; with the socket file there, only if the grace is positive and the socket was a present orphan in each of the last grace rounds |
| `Runs.UnwantedSafety` | pkg/daemon/daemon.go:105-147 | a master whose file is there goes only when in each of the last grace rounds no pod that could be evaluated wanted its socket |
| `Runs.LivePodSafety` | pkg/daemon/daemon.go:105-147 | the master of a pod that in the last grace rounds was listed and, when it could be evaluated, wanted the socket goes, with its file there, only after the pod was skipped in each of these rounds |
| `Runs.GcExact` | pkg/daemon/daemon.go:84-99 | in a completed Sync some orphan on a socket whose file is there goes if and only if the grace is positive and the streak is one short of it, whatever shares the socket |
| `Runs.FilelessGoes` | pkg/daemon/daemon.go:77-80 | in a completed Sync an orphan on a socket without its file goes, whatever the grace |
| `Runs.GcExactSingle` | pkg/daemon/daemon.go:84-99 | with memif id 0 on the socket the orphan itself goes exactly then |
| `Runs.StreakBelowGrace` | pkg/daemon/daemon.go:95-98 | no streak of any socket ever reaches the grace: the orphan goes first |
| `Runs.PersistentOrphanGoes` | pkg/daemon/daemon.go:84-99 | of grace consecutive completed rounds that find a present orphan on the socket, a single one in all but the first and the last, one removes one |
| `Runs.CrowdedGoes` | pkg/daemon/daemon.go:84-99 | while every Sync is complete and finds two orphans or more on the socket, its file there, one of them goes if and only if the grace is positive and the streak before reached it with the first Sync, or the grace is at most two and there was a second Sync |
| `Runs.EarlyFailureRestarts` | pkg/daemon/daemon.go:88-92 | a round that fails listing the pods, dumping or creating puts nothing to the guard and restarts the count of every socket |
| `Convergence.AttemptProgress` | pkg/daemon/reconcile.go:111-131 | each reconcile without a guard, cut off anywhere, lowers missing plus orphaned by exactly what it created and deleted |
| `Convergence.BoundedWork` | pkg/daemon/reconcile.go:104-105 | over any number of retries, however many fail, creates and deletes are bounded by the distance at the start |
| `Convergence.ConvergedAtZero` | pkg/daemon/reconcile.go:102-105 | the distance is zero if and only if the managed sockets are exactly the wanted ones |
| `Convergence.CompleteConverges` | pkg/daemon/reconcile.go:111-131 | a completed reconcile without a guard reaches equality of the socket sets |
| `Convergence.ConvergedIsStable` | pkg/daemon/reconcile.go:102-105 | from there any further reconcile creates and deletes nothing |
| `Convergence.GuardedResult` | pkg/daemon/reconcile.go:107-131 | after a completed reconcile with the guard the managed sockets are the wanted ones and those of the orphans that stayed; for an orphan alone on its socket, exactly if the guard had to keep it |
| `Convergence.HalfConfiguredStays` | pkg/daemon/dataplane_vpp.go:126-139 | a managed master on a wanted socket is never touched again by any number of retries |
| `Convergence.RepairedExactly` | pkg/daemon/reconcile.go:104-105 | after a completed reconcile, guarded or not, a managed master is exactly as a wanted one in scope asks if and only if no managed master was on its socket before, or one there was so already |
| `Convergence.NeverRepaired` | pkg/daemon/reconcile.go:104-105 | no number of retries, failing or not, repairs a wanted master on whose socket another stands |
| `Blocking.TakenStops` | pkg/daemon/reconcile.go:117-122 | while a memif the daemon does not manage holds memif id 0 of a wanted socket, a reconcile stops before its deletes: it removes nothing, puts nothing to the guard, restores no master from that one on, and the socket stays taken |
| `Blocking.CompletesExactly` | pkg/daemon/reconcile.go:116-131 | a reconcile without lost requests completes exactly when no wanted socket is taken and no two wanted masters share one that is not served |
| `Blocking.OutOfScopeTaken` | pkg/daemon/dataplane_vpp.go:90-93 | a wanted socket outside the prefixes is taken, by the daemon's own master, once a round has completed |
| `Blocking.BlockedRun` | pkg/daemon/daemon.go:88-94 | over any part of a run in which each Sync that gets its pods finds a wanted socket taken, no round completes, no Sync removes an interface or a file, and after any Sync every streak is 0 |
| `Blocking.AddedBlocks` | pkg/daemon/dataplane_vpp.go:87-93 | what ADD made takes its socket from the daemon if and only if it is a slave or out of scope and nothing managed stands beside it |
| `Blocking.SlavePodBlocks` | pkg/daemon/desired.go:119-151 | a listed pod with a recorded slave interface blocks the Sync, since the desired master takes no notice of the role |
| `Witness.SlaveStopsRound` | pkg/daemon/dataplane_vpp.go:87-88 | a slave on a wanted socket takes it, and a Sync then ends at its create with nothing done |
| `Witness.RetryDoesNotRepair` | pkg/daemon/reconcile.go:104-105 | a reconcile may leave a master down, and then no retry ever brings it up |
| `Witness.SharedSocketGoes` | pkg/daemon/daemon.go:84-99 | a run under grace 3 in which an orphan goes in a round that finds two on its socket |
| `Witness.SkippedLivePodLosesMaster` | pkg/daemon/daemon.go:108-110 | a run in which a live pod with its socket file there loses its master under grace 2 |
| `Networks.ParseShort` | pkg/daemon/desired.go:74-91 | one short-form entry, parsed as the specification says |
| `Networks.ParseNetworks` | pkg/daemon/desired.go:46-94 | both forms of the annotation, parsed as the specification says; of the array form the named entries in order, each with its name, interface and namespace, the default one where it gives none; a malformed array gives nothing |
| `Networks.FilledAsGiven` | pkg/daemon/desired.go:60-71 | the array form keeps the named entries in order, and only fills in missing namespaces |
| `Networks.GivenInFull` | pkg/daemon/desired.go:60-71 | entries that give name and namespace come back as they are |
| `Networks.ParsePrint` | pkg/daemon/desired.go:74-91 | parsing undoes printing of one entry, and skips an entry without a name |
| `Networks.ParseUndoesPrint` | pkg/daemon/desired.go:43-94 | the comma form of any printable list parses back to the same list, omitted namespaces being the default |
| `Networks.PaddingIgnored` | pkg/daemon/desired.go:51-77 | white space around an entry or around the whole annotation does not matter |
| `Networks.ShortFormNamespaces` | pkg/daemon/desired.go:84-87 | a namespace of the short form never holds a slash |
| `Text.FoldIsLower` | pkg/daemon/desired.go:120-126 | ignoring case by EqualFold, as for kinds and engines, and by ToLower, as for modes, agree but for two characters |
| `Desired.DesiredHolds` | pkg/daemon/daemon.go:138-146 | everything an evaluated pod declares is desired, whatever pods are skipped |
| `Desired.PodTuned` | pkg/daemon/desired.go:119-217 | every master a pod declares is that of one of its entries and of the host configuration of the entry's own network; what the restore makes for it has the queues, sizes, secret, flags and MAC of that configuration, or VPP's defaults |
| `Desired.RestoredTuned` | pkg/daemon/dataplane_vpp.go:104-141 | the restored row against the fields of the host configuration, its MTU modulo 2^32 |
| `Desired.NamedDomain` | pkg/daemon/desired.go:97-106 | a numeric bridge name stands for its decimal value if that fits in 32 bits, whatever the bridge id; another name is an error; without a name the id counts |
| `Desired.SkippedExactly` | pkg/daemon/desired.go:159-217 | exactly when a pod is skipped: its record cannot be read, or one of its networks cannot, or an entry asks for a bridge domain whose name is no number |
| `Desired.DeclaresNothing` | pkg/daemon/desired.go:159-180 | a pod without networks, record or shared directory declares nothing and is not skipped |
| `Desired.DesiredCanonical` | pkg/daemon/desired.go:138-139 | every desired socket is a cleaned path |
| `Nads.KeyInjective` | pkg/daemon/daemon.go:119-136 | memo keys identify references whose namespaces hold no slash |
| `Nads.TransparentExactly` | pkg/daemon/daemon.go:119-136 | the memo answers a reference as the API server would, whatever that says, if and only if no other reference was read before under its key |
| `Nads.KeyCollision` | pkg/daemon/daemon.go:119-136 | two references, one with a slash in its namespace, share their key, and the second one read gets the first one's answer |
| `Nads.SlashFreeApart` | pkg/daemon/daemon.go:119-136 | namespaces without a slash keep all references apart |
| `Nads.NadCache.Get` | pkg/daemon/daemon.go:119-136 | the answer, error or not, is the API server's own to the first reference read under the key, which is asked for once |
| `Nads.EvaluatePod` | pkg/daemon/desired.go:159-217 | through the memo a pod's masters are what any lookup with the remembered answers gives, and the pod is skipped exactly when they cannot be evaluated |
| `Nads.MatchDesired` | pkg/daemon/desired.go:199-216 | with several networks each entry takes the first one whose interface name is missing or its own |
| `Nads.BuildDesired` | pkg/daemon/desired.go:221-233 | with one network every entry belongs to it |
| `Nads.DesiredMasters` | pkg/daemon/daemon.go:138-146 | the node's desired list, in order, is that of one lookup the memo stands for, and when no two references share a key that of the API server itself |
| `CniVpp.AddLocalDeviceMemif` | cnivpp/cnivpp.go:373-444 | role and mode are checked first; on success exactly the requested memif was added, in no bridge domain; unless something was lost it succeeds exactly on a known role and mode and a socket VPP takes |
| `CniVpp.BringUp` | cnivpp/cnivpp.go:98-116 | the interface is up with the requested MTU, and nothing else changed |
| `CniVpp.AddOnHost` | cnivpp/cnivpp.go:65-182 | on success exactly one interface was added, configured as requested and tuned field by field as the configuration says, its index saved; no existing interface, its filename or its bridge domains change even on failure; unless something was lost it succeeds exactly on acceptable configurations and sockets VPP takes |
| `CniVpp.AcceptableMeans` | cnivpp/cnivpp.go:78-182 | acceptable means: a memif, master or slave, of mode ethernet, ip, inject-punt or none, on an interface of its own or a bridge domain with a number |
| `CniVpp.AddedTuned` | cnivpp/cnivpp.go:373-444 | the row ADD makes against the fields of the configuration: role, mode, MTU, queues, sizes, secret, flags, MAC and socket |
| `CniVpp.LeaveBridge` | cnivpp/cnivpp.go:230-255 | a failing removal from the bridge domain is ignored; no other interface is affected; unless something was lost the interface leaves and an empty domain goes |
| `CniVpp.DelFromHost` | cnivpp/cnivpp.go:194-266 | whatever index ADD saved, DEL changes no interface but one on the attachment's own socket; with none on it DEL succeeds and leaves VPP alone; only the attachment's socket file may go; every memif on another socket keeps its row, filename and bridge domains; unless something was lost the memif, its socket row, its membership, an emptied bridge domain and the file all go |
| `CniVpp.SocketsApart` | cnivpp/cnivpp.go:276-283 | in one shared directory two attachments without overrides have the same socket exactly if their ids agree in twelve characters and their interface names are the same |
| `CniVpp.OthersSurvive` | cnivpp/cnivpp.go:205-266 | so a DEL leaves the memif of every other attachment exactly as it was |
| `CniVpp.SecondDelFindsNothing` | cnivpp/cnivpp.go:215-228 | after a DEL that went through, with one memif per socket, the next DEL finds nothing to change in VPP (CNI Specification 1.0.0, section 2) |
| `CniVpp.AddThenDel` | cnivpp/cnivpp.go:123-141 | ADD on a fresh socket and DEL restore sockets and interfaces, and the bridge domains if and only if the id of DEL and the domain of ADD agree or were there before, and DEL's was not there empty |
| `CniVpp.MembersAfter` | cnivpp/cnivpp.go:233-244 | after DEL the bridge domains are the old ones if and only if the same ones exist |
| `Annotations.SetPodAnnotationConfigData` | pkg/annotations/annotations.go:224-273 | edits the one annotation as specified and no other; without a pod, a configuration or a marshalled text nothing changes |
| `Annotations.AppendExact` | pkg/annotations/annotations.go:250-269 | appending to any annotation that reads as an array gives the array and the new element if and only if it was not empty and had no white space around it; otherwise the result cannot be read |
| `Annotations.AppendsRoundTrip` | pkg/annotations/annotations.go:246-269 | after any number of appends to an empty annotation the text reads, also by GetFileAnnotationConfigData, as exactly what was appended, in order (RFC 8259, section 5) |
| `Annotations.AppendToEmptyArray` | pkg/annotations/annotations.go:250-258 | an annotation "[]" becomes unreadable with the next append |
| `Annotations.OneTextFaithful` | pkg/annotations/annotations.go:260-265 | the assumption on the printer can be met: by a printer of one configuration, appended twice and read back |
| `Annotations.SplitTopJoin` | pkg/annotations/annotations.go:319-340 | splitting at the commas outside brackets and strings undoes joining balanced texts |
| `Annotations.Nesting` | pkg/annotations/annotations.go:319-340 | what json's reader looks at to find the elements: brackets nest outside strings, and inside one only quotes and backslashes count (RFC 8259, section 7) |
| `Annotations.ReadSnoc` | pkg/annotations/annotations.go:267-269 | a list and one more element read as the list's elements and that one |
| `Restore.RecordedMatches` | pkg/configdata/configdata.go:97-118 | what ADD records makes the two ends a pair: unless the container says otherwise it gets the other role and the same mode, on the host's own socket file |
| `Restore.RecordedVhostMatches` | pkg/configdata/configdata.go:79-118 | the same for vhost-user: server against client, on the host's socket file; and the record carries the attachment's id, interface and network name |
| `Restore.SaveRemoteConfig` | pkg/configdata/configdata.go:65-139 | fails exactly on a missing argument or an unprintable record; otherwise the record, memif or vhost-user, is appended and nothing else changes |
| `Restore.EntryRestored` | pkg/daemon/desired.go:119-153 | for every configuration on which the VPP ADD succeeds the daemon wants a master on ADD's socket, and asks for the same request if and only if the configuration is restorable |
| `Restore.MatchedNetwork` | pkg/daemon/desired.go:195-214 | an entry finds its own network when there is one network or all name their interfaces apart |
| `Restore.RestoredAsAdded` | pkg/daemon/dataplane_vpp.go:104-141 | then the restored interface differs from the added one at most in its socket id |
| `Restore.PodRestored` | pkg/daemon/desired.go:159-217 | from the annotation alone, one master per recorded VPP memif in order and none for any other interface, each asked for exactly as ADD did if and only if its configuration is restorable |
| `Ovsdb.CommitKeepsIntegrity` | cniovs/ovsdb.go:127-147 | whatever its operations, a transaction leaves every reference live, every row in use and every name unique (RFC 7047, sections 3.2 and 4.1.3) |
| `Ovsdb.CommitIdempotent` | cniovs/ovsdb.go:127-147 | rows with integrity commit as they are |
| `Ovsdb.Server.Transact` | cniovs/ovsdb.go:127-147 | all operations or none |
| `Ovs.FindBridge` | cniovs/ovsdb.go:239-248 | from the rows of the select: found exactly when a bridge of the name is there and the select was answered; it is unanswered only if it was lost |
| `Ovs.DoesBridgeContainInterfaces` | cniovs/ovsdb.go:252-279 | from the first row of the select: true exactly when the bridge of the name is there with a port and the select was answered; it is unanswered only if it was lost |
| `Ovs.CreateBridgeCommits` | cniovs/ovsdb.go:170-202 | the transaction adds the bridge, or aborts exactly when its name is taken |
| `Ovs.CreateBridge` | cniovs/ovsdb.go:170-202 | on success the bridge is new and empty, and nothing else changed; unless something was lost it fails exactly on a taken name |
| `Ovs.CreatePortCommits` | cniovs/ovsdb.go:374-425 | the transaction adds port and interface; it aborts exactly when a name is taken; on a missing bridge it succeeds and leaves nothing |
| `Ovs.CreateVhostPort` | cniovs/ovsdb.go:326-444 | on success on a bridge that is there the port and interface are added with the columns of the configuration, and nothing else changed; unless something was lost it fails exactly when a name is taken |
| `Ovs.DeletePortCommits` | cniovs/ovsdb.go:456-481 | the transaction goes through if and only if no other bridge holds the port and no other port uses its interface name, and takes away just this port |
| `Ovs.DeleteVhostPort` | cniovs/ovsdb.go:448-484 | a port that is not there, or cannot be read, is no error and changes nothing; otherwise success is its transaction and failure leaves the rows alone; unless something was lost the port was read and its transaction decides |
| `Ovs.DeleteBridgeCommits` | cniovs/ovsdb.go:212-233 | deleting a bridge that is there never aborts, and takes the ports with it that only it held |
| `Ovs.DeleteBridge` | cniovs/ovsdb.go:206-236 | a bridge that is not there is an error, and unless something was lost the only one |
| `Ovs.UnreadBridgeLosesPorts` | cniovs/ovsdb.go:252-260 | a DEL whose read of the bridge's ports is not answered and which succeeds all the same loses every port that only this bridge held |
| `Ovs.AddThenDel` | cniovs/ovsdb.go:326-484 | DEL after ADD aborts if and only if it names another bridge; otherwise every row is as before, except that a bridge that was there empty is gone |
| `Ovs.SecondDel` | cniovs/cniovs.go:151-200 | the same DEL again changes nothing, and succeeds if and only if another port keeps the bridge |
| `CniOvs.AddLocalNetworkBridge` | cniovs/cniovs.go:450-464 | the bridge is there afterwards, made only when missing; it fails only when something was lost |
| `CniOvs.AddOnHost` | cniovs/cniovs.go:62-139 | on success exactly the port, and the bridge if missing, were added; a failure leaves at most those behind; integrity is kept, and the call is a step of the runs of `RunShows`, if it succeeds, and of `TriesWithin`; the port is on the bridge with the kind, ids, VLAN, MTU and rates of the configuration; unless something was lost it succeeds exactly on addable configurations and free names |
| `CniOvs.DelLocalNetworkBridge` | cniovs/cniovs.go:466-477 | when the ports can be read the bridge goes if and only if it has none; when not, it goes with them; unless something was lost they are read |
| `CniOvs.DelFromHost` | cniovs/cniovs.go:151-200 | a DEL that succeeds leaves the outcome of the reads that were answered, one that fails took away the port at most; integrity is kept, and the call is a step of the same runs; a DEL that fails, or loses nothing, leaves every other port on its bridge; unless something was lost it succeeds exactly when DelResult does |
| `CniOvs.SameBridge` | cniovs/cniovs.go:84-90 | DEL finds the bridge of ADD if and only if it is named or the port does not bind to OVN |
| `CniOvs.PortsApart` | cniovs/cniovs.go:301-307 | two attachments that do not name their ports have different ones unless ids and interface names agree |
| `CniOvs.RoundTrip` | cniovs/cniovs.go:171-173 | the DEL of an attachment fails if and only if ADD put it on the integration bridge by default; otherwise it restores every row if and only if the bridge was not there empty |
| `CniOvs.RunShows` | cniovs/cniovs.go:62-200 | over any run of ADDs and DELs that succeed, from bridges with ports, the ports on the bridges are exactly those added and not deleted since, with integrity and no bridge without a port |
| `CniOvs.TriesWithin` | cniovs/cniovs.go:62-200 | over any run from any database with integrity, whatever fails and whatever goes unread, integrity is kept, and the ports on the bridges are all that must be there and none that cannot |
| `CniOvs.BridgeWhilePorts` | cniovs/cniovs.go:466-477 | so a bridge is there exactly as long as a port on it is |
| `Watch.WatchOnce` | pkg/daemon/watch_vpp.go:89-127 | syncs exactly at the debounce expiries and at the ticks with the connection up, until the first input that ends the cycle, with that input's outcome |
| `Watch.SyncsOnlyWhenUp` | pkg/daemon/watch_vpp.go:98-125 | at every Sync the latest of the Connected and Disconnected events is Connected |
| `Watch.FiresAfterQuiet` | pkg/daemon/watch_vpp.go:99-120 | the timer fires a full quiet period after the latest Connected event, and once for it |
| `Watch.BurstSyncsOnce` | pkg/daemon/watch_vpp.go:77-82 | a burst of Connected events leads to at most one debounced Sync, after its end |
| `Watch.OtherStateInvisible` | pkg/daemon/watch_vpp.go:98-118 | in any trace an event with a state the switch does not name changes no Sync: the periodic ones go on |

## Left out

- Daemon.Reconciler.Sync: takes one Sync as one step; a CNI ADD or DEL between its dump and its deletes is not modelled, and the code does not guard against one.
- Daemon.Reconciler.Sync: requires the table invariant and files under cleaned paths; the runs of `Runs` do not repeat these conditions.
- Daemon.Reconciler.ShouldGC: a socket file is there or it is not; other errors of stat, which the code takes for a file that is there, are not modelled; a socket dumped in another spelling than the cleaned one finds no file here.
- Dataplane.VppDataplane.DeleteMaster: removes no file for such a socket, for the same reason; the sweep and the desired sockets are cleaned as in the code.
- CniVpp.AddOnHost: covers memif; the vhost-user path and IP addresses are not modelled, saving what DEL needs and parsing a MAC address are reduced to whether they work, and a vhost-user configuration fails here.
- CniVpp.DelFromHost: requires a memif configuration, for the same reason.
- CniOvs.AddOnHost: the shared directory, its group, the rename of the server-mode socket and the MAC addresses are reduced to whether they fail; the OVN port comes as a parameter.
- CniOvs.DelFromHost: the cleanup of the shared directory is reduced to whether it fails.
- CniOvs.RunShows: takes runs of operations that succeed and whose reads are answered, from a database without empty bridges; `CniOvs.TriesWithin` takes all of them, with bounds.
- Watch.WatchOnce: says when a Sync runs, not what becomes of it; the ticker may tick at any time; the connection status that is published is not modelled.
- Annotations.OneTextFaithful: a printer of all configurations is not built.
- Restore.SaveRemoteConfig: covers the annotation; the file variant, the mapped-directory annotation and the update sent to the API server are not modelled.
- VPP itself: deleting an interface takes it out of its bridge domain, indexes of new interfaces are unused, a second memif with the same socket id and memif id is refused, dumps list every row once. The socket table stays below 2^32 - 1 rows.
- OVSDB: one Open_vSwitch row, and only the columns the plugin writes; a transaction whose reply is lost after it committed is not modelled.
- Reads of VPP's dumps that fail half way inside the memif and bridge wrappers, which the code skips over; the daemon's own dumps may fail.
- encoding/json: a parameter of the model, as a printer and a reader of balanced texts.
- Symbolic links: a file has one cleaned path here.
- Go's int: counters and rounds are unbounded here. Conversions to uint32 are modelled.
- govpp, libovsdb and client-go, IPAM, network namespaces, HTTP status and metrics, logging, flags and the main functions.
- `getShortSharedDir`, the fallback of OVN arguments, `FileCleanup` and the file patterns of the OVS cleanup: they would add only easy members.
