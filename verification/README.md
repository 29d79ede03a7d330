# Verification of the cluster core

A Dafny 4.11 model of the parts of this chat server in which several nodes, streams
or stores have to agree, with proofs of what they guarantee. `dafny verify
dfyconfig.toml` checks all of it.

## What is modelled

**Membership, epochs and fencing.** `EtcdStore` is etcd as the cluster uses it: one
revision counter, records with the revision of their last write, leases, the epoch
marker, scheduled-job claims, and the log of changes that watches deliver. Every
request of the control plane is one atomic step, and every other client's steps
interleave with it. `Epochs` derives the Cluster View epoch from a snapshot and asks
when it is a version number. `Fencing` puts all nodes, the database fence, the owner
row of each topic and the committed messages into one world, in which every load and
store of a node is a step of its own; `WriteTokens` asks when two tokens of one topic
name one owner, `WriteConflicts` and `Histories` show the two ways in which they do
not. `ControlPlane` is one node's code - registration, drain, view refresh, marker CAS
loop, topology change, claims - each method proved while everybody else acts between
any two of its requests (`Environment`). `ViewSteps` connects the two: a refresh of
the code is a run of the world's acts. `LeaseLoss` is about the view a node can be ready
with after it has lost its lease.

**The ordered Lane transport.** `LaneClient` is the sending state machine and `Lanes`
its goroutine. `LaneSystem` composes it with the streams it opens one after another,
the server loop at the end of each, and the receiving node's Request-ID window
(`Dedupe`); a stream may lose any tail when it breaks, or deliver it later.
`LaneGuarantees` holds the invariants, `LaneTheorems`, `LaneTiming`, `LaneAttempts` and
`LaneDispatch` the results, `LaneServers` the server loop.

**Election and failure detection.** `Election` has all nodes' loops with calls lost
or delayed at will, and the vote loop of one node; `FailureDetector` the health rounds;
`RingAgreement` how followers take over the leader's ring.

**Compensated batches.** `Moderation` and `Moderators` are mute, ban, kick and their
reverses over stores whose writes fail at will, compensating writes included; `Roles`
is the role switch.

**Calls and cached decisions.** `Calls` and `CallTopics` follow a call from invitation
to end; `PolicyCache` is the bounded decision cache, `PolicyFlights` the flights that
concurrent callers share.

State machines are total functions (`Apply`, `Move`) with guards; runs are sequences
of steps, and the main results quantify over all runs. The classes hold the source's
fields; the contracts of their methods equate the new state with those functions, or
state the source's promise outright. What the code cannot foresee - lost requests,
failing writes, expired contexts, map iteration order - is chosen arbitrarily inside
the method bodies.

## Where the code does not do what one would expect

Each point is a lemma, together with the exact condition under which the property holds.

- Two snapshots with different members can have the same epoch, or the later one the
  smaller epoch (`Histories.EqualEpochsDifferentMembers`). For any two snapshots of any
  history this happens if and only if, between them, a record of the earlier one was
  touched, every key touched ended up deleted, and no marker above the earlier epoch was
  written (`Epochs.ConfusedIff`, `Epochs.DistinguishedIff`); across a single change,
  exactly when it was a lapsed or revoked lease whose marker has not been written yet
  (`Epochs.FaithfulAcrossChangeIff`, `Epochs.CaughtUpIff`). An epoch that does not rise
  has at worst lost records (`Epochs.StandingEpochOnlyLoses`).
- A majority of an old topology need not meet a majority of its successor
  (`Topologies.OldMajorityMayBeMissed`); the members kept do (`Topologies.RetainedMajority`).
- The database can accept two owners' tokens for one topic at the same time. There are
  two causes, each shown for all worlds in which it is open and as a run from an empty
  cluster (`WriteConflicts.ConflictsOccur`). First, `writeFenceToken` loads the ring and
  then the epoch, and a view is installed in between: the old owner's write is committed
  under the new epoch (`WriteConflicts.SplitLoadConflict`,
  `WriteConflicts.SplitLoadFromStart`). Over every run an accepted token pairs ring and epoch
  of one view if and only if the node stores no epoch between the two loads, beyond that of
  an installation which the ring load has caught halfway (`WriteTokens.AcceptedIsPairedIff`).
  If both loads fall between the two stores of one installation, the token pairs the new
  ring with the old epoch (`WriteTokens.HalfwayToken`) and is never accepted
  (`WriteTokens.HalfwayIsRefused`). Second, a lease lapses and the epoch stands still: two
  nodes apply different snapshots under one epoch, and both tokens are well paired
  (`WriteConflicts.LapsedLeaseConflict`, `WriteConflicts.LapsedLeaseFromStart`). Between
  well-paired tokens the later ring can only have lost nodes, and owners agree under every
  ring hash if and only if it has lost none (`WriteTokens.SingleAcceptedWriter`). It remains true, without any condition, that
  all messages of a topic committed under one epoch have one owner
  (`Fencing.OneOwnerPerTopicAndEpoch`).
- A node can be ready, after it has lost its lease and registered again, with a view read
  before the loss: the lease flag and the applied flag are cleared without `refreshLock`, so
  a refresh under way still publishes what it has read. This can happen in every world in
  which a refresh is about to publish, and from an empty cluster with every history of etcd
  after the snapshot it has read (`LeaseLoss.OldViewServes`, `LeaseLoss.OldViewFromStart`,
  `LeaseLoss.OldViewOccurs`). Over every run the applied view is older than etcd's newest
  snapshot at the loss if and only if a refresh with such a snapshot was under way then, it
  has published, and no later one has (`LeaseLoss.OldViewIff`).
- A caller of the business policy that joins an open flight can be given a decision that
  had run out when the caller read the clock (`PolicyFlights.LateJoinerGetsIt`); it had not
  when the flight looked (`PolicyFlights.SharedDecisionsAreFresh`).
- A replay turns a failure with an empty error text into a success
  (`Dedupe.ReplayAgreesIff`). The lane's client looks only at whether the text is
  empty, so it cannot tell the two apart in any case (`LaneGuarantees.ReplaySeemsFirst`).
- One request's timeout ends every other request on the wire
  (`LaneClient.OutlivesStreamIff`), and a lane with nothing in flight may hold requests
  it has taken off its queues (`LaneClient.NothingInFlightIff`).
- With a failure limit of zero the detector asks for rebuilds that change nothing
  (`FailureDetector.RebuildsIffChangedIff`).
- A new leader whose predecessor had given up a node keeps that ring but sends its own list
  of active nodes. Until its first rebuild, a follower with another ring rebuilds it at
  every second health check and never agrees (`RingAgreement.TakeoverSplits`,
  `RingAgreement.NeverSettles`); a follower comes to agree if and only if ring and list are
  those of one set (`RingAgreement.AgreesIff`).
- A kick or a role switch that is taken back restores modes and private data, but the
  read positions start over (`Moderation.KickUndoneIff`, `Roles.SwitchUndoneIff`).
- In a two-party call, an "accept" sent by a session that has already joined, after the
  caller has left, replaces its credentials by none: the call then exists without a
  participant (`Calls.AcceptAfterJoinEmptiesCall`). It is the only event that can do so
  (`Calls.StaysOccupiedIff`).

## Model

| member | source | states |
|---|---|---|
| Topologies.NormalizeClusterTopology | internal/server/cluster_control_plane_topology.go:137-173 | accepts exactly the odd, at least three, duplicate-free, whitelisted inputs (names trimmed), and returns the sorted form with the same names |
| Topologies.IsStringSubset | internal/server/cluster_control_plane_topology.go:224-232 | true exactly when the names of one list are among those of the other |
| Topologies.CanonicalFixpoint | internal/server/cluster_control_plane_topology.go:175-184 | a stored topology is read back unchanged: the canonical form has one representation |
| Topologies.TrimIs | internal/server/cluster_control_plane_topology.go:157-160 | trimming takes white space off both ends, all of it, and nothing else |
| Topologies.LessIff | internal/server/cluster_control_plane_topology.go:168-168 | the order of names: at the first place where two differ the smaller character decides, and a proper prefix comes first |
| Topologies.RetainedMajority | internal/server/cluster_control_plane.go:363-366 | the members an admissible change keeps are a majority of both topologies |
| Topologies.OldMajorityMayBeMissed | internal/server/cluster_control_plane.go:412-415 | for every expansion and every bare majority of the old members, the other members of the new topology are a majority disjoint from it |
| Epochs.EpochNeverExceedsRevision | internal/server/cluster_control_plane.go:548-563 | in every history the derived epoch is at most the revision of the snapshot |
| Epochs.CaughtUpIff | internal/server/cluster_control_plane.go:548-560 | the epoch covers the last membership change iff that was a write, or the marker has reached it |
| Epochs.EpochIsFaithful | internal/server/cluster_control_plane.go:548-577 | in every history a caught-up snapshot has no smaller epoch than an earlier one, and the same epoch only with the same members and topology |
| Epochs.FaithfulAcrossChangeIff | internal/server/cluster_control_plane.go:573-577 | across any membership-changing step the epochs tell the snapshots apart iff the later one is caught up, iff the step was a write |
| Epochs.StandingEpochOnlyLoses | internal/server/cluster_control_plane.go:548-577 | between two snapshots of one history an epoch that does not rise means that every record still there is unchanged and the ring has only shrunk; all is equal exactly when no record is missing |
| Epochs.DistinguishedIff | internal/server/cluster_control_plane.go:548-577 | for any two snapshots of any history: their epochs fail to tell them apart iff a record is gone, none still there was written since the earlier epoch, and the marker has not passed it |
| Epochs.ConfusedIff | internal/server/cluster_control_plane.go:548-577 | for any two snapshots of any history: the epochs do not tell them apart iff, between them, a record of the earlier was touched, every key touched ended up deleted, and no marker above the earlier epoch was written |
| Histories.EqualEpochsDifferentMembers | internal/server/cluster_control_plane.go:548-560 | from an empty store: three nodes boot, one lease lapses, and the two snapshots have one epoch and different serving nodes |
| Epochs.WatchResumeIsGapFree | internal/server/cluster_control_plane_watch.go:80-99 | the view, brought up to date with what a watch from its epoch + 1 delivers, equals etcd's present state on every watched key, whatever happened in between |
| Epochs.RingIff | internal/server/cluster_control_plane_topology.go:40-47 | over every history: a node is in the ring iff the last topology committed names it and it has a record that is not draining |
| Epochs.CandidateKeepsRing | internal/server/cluster_control_plane_topology.go:40-47 | over every history: the registration of a node outside the last topology, as before an expansion, leaves the ring as it is |
| Epochs.TopologyChain | internal/server/cluster_control_plane.go:400-470 | over every history each committed topology is canonical, differs by two nested members from the one it replaced, and shares a majority of both with it |
| Epochs.RecordsAreLeaseOwned | internal/server/cluster_control_plane.go:295-317 | in every reachable state a member record belongs to the instance holding the live lease attached to it |
| Epochs.DrainKeepsInstance | internal/server/cluster_control_plane_operations.go:42-59 | a drain that succeeds replaces a record of the same instance, and takes exactly that node out of the ring |
| Epochs.ClaimsAreSeparated | internal/server/cluster_control_plane_operations.go:91-126 | of two successful claims of one scheduled job the second comes at least the ttl after the first one's lease was granted |
| Fencing.AppliedEpochBelowFence | internal/server/cluster_membership.go:74-83 | in every run a node's applied epoch is at most the database fence |
| Fencing.AppliedEpochNeverFalls | internal/server/cluster_membership.go:78-83 | from any point of any run on, a node that is not restarted never applies a lower epoch, although the derived epoch can fall |
| Fencing.OneOwnerPerTopicAndEpoch | server/db/mysql/messages.go:63-90 | in every run the messages of a topic are committed with epochs that never fall, and with one owner per epoch |
| Fencing.FenceShutsOutOldEpochs | server/db/mysql/messages.go:64-76 | nothing committed from now on carries an epoch below the present fence |
| Fencing.SavedIff | server/db/mysql/messages.go:63-90 | over every run: a save with a token is committed iff its epoch is the fence and no message of the topic has been committed under this epoch for another owner |
| WriteTokens.SingleAcceptedWriter | internal/server/cluster_membership.go:49-92 | over every run: of two tokens of one topic that the database would both accept, with no further installation between the loads of either, the later one's ring only lacks nodes; owners agree under every ring hash iff it lacks none |
| WriteTokens.CaughtUpWritersAgree | internal/server/cluster_membership.go:49-92 | over every run: two such tokens name one owner if the later view was caught up when it was read |
| WriteTokens.TokenHasLoads | internal/server/cluster_membership.go:49-71 | over every run a token has a moment at which its ring, naming the node, was loaded and a later one at which its epoch was |
| WriteTokens.TokenPairedIff | internal/server/cluster_membership.go:64-83 | over every run a token pairs ring and epoch of one view iff between its two loads the node stores an epoch exactly as often as is due: not at all, or - the ring load falling between the two stores of an installation - once |
| WriteTokens.AcceptedIsPairedIff | internal/server/cluster_membership.go:64-83 | over every run a token that the database accepts is paired iff no epoch beyond the one due is stored between its loads |
| WriteTokens.HalfwayIsRefused | internal/server/cluster_membership.go:78-83 | over every run the epoch that a node still carries between the two stores of an installation is never accepted again |
| WriteTokens.HalfwayToken | internal/server/cluster_membership.go:64-83 | both loads between the two stores of one installation give a token of the new ring with the old epoch |
| WriteConflicts.SplitLoadConflict | internal/server/cluster_membership.go:64-65 | in every world where a node has loaded the ring for a topic and a newer view names somebody else, both come to hold tokens accepted at the same time |
| WriteConflicts.LapsedLeaseConflict | internal/server/cluster_membership.go:49-92 | in every world where an applied view and the newest snapshot share the epoch but not the owner, both owners come to hold accepted tokens, each well paired |
| WriteConflicts.SplitLoadFromStart | internal/server/cluster_membership.go:64-83 | from an empty cluster, for every history in which the epoch rises and the owner changes, the first conflict is reached |
| WriteConflicts.LapsedLeaseFromStart | internal/server/cluster_control_plane.go:573-577 | from an empty cluster, for every history in which the epoch stands and the owner changes, the second conflict is reached |
| WriteConflicts.ConflictsOccur | internal/server/cluster_membership.go:49-92 | both occur in a cluster of three: one node drains, or its lease lapses |
| Fencing.ReachableBounds | internal/server/cluster_membership.go:78-92 | in every run published views and owner rows carry epochs at most the fence |
| Environment.Database.ClusterFenceAdvance | server/db/mysql/messages.go:119-147 | the fence never falls; the call succeeds exactly when what it reads back is the requested epoch, while others raise the fence at any moment; if its requests are served, it does read the fence back |
| ControlPlane.MaxMemberRevision | internal/server/cluster_control_plane_topology.go:82-90 | the largest revision among the member records, 0 if there is none |
| ControlPlane.BuildClusterView | internal/server/cluster_control_plane_topology.go:93-134 | succeeds exactly when topology and every record agree with the whitelist; has exactly the recorded members, active iff in the topology |
| ControlPlane.CheckChange | internal/server/cluster_control_plane.go:412-451 | accepts exactly the changes by two nested members whose remaining members have a current record that is not draining and whose removed members have one that is |
| ControlPlane.SameTopologyRevision | internal/server/cluster_control_plane.go:457-464 | an unchanged revision of the topology key means that no topology was committed in between |
| ControlPlane.Node.InitializeTopology | internal/server/cluster_control_plane.go:242-274 | afterwards a canonical topology is committed: the one found, or the configured one if there was none; if the request is served, succeeds for every acceptable configuration |
| ControlPlane.Node.Register | internal/server/cluster_control_plane.go:277-326 | success means that our record was written under a lease of this instance at a moment when nobody held the name; if its requests are served, succeeds iff name, address and protocol are as configured and at that moment the name was free and the lease had not run out |
| ControlPlane.Node.ReadyMeansMajority | internal/server/cluster_control_plane.go:329-348 | a ready node serves, as this instance, in the snapshot of its view, and a majority of that snapshot's topology serves |
| ControlPlane.Node.ReadyIff | internal/server/cluster_control_plane.go:329-348 | ready iff lease and view stand, the last refresh is at most the lease's ttl old, and in the snapshot of the view this instance is up, as a majority of the topology's members is |
| ControlPlane.Node.Derive | internal/server/cluster_control_plane.go:535-572 | on a reachable snapshot succeeds iff a topology is committed, and yields exactly that snapshot's view and epoch |
| ControlPlane.Node.RingIs | internal/server/cluster_membership.go:74-92 | a node with a view always has the ring of the snapshot of that view: the members of its last topology with a record that is not draining |
| ControlPlane.Node.ApplyControlPlaneView | internal/server/cluster_membership.go:74-92 | ring and epoch switch together and only after the fence stands at the view's epoch, else neither changes; the ring is then exactly the active members that are not draining |
| ControlPlane.Node.RefreshView | internal/server/cluster_control_plane.go:523-590 | success publishes the epoch of a snapshot taken during the call, from that snapshot if it differs, the ring then being the members of its last topology with a record that is not draining; failure keeps view, ring and epoch, and withdraws readiness if it came after a different epoch was seen; if its requests are served, fails only without a topology or because another node has raised the fence further; a lease lost after publishing withdraws readiness again; applied epoch and fence never fall |
| ViewSteps.Refresh | internal/server/cluster_control_plane.go:523-590 | in every world that has the object's state, a refresh is Load, Raise, Check, StoreRing, StoreEpoch, Publish of that world, or the beginning of these that its outcome tells, with others and the node's own keep-alive loop moving in between |
| ViewSteps.StandsMeans | internal/server/cluster_membership.go:49-71 | the object's ring and epoch are those of the world's node, and it is ready iff the world's node passes all of Ready's loads and the last refresh is recent |
| ViewSteps.EveryOtherStep | internal/server/cluster_membership.go:74-92 | each step of the world other than the acts of the node's refresh and its restart is such a move of others |
| ViewSteps.KeptIff | internal/server/cluster_control_plane_watch.go:25-26 | what such a move may do to the node is exactly what any number of losses and returns of its lease can do |
| ControlPlane.Node.AdvanceTopologyEpoch | internal/server/cluster_control_plane.go:594-626 | success means marker ≥ epoch, and comes if the requests are served; terminates under any interference, as each lost CAS shrinks epoch − marker |
| ControlPlane.Node.PutMarker | internal/server/cluster_control_plane.go:615-624 | an attempt either brings the marker to the epoch or was overtaken by a strictly larger marker |
| ControlPlane.Node.CatchUpTo | internal/server/cluster_control_plane_watch.go:89-99 | once a watch response is handled, the applied view has an epoch, and was read at a revision, at least the response's; if the requests are served, it is handled unless there is no topology or the fence is past the epoch read |
| ControlPlane.Node.RecoverLease | internal/server/cluster_control_plane_watch.go:25-68 | after a lost lease, a refresh being possibly under way that may publish at any point: not ready, whatever the clock says, until registered again; then ready only with a view read after the loss, or, while no refresh begun later has published, with the view of the one under way; the closing refresh, if it publishes, has read it after the new record was in place |
| LeaseLoss.OldViewIff | internal/server/cluster_control_plane_watch.go:25-26 | from any world and over every run after a lost lease: an applied view is older than the loss iff a refresh with an older snapshot was under way, it has published, and no later one has |
| LeaseLoss.OldViewServes | internal/server/cluster_control_plane.go:575-587 | in every world where a node has stored ring and epoch of a view it serves in, losing the lease, publishing and registering again leave it passing Ready's loads with that view |
| LeaseLoss.OldViewFromStart | internal/server/cluster_control_plane.go:323-348 | from an empty cluster, for every later history of etcd, a node comes to be ready with the view of the snapshot it had read before |
| LeaseLoss.OldViewOccurs | internal/server/cluster_control_plane_watch.go:25-50 | it occurs: c reads its view, its lease lapses, it registers again and is ready with a view holding its old record |
| ControlPlane.Node.WriteFenceToken | internal/server/cluster_membership.go:49-71 | while the node's own refreshes run on between the loads: a token is issued only within the lease's ttl of the last refresh, carries the present view's epoch, and a ring of that or an earlier view named the node; with no view installed meanwhile both are the same, and it is issued iff healthy, ready, epoch positive and owner |
| ControlPlane.Node.BeginDrain | internal/server/cluster_control_plane_operations.go:17-69 | success marks our own record draining and applies a view at least that new; failure restores the flag; repeating it does nothing; if its requests are served, fails only without a record under its lease, or because the fence was past the epoch of its refresh |
| ControlPlane.Node.ClaimTask | internal/server/cluster_control_plane_operations.go:72-127 | a reported claim is on record under a lease of exactly the requested ttl rounded up to a second; an unready node, a view older than the lease's ttl or an empty id gives an error and sends nothing; if its requests are served, a ready node is refused iff the task was held, and otherwise claims it unless its lease had run out |
| ControlPlane.Node.CommitClaim | internal/server/cluster_control_plane_operations.go:100-126 | refused only if the task was held when the transaction was served, claimed only if it was free; if the requests are served, exactly then, and the lease of a claim not reported is dropped |
| ControlPlane.Node.CommitTopology | internal/server/cluster_control_plane.go:457-470 | success appends exactly the desired topology to those the caller had read; if the request is served, succeeds iff the topology key still had the revision read |
| ControlPlane.Node.ChangeTopology | internal/server/cluster_control_plane.go:366-478 | a reported change was validated in full against exactly the topology it replaced, with no other committed in between, and is applied; if its requests are served, a ready node reports "unchanged" iff the names are those committed, and fails only for unacceptable names, a change not allowed, a topology committed first, or a fence past the epoch of its refresh |
| Dedupe.RerunsAreSeparated | internal/server/cluster_transport_dedupe.go:61-117 | in every run one key is executed again only after the earlier execution finished and its ttl passed |
| Dedupe.WindowIsBounded | internal/server/cluster_transport_dedupe.go:95-105 | the table never outgrows its capacity |
| Dedupe.ProtectedSurvives | internal/server/cluster_transport_dedupe.go:119-132 | no step gives up an execution that is open or inside its ttl |
| Dedupe.VerdictFromLog | internal/server/cluster_transport_dedupe.go:75-105 | the table refines the full log: wait for the latest execution if open or inside its ttl, collide only with it, refuse for room only when every entry is protected |
| Dedupe.VerdictIff | internal/server/cluster_transport_dedupe.go:75-105 | after every history: a call waits iff its key has an entry with the same body that is open or ended less than the ttl before, collides iff with another body, and is refused iff it has no entry, the table is full, and every entry is open or ended less than the ttl before |
| Dedupe.RunsAgainAfterTtl | internal/server/cluster_transport_dedupe.go:80-95 | after every history: a call that read its clock at least the ttl after the latest execution of its key had ended never waits, and is dispatched if there is room |
| Dedupe.AnswersAreFinal | internal/server/cluster_transport_dedupe.go:107-116 | an execution's answer never changes, so every waiter gets the first one |
| Dedupe.ReplayAgreesIff | internal/server/cluster_transport_dedupe.go:134-141 | a replay has the first payload, and the same success or failure iff the first was not a failure with empty text |
| Dedupe.Cache.EvictOneCompleted | internal/server/cluster_transport_dedupe.go:120-132 | removes one entry that ended at least the ttl before, or every entry is open or ended later than that and nothing changes |
| Dedupe.Cache.Enter | internal/server/cluster_transport_dedupe.go:75-105 | the first critical section decides as the specification does and leaves its table: it waits iff the entry has the same body and is open or ended less than the ttl before, and only a dispatch adds an execution |
| Dedupe.Cache.Execute | internal/server/cluster_transport_dedupe.go:61-117 | dispatches only on a fresh verdict and records that answer; a waiter gets the stored answer of the same key and body once there is one, unless it gives up, while others keep calling |
| LaneClient.LaneConserves | internal/server/cluster_transport_grpc_client.go:169-199 | over every run, whatever the far side answers: pending ≤ window, inFlight counts the started requests, attempts within bounds, exactly one result once let go and none before, nothing left on exit |
| LaneClient.RetryByFate | internal/server/cluster_transport_grpc_client.go:377-408 | each request of the list meets its own fate once, others stay, exactly the survivors are carried over |
| LaneClient.OutlivesStreamIff | internal/server/cluster_transport_grpc_client.go:386-405 | a started request survives its stream iff reliable, within MaxRetries, not expired and the error retryable; otherwise the exact result it gets |
| LaneClient.RetriedIff | internal/server/cluster_transport_grpc_client.go:377-408 | what becomes of every request, held or not, when a stream or the attempt to open one is given up: who is carried over unchanged, and the one result of everybody else |
| LaneClient.OwnErrorsAreFinal | internal/server/cluster_transport_protocol.go:102-116 | after an unknown or unfitting reply, a timeout or the closing of the peer exactly the unexpired requests that were never sent are carried over |
| LaneClient.NothingInFlightIff | internal/server/cluster_transport_grpc_client.go:460-472 | inFlight is 0 iff nothing is on the wire and no held request has been sent |
| Lanes.Lane.FinishRequest | internal/server/cluster_transport_grpc_client.go:432-452 | ends one request: started cleared, counter lowered if it was started, this result added |
| Lanes.Lane.RetryRequests | internal/server/cluster_transport_grpc_client.go:377-408 | the loop computes the retry function: same survivors in the same order, same endings |
| Lanes.Lane.SendRequest | internal/server/cluster_transport_grpc_client.go:292-299 | one sequence number per frame, counted in flight once however often it is sent, one more attempt |
| Lanes.Lane.Fill | internal/server/cluster_transport_grpc_client.go:278-304 | the requests carried over and then those of the queues have their turn, in order, until a write fails, all have had it or the window is full: each ends as expired or is on the wire with the next sequence number and one more attempt; no other request changes |
| Lanes.Lane.Accept | internal/server/cluster_transport_grpc_client.go:324-347 | a reply ends exactly the request on the wire that it names, with the very payload or error it carries, or with an error if it does not fit, which ends the stream too; a reply for no request on the wire changes no request and ends the stream |
| Lanes.Lane.GoRound | internal/server/cluster_transport_grpc_client.go:277-355 | one round of the loop does what the queues, the turns of the requests and the event picked determine: goes on with a settled reply or the next request, or ends with the cause of the write error, the stream error, the timeout or the closing |
| Lanes.Lane.RunPipeline | internal/server/cluster_transport_grpc_client.go:247-356 | a stream does what its rounds determine, one after another, until one ends it; everything held is returned, sent requests first, in order, with the cause |
| Lanes.Lane.GoTrip | internal/server/cluster_transport_grpc_client.go:169-200 | one pass of the outer loop: a request is awaited if none is held, the stream is opened or not, its rounds run, and what is held is retried with that error |
| Lanes.Lane.Run | internal/server/cluster_transport_grpc_client.go:169-200 | the goroutine does what its passes determine; on exit every request ever taken has exactly one result - what the passes gave it, or that the lane was closed - and nothing is in flight |
| LaneSystem.HeadMatches | internal/server/cluster_transport_grpc_client.go:324-346 | every reply read answers the oldest frame on the wire, with its sequence number |
| LaneSystem.DeliveredIs | internal/server/cluster_transport_grpc_client.go:324-347 | reading a reply ends the oldest request on the wire, and no other, with the far side's payload, the far side's error, or, if the reply does not fit, an error that ends the stream |
| LaneTheorems.SequencesAgree | internal/server/cluster_transport_grpc_server.go:24-92 | in every reachable state no frame is refused for sequence, binding or payload mismatch, and no reply carries an unknown request_id |
| LaneTheorems.StreamsAreInOrder | internal/server/cluster_transport_grpc_client.go:278-299 | every stream carries 1, 2, 3, ... and its requests in dequeue order, waiting ones being younger |
| LaneTheorems.EffectivelyOnce | internal/server/cluster_transport_grpc_client.go:247-408 | over every run in which copies arrive within the ttl: no request is dispatched twice, and a successful reliable one was dispatched exactly once with that payload |
| LaneTiming.PunctualRunsAreInTime | internal/server/cluster_transport_config.go:166-169 | if frames are written only before their request's timeout and read within a delay, and timeout + delay is at most the window's ttl, every copy arrives in time and no request is dispatched twice, in every run |
| LaneTheorems.DispatchedIff | internal/server/cluster_transport_dedupe.go:76-94 | an accepted frame is dispatched iff every earlier execution of its request ended at least the ttl ago, and it has an entry, the window is not full, or some entry ended at least the ttl ago |
| LaneAttempts.ExecutedAtMostPerAttempt | internal/server/cluster_transport_grpc_client.go:394-403 | with no timing assumption: executions ≤ attempts, so ephemeral requests run at most once and reliable ones at most MaxRetries + 1 times |
| LaneDispatch.FirstDispatchesInOrder | internal/server/cluster_transport_grpc_client.go:169-199 | if closed streams deliver nothing more and the window has room, first dispatches follow dequeue order over any number of broken streams |
| LaneGuarantees.ReplaySeemsFirst | internal/server/cluster_transport_grpc_client.go:341-345 | as the client reads it, a replay succeeds in the same cases and with the same payload as the first answer |
| LaneServers.LaneServer.Admit | internal/server/cluster_transport_grpc_server.go:50-65 | admits exactly the accepted frames with the expected sequence number that come from the sender the stream is bound to, binding it at the first; a refusal is answered and ends the loop |
| LaneServers.LaneServer.Handle | internal/server/cluster_transport_grpc_server.go:29-91 | a valid frame gets the recorded answer of its execution or a refusal of the window, and the next sequence number is expected; a wait that is given up or has no answer ends the loop without a reply; an invalid frame is refused, ends the loop and leaves the window alone |
| LaneServers.LaneServer.Serve | internal/server/cluster_transport_grpc_server.go:28-92 | on frames a lane writes: one reply per frame in order until the stream ends, and none is refused by sequence or binding |
| Election.OneVotePerTerm | internal/server/cluster_leader.go:334-347 | in every run a node gives at most one vote in a term, its own included |
| Election.OneLeaderPerTerm | internal/server/cluster_leader.go:214-262 | in every run at most one node wins a term |
| Election.LeadersAgree | internal/server/cluster_leader.go:300-313 | a node that names a leader names the winner of its term, so nodes in one term never disagree |
| Election.WrongLeaderUnreachable | internal/server/cluster_leader.go:304-312 | a health check of the node's own term comes from the leader it knows, if any: the error branch is dead |
| Election.ConcludesIff | internal/server/cluster_leader.go:228-262 | over every run: a campaign that is concluded is won iff twice its voters, the candidate included, exceed the number of nodes |
| Election.HearCounts | internal/server/cluster_leader.go:236-252 | a reply heard in its campaign adds its voter iff it says yes; a refusal from a later term ends the campaign, any other changes nothing; the term stands |
| Election.Member.ElectLeader | internal/server/cluster_leader.go:204-263 | leads afterwards iff for some number of calls, none of which aborted, twice the voters, itself included, exceed the number of nodes |
| Election.Member.OnVote | internal/server/cluster_leader.go:334-347 | handles a request exactly as the step of the election system: yes, adopting the term, iff the term is later than its own |
| Election.Member.OnHealth | internal/server/cluster_leader.go:291-332 | handles a health check exactly as the step of the system and of the ring's agreement, says in which cases term, leader and ring change, and reports the wrong-leader branch and the rehash |
| Election.Member.OnTick | internal/server/cluster_leader.go:277-290 | campaigns exactly at the voteTimeout-th miss |
| FailureDetector.RebuildsIffChangedIff | internal/server/cluster_leader.go:169-181 | for all counts and failures a rebuild is asked for iff the active set changes, if and only if the limit is at least 1 |
| RingAgreement.EverySecondRehashes | internal/server/cluster_leader.go:318-332 | over any sequence of health checks exactly every second differing one makes the follower rebuild its ring |
| RingAgreement.AgreesIff | internal/server/cluster_leader.go:318-332 | a follower agrees with a leader that keeps sending one check iff it did before, or the list sent is what the leader's ring was built from and two differing checks have come |
| RingAgreement.NeverSettles | internal/server/cluster_leader.go:318-332 | otherwise it rebuilds at every other check for good |
| RingAgreement.TakeoverSplits | internal/server/cluster_leader.go:156-166 | for all sets of nodes: a successor that followed a leader with a smaller active set sends checks no follower with another ring ever agrees with, until its first rebuild, after which two are enough |
| FailureDetector.ActiveIsRecomputed | internal/server/cluster_leader.go:184-193 | after every round of every run the active set is the leader and exactly the nodes failing fewer than limit rounds in a row |
| FailureDetector.Leader.SendHealthChecks | internal/server/cluster_leader.go:156-201 | one round: each count goes up or back to zero, a rebuild is asked for iff a count reaches the limit or a node at the limit answers, and then the active set is the leader and the nodes below the limit; with a limit of at least 1, iff the set changed |
| Moderation.ModerationTargets | internal/server/admin_official_moderation.go:68-91 | accepted iff 1 to 100 values all name users other than the owner; exactly the users named, each once, where it first occurs |
| Moderation.FirstsKeepOrder | internal/server/admin_official_moderation.go:78-89 | of two users named for the first time, the one named earlier comes earlier among the targets |
| Moderation.ValidTimesIff | internal/server/admin_official_moderation.go:134-152 | times are valid iff the mute ends after its start and no later than the longest time allowed; without an end, iff the minutes given, or else the default, are positive and at most the maximum, as long as no product leaves the 64-bit range |
| Moderation.Wrap64Iff | internal/server/admin_official_moderation.go:145-150 | a product of minutes and nanoseconds is the 64-bit value congruent to it |
| Moderation.ByteLengthIs | internal/server/admin_official_moderation.go:47-49 | every character adds one to four bytes to the length of a text |
| Moderation.LowerIs | internal/server/admin_official_moderation.go:123-126 | lower case changes exactly the capital letters, character by character |
| Moderation.ForwardUndoRestoresIff | internal/server/admin_official_moderation.go:158-160 | compensations run in recording order restore every record iff no target occurs twice |
| Moderation.BansRestored | internal/server/admin_official_moderation.go:332-358 | undoing a batch of bans brings live subscriptions back whole and leaves none where there was none |
| Moderation.KickUndoneIff | internal/server/admin_official_moderation.go:267-285 | reviving a kicked member restores modes and private data, and everything iff the read positions had not started |
| Moderators.Manager.RecordOfficialAction | server/admin/control_plane.go:314-349 | one audit action at the next version, only at the expected version and if the request is served; else nothing |
| Moderators.Manager.RunUndos | internal/server/admin_official_moderation.go:158-160 | if every compensating write succeeds, each member's state is that of the compensations applied in order; they do unless one of the requests fails |
| Moderators.Manager.Mute | internal/server/admin_official_moderation.go:111-206 | every target's record is the new one, nothing else changed and one audit action was written, or - compensations having succeeded - nothing changed; succeeds only if topic, targets and times are valid, the scope is one of four, the texts have at most 64 and 1000 bytes, a required reason is given, all may join and the version is expected, and then always if the stores serve every request; compensations fail for a valid request only if a second request to the stores fails |
| Moderators.Manager.MuteAll | internal/server/admin_official_moderation.go:154-201 | the same once the targets are known: succeeds only if all may join and the version is expected, and then always if the stores serve every request |
| Moderators.Manager.Unmute | internal/server/admin_official_moderation.go:209-238 | clears exactly one record with one audit action, or nothing changed; succeeds only if the topic is official, the target neither the zero user nor the owner, and the version expected, and then always if the stores serve every request |
| Moderators.Manager.Kick | internal/server/admin_official_moderation.go:241-291 | removes one live member and its record, or restores all but the read positions; succeeds only if topic, target and reason are valid, the member is live and the version expected, and then always if the stores serve every request |
| Moderators.Manager.Ban | internal/server/admin_official_moderation.go:294-375 | every target left with a live subscription without rights - the present one, or one created or revived - and one audit action, or live subscriptions and records as before; succeeds only if topic, targets and reason are valid, all are users and the version is expected, and then always if the stores serve every request |
| Moderators.Manager.BanAll | internal/server/admin_official_moderation.go:313-371 | the same once the targets are known: succeeds only if all are users and the version is expected, and then always if the stores serve every request |
| Moderators.Manager.UnbanMember | internal/server/admin_official_moderation.go:378-416 | gives a member without the right to join the rights J, R, W and P, reviving a removed one, or nothing changed; succeeds only if topic and target are valid, the member has no right to join and the version is expected, and then always if the stores serve every request |
| Roles.RolesAreBounded | internal/server/admin_official_topics.go:422-445 | which roles there are in a channel and in a group, and which of the rights each gives: no role makes an owner, only administrators manage, only administrators, publishers and members write, only subscribers use the channel |
| Roles.RoleManager.ApplyRole | internal/server/admin_official_topics.go:448-488 | stores the role on the right side and removes the other, or takes back what it wrote |
| Roles.RoleManager.AssignRole | internal/server/admin_official_topics.go:353-419 | after success exactly one subscription is live with want = given = the role's mode, its private data kept and, if it was live, its read positions; after failure both are as before in mode and private data; succeeds only if the topic is official, the role known for it, the target in good standing and not the owner, the version expected, and not both sides live, and then always if the stores serve every request |
| Roles.SwitchUndoneIff | internal/server/admin_official_topics.go:489-498 | switching back restores the other subscription, and everything iff its read positions had not started |
| Calls.CallsAreOrderly | internal/server/calls.go:272-307 | over every event sequence: participants ≤ maximum, credentials only in accepted calls, "finished" only after "accepted", at most one final state per call |
| Calls.StaysOccupiedIff | internal/server/calls_agora.go:442-501 | a joined call stays with a participant on every event except, and always except, the accept of a session that has already joined |
| Calls.JoinedCallsAreOccupied | internal/server/calls_agora.go:442-515 | over every sequence without such an accept a joined call has a participant as long as it exists |
| Calls.AcceptAfterJoinEmptiesCall | internal/server/calls_agora.go:279-317 | the exception occurs: both join, the caller leaves, the other side sends an accept |
| CallTopics.CallTopic.HandleInvite | internal/server/calls.go:155-177 | a new call with its originator as the only party, unless one is in progress |
| CallTopics.CallTopic.MaybeEndCall | internal/server/calls.go:272-307 | the call is over whether or not its final state could be stored: finished if somebody ends it after acceptance, else missed if the originator does and declined if another party does; missed on the timer, disconnected otherwise |
| CallTopics.CallTopic.ParticipantCount | internal/server/calls_agora.go:504-515 | the number of parties holding credentials |
| CallTopics.CallTopic.IssueCredentials | internal/server/calls_agora.go:337-417 | the join or refresh step, invariant kept: full calls refuse newcomers only, a refresh needs credentials, an unsaved acceptance gives none; otherwise the party holds credentials and the call is accepted |
| CallTopics.CallTopic.HandleAnswer | internal/server/calls_agora.go:279-317 | the answer step, invariant kept: only the other side's acceptance of a two-party call with one party, once it is stored, changes anything |
| CallTopics.CallTopic.LeaveCall | internal/server/calls_agora.go:442-451 | the leave step: only the user's own participant leaves, and the last one's leaving ends the call as finished |
| CallTopics.CallTopic.HangUp | internal/server/calls_agora.go:246-261 | the hang-up step, for exactly the sessions allowed to: the call is over, as finished, missed or declined |
| CallTopics.CallTopic.OnTimeout | internal/server/calls.go:309-332 | the establishment timer ends the call, which is recorded as missed; invariant kept |
| CallTopics.CallTopic.DisconnectSessions | internal/server/calls_agora.go:479-501 | the loop removes exactly the participants whose sessions are gone, and ends the call, as finished, with the last |
| PolicyCache.CachedDecisionsAreFresh | internal/server/business_policy.go:305-334 | over every run the cache is bounded, and a cached decision was given for that very query less than its kind's ttl ago; batch greetings are never cached |
| PolicyCache.ValidDecisionsStay | internal/server/business_policy.go:370-382 | the answer to one query never pushes out a valid decision of another |
| PolicyCache.KeptIff | internal/server/business_policy.go:362-384 | an answer is kept for its kind's ttl iff it is not to a batch greeting and the cache is not full or some entry has run out; no other entry changes, and one is dropped only if it has run out |
| PolicyCache.Client.EvaluateUncached | internal/server/business_policy.go:336-385 | an answer is recorded and cached as specified - always while there is room -, a failure or a batch greeting changes no entry |
| PolicyCache.Client.Evaluate | internal/server/business_policy.go:305-334 | while others ask and time passes: a decision valid when the clock was read is given at once, one that is valid at the second look is given then, else the service's answer is the last step; never a cached one for a batch greeting |
| PolicyCache.DecisionsAreFresh | internal/server/business_policy.go:305-334 | whatever others did during a call, its decision is one the service gave for that query, whose ttl was not over when the caller read the clock, or which was given after that |
| PolicyFlights.SharedDecisionsAreFresh | internal/server/business_policy.go:321-331 | over every run, however callers share flights: a decision was given by the service for that query, its ttl not over when it was looked up or asked for, hence not when the caller read the clock unless it joined a flight that had looked before; nobody waits without a flight |
| PolicyFlights.FlightGives | internal/server/business_policy.go:321-334 | a flight gives everybody waiting for its query, and nobody else, the decision that is valid at its second look, without asking the service, or else what the service answers |
| PolicyFlights.CallersJoin | internal/server/business_policy.go:305-321 | a caller is given the decision that is valid at its first look, or else waits for the flight of its query, opened only if there is none |
| PolicyFlights.LateJoinerGetsIt | internal/server/business_policy.go:321-331 | the exception occurs in every state where an open flight has found a decision whose entry has since run out |

## Left out

- Topologies.NormalizeClusterTopology: does not model the time stamp `UpdatedAt`, which is copied or set to the present time and read by nothing modelled here.
- ControlPlane.BuildClusterView: member records are keyed by their name, so the duplicate-name branch does not arise (each node writes its record under its own name); the members are a map, so their sorted order is not modelled; malformed JSON is not modelled.
- ControlPlane.Node.WriteFenceToken: views are installed whole between its loads; an installation caught between its own two stores is in `Fencing` and `WriteTokens`.
- ControlPlane.Node.RefreshView: the node's own watch and refresh goroutines are serialized here as `refreshLock` does, keepAliveLoop is not; they run between the requests of another method only where it says so (`RefreshView`, `WriteFenceToken`, `RecoverLease`).
- ControlPlane.Node.RecoverLease: runs for an arbitrary finite number of rounds; the waits between them are not modelled; a refresh under way at the loss has not stored its ring yet - one that has is in `LeaseLoss`.
- ViewSteps.Refresh: the fence rises between the node's acts by any amount, where in `Fencing` it rises to the epoch of a view somebody has read.
- Fencing.AppliedEpochBelowFence: of Ready's tests the age of the view is left out of this world, so it allows more tokens than the code; the test is in `ControlPlane`.
- WriteTokens.SingleAcceptedWriter: is about tokens without a further installation between their loads, because the code does not ensure this (`WriteConflicts.SplitLoadConflict`).
- LaneTheorems.EffectivelyOnce: assumes that copies arrive within the ttl of the first execution, because a frame that a broken stream still holds may be read arbitrarily late; `LaneTiming.PunctualRunsAreInTime` says what brings this about, `LaneAttempts.ExecutedAtMostPerAttempt` what holds without it.
- LaneTiming.PunctualRunsAreInTime: client and server read one clock, and the timeout counts from when the lane takes the request, which is no earlier than when it was made.
- LaneDispatch.FirstDispatchesInOrder: assumes that closed streams deliver nothing more and that the window has room; without them a later copy, or a refused one, may be overtaken.
- Lanes.Lane.Run: the source's endless loops run here through the passes and rounds given, after which the peer is closed; what the queues give up, reliable before ephemeral requests, is given as one list for each round, and the window is what the settings say, which is positive in the source; request records are addressed by dequeue order instead of by pointer, so sharing them with waiting callers is not modelled; what is still in the queues at shutdown is not part of this model.
- Election.Member.OnHealth: proxied sessions and the hub's reaction to a rehash are not modelled.
- RingAgreement.TakeoverSplits: rings are named by their sets of nodes, the signature being taken as injective.
- Calls.CallsAreOrderly: access rights and business policy are taken to have been checked before an event; media roles and tokens are not modelled.
- Moderators.Manager.Mute: a write that reports an error is taken to have had no effect; the text of a record is given; the number of subscribers of a topic and the log of deleted messages are not modelled.
- Roles.RoleManager.AssignRole: owner changes and the number of subscribers are not modelled.
- PolicyCache.Client.Evaluate: is the caller that flies its own flight; shared flights are in `PolicyFlights`; keys are records instead of joined strings.
- PolicyCache.DecisionsAreFresh: holds for a caller that flies its own flight; one that joins another's is in `PolicyFlights.SharedDecisionsAreFresh`.
- All nodes share one member whitelist, and election nodes one list of peers.
- etcd's history is never compacted, its transactions are atomic and linearizable; leases end only at or after their deadline.
- SHA-256 and the ring hash are taken as an injective digest and a function of the set of node names; request ids are unique per sending process.
- Restarts of a process lose election terms and the Request-ID window; those results are about processes that stay up. Node restarts are part of `Fencing`.
- Nothing is said about progress: that an election is won, a request delivered, or a marker loop's requests answered.
- Lane choice by topic, transport configuration, queue bounds, statistics, connection counters and backoff times: plain computation with no hard property.
- TLS, HTTP routing, protobuf conversion and the database adapters beyond the writes cited above.
