/** One node's control plane: registration, the derived view, drain, topology
    changes, the epoch marker and task claims, each proved while all other
    clients of etcd and the database interfere between any two requests
    (cluster_control_plane.go, _operations.go, _watch.go, cluster_membership.go). */
module ControlPlane {
  import opened Wrappers
  import opened Topologies
  import opened EtcdStore
  import opened StoreInvariants
  import opened Epochs
  import opened Environment

  const SECOND := 1_000_000_000
  const DEFAULT_CLAIM_TTL := 30 * SECOND

  datatype ViewMember = ViewMember(member: Member, active: bool)
  datatype View = View(epoch: nat, replicas: int, members: map<string, ViewMember>)

  /** memberNames: the names that enter the owner ring. */
  function ServingNames(v: View): set<string> {
    set n | n in v.members && v.members[n].active && !v.members[n].member.draining
  }

  /** The view that one linearizable snapshot determines. */
  ghost predicate IsViewOf(v: View, s: Store) {
    && v.epoch == Epoch(s) && v.replicas == Replicas(s.watched)
    && (forall n | n in v.members ::
          MemberKey(n) in s.watched && s.watched[MemberKey(n)].value == MemberValue(v.members[n].member) &&
          (v.members[n].active <==> n in ActiveNames(s.watched)))
    && (forall n :: MemberKey(n) in s.watched ==> n in v.members)
  }

  lemma ViewRing(v: View, s: Store)
    requires Reachable(s) && IsViewOf(v, s)
    ensures ServingNames(v) == Serving(s.watched)
  {
    ReachableInv(s);
    forall n ensures n in ServingNames(v) <==> n in Serving(s.watched) {
      if n in v.members { assert MemberKey(n) in s.watched; }
      if MemberKey(n) in s.watched { assert Owned(s, MemberKey(n)); }
    }
  }

  /** maxMemberRevision over the records under the members prefix. */
  method MaxMemberRevision(records: map<Key, Entry>) returns (epoch: nat)
    ensures forall k | k in records && k.MemberKey? :: records[k].modRev <= epoch
    ensures epoch == 0 || exists k :: k in records && k.MemberKey? && records[k].modRev == epoch
  {
    epoch := 0;
    var rest := records.Keys;
    while rest != {}
      invariant rest <= records.Keys
      invariant forall k | k in records && k.MemberKey? && k !in rest :: records[k].modRev <= epoch
      invariant epoch == 0 || exists k :: k in records && k.MemberKey? && records[k].modRev == epoch
      decreases |rest|
    {
      var k :| k in rest;
      rest := rest - {k};
      if k.MemberKey? && records[k].modRev > epoch { epoch := records[k].modRev; }
    }
  }

  predicate NamedByKey(records: map<Key, Entry>) {
    forall k | k in records && k.MemberKey? ::
      records[k].value.MemberValue? && records[k].value.member.name == k.name
  }

  predicate Configured(m: Member, allowed: Whitelist) { m.name in allowed && allowed[m.name] == m.address }

  /** buildClusterView: succeeds exactly when every record is a configured node
      at its configured address, and marks the members of the topology active. */
  method BuildClusterView(epoch: nat, records: map<Key, Entry>, topology: Topology, allowed: Whitelist)
    returns (r: Option<View>)
    requires NamedByKey(records)
    ensures r.Some? <==>
              && Acceptable(topology, allowed)
              && forall k | k in records && k.MemberKey? ::
                   k.name in allowed && allowed[k.name] == records[k].value.member.address
    ensures r.Some? ==> r.value.epoch == epoch && r.value.replicas == topology.replicas
    ensures r.Some? ==> forall n :: n in r.value.members <==> MemberKey(n) in records
    ensures r.Some? ==> forall n | n in r.value.members ::
              records[MemberKey(n)].value == MemberValue(r.value.members[n].member)
    ensures r.Some? && Canonical(topology, allowed) ==> forall n | n in r.value.members ::
              r.value.members[n].active <==> n in topology.members
  {
    var normalized := NormalizeClusterTopology(topology, allowed);
    if normalized.None? { return None; }
    if Canonical(topology, allowed) { CanonicalFixpoint(topology, normalized.value, allowed); }
    var active := Elems(normalized.value.members);
    var members: map<string, ViewMember> := map[];
    var rest := set k | k in records && k.MemberKey?;
    while rest != {}
      invariant rest <= set k | k in records && k.MemberKey?
      invariant forall k | k in records && k.MemberKey? && k !in rest ::
                  Configured(records[k].value.member, allowed)
      invariant forall n :: n in members <==> MemberKey(n) in records && MemberKey(n) !in rest
      invariant forall n | n in members ::
                  records[MemberKey(n)].value == MemberValue(members[n].member) &&
                  (members[n].active <==> n in active)
      decreases |rest|
    {
      var k :| k in rest;
      rest := rest - {k};
      var m := records[k].value.member;
      if !Configured(m, allowed) { return None; }
      members := members[m.name := ViewMember(m, m.name in active)];
    }
    r := Some(View(epoch, topology.replicas, members));
  }

  predicate CanServe(s: Store, n: string) {
    MemberKey(n) in s.watched && s.watched[MemberKey(n)].value.MemberValue? &&
    var m := s.watched[MemberKey(n)].value.member;
    !m.draining && MIN_PROTOCOL_VERSION <= m.protocol <= PROTOCOL_VERSION
  }

  predicate HasDrained(s: Store, n: string) {
    MemberKey(n) in s.watched && s.watched[MemberKey(n)].value.MemberValue? &&
    s.watched[MemberKey(n)].value.member.draining
  }

  /** When a change of topology is allowed in a snapshot: two nodes more or two
      less, everyone who stays or joins is serving, everyone who leaves has
      drained. */
  predicate ChangeAllowed(s: Store, current: Topology, desired: Topology) {
    && Adjacent(current, desired)
    && (forall n | n in desired.members :: CanServe(s, n))
    && (|desired.members| < |current.members| ==>
          forall n | n in current.members && n !in desired.members :: HasDrained(s, n))
  }

  /** The checks of ChangeTopology on the snapshot it has read. */
  method CheckChange(s: Store, current: Topology, desired: Topology) returns (ok: bool)
    ensures ok <==> ChangeAllowed(s, current, desired)
    ensures ok <==>
              && ((|desired.members| == |current.members| + 2 && Elems(current.members) <= Elems(desired.members))
                  || (|desired.members| + 2 == |current.members| &&
                      Elems(desired.members) <= Elems(current.members)))
              && (forall n | n in desired.members ::
                    && MemberKey(n) in s.watched && s.watched[MemberKey(n)].value.MemberValue?
                    && !s.watched[MemberKey(n)].value.member.draining
                    && MIN_PROTOCOL_VERSION <= s.watched[MemberKey(n)].value.member.protocol <= PROTOCOL_VERSION)
              && (|desired.members| < |current.members| ==>
                    forall n | n in current.members && n !in desired.members ::
                      && MemberKey(n) in s.watched && s.watched[MemberKey(n)].value.MemberValue?
                      && s.watched[MemberKey(n)].value.member.draining)
  {
    var grows := IsStringSubset(current.members, desired.members);
    var shrinks := IsStringSubset(desired.members, current.members);
    var expanding := |desired.members| == |current.members| + 2 && grows;
    var shrinking := |desired.members| + 2 == |current.members| && shrinks;
    if !expanding && !shrinking { return false; }
    for i := 0 to |desired.members|
      invariant forall k | 0 <= k < i :: CanServe(s, desired.members[k])
    {
      if !CanServe(s, desired.members[i]) { return false; }
    }
    if shrinking {
      for i := 0 to |current.members|
        invariant forall k | 0 <= k < i && current.members[k] !in desired.members ::
                    HasDrained(s, current.members[k])
      {
        if current.members[i] !in desired.members && !HasDrained(s, current.members[i]) { return false; }
      }
    }
    return true;
  }

  lemma {:induction false} ReplayAfter(log: seq<Change>, k: Key, i: nat)
    requires i < |log| && log[i].key == k
    ensures exists j :: i <= j < |log| && log[j].key == k && log[j].entry == Replay(None, log, k)
  {
    if log[|log| - 1].key != k { ReplayAfter(log[..|log| - 1], k, i); }
  }

  lemma {:induction false} TopologiesSkip(log: seq<Change>, tail: seq<Change>)
    requires forall i | 0 <= i < |tail| :: tail[i].key != TopologyKey
    ensures TopologiesOf(log + tail) == TopologiesOf(log)
  {
    if tail == [] {
      assert log + tail == log;
    } else {
      assert (log + tail)[..|log + tail| - 1] == log + tail[..|tail| - 1];
      TopologiesSkip(log, tail[..|tail| - 1]);
    }
  }

  /** An unchanged revision of the topology key means that no topology has been
      committed in between. */
  lemma SameTopologyRevision(a: Store, b: Store)
    requires Reachable(a) && Reaches(a, b) && TopologyKey in a.watched && TopologyKey in b.watched
    requires a.watched[TopologyKey].modRev == b.watched[TopologyKey].modRev
    ensures TopologiesOf(a.log) == TopologiesOf(b.log)
  {
    ReachableInv(a);
    ReachesLater(a, b);
    ReachableInv(b);
    var tail := b.log[|a.log|..];
    assert b.log == a.log + tail;
    forall i | 0 <= i < |tail| ensures tail[i].key != TopologyKey {
      if tail[i].key == TopologyKey {
        assert Replay(None, b.log, TopologyKey) == Get(b, TopologyKey);
        ReplayAfter(b.log, TopologyKey, |a.log| + i);
        assert false;
      }
    }
    TopologiesSkip(a.log, tail);
  }

  /** What a caller has read of the topology is in etcd's history. */
  lemma TopologyIsLogged(s: Store)
    requires Reachable(s) && TopologyKey in s.watched
    ensures s.watched[TopologyKey].value.TopologyValue?
    ensures Canonical(s.watched[TopologyKey].value.topology, s.allowed)
    ensures TopologyPut(s.watched[TopologyKey].modRev, s.watched[TopologyKey].value.topology) in s.log
  {
    ReachableInv(s);
    assert Replay(None, s.log, TopologyKey) == Get(s, TopologyKey);
    ReplayAt(s.log, TopologyKey);
    var i :| 0 <= i < |s.log| && s.log[i].key == TopologyKey && s.log[i].entry == Get(s, TopologyKey);
    var ts := TopologiesOf(s.log);
    assert Canonical(ts[|ts| - 1], s.allowed);
  }

  lemma SessionIsRevocable(s: Store, l: nat)
    requires Reachable(s) && (l in s.leases ==> s.leases[l].session)
    ensures Disciplined(s, Revoke(l))
  {
    ReachableInv(s);
  }

  datatype ClaimResult = Claimed | Refused | ClaimError
  datatype ChangeResult = Changed | Unchanged | ChangeError

  datatype Attempt = Reached | Lost | Failed

  /** What has been published since the lease was lost: the view that was under way
      then, and any view read later. */
  datatype Since = Since(pending: bool, later: bool)

  /** Of the node's requests to etcd and the database, those of a call made with `served`
      are all answered; others may fail. */
  class Node {
    const etcd: Etcd
    const db: Database
    const allowed: Whitelist
    const leaseTTL: nat

    var member: Member
    var leaseID: nat
    var leaseAlive: bool
    var viewApplied: bool
    var draining: bool
    var view: Option<View>
    var lastViewRefresh: int
    var ring: set<string>
    var viewEpoch: nat
    ghost var readAt: Store   // the snapshot the current view was derived from

    ghost predicate Valid()
      reads this, etcd, db
    {
      && etcd.Valid() && etcd.s.allowed == allowed && leaseID < etcd.s.nextLease
      && (leaseID != 0 ==> OwnsLease(etcd.s, leaseID, member))
      && (view.None? ==> viewEpoch == 0 && ring == allowed.Keys)
      && (view.Some? ==>
            && Reachable(readAt) && Reaches(readAt, etcd.s) && IsViewOf(view.value, readAt)
            && ring == ServingNames(view.value) && viewEpoch == view.value.epoch && viewEpoch <= db.fence)
    }

    constructor (etcd: Etcd, db: Database, member: Member, leaseTTL: nat)
      requires etcd.Valid()
      ensures Valid() && this.etcd == etcd && this.db == db && this.member == member
    {
      this.etcd := etcd;
      this.db := db;
      this.allowed := etcd.s.allowed;
      this.leaseTTL := leaseTTL;
      this.member := member;
      leaseID, leaseAlive, viewApplied, draining := 0, false, false, false;
      view, lastViewRefresh, ring, viewEpoch := None, 0, etcd.s.allowed.Keys, 0;
      readAt := etcd.s;
      new;
      ReachableInv(etcd.s);
    }

    /** Interference never invalidates what this node knows. */
    method Interfere(mine: nat, ghost origin: Store)
      requires Valid() && Reaches(origin, etcd.s)
      modifies etcd, db
      ensures Valid() && Reaches(origin, etcd.s) && Reaches(old(etcd.s), etcd.s)
      ensures forall c | c in etcd.s.successes && c.lease == mine :: c in old(etcd.s.successes)
      ensures db.fence >= old(db.fence)
    {
      etcd.Others(mine);
      db.Others();
      Stable(old(etcd.s), origin);
    }

    /** One request of this node. */
    method Send(step: Step, ghost origin: Store) returns (ok: bool)
      requires Valid() && Reaches(origin, etcd.s) && Disciplined(etcd.s, step)
      modifies etcd
      ensures Valid() && Reaches(origin, etcd.s) && Reaches(old(etcd.s), etcd.s)
      ensures ok == Compare(old(etcd.s), step) && etcd.s == Apply(old(etcd.s), step)
    {
      ok := etcd.Txn(step);
      Stable(old(etcd.s), origin);
    }

    lemma Stable(before: Store, origin: Store)
      requires Reachable(before) && Reaches(before, etcd.s) && Reaches(origin, before)
      ensures Reaches(origin, etcd.s) && before.allowed == etcd.s.allowed
      ensures before.nextLease <= etcd.s.nextLease
      ensures view.Some? && Reaches(readAt, before) ==> Reaches(readAt, etcd.s)
      ensures leaseID < before.nextLease && OwnsLease(before, leaseID, member) ==>
                OwnsLease(etcd.s, leaseID, member)
    {
      ReachesTransitive(origin, before, etcd.s);
      CountersGrow(before, etcd.s);
      if view.Some? && Reaches(readAt, before) { ReachesTransitive(readAt, before, etcd.s); }
      if leaseID < before.nextLease && leaseID in etcd.s.leases { LeaseStable(before, etcd.s, leaseID); }
    }

    // ---------- registration ----------

    method AcquireLease(served: bool, ghost origin: Store) returns (ok: bool)
      requires Valid() && Reaches(origin, etcd.s) && Admissible(member, allowed)
      modifies `leaseID, etcd, db
      ensures Valid() && Reaches(origin, etcd.s) && Reaches(old(etcd.s), etcd.s) && db.fence >= old(db.fence)
      ensures ok ==> leaseID != 0
      ensures served ==> ok
    {
      ghost var s0 := etcd.s;
      Interfere(0, origin);
      var failed: bool := *;
      if failed && !served { return false; }
      ReachableInv(etcd.s);
      var granted := etcd.s.nextLease;
      ghost var s1 := etcd.s;
      ok := Send(Grant(member.name, member.instance, leaseTTL, true), origin);
      ReachesTransitive(s0, s1, etcd.s);
      AdoptLease(granted);
    }

    method AdoptLease(granted: nat)
      requires Valid() && granted < etcd.s.nextLease && OwnsLease(etcd.s, granted, member)
      modifies `leaseID
      ensures Valid() && leaseID == granted
    {
      leaseID := granted;
    }

    method DropLease(ghost origin: Store)
      requires Valid() && Reaches(origin, etcd.s) && leaseID != 0
      modifies etcd
      ensures Valid() && Reaches(origin, etcd.s) && Reaches(old(etcd.s), etcd.s)
    {
      ReachesSelf(etcd.s);
      var failed: bool := *;
      if failed { return; }
      SessionIsRevocable(etcd.s, leaseID);
      var _ := Send(Revoke(leaseID), origin);
    }

    /** Nobody held our name at `at`, and our record under our lease is all that `after`
        adds. */
    ghost predicate Enters(at: Store, after: Store)
      reads this
    {
      && MemberKey(member.name) !in at.watched
      && after.watched == at.watched[MemberKey(member.name) := Entry(MemberValue(member), at.rev + 1, leaseID)]
    }

    /** The registering transaction itself; `at` is the moment it was served. */
    method SendRegister(ghost origin: Store) returns (won: bool, ghost at: Store)
      requires Valid() && Reaches(origin, etcd.s) && leaseID != 0 && Admissible(member, allowed)
      modifies etcd, db
      ensures Valid() && Reaches(origin, etcd.s) && Reaches(old(etcd.s), etcd.s) && Reaches(old(etcd.s), at)
      ensures db.fence >= old(db.fence) && Reaches(at, etcd.s)
      ensures won <==> MemberKey(member.name) !in at.watched && leaseID in at.leases
      ensures won ==> Enters(at, etcd.s)
    {
      ghost var s0 := etcd.s;
      Interfere(0, origin);
      at := etcd.s;
      won := Send(EtcdStore.Register(leaseID, member), origin);
      ReachesTransitive(s0, at, etcd.s);
    }

    /** register: on success our record was written under a lease granted to this
        very instance, at a moment `at` when no live instance held the name. If its requests
        are served it succeeds exactly if the node is configured as it is, and at that
        moment the name is free and the lease has not run out. */
    method Register(served: bool, ghost origin: Store) returns (ok: bool, ghost at: Store)
      requires Valid() && Reaches(origin, etcd.s)
      modifies `leaseID, `leaseAlive, etcd, db
      ensures Valid() && Reaches(origin, etcd.s) && Reaches(old(etcd.s), etcd.s)
      ensures !(member.name in allowed && allowed[member.name] == member.address
                && MIN_PROTOCOL_VERSION <= member.protocol <= PROTOCOL_VERSION) ==>
                !ok && etcd.s == old(etcd.s) && leaseID == old(leaseID)
      ensures leaseAlive == (ok || old(leaseAlive)) && db.fence >= old(db.fence)
      ensures Reaches(old(etcd.s), at) && Reaches(at, etcd.s)
      ensures ok ==> leaseID != 0 && Enters(at, etcd.s)
      ensures served ==>
                (ok <==> && member.name in allowed && allowed[member.name] == member.address
                         && MIN_PROTOCOL_VERSION <= member.protocol <= PROTOCOL_VERSION
                         && MemberKey(member.name) !in at.watched && leaseID in at.leases)
    {
      at := etcd.s;
      ReachesSelf(at);
      if !Admissible(member, allowed) { return false, at; }
      ghost var s0 := etcd.s;
      ok := AcquireLease(served, origin);
      if !ok { return false, at; }
      ghost var s1 := etcd.s;
      ok, at := RegisterUnder(served, origin);
      ReachesTransitive(s0, s1, at);
      ReachesTransitive(s0, s1, etcd.s);
    }

    /** The part of register after the lease: the transaction and the keep-alive, or the
        lease is dropped. */
    method RegisterUnder(served: bool, ghost origin: Store) returns (ok: bool, ghost at: Store)
      requires Valid() && Reaches(origin, etcd.s) && leaseID != 0 && Admissible(member, allowed)
      modifies `leaseAlive, etcd, db
      ensures Valid() && Reaches(origin, etcd.s) && Reaches(old(etcd.s), etcd.s) && Reaches(old(etcd.s), at)
      ensures db.fence >= old(db.fence) && leaseAlive == (ok || old(leaseAlive)) && Reaches(at, etcd.s)
      ensures ok ==> Enters(at, etcd.s)
      ensures served ==> (ok <==> MemberKey(member.name) !in at.watched && leaseID in at.leases)
    {
      ghost var s0 := etcd.s;
      var won;
      won, at := SendRegister(origin);
      // the name may be taken, or the transaction or the keep-alive may fail
      var failed: bool := *;
      ok := won && (served || !failed);
      if ok {
        leaseAlive := true;
      } else {
        ghost var s1 := etcd.s;
        DropLease(origin);
        ReachesTransitive(s0, s1, etcd.s);
        ReachesTransitive(at, s1, etcd.s);
      }
    }

    /** keepAliveLoop beside another goroutine of the node, if it is free to act: the
        lease is lost, which withdraws readiness, and registered again, any number of
        times. `lost` tells whether it was lost. */
    method KeepAlive(beside: bool, ghost origin: Store) returns (ghost lost: bool)
      requires Valid() && Reaches(origin, etcd.s)
      modifies `leaseID, `leaseAlive, `viewApplied, etcd, db
      ensures Valid() && Reaches(origin, etcd.s) && Reaches(old(etcd.s), etcd.s) && db.fence >= old(db.fence)
      ensures viewApplied == (old(viewApplied) && !lost) && (!lost && old(leaseAlive) ==> leaseAlive)
      ensures !beside ==> !lost && leaseAlive == old(leaseAlive) && leaseID == old(leaseID)
    {
      lost := false;
      ghost var s0 := etcd.s;
      ReachesSelf(s0);
      var rounds: nat := *;
      while beside && rounds > 0
        invariant Valid() && Reaches(origin, etcd.s) && Reaches(s0, etcd.s) && db.fence >= old(db.fence)
        invariant viewApplied == (old(viewApplied) && !lost) && (!lost && old(leaseAlive) ==> leaseAlive)
        invariant !beside ==> !lost && leaseAlive == old(leaseAlive) && leaseID == old(leaseID)
      {
        rounds := rounds - 1;
        if leaseAlive {
          leaseAlive, viewApplied := false, false;
          lost := true;
        } else {
          ghost var s1, at := etcd.s, etcd.s;
          var again, served: bool := *, *;
          again, at := Register(served, origin);
          ReachesTransitive(s0, s1, etcd.s);
        }
      }
    }

    // ---------- the derived view ----------

    /** The part of refreshView that derives a view from one snapshot. It always
        succeeds once a topology has been committed. */
    method Derive(s: Store) returns (r: Option<View>)
      requires Reachable(s) && s.allowed == allowed
      ensures r.Some? <==> TopologyKey in s.watched
      ensures r.Some? ==> IsViewOf(r.value, s) && 0 < r.value.epoch
    {
      ReachableInv(s);
      if TopologyKey !in s.watched { return None; }
      var topology := s.watched[TopologyKey].value.topology;
      var epoch := DeriveEpoch(s);
      CanonicalIsAcceptable(topology, allowed);
      assert forall k | k in s.watched && k.MemberKey? :: Owned(s, k);
      r := BuildClusterView(epoch, s.watched, topology, allowed);
    }

    /** The largest revision of members and topology, or the marker if it is larger. */
    method DeriveEpoch(s: Store) returns (epoch: nat)
      requires Inv(s) && TopologyKey in s.watched
      ensures epoch == Epoch(s) > 0
    {
      epoch := MaxMemberRevision(s.watched);
      if s.watched[TopologyKey].modRev > epoch { epoch := s.watched[TopologyKey].modRev; }
      assert epoch == MaxRev(s.watched);
      if s.markers != [] {
        var persisted := s.markers[|s.markers| - 1].value;
        if persisted > epoch { epoch := persisted; }
      }
    }

    /** applyControlPlaneView: the database fence first, then ring and epoch. */
    method ApplyControlPlaneView(v: View, served: bool) returns (ok: bool, ghost how: Advance)
      requires db.fence >= viewEpoch
      modifies `ring, `viewEpoch, db
      ensures FenceMoved(old(db.fence), db.fence, v.epoch, ok, how)
      ensures served && v.epoch > 0 ==> how.ReadBack?
      ensures ok ==> ring == ServingNames(v) && old(viewEpoch) <= viewEpoch == v.epoch <= db.fence
      ensures ok ==> forall n ::
                n in ring <==> n in v.members && v.members[n].active && !v.members[n].member.draining
      ensures !ok ==> ring == old(ring) && viewEpoch == old(viewEpoch)
    {
      ok, how := db.ClusterFenceAdvance(v.epoch, served);
      if ok { ring, viewEpoch := ServingNames(v), v.epoch; }
    }

    /** The ring is made of exactly the nodes that the last topology committed by `s` names
        and that have a record there which is not draining. */
    ghost predicate RingFrom(s: Store)
      reads this
    {
      var ts := TopologiesOf(s.log);
      forall n ::
        n in ring <==>
          && ts != [] && n in ts[|ts| - 1].members && MemberKey(n) in s.watched
          && s.watched[MemberKey(n)].value.MemberValue? && !s.watched[MemberKey(n)].value.member.draining
    }

    lemma RingIs()
      requires Valid() && view.Some?
      ensures RingFrom(readAt)
    {
      ViewRing(view.value, readAt);
      ReachableInv(readAt);
      forall n { RingAt(readAt, n); }
    }

    /** refreshView. A success means that the published view carries the epoch of
        the snapshot `at` taken during this call: either it already had that epoch
        and nothing but the refresh time changed, or the snapshot's view is published,
        with ring and epoch switched and the fence raised. A failure keeps the old
        view; if it came after the new epoch was seen, the node is no longer ready.
        `how` is what became of the fence, None if it was not touched because the
        snapshot's view does not differ. refreshLock does not keep keepAliveLoop out:
        `lost` tells whether it has lost the lease after the view was published. If its
        requests are served, it fails only while no topology has been committed, or because
        another node has raised the fence past the epoch. */
    method RefreshView(now: int, served: bool, beside: bool, ghost origin: Store)
      returns (ok: bool, ghost at: Store, ghost how: Option<Advance>, ghost lost: bool)
      requires Valid() && Reaches(origin, etcd.s)
      modifies `leaseID, `leaseAlive, `view, `viewApplied, `lastViewRefresh, `ring, `viewEpoch, `readAt, etcd, db
      ensures Valid() && Reaches(origin, etcd.s) && Reaches(old(etcd.s), etcd.s)
      ensures Reaches(old(etcd.s), at) && Reaches(at, etcd.s)
      ensures ok ==> view.Some? && view.value.epoch == Epoch(at) && lastViewRefresh == now
      ensures how.Some? ==> TopologyKey in at.watched && (old(view).Some? ==> old(view).value.epoch != Epoch(at))
      ensures how.None? && ok ==> old(view).Some? && old(view).value.epoch == Epoch(at)
      ensures served ==>
                (ok <==> TopologyKey in at.watched && (how.None? || how.value == ReadBack(Epoch(at))))
      ensures served && how.Some? && !ok ==> how.value.ReadBack? && Epoch(at) < how.value.seen <= db.fence
      ensures how.Some? ==> FenceMoved(old(db.fence), db.fence, Epoch(at), ok, how.value)
      ensures how.Some? && ok ==> readAt == at && viewApplied == !lost && RingFrom(at)
      ensures how.Some? && !ok ==> view == old(view) && readAt == old(readAt) && !viewApplied
      ensures how.None? || !ok ==> ring == old(ring) && viewEpoch == old(viewEpoch)
      ensures how.None? ==> view == old(view) && readAt == old(readAt) && viewApplied == (old(viewApplied) && !lost)
      ensures how.None? && !lost && old(leaseAlive) ==> leaseAlive
      ensures !beside ==> !lost && leaseAlive == old(leaseAlive) && leaseID == old(leaseID)
      ensures viewEpoch >= old(viewEpoch) && db.fence >= old(db.fence)
    {
      ghost var s0 := etcd.s;
      var newest;
      newest, at, lost := ReadView(served, beside, origin);
      ReachesSelf(at);
      if newest.None? { return false, at, None, lost; }
      ghost var after;
      ok, how, after := Renew(newest.value, at, now, served, beside, origin);
      if how.Some? { lost := after; }
      if how.Some? && ok { RingIs(); }
      ReachesTransitive(s0, at, etcd.s);
    }

    /** What follows once the view is known: nothing, or its installation. */
    method Renew(newest: View, ghost at: Store, now: int, served: bool, beside: bool, ghost origin: Store)
      returns (ok: bool, ghost how: Option<Advance>, ghost lost: bool)
      requires Valid() && Reaches(origin, etcd.s) && at == etcd.s && IsViewOf(newest, at)
      modifies `leaseID, `leaseAlive, `view, `viewApplied, `lastViewRefresh, `ring, `viewEpoch, `readAt, etcd, db
      ensures Valid() && Reaches(origin, etcd.s) && Reaches(at, etcd.s)
      ensures ok ==> view.Some? && view.value.epoch == newest.epoch && lastViewRefresh == now
      ensures how.None? <==> old(view).Some? && old(view).value.epoch == newest.epoch
      ensures how.None? ==> ok && view == old(view) && readAt == old(readAt) && viewApplied == old(viewApplied)
      ensures how.None? || !ok ==> ring == old(ring) && viewEpoch == old(viewEpoch)
      ensures how.None? || !beside ==> leaseAlive == old(leaseAlive) && leaseID == old(leaseID) && !lost
      ensures how.Some? ==> FenceMoved(old(db.fence), db.fence, newest.epoch, ok, how.value)
      ensures served && newest.epoch > 0 && how.Some? ==> how.value.ReadBack?
      ensures how.Some? && ok ==> readAt == at && viewApplied == !lost
      ensures how.Some? && !ok ==> view == old(view) && readAt == old(readAt) && !viewApplied
      ensures viewEpoch >= old(viewEpoch) && db.fence >= old(db.fence)
    {
      ReachesSelf(at);
      if view.Some? && view.value.epoch == newest.epoch {
        lastViewRefresh := now;
        return true, None, false;
      }
      viewApplied := false;
      ghost var done;
      ok, done, lost := Install(newest, at, now, served, beside, origin);
      how := Some(done);
    }

    /** The first half of refreshView: a snapshot, and the view it determines. */
    method ReadView(served: bool, beside: bool, ghost origin: Store)
      returns (newest: Option<View>, ghost at: Store, ghost lost: bool)
      requires Valid() && Reaches(origin, etcd.s)
      modifies `leaseID, `leaseAlive, `viewApplied, etcd, db
      ensures Valid() && Reaches(origin, etcd.s) && Reaches(old(etcd.s), etcd.s) && at == etcd.s
      ensures newest.Some? ==> TopologyKey in at.watched && IsViewOf(newest.value, at) && 0 < newest.value.epoch
      ensures served && TopologyKey in at.watched ==> newest.Some?
      ensures viewApplied == (old(viewApplied) && !lost) && (!lost && old(leaseAlive) ==> leaseAlive)
      ensures !beside ==> !lost && leaseAlive == old(leaseAlive) && leaseID == old(leaseID)
      ensures db.fence >= old(db.fence)
    {
      ghost var s0 := etcd.s;
      lost := KeepAlive(beside, origin);
      ghost var s1 := etcd.s;
      Interfere(0, origin);
      at := etcd.s;
      ReachesTransitive(s0, s1, at);
      var failed: bool := *;
      if failed && !served { return None, at, lost; }
      newest := Derive(etcd.s);
    }

    /** The second half of refreshView, for a view that differs from ours. What
        keepAliveLoop does between the stores has the same effect before them. */
    method Install(newest: View, ghost at: Store, now: int, served: bool, beside: bool, ghost origin: Store)
      returns (ok: bool, ghost how: Advance, ghost lost: bool)
      requires Valid() && Reaches(origin, etcd.s) && at == etcd.s && IsViewOf(newest, at) && !viewApplied
      modifies `leaseID, `leaseAlive, `view, `viewApplied, `lastViewRefresh, `ring, `viewEpoch, `readAt, etcd, db
      ensures Valid() && Reaches(origin, etcd.s) && Reaches(at, etcd.s)
      ensures FenceMoved(old(db.fence), db.fence, newest.epoch, ok, how)
      ensures served && newest.epoch > 0 ==> how.ReadBack?
      ensures ok ==> view == Some(newest) && readAt == at && viewApplied == !lost && lastViewRefresh == now
      ensures !ok ==> view == old(view) && readAt == old(readAt) && !viewApplied
      ensures !ok ==> ring == old(ring) && viewEpoch == old(viewEpoch)
      ensures !beside ==> !lost && leaseAlive == old(leaseAlive) && leaseID == old(leaseID)
      ensures viewEpoch >= old(viewEpoch) && db.fence >= old(db.fence)
    {
      ghost var before := KeepAlive(beside, origin);
      ghost var s1 := etcd.s;
      Interfere(0, origin);
      ReachesTransitive(at, s1, etcd.s);
      ok, how := ApplyAndPublish(newest, at, now, served);
      ghost var s2 := etcd.s;
      lost := KeepAlive(beside, origin);
      ReachesTransitive(at, s2, etcd.s);
    }

    method ApplyAndPublish(newest: View, ghost at: Store, now: int, served: bool)
      returns (ok: bool, ghost how: Advance)
      requires Valid() && Reachable(at) && Reaches(at, etcd.s) && IsViewOf(newest, at) && !viewApplied
      modifies `view, `viewApplied, `lastViewRefresh, `ring, `viewEpoch, `readAt, db
      ensures Valid() && FenceMoved(old(db.fence), db.fence, newest.epoch, ok, how) && viewEpoch >= old(viewEpoch)
      ensures served && newest.epoch > 0 ==> how.ReadBack?
      ensures ok ==> view == Some(newest) && readAt == at && viewApplied && lastViewRefresh == now
      ensures !ok ==> view == old(view) && readAt == old(readAt) && !viewApplied
      ensures !ok ==> ring == old(ring) && viewEpoch == old(viewEpoch)
    {
      ok, how := ApplyControlPlaneView(newest, served);
      if ok {
        view, readAt := Some(newest), at;
        viewApplied, lastViewRefresh := true, now;
      }
    }

    /** The node's own watch and refresh goroutines, while another one runs:
        `installed` tells whether they have published a view. An applied view was read
        in between if they have, else it is the one that was applied. */
    method RefreshesMeanwhile(beside: bool, ghost origin: Store) returns (ghost installed: bool)
      requires Valid() && Reaches(origin, etcd.s)
      modifies `leaseID, `leaseAlive, `view, `viewApplied, `lastViewRefresh, `ring, `viewEpoch, `readAt, etcd, db
      ensures Valid() && Reaches(origin, etcd.s) && Reaches(old(etcd.s), etcd.s)
      ensures old(view).Some? ==> view.Some? && Reaches(old(readAt), readAt)
      ensures viewApplied ==>
                if installed then Reaches(old(etcd.s), readAt) else old(viewApplied) && readAt == old(readAt)
      ensures !installed ==> ring == old(ring) && viewEpoch == old(viewEpoch)
      ensures !installed ==> view == old(view) && readAt == old(readAt)
      ensures !beside ==> leaseAlive == old(leaseAlive) && leaseID == old(leaseID)
    {
      ghost var s0, read := etcd.s, readAt;
      installed := false;
      ReachesSelf(readAt);
      ReachesSelf(etcd.s);
      var rounds: nat := *;
      while rounds > 0
        invariant Valid() && Reaches(origin, etcd.s) && Reaches(s0, etcd.s)
        invariant old(view).Some? ==> view.Some? && Reaches(read, readAt)
        invariant viewApplied ==> if installed then Reaches(s0, readAt) else old(viewApplied) && readAt == read
        invariant !installed ==> ring == old(ring) && viewEpoch == old(viewEpoch)
        invariant !installed ==> view == old(view) && readAt == read
        invariant !beside ==> leaseAlive == old(leaseAlive) && leaseID == old(leaseID)
      {
        ghost var s1 := etcd.s;
        ghost var once := MaybeRefresh(beside, origin);
        ReachesTransitive(s0, s1, etcd.s);
        if viewApplied && once { ReachesTransitive(s0, s1, readAt); }
        installed := installed || once;
        rounds := rounds - 1;
      }
    }

    method MaybeRefresh(beside: bool, ghost origin: Store) returns (ghost once: bool)
      requires Valid() && Reaches(origin, etcd.s)
      modifies `leaseID, `leaseAlive, `view, `viewApplied, `lastViewRefresh, `ring, `viewEpoch, `readAt, etcd, db
      ensures Valid() && Reaches(origin, etcd.s) && Reaches(old(etcd.s), etcd.s)
      ensures old(view).Some? ==>
                view.Some? && forall s | Reaches(s, old(readAt)) :: Reaches(s, readAt)
      ensures viewApplied ==> if once then Reaches(old(etcd.s), readAt) else old(viewApplied)
      ensures !once ==> ring == old(ring) && viewEpoch == old(viewEpoch)
      ensures !once ==> view == old(view) && readAt == old(readAt)
      ensures !beside ==> leaseAlive == old(leaseAlive) && leaseID == old(leaseID)
    {
      ghost var read, start := readAt, etcd.s;
      var now: int, served: bool := *, *;
      var ok;
      ghost var at, how, lost;
      ok, at, how, lost := RefreshView(now, served, beside, origin);
      once := ok && how.Some?;
      if old(view).Some? && once {
        forall s | Reaches(s, read) ensures Reaches(s, readAt) {
          ReachesTransitive(s, read, start);
          ReachesTransitive(s, start, at);
        }
      }
    }

    // ---------- the epoch marker ----------

    method CasMarker(seen: Option<Marker>, epoch: nat, ghost origin: Store) returns (won: bool)
      requires Valid() && Reaches(origin, etcd.s) && 0 < epoch <= etcd.s.rev
      requires seen.Some? ==> seen.value in etcd.s.markers && seen.value.value < epoch
      modifies etcd
      ensures Valid() && Reaches(origin, etcd.s) && Reaches(old(etcd.s), etcd.s)
      ensures won ==> MarkerValue(etcd.s) == epoch
      ensures !won ==> etcd.s == old(etcd.s) && MarkerRead(etcd.s) != seen
    {
      won := Send(AdvanceMarker(seen, epoch), origin);
    }

    /** Put the epoch if the marker is still as read; losing means that somebody
        else has advanced it in between. */
    method PutMarker(seen: Option<Marker>, epoch: nat, served: bool, ghost origin: Store) returns (r: Attempt)
      requires Valid() && Reaches(origin, etcd.s) && 0 < epoch <= etcd.s.rev
      requires seen == MarkerRead(etcd.s) && MarkerValue(etcd.s) < epoch
      modifies etcd, db
      ensures Valid() && Reaches(origin, etcd.s) && Reaches(old(etcd.s), etcd.s)
      ensures r == Reached ==> MarkerValue(etcd.s) >= epoch
      ensures r == Lost ==> MarkerValue(old(etcd.s)) < MarkerValue(etcd.s)
      ensures served ==> r != Failed
    {
      ghost var s0 := etcd.s;
      Interfere(0, origin);
      ghost var s1 := etcd.s;
      MarkerGrows(s0, s1);
      CountersGrow(s0, s1);
      var failed: bool := *;
      if failed && !served { return Failed; }
      var won := CasMarker(seen, epoch, origin);
      ReachesTransitive(s0, s1, etcd.s);
      r := if won then Reached else Lost;
    }

    /** advanceTopologyEpoch: returns successfully only when the marker has
        reached the epoch, and ends under any interference because each lost
        attempt brings the marker closer to it; if its requests are served, it does
        return successfully. */
    method AdvanceTopologyEpoch(epoch: nat, served: bool, ghost origin: Store) returns (ok: bool)
      requires Valid() && Reaches(origin, etcd.s) && epoch <= etcd.s.rev
      modifies etcd, db
      ensures Valid() && Reaches(origin, etcd.s) && Reaches(old(etcd.s), etcd.s)
      ensures ok ==> MarkerValue(etcd.s) >= epoch > 0
      ensures served && epoch > 0 ==> ok
    {
      ghost var start := etcd.s;
      ReachesSelf(start);
      if epoch == 0 { return false; }
      while true
        invariant Valid() && Reaches(origin, etcd.s) && Reaches(start, etcd.s) && epoch <= etcd.s.rev
        decreases epoch - MarkerValue(etcd.s)
      {
        ghost var before := etcd.s;
        Interfere(0, origin);
        MarkerGrows(before, etcd.s);
        CountersGrow(before, etcd.s);
        ReachesTransitive(start, before, etcd.s);
        var failed: bool := *;
        if failed && !served { return false; }
        var seen := MarkerRead(etcd.s);
        if seen.Some? && seen.value.value >= epoch { return true; }
        ghost var read := etcd.s;
        var r := PutMarker(seen, epoch, served, origin);
        ReachesTransitive(start, read, etcd.s);
        CountersGrow(read, etcd.s);
        if r != Lost { return r == Reached; }
      }
    }

    // ---------- watch, lease loss ----------

    /** What watchKeyLoop does with a response's header revision, and BeginDrain
        and ChangeTopology with the revision of their own commit: once it has
        succeeded, the applied view is at least as new as that revision. If its requests are
        served, it fails only while there is no topology, or because the fence was past the
        epoch of the snapshot `at` that it read. */
    method CatchUpTo(revision: nat, now: int, served: bool, ghost origin: Store)
      returns (ok: bool, ghost at: Store)
      requires Valid() && Reaches(origin, etcd.s) && revision <= etcd.s.rev
      modifies `leaseID, `leaseAlive, `view, `viewApplied, `lastViewRefresh, `ring, `viewEpoch, `readAt, etcd, db
      ensures Valid() && Reaches(origin, etcd.s)
      ensures ok ==> view.Some? && viewEpoch >= revision && readAt.rev >= revision
      ensures Reaches(old(etcd.s), at) && Reaches(at, etcd.s)
      ensures served && revision > 0 && !ok ==> TopologyKey !in at.watched || Epoch(at) < db.fence
    {
      ghost var s0 := etcd.s;
      at := s0;
      ReachesSelf(s0);
      var advanced := AdvanceTopologyEpoch(revision, served, origin);
      if !advanced { return false, at; }
      ghost var reached := etcd.s;
      ghost var how, lost;
      ok, at, how, lost := RefreshView(now, served, true, origin);
      ReachesTransitive(s0, reached, at);
      MarkerGrows(reached, at);
      if ok {
        ReachableInv(readAt);
        EpochBound(readAt);
      }
    }

    // ---------- losing and recovering the lease ----------

    /** Our record is in place, attached to the lease. */
    ghost predicate ServesUnder(s: Store, lease: nat)
      reads this
    {
      MemberKey(member.name) in s.watched && s.watched[MemberKey(member.name)].lease == lease &&
      s.watched[MemberKey(member.name)].value == MemberValue(member)
    }

    /** A refresh that has read `from` is under way, and will publish `rest` unless the
        fence call fails; it holds refreshLock, so no other refresh runs. */
    ghost predicate Underway(rest: Option<View>, from: Store)
      reads this, etcd
    {
      rest.Some? ==> Reachable(from) && Reaches(from, etcd.s) && IsViewOf(rest.value, from) && !viewApplied
    }

    /** Where an applied view comes from: the refresh that was under way when the lease
        was lost, if it has published and no other has; else it was read since. */
    ghost predicate Sourced(lost: Store, from: Store, since: Since)
      reads this
    {
      viewApplied ==> if since.later then Reaches(lost, readAt) else since.pending && readAt == from
    }

    /** The refresh under way ends, and publishes its view or not. */
    method EndRefresh(rest: View, ghost from: Store, ghost origin: Store) returns (ghost published: bool)
      requires Valid() && Reaches(origin, etcd.s) && Underway(Some(rest), from)
      modifies `view, `viewApplied, `lastViewRefresh, `ring, `viewEpoch, `readAt, db
      ensures Valid() && viewApplied == published && (published ==> readAt == from)
    {
      var clock: int, served: bool := *, *;
      var ok;
      ghost var how;
      ok, how := ApplyAndPublish(rest, from, clock, served);
      published := ok;
    }

    /** The node's other goroutines while keepAliveLoop recovers the lease: the refresh
        under way may end - it does if the caller waits for the lock - and others may
        follow it. */
    method Refreshing(rest: Option<View>, wait: bool, ghost from: Store, ghost lost: Store, ghost was: Since,
                      ghost origin: Store)
      returns (left: Option<View>, ghost now: Since)
      requires Valid() && Reaches(origin, etcd.s) && Underway(rest, from) && Reaches(lost, etcd.s)
      requires Sourced(lost, from, was) && (rest.Some? ==> was == Since(false, false))
      modifies `leaseID, `leaseAlive, `view, `viewApplied, `lastViewRefresh, `ring, `viewEpoch, `readAt, etcd, db
      ensures Valid() && Reaches(origin, etcd.s) && Underway(left, from) && Reaches(lost, etcd.s)
      ensures Reaches(old(etcd.s), etcd.s)
      ensures Sourced(lost, from, now) && (left.Some? ==> rest.Some? && now == Since(false, false))
      ensures (was.pending ==> now.pending) && (was.later ==> now.later)
      ensures (rest.None? ==> now.pending == was.pending) && (wait ==> left.None?)
      ensures leaseAlive == old(leaseAlive) && leaseID == old(leaseID)
    {
      left, now := rest, was;
      ReachesSelf(etcd.s);
      var goesOn: bool := *;
      if rest.Some? && goesOn && !wait { return; }
      if rest.Some? {
        ghost var published := EndRefresh(rest.value, from, origin);
        left, now := None, Since(published, false);
      }
      now := OthersRefresh(from, lost, now, origin);
    }

    /** Whole refreshes by other goroutines. */
    method OthersRefresh(ghost from: Store, ghost lost: Store, ghost was: Since, ghost origin: Store)
      returns (ghost now: Since)
      requires Valid() && Reaches(origin, etcd.s) && Reaches(lost, etcd.s) && Sourced(lost, from, was)
      modifies `leaseID, `leaseAlive, `view, `viewApplied, `lastViewRefresh, `ring, `viewEpoch, `readAt, etcd, db
      ensures Valid() && Reaches(origin, etcd.s) && Reaches(lost, etcd.s) && Sourced(lost, from, now)
      ensures Reaches(old(etcd.s), etcd.s)
      ensures now.pending == was.pending && (was.later ==> now.later)
      ensures leaseAlive == old(leaseAlive) && leaseID == old(leaseID)
    {
      ghost var s0 := etcd.s;
      ghost var more := RefreshesMeanwhile(false, origin);
      ReachesTransitive(lost, s0, etcd.s);
      if viewApplied && more { ReachesTransitive(lost, s0, readAt); }
      now := Since(was.pending, was.later || more);
    }

    method RegisterRound(rest: Option<View>, ghost from: Store, ghost lost: Store, ghost origin: Store)
      returns (ok: bool, ghost at: Store)
      requires Valid() && Reaches(origin, etcd.s) && Reaches(lost, etcd.s) && Underway(rest, from)
      modifies `leaseID, `leaseAlive, etcd, db
      ensures Valid() && Reaches(origin, etcd.s) && Reaches(lost, etcd.s) && at == etcd.s && Underway(rest, from)
      ensures !ok ==> leaseAlive == old(leaseAlive)
      ensures ok ==> ServesUnder(at, leaseID)
    {
      ghost var s0, free := etcd.s, etcd.s;
      var served: bool := *;
      ok, free := Register(served, origin);
      at := etcd.s;
      ReachesTransitive(lost, s0, etcd.s);
      if rest.Some? { ReachesTransitive(from, s0, etcd.s); }
    }

    /** The refresh at the end of recoverLease, which waits for the one under way;
        `closed` tells whether it has published. */
    method CloseRecovery(now: int, rest: Option<View>, ghost from: Store, ghost lost: Store, ghost was: Since,
                         ghost origin: Store)
      returns (ghost since: Since, ghost closed: bool)
      requires Valid() && Reaches(origin, etcd.s) && Underway(rest, from) && Reaches(lost, etcd.s)
      requires Sourced(lost, from, was) && (rest.Some? ==> was == Since(false, false))
      modifies `leaseID, `leaseAlive, `view, `viewApplied, `lastViewRefresh, `ring, `viewEpoch, `readAt, etcd, db
      ensures Valid() && Reaches(origin, etcd.s) && leaseID == old(leaseID)
      ensures Sourced(lost, from, since) && (rest.None? ==> since.pending == was.pending)
      ensures closed ==> since.later && viewApplied && Reaches(old(etcd.s), readAt)
    {
      ghost var s0 := etcd.s;
      var left;
      left, since := Refreshing(rest, true, from, lost, was, origin);
      ghost var s1 := etcd.s;
      var ok;
      ghost var read, how, again;
      var served: bool := *;
      ok, read, how, again := RefreshView(now, served, false, origin);
      closed := ok && how.Some?;
      if closed {
        ReachesTransitive(s0, s1, readAt);
        ReachesTransitive(lost, s1, readAt);
        since := since.(later := true);
      }
    }

    /** keepAliveLoop, when the lease is lost, and recoverLease. The flags are cleared
        without refreshLock: `pending` is the view of a refresh that is under way at that
        moment, if there is one, and that has read the snapshot `from`; it may publish at
        any later point, and until it ends no other refresh runs.
        While the node has not registered again it is not ready, however the clock stands
        and whatever is refreshed. Once it has, it can be ready with a view read before
        the loss, but only with that of the refresh under way, and only while no refresh
        begun later has published: the closing one - which publishes a view read after
        the new record was in place - or another. */
    method RecoverLease(now: int, pending: Option<View>, ghost from: Store, ghost origin: Store)
      returns (recovered: bool, ghost at: Store, ghost since: Since, ghost closed: bool)
      requires Valid() && Reaches(origin, etcd.s)
      requires pending.Some? ==> Reachable(from) && Reaches(from, etcd.s) && IsViewOf(pending.value, from)
      modifies `leaseID, `leaseAlive, `view, `viewApplied, `lastViewRefresh, `ring, `viewEpoch, `readAt, etcd, db
      ensures Valid() && Reaches(origin, etcd.s)
      ensures !recovered ==> forall t :: !Ready(t)
      ensures recovered ==> Reaches(old(etcd.s), at) && ServesUnder(at, leaseID)
      ensures forall t | Ready(t) ::
                if since.later then Reaches(old(etcd.s), readAt) else since.pending && readAt == from
      ensures since.pending ==> pending.Some?
      ensures closed ==> recovered && since.later && viewApplied && Reaches(at, readAt)
    {
      leaseAlive, viewApplied := false, false;
      ghost var lost := etcd.s;
      ReachesSelf(lost);
      var rest := pending;
      at, recovered, since, closed := lost, false, Since(false, false), false;
      var rounds: nat := *;
      while rounds > 0 && !recovered
        invariant Valid() && Reaches(origin, etcd.s) && Sourced(lost, from, since)
        invariant !recovered ==> !leaseAlive && Reaches(lost, etcd.s) && Underway(rest, from) && !closed
        invariant !recovered && rest.Some? ==> since == Since(false, false)
        invariant rest.Some? || since.pending ==> pending.Some?
        invariant recovered ==> Reaches(lost, at) && ServesUnder(at, leaseID)
        invariant closed ==> since.later && viewApplied && Reaches(at, readAt)
        decreases rounds
      {
        rounds := rounds - 1;
        rest, since := Refreshing(rest, false, from, lost, since, origin);
        recovered, at := RegisterRound(rest, from, lost, origin);
        if recovered {
          since, closed := CloseRecovery(now, rest, from, lost, since, origin);
        }
      }
    }

    /** initializeTopology: the first node commits the configured topology, every
        other one accepts what is committed: after a success the committed topology
        is the one found at the moment `at` of the request, or the configured one if
        there was none. If its request is served, it succeeds for every acceptable
        configuration. */
    method InitializeTopology(replicas: int, names: seq<string>, served: bool, ghost origin: Store)
      returns (ok: bool, ghost at: Store)
      requires Valid() && Reaches(origin, etcd.s)
      modifies etcd, db
      ensures Valid() && Reaches(origin, etcd.s) && Reaches(old(etcd.s), etcd.s)
      ensures !Acceptable(Topology(replicas, names), allowed) ==> !ok && etcd.s == old(etcd.s)
      ensures ok ==>
                && TopologyKey in etcd.s.watched && etcd.s.watched[TopologyKey].value.TopologyValue?
                && Canonical(etcd.s.watched[TopologyKey].value.topology, allowed)
                && (if TopologyKey in at.watched then etcd.s == at
                    else Elems(etcd.s.watched[TopologyKey].value.topology.members) == set n | n in names :: Trim(n))
      ensures Reaches(old(etcd.s), at) && Reaches(at, etcd.s)
      ensures served && Acceptable(Topology(replicas, names), allowed) ==> ok
    {
      at := etcd.s;
      ReachesSelf(etcd.s);
      var topology := NormalizeClusterTopology(Topology(replicas, names), allowed);
      if topology.None? { return false, at; }
      ghost var s0 := etcd.s;
      Interfere(0, origin);
      ghost var s1 := etcd.s;
      at := s1;
      ReachesSelf(at);
      var failed: bool := *;
      if failed && !served { return false, at; }
      var won := Send(InitTopology(topology.value), origin);
      ReachesTransitive(s0, s1, etcd.s);
      TopologyIsLogged(etcd.s);
      ok := true;
    }

    // ---------- readiness and write tokens ----------

    /** Ready. */
    predicate Ready(now: int)
      reads this
    {
      && leaseAlive && viewApplied && now - lastViewRefresh <= leaseTTL
      && view.Some?
      && member.name in ServingNames(view.value)
      && view.value.members[member.name].member.instance == member.instance
      && |ServingNames(view.value)| >= view.value.replicas / 2 + 1
    }

    /** A node that reports ready holds a lease-backed place in the snapshot its
        view was read from, and a majority of that snapshot's topology serves. */
    lemma ReadyMeansMajority(now: int)
      requires Valid() && Ready(now)
      ensures ServesAs(readAt.watched, member.name, member.instance)
      ensures TopologyKey in readAt.watched && readAt.watched[TopologyKey].value.TopologyValue?
      ensures 2 * |Serving(readAt.watched)| > |ActiveNames(readAt.watched)|
    {
      ViewRing(view.value, readAt);
      ReachableInv(readAt);
      TopologyIsLogged(readAt);
      SortedCardinality(readAt.watched[TopologyKey].value.topology.members);
    }

    /** The members of the topology committed in a snapshot that have a record there which
        is not draining. */
    ghost function Up(s: Store, topology: Topology): set<string> {
      set n | n in topology.members && MemberKey(n) in s.watched && s.watched[MemberKey(n)].value.MemberValue? &&
              !s.watched[MemberKey(n)].value.member.draining
    }

    /** When exactly a node is ready: lease and view stand, the last contact with etcd is
        at most the lease's ttl ago, and in the snapshot the view was read from the node
        has a record of this instance, is up, and a majority of the topology's members is. */
    lemma ReadyIff(now: int)
      requires Valid()
      ensures
        Ready(now) <==>
          && leaseAlive && viewApplied && view.Some? && now - lastViewRefresh <= leaseTTL
          && TopologyKey in readAt.watched && readAt.watched[TopologyKey].value.TopologyValue?
          && var topology := readAt.watched[TopologyKey].value.topology;
             && member.name in Up(readAt, topology)
             && readAt.watched[MemberKey(member.name)].value.member.instance == member.instance
             && 2 * |Up(readAt, topology)| > |topology.members|
    {
      if view.Some? {
        ViewRing(view.value, readAt);
        ReachableInv(readAt);
        if TopologyKey in readAt.watched {
          TopologyIsLogged(readAt);
          ServingIsUp(readAt);
        }
      }
    }

    lemma ServingIsUp(s: Store)
      requires Inv(s) && TopologyKey in s.watched && s.watched[TopologyKey].value.TopologyValue?
      ensures Serving(s.watched) == Up(s, s.watched[TopologyKey].value.topology)
    {
      CommittedTopology(s);
      forall n ensures n in Serving(s.watched) <==> n in Up(s, s.watched[TopologyKey].value.topology) {
        RingAt(s, n);
      }
    }

    /** writeFenceToken, the node's refreshes running on between its loads. A token is
        issued only if the node was ready; it carries the epoch of the present view,
        while the ring that named the node the owner is that of the same or of an
        earlier view, `ringFrom`. While no view is installed the two are the same, and
        the token is issued exactly to a healthy, ready owner with a positive epoch. */
    method WriteFenceToken(topic: string, own: (set<string>, string) -> string, now: int, healthy: bool,
                           ghost origin: Store)
      returns (epoch: Option<nat>, ghost ringFrom: Store, ghost installed: bool)
      requires Valid() && Reaches(origin, etcd.s)
      modifies `leaseID, `leaseAlive, `view, `viewApplied, `lastViewRefresh, `ring, `viewEpoch, `readAt, etcd, db
      ensures Valid() && Reaches(origin, etcd.s)
      ensures epoch.Some? ==> healthy && old(Ready(now)) && view.Some?
      ensures epoch.Some? ==> old(leaseAlive && viewApplied) && now - old(lastViewRefresh) <= leaseTTL
      ensures epoch.Some? ==> 0 < epoch.value == viewEpoch == Epoch(readAt) <= db.fence
      ensures epoch.Some? ==> own(Serving(ringFrom.watched), topic) == member.name && Reaches(ringFrom, readAt)
      ensures !installed && epoch.Some? ==> ringFrom == readAt == old(readAt)
      ensures !installed ==>
                (epoch.Some? <==>
                 healthy && old(Ready(now)) && old(viewEpoch) > 0 && own(old(ring), topic) == member.name)
    {
      ringFrom, installed := readAt, false;
      if !healthy || !Ready(now) { return None, ringFrom, installed; }
      installed := RefreshesMeanwhile(true, origin);
      ViewRing(view.value, readAt);
      ringFrom := readAt;
      var owner := own(ring, topic);
      ghost var again := RefreshesMeanwhile(true, origin);
      installed := installed || again;
      if viewEpoch == 0 || owner != member.name { return None, ringFrom, installed; }
      return Some(viewEpoch), ringFrom, installed;
    }

    // ---------- drain ----------

    /** Our record was ours when it was replaced: it was attached to our lease,
        which belongs to this instance alone. */
    ghost predicate DrainedAt(at: Store, m: Member, lease: nat)
      reads this
    {
      && Reachable(at) && m == member.(draining := true)
      && Disciplined(at, Drain(lease, m)) && Compare(at, Drain(lease, m))
    }

    /** The lease stands, and a record of our name is attached to it. */
    ghost predicate HasRecord(s: Store, lease: nat)
      reads this
    {
      && lease in s.leases && MemberKey(member.name) in s.watched
      && s.watched[MemberKey(member.name)].lease == lease
    }

    method SendDrain(m: Member, served: bool, ghost origin: Store) returns (ok: bool, ghost at: Store)
      requires Valid() && Reaches(origin, etcd.s) && leaseID != 0 && m == member.(draining := true)
      modifies etcd, db
      ensures Valid() && Reaches(origin, etcd.s)
      ensures ok ==> DrainedAt(at, m, leaseID) && etcd.s == Apply(at, Drain(leaseID, m)) && etcd.s.rev == at.rev + 1
      ensures Reaches(old(etcd.s), at) && Reaches(at, etcd.s)
      ensures served ==> (ok <==> HasRecord(at, leaseID))
    {
      Interfere(0, origin);
      at := etcd.s;
      ReachesSelf(at);
      var failed: bool := *;
      if failed && !served { return false, at; }
      ok := Send(Drain(leaseID, m), origin);
    }

    /** The requests of BeginDrain: the record, then a view that new. */
    method PublishDrain(m: Member, now: int, served: bool, ghost origin: Store)
      returns (ok: bool, ghost at: Store, ghost read: Store)
      requires Valid() && Reaches(origin, etcd.s) && leaseID != 0 && m == member.(draining := true)
      modifies `leaseID, `leaseAlive, `view, `viewApplied, `lastViewRefresh, `ring, `viewEpoch, `readAt, etcd, db
      ensures Valid() && Reaches(origin, etcd.s)
      ensures ok ==> DrainedAt(at, m, old(leaseID)) && viewEpoch > at.rev && readAt.rev > at.rev
      ensures Reaches(old(etcd.s), at) && Reaches(at, etcd.s) && Reaches(read, etcd.s)
      ensures served && !ok ==>
                || !HasRecord(at, old(leaseID))
                || (Reaches(at, read) && (TopologyKey !in read.watched || Epoch(read) < db.fence))
    {
      ok, at := SendDrain(m, served, origin);
      read := at;
      if ok {
        ghost var drained := etcd.s;
        ok, read := CatchUpTo(etcd.s.rev, now, served, origin);
        ReachesTransitive(at, drained, read);
        ReachesTransitive(at, read, etcd.s);
      }
    }

    /** BeginDrain: on success our own record was marked draining in the revision
        after `at` and the applied view is at least that new. A failure restores
        the flag. If its requests are served, it fails only without a record of its own, or
        because the fence was past the epoch of the snapshot `read` of the refresh. */
    method BeginDrain(now: int, served: bool, ghost origin: Store)
      returns (ok: bool, ghost at: Store, ghost read: Store)
      requires Valid() && Reaches(origin, etcd.s)
      modifies `draining, `member, `leaseID, `leaseAlive, `view, `viewApplied, `lastViewRefresh, `ring, `viewEpoch,
               `readAt, etcd, db
      ensures Valid() && Reaches(origin, etcd.s)
      ensures !ok ==> draining == old(draining) && member == old(member)
      ensures old(leaseID) == 0 ==> !ok
      ensures ok ==> draining
      ensures ok && old(draining) ==> member == old(member) && etcd.s == old(etcd.s)
      ensures ok && !old(draining) ==>
                member == old(member).(draining := true) && DrainedAt(at, member, old(leaseID))
      ensures ok && !old(draining) ==> viewEpoch > at.rev && readAt.rev > at.rev
      ensures old(leaseID) != 0 && old(draining) ==> ok
      ensures Reaches(old(etcd.s), at) && Reaches(at, etcd.s) && Reaches(read, etcd.s)
      ensures served && old(leaseID) != 0 && !ok ==>
                || !old(HasRecord(at, leaseID))
                || (Reaches(at, read) && (TopologyKey !in read.watched || Epoch(read) < db.fence))
    {
      at, read := etcd.s, etcd.s;
      ReachesSelf(at);
      if leaseID == 0 { return false, at, read; }
      if draining { return true, at, read; }
      draining := true;
      var m := member.(draining := true);
      ok, at, read := PublishDrain(m, now, served, origin);
      if ok { RecordDrain(); } else { draining := false; }
    }

    method RecordDrain()
      requires Valid()
      modifies `member
      ensures Valid() && member == old(member).(draining := true)
    {
      member := member.(draining := true);
    }

    // ---------- scheduled tasks ----------

    /** The requests of ClaimTask: the lease, then the claim under it. */
    method ClaimFor(task: string, ttl: nat, served: bool, ghost origin: Store)
      returns (r: ClaimResult, ghost at: Store, ghost lease: nat)
      requires Valid() && Reaches(origin, etcd.s)
      modifies etcd, db
      ensures Valid() && Reaches(origin, etcd.s)
      ensures Reaches(old(etcd.s), at) && Reaches(at, etcd.s)
      ensures r == Claimed ==>
                exists c :: c in etcd.s.successes && c !in old(etcd.s.successes) && c.task == task && c.ttl == ttl
      ensures r == Claimed ==> task !in at.taskKeys
      ensures r == Refused ==> task in at.taskKeys
      ensures served ==>
                && old(etcd.s.nextLease) <= lease
                && (r == Refused <==> task in at.taskKeys)
                && (r == Claimed <==> task !in at.taskKeys && lease in at.leases)
    {
      ghost var s0 := etcd.s;
      var granted, own := GrantClaimLease(ttl, served, origin);
      at, lease := etcd.s, own;
      ReachesSelf(at);
      if !granted { return ClaimError, at, lease; }
      ghost var s1 := etcd.s;
      r, at := CommitClaim(task, own, ttl, served, origin);
      ReachesTransitive(s0, s1, at);
    }

    /** ClaimTask under a lease of its own. A claim that is reported successful is
        on record with a lease of the requested ttl, rounded up to a second - half a
        minute if none was requested - so by `Epochs.ClaimsAreSeparated` nobody else
        succeeds before that lease ends. A refusal means that the task was held at the
        moment `at` of the request; anything else is an error. If its requests are served, a
        ready node is refused exactly if the task was held then, and otherwise claims it,
        unless the lease of its own, granted during the call, had run out. */
    method ClaimTask(task: string, ttl: int, now: int, served: bool, ghost origin: Store)
      returns (r: ClaimResult, ghost at: Store, ghost lease: nat)
      requires Valid() && Reaches(origin, etcd.s)
      modifies etcd, db
      ensures Valid() && Reaches(origin, etcd.s)
      ensures !Ready(now) || Trim(task) == [] ==> r == ClaimError && etcd.s == old(etcd.s)
      ensures r != ClaimError ==> leaseAlive && viewApplied && now - lastViewRefresh <= leaseTTL
      ensures r == Claimed ==> exists c :: c in etcd.s.successes && c !in old(etcd.s.successes) && c.task == task &&
                                           c.ttl % SECOND == 0 && Asked(ttl) <= c.ttl < Asked(ttl) + SECOND
      ensures r == Claimed ==> task !in at.taskKeys
      ensures r == Refused ==> task in at.taskKeys
      ensures Reaches(old(etcd.s), at) && Reaches(at, etcd.s)
      ensures served && old(Ready(now)) && Trim(task) != [] ==>
                && old(etcd.s.nextLease) <= lease
                && (r == Refused <==> task in at.taskKeys)
                && (r == Claimed <==> task !in at.taskKeys && lease in at.leases)
    {
      at, lease := etcd.s, 0;
      ReachesSelf(at);
      if !Ready(now) || Trim(task) == [] { return ClaimError, at, lease; }
      var requested := if ttl <= 0 then DEFAULT_CLAIM_TTL else ttl;
      var seconds := (requested + SECOND - 1) / SECOND;
      r, at, lease := ClaimFor(task, seconds * SECOND, served, origin);
    }

    /** The duration asked for, in nanoseconds. */
    static function Asked(ttl: int): int { if ttl <= 0 then 30_000_000_000 else ttl }

    /** A lease for one claim; nobody has claimed anything under it. */
    method GrantClaimLease(ttl: nat, served: bool, ghost origin: Store) returns (ok: bool, lease: nat)
      requires Valid() && Reaches(origin, etcd.s)
      modifies etcd, db
      ensures Valid() && Reaches(origin, etcd.s) && old(etcd.s.successes) <= etcd.s.successes
      ensures Reaches(old(etcd.s), etcd.s)
      ensures ok ==> lease < etcd.s.nextLease && lease in etcd.s.leases
      ensures ok ==> !etcd.s.leases[lease].session && etcd.s.leases[lease].ttl == ttl
      ensures ok ==> forall c | c in etcd.s.successes :: c.lease != lease
      ensures served ==> ok && old(etcd.s.nextLease) <= lease
    {
      ghost var s0 := etcd.s;
      Interfere(0, origin);
      lease := etcd.s.nextLease;
      ghost var s1 := etcd.s;
      CountersGrow(s0, s1);
      var failed: bool := *;
      if failed && !served { return false, lease; }
      ReachableInv(s1);
      ok := Send(Grant(member.name, member.instance, ttl, false), origin);
      ReachesTransitive(s0, s1, etcd.s);
      assert forall c | c in s1.successes :: Held(s1, c);
    }

    /** The claiming transaction, served at `at`: it is refused exactly when the task is
        held; without an answer, or if the lease is gone, the claim is an error. */
    method SendClaim(task: string, lease: nat, ttl: nat, served: bool, ghost origin: Store)
      returns (r: ClaimResult, ghost at: Store)
      requires Valid() && Reaches(origin, etcd.s)
      requires lease < etcd.s.nextLease && lease in etcd.s.leases
      requires !etcd.s.leases[lease].session && etcd.s.leases[lease].ttl == ttl
      requires forall c | c in etcd.s.successes :: c.lease != lease
      modifies etcd, db
      ensures Valid() && Reaches(origin, etcd.s)
      ensures r == Claimed ==> |etcd.s.successes| > |old(etcd.s.successes)|
                               && etcd.s.successes[|etcd.s.successes| - 1].task == task
                               && etcd.s.successes[|etcd.s.successes| - 1].lease == lease
                               && etcd.s.successes[|etcd.s.successes| - 1].ttl == ttl
      ensures r == Claimed ==> task !in at.taskKeys && lease in at.leases
      ensures r == Refused ==> task in at.taskKeys
      ensures r != Claimed ==> Disciplined(etcd.s, Revoke(lease))
      ensures Reaches(old(etcd.s), at) && Reaches(at, etcd.s)
      ensures served ==> (r == Refused <==> task in at.taskKeys)
      ensures served ==> (r == Claimed <==> task !in at.taskKeys && lease in at.leases)
    {
      ghost var s0 := etcd.s;
      Interfere(lease, origin);
      at := etcd.s;
      CountersGrow(s0, at);
      if lease in etcd.s.leases { LeaseStable(s0, at, lease); }
      var held := task in etcd.s.taskKeys;
      var failed: bool := *;
      var answered := (served || !failed) && (held || lease in etcd.s.leases);
      var won := Send(Claim(lease, task, answered), origin);
      r := if !answered then ClaimError else if won then Claimed else Refused;
    }

    /** CommitClaim: the lease of a claim that is not reported is dropped. */
    method CommitClaim(task: string, lease: nat, ttl: nat, served: bool, ghost origin: Store)
      returns (r: ClaimResult, ghost at: Store)
      requires Valid() && Reaches(origin, etcd.s)
      requires lease < etcd.s.nextLease && lease in etcd.s.leases
      requires !etcd.s.leases[lease].session && etcd.s.leases[lease].ttl == ttl
      requires forall c | c in etcd.s.successes :: c.lease != lease
      modifies etcd, db
      ensures Valid() && Reaches(origin, etcd.s)
      ensures r == Claimed ==> |etcd.s.successes| > |old(etcd.s.successes)|
                               && etcd.s.successes[|etcd.s.successes| - 1].task == task
                               && etcd.s.successes[|etcd.s.successes| - 1].lease == lease
                               && etcd.s.successes[|etcd.s.successes| - 1].ttl == ttl
      ensures r == Claimed ==> task !in at.taskKeys && lease in at.leases
      ensures r == Refused ==> task in at.taskKeys
      ensures served && r != Claimed ==> lease !in etcd.s.leases
      ensures Reaches(old(etcd.s), at) && Reaches(at, etcd.s)
      ensures served ==> (r == Refused <==> task in at.taskKeys)
      ensures served ==> (r == Claimed <==> task !in at.taskKeys && lease in at.leases)
    {
      r, at := SendClaim(task, lease, ttl, served, origin);
      var failed: bool := *;
      if r == Claimed || (failed && !served) { return; }
      ghost var sent := etcd.s;
      var _ := Send(Revoke(lease), origin);
      ReachesTransitive(at, sent, etcd.s);
    }

    // ---------- changing the topology ----------

    /** The compare-and-put of ChangeTopology, `read` being the earlier snapshot. */
    method CommitTopology(ghost read: Store, current: Topology, revision: nat, desired: Topology,
                          served: bool, ghost origin: Store)
      returns (ok: bool, ghost at: Store)
      requires Valid() && Reaches(origin, etcd.s) && Reachable(read) && Reaches(read, etcd.s)
      requires TopologyKey in read.watched && read.watched[TopologyKey].modRev == revision
      requires read.watched[TopologyKey].value == TopologyValue(current)
      requires Canonical(desired, allowed) && Adjacent(current, desired)
      modifies etcd, db
      ensures Valid() && Reaches(origin, etcd.s)
      ensures ok ==> TopologiesOf(etcd.s.log) == TopologiesOf(read.log) + [desired]
      ensures Reaches(read, at) && Reaches(at, etcd.s) && (ok ==> etcd.s.rev > 0)
      ensures served ==> (ok <==> TopologyKey in at.watched && at.watched[TopologyKey].modRev == revision)
    {
      ghost var s0 := etcd.s;
      Interfere(0, origin);
      ghost var s1 := etcd.s;
      at := s1;
      ReachesSelf(at);
      ReachesTransitive(read, s0, s1);
      TopologyIsLogged(read);
      CountersGrow(read, s1);
      var failed: bool := *;
      if failed && !served { return false, at; }
      ok := Send(CasTopology(current, revision, desired), origin);
      if ok {
        SameTopologyRevision(read, s1);
        assert etcd.s.log[..|etcd.s.log| - 1] == s1.log;
      }
    }

    /** What ChangeTopology makes of the topology it has read: a result, or None if it goes
        on to replace it. */
    method Examine(names: seq<string>) returns (desired: Option<Topology>, verdict: Option<ChangeResult>)
      requires Valid() && TopologyKey in etcd.s.watched
      ensures etcd.s.watched[TopologyKey].value.TopologyValue?
      ensures desired.Some? <==> Acceptable(Topology(|names|, names), allowed)
      ensures desired.Some? ==>
                Canonical(desired.value, allowed) && Elems(desired.value.members) == set n | n in names :: Trim(n)
      ensures desired.None? ==> verdict == Some(ChangeError)
      ensures desired.Some? ==>
                var current := etcd.s.watched[TopologyKey].value.topology;
                && (verdict == Some(Unchanged) <==> current.members == desired.value.members)
                && (verdict == Some(ChangeError) <==>
                    current.members != desired.value.members && !ChangeAllowed(etcd.s, current, desired.value))
                && verdict != Some(Changed) && (verdict.None? ==> Adjacent(current, desired.value))
    {
      TopologyIsLogged(etcd.s);
      var current := etcd.s.watched[TopologyKey].value.topology;
      desired := NormalizeClusterTopology(Topology(|names|, names), allowed);
      if desired.None? { return desired, Some(ChangeError); }
      if current.members == desired.value.members { return desired, Some(Unchanged); }
      var allowedChange := CheckChange(etcd.s, current, desired.value);
      verdict := if allowedChange then None else Some(ChangeError);
    }

    /** The second half of ChangeTopology: the commit, and a view that new. */
    method ReplaceTopology(ghost read: Store, current: Topology, revision: nat, desired: Topology, now: int,
                           served: bool, ghost origin: Store)
      returns (r: ChangeResult, ghost committed: Store, ghost at: Store, ghost last: Store)
      requires Valid() && Reaches(origin, etcd.s) && Reachable(read) && Reaches(read, etcd.s)
      requires TopologyKey in read.watched && read.watched[TopologyKey].modRev == revision
      requires read.watched[TopologyKey].value == TopologyValue(current)
      requires Canonical(desired, allowed) && Adjacent(current, desired)
      modifies `leaseID, `leaseAlive, `view, `viewApplied, `lastViewRefresh, `ring, `viewEpoch, `readAt, etcd, db
      ensures Valid() && Reaches(origin, etcd.s) && r != Unchanged
      ensures Reaches(read, at) && Reaches(at, last) && Reaches(last, etcd.s)
      ensures r == Changed ==>
                TopologiesOf(committed.log) == TopologiesOf(read.log) + [desired] && viewEpoch >= committed.rev
      ensures served && r == ChangeError ==>
                || TopologyKey !in at.watched || at.watched[TopologyKey].modRev != revision
                || TopologyKey !in last.watched || Epoch(last) < db.fence
    {
      var won;
      won, at := CommitTopology(read, current, revision, desired, served, origin);
      committed, last := etcd.s, etcd.s;
      ReachesSelf(last);
      if !won { return ChangeError, committed, at, last; }
      var caught;
      caught, last := CatchUpTo(etcd.s.rev, now, served, origin);
      ReachesTransitive(at, committed, last);
      r := if caught then Changed else ChangeError;
    }

    /** ChangeTopology: a reported change was validated, in full, against exactly
        the topology it replaced, as `read` during this call; no other topology
        was committed in between. If its requests are served, a ready node fails only if
        there is no topology to change or the names are not acceptable, if the change is not
        allowed, if another topology was committed first - as `at` shows - or because the
        fence was past the epoch of the snapshot `last` of the refresh. */
    method ChangeTopology(names: seq<string>, now: int, served: bool, ghost origin: Store)
      returns (r: ChangeResult, desired: Option<Topology>, ghost read: Store, ghost committed: Store,
               ghost at: Store, ghost last: Store)
      requires Valid() && Reaches(origin, etcd.s)
      modifies `leaseID, `leaseAlive, `view, `viewApplied, `lastViewRefresh, `ring, `viewEpoch, `readAt, etcd, db
      ensures Valid() && Reaches(origin, etcd.s)
      ensures r != ChangeError ==> old(Ready(now)) && desired.Some?
      ensures r != ChangeError ==> old(leaseAlive && viewApplied) && now - old(lastViewRefresh) <= leaseTTL
      ensures desired.Some? ==> Canonical(desired.value, allowed)
                                && Elems(desired.value.members) == set n | n in names :: Trim(n)
      ensures r == Changed ==>
                && desired.Some? && Reachable(read) && TopologyKey in read.watched
                && read.watched[TopologyKey].value.TopologyValue?
                && ChangeAllowed(read, read.watched[TopologyKey].value.topology, desired.value)
                && TopologiesOf(committed.log) == TopologiesOf(read.log) + [desired.value]
                && viewEpoch >= committed.rev
      ensures Reaches(old(etcd.s), read) && Reaches(read, at) && Reaches(at, last) && Reaches(last, etcd.s)
      ensures served && old(Ready(now)) ==>
                if TopologyKey !in read.watched || !read.watched[TopologyKey].value.TopologyValue? || desired.None?
                then r == ChangeError
                else
                  var current := read.watched[TopologyKey].value.topology;
                  && (r == Unchanged <==> current.members == desired.value.members)
                  && (r == ChangeError ==>
                        || !ChangeAllowed(read, current, desired.value)
                        || TopologyKey !in at.watched
                        || at.watched[TopologyKey].modRev != read.watched[TopologyKey].modRev
                        || TopologyKey !in last.watched || Epoch(last) < db.fence)
      ensures served && old(Ready(now)) && TopologyKey in read.watched ==>
                (desired.Some? <==> Acceptable(Topology(|names|, names), allowed))
    {
      read, committed, desired, r := etcd.s, etcd.s, None, ChangeError;
      at, last := read, read;
      ReachesSelf(read);
      if !Ready(now) { return; }
      Interfere(0, origin);
      read, at, last := etcd.s, etcd.s, etcd.s;
      ReachesSelf(read);
      var failed: bool := *;
      if failed && !served { return; }
      if TopologyKey !in etcd.s.watched { return; }
      var verdict;
      desired, verdict := Examine(names);
      if verdict.Some? {
        r := verdict.value;
        return;
      }
      var current := etcd.s.watched[TopologyKey].value.topology;
      r, committed, at, last :=
        ReplaceTopology(read, current, etcd.s.watched[TopologyKey].modRev, desired.value, now, served, origin);
    }
  }
}
