/** Every step keeps the store's invariants, and every run only extends the
    history, the marker and the revision. */
module StoreInvariants {
  import opened Wrappers
  import opened Topologies
  import opened EtcdStore

  /** What any run leaves behind: `b` is a later state of the same store. */
  ghost predicate Later(a: Store, b: Store) {
    && a.allowed == b.allowed && a.rev <= b.rev && a.now <= b.now && a.nextLease <= b.nextLease
    && a.log <= b.log && (forall i | |a.log| <= i < |b.log| :: b.log[i].rev > a.rev)
    && a.markers <= b.markers
    && (forall l | l in b.leases && l < a.nextLease ::
          l in a.leases && b.leases[l].(deadline := 0) == a.leases[l].(deadline := 0))
    && a.successes <= b.successes
  }

  lemma {:induction false} ReplayAt(log: seq<Change>, k: Key)
    ensures Replay(None, log, k).Some? ==>
              exists i :: 0 <= i < |log| && log[i].key == k && log[i].entry == Replay(None, log, k)
  {
    if log != [] && log[|log| - 1].key != k {
      ReplayAt(log[..|log| - 1], k);
    }
  }

  /** A compare on the topology's revision can only succeed against the very
      topology the caller read and validated against. */
  lemma ReadIsCurrent(s: Store, read: Topology, readRev: nat)
    requires LogInv(s) && TopologyPut(readRev, read) in s.log
    requires TopologyKey in s.watched && s.watched[TopologyKey].modRev == readRev
    ensures s.watched[TopologyKey].value == TopologyValue(read)
  {
    assert Replay(None, s.log, TopologyKey) == Get(s, TopologyKey);
    ReplayAt(s.log, TopologyKey);
    var i :| 0 <= i < |s.log| && s.log[i].key == TopologyKey && s.log[i].entry == Get(s, TopologyKey);
    var j :| 0 <= j < |s.log| && s.log[j] == TopologyPut(readRev, read);
    assert i == j;
  }

  // A step either leaves the watched keys alone or appends one event to them.

  ghost predicate Quiet(s: Store, t: Store) {
    t.log == s.log && t.watched == s.watched && s.rev <= t.rev
  }

  ghost predicate Appends(s: Store, t: Store, c: Change) {
    && t.rev == s.rev + 1 == c.rev && t.log == s.log + [c]
    && (c.entry.Some? ==> c.entry.value.modRev == c.rev && t.watched == s.watched[c.key := c.entry.value])
    && (c.entry.None? ==> c.key.MemberKey? && t.watched == s.watched - {c.key})
  }

  ghost function Event(s: Store, step: Step): Change {
    match step
    case Register(l, m) => Change(s.rev + 1, MemberKey(m.name), Some(Entry(MemberValue(m), s.rev + 1, l)))
    case Drain(l, m) => Change(s.rev + 1, MemberKey(m.name), Some(Entry(MemberValue(m), s.rev + 1, l)))
    case InitTopology(t) => TopologyPut(s.rev + 1, t)
    case CasTopology(_, _, t) => TopologyPut(s.rev + 1, t)
    case Expire(l) => Change(s.rev + 1, MemberKey(if l in s.leases then s.leases[l].name else ""), None)
    case Revoke(l) => Change(s.rev + 1, MemberKey(if l in s.leases then s.leases[l].name else ""), None)
    case _ => Change(0, TopologyKey, None)
  }

  lemma StepShape(s: Store, step: Step)
    ensures Quiet(s, Apply(s, step)) || Appends(s, Apply(s, step), Event(s, step))
    ensures Apply(s, step).allowed == s.allowed
  {
  }

  lemma ReplayAppend(s: Store, t: Store, c: Change)
    requires Appends(s, t, c) && forall k :: Replay(None, s.log, k) == Get(s, k)
    ensures forall k :: Replay(None, t.log, k) == Get(t, k)
  {
    assert t.log[..|t.log| - 1] == s.log;
    forall k ensures Replay(None, t.log, k) == Get(t, k) {
      assert Replay(None, s.log, k) == Get(s, k);
    }
  }

  lemma LogAppend(s: Store, t: Store, c: Change)
    requires LogInv(s) && Appends(s, t, c)
    ensures LogInv(t)
  {
    ReplayAppend(s, t, c);
    assert t.log[|s.log|] == c && forall i | 0 <= i < |s.log| :: t.log[i] == s.log[i];
  }

  lemma LogStep(s: Store, step: Step)
    requires LogInv(s)
    ensures LogInv(Apply(s, step))
  {
    var t := Apply(s, step);
    StepShape(s, step);
    if Quiet(s, t) {
      forall k ensures Replay(None, t.log, k) == Get(t, k) {
        assert Replay(None, s.log, k) == Get(s, k);
      }
    } else {
      LogAppend(s, t, Event(s, step));
    }
  }

  lemma MarkerShape(s: Store, step: Step)
    ensures
      var t := Apply(s, step);
      && s.rev <= t.rev
      && (t.markers == s.markers
          || (step.AdvanceMarker? && Compare(s, step) && Disciplined(s, step) && t.rev == s.rev + 1 &&
              t.markers == s.markers + [Marker(step.epoch, t.rev)]))
  {
  }

  lemma MarkerAppend(s: Store, t: Store, m: Marker)
    requires MarkerInv(s) && s.rev < t.rev == m.modRev && 0 < m.value <= s.rev && t.markers == s.markers + [m]
    requires s.markers != [] ==> s.markers[|s.markers| - 1].value < m.value
    ensures MarkerInv(t)
  {
  }

  lemma MarkerStep(s: Store, step: Step)
    requires MarkerInv(s)
    ensures MarkerInv(Apply(s, step))
  {
    var t := Apply(s, step);
    MarkerShape(s, step);
    if t.markers != s.markers { MarkerAppend(s, t, Marker(step.epoch, t.rev)); }
  }

  lemma TopologyAppend(s: Store, t: Store, topology: Topology)
    requires TopologyInv(s) && t.allowed == s.allowed && Appends(s, t, TopologyPut(s.rev + 1, topology))
    requires Canonical(topology, s.allowed)
    requires TopologyKey in s.watched ==>
               s.watched[TopologyKey].value.TopologyValue? &&
               Adjacent(s.watched[TopologyKey].value.topology, topology)
    ensures TopologyInv(t)
  {
    assert t.log[..|t.log| - 1] == s.log;
    assert TopologiesOf(t.log) == TopologiesOf(s.log) + [topology];
    forall i | 0 <= i < |t.log| && t.log[i].key == TopologyKey
      ensures exists x :: t.log[i] == TopologyPut(t.log[i].rev, x)
    {
      if i == |s.log| { assert t.log[i] == TopologyPut(t.log[i].rev, topology); }
    }
  }

  lemma MemberAppend(s: Store, t: Store, c: Change)
    requires TopologyInv(s) && t.allowed == s.allowed && Appends(s, t, c) && c.key.MemberKey?
    ensures TopologyInv(t)
  {
    assert t.log[..|t.log| - 1] == s.log;
    assert TopologiesOf(t.log) == TopologiesOf(s.log);
  }

  lemma TopologyStep(s: Store, step: Step)
    requires LogInv(s) && TopologyInv(s)
    ensures TopologyInv(Apply(s, step))
  {
    var t := Apply(s, step);
    StepShape(s, step);
    if !Quiet(s, t) {
      var c := Event(s, step);
      if c.key.MemberKey? {
        MemberAppend(s, t, c);
      } else {
        if step.CasTopology? { ReadIsCurrent(s, step.read, step.readRev); }
        TopologyAppend(s, t, step.topology);
      }
    }
  }

  /** Leases are granted with fresh numbers, change only their deadline, and stay
      until they are removed. */
  ghost predicate LeaseMove(s: Store, step: Step, t: Store) {
    && s.now <= t.now && s.nextLease <= t.nextLease
    && match step
       case Grant(name, instance, ttl, session) =>
         && t.leases == s.leases[s.nextLease := Lease(name, instance, s.now, ttl, s.now + ttl, session)]
         && t.nextLease == s.nextLease + 1 && t.now == s.now
       case KeepAlive(l) =>
         && l in s.leases && t.now == s.now
         && t.leases == s.leases[l := s.leases[l].(deadline := s.now + s.leases[l].ttl)]
       case Expire(l) => t.leases == s.leases - {l}
       case Revoke(l) => t.leases == s.leases - {l}
       case _ => t.leases == s.leases
  }

  lemma LeaseShape(s: Store, step: Step)
    ensures Apply(s, step) == s || LeaseMove(s, step, Apply(s, step))
  {
  }

  lemma LeasesLast(s: Store, step: Step, l: nat)
    requires l in s.leases && !((step.Expire? || step.Revoke?) && step.lease == l)
    ensures l in Apply(s, step).leases
  {
    LeaseShape(s, step);
  }

  lemma MovedLeases(s: Store, step: Step, t: Store)
    requires LeaseMove(s, step, t)
    ensures forall l | l in t.leases && l < s.nextLease ::
              l in s.leases && t.leases[l].(deadline := 0) == s.leases[l].(deadline := 0)
  {
  }

  lemma LeasesStand(s: Store, step: Step)
    ensures
      var t := Apply(s, step);
      && s.nextLease <= t.nextLease && s.now <= t.now
      && (forall l | l in t.leases && l < s.nextLease ::
            l in s.leases && t.leases[l].(deadline := 0) == s.leases[l].(deadline := 0))
  {
    LeaseShape(s, step);
    if Apply(s, step) != s { MovedLeases(s, step, Apply(s, step)); }
  }

  lemma RemovalKeepsLeases(s: Store, l: nat)
    requires LeaseInv(s) && l in s.leases
    ensures LeaseInv(RemoveLease(s, l))
  {
  }

  lemma LeaseStep(s: Store, step: Step)
    requires LeaseInv(s)
    ensures LeaseInv(Apply(s, step))
  {
    if Apply(s, step) != s && (step.Expire? || step.Revoke?) { RemovalKeepsLeases(s, step.lease); }
  }

  lemma RemovalKeepsOwned(s: Store, l: nat, k: Key)
    requires LeaseInv(s) && l in s.leases && k.MemberKey? && k in s.watched && Owned(s, k)
    ensures k in RemoveLease(s, l).watched ==> Owned(RemoveLease(s, l), k)
    ensures RemoveLease(s, l).watched.Keys <= s.watched.Keys
  {
  }

  lemma OwnedStands(s: Store, t: Store, k: Key)
    requires LeaseInv(s) && k.MemberKey? && k in s.watched && Owned(s, k)
    requires k in t.watched && t.watched[k] == s.watched[k] && t.allowed == s.allowed
    requires s.watched[k].lease in t.leases
    requires t.leases[s.watched[k].lease].(deadline := 0) == s.leases[s.watched[k].lease].(deadline := 0)
    ensures Owned(t, k)
  {
  }

  /** A record is written only under a live lease of the instance it names. */
  lemma OwnedWrite(s: Store, step: Step, k: Key)
    requires k.MemberKey? && k in Apply(s, step).watched
    requires k in s.watched ==> Apply(s, step).watched[k] != s.watched[k]
    ensures Owned(Apply(s, step), k)
  {
    StepShape(s, step);
  }

  lemma OwnedStep(s: Store, step: Step, k: Key)
    requires LeaseInv(s) && k.MemberKey? && k in Apply(s, step).watched
    requires k in s.watched ==> Owned(s, k)
    ensures Owned(Apply(s, step), k)
  {
    var t := Apply(s, step);
    if k !in s.watched || t.watched[k] != s.watched[k] {
      OwnedWrite(s, step, k);
    } else if t != s && (step.Expire? || step.Revoke?) {
      RemovalKeepsOwned(s, step.lease, k);
    } else if t != s {
      LeasesStand(s, step);
      LeasesLast(s, step, s.watched[k].lease);
      StepShape(s, step);
      OwnedStands(s, t, k);
    }
  }

  lemma RecordStep(s: Store, step: Step)
    requires LeaseInv(s) && RecordInv(s)
    ensures RecordInv(Apply(s, step))
  {
    var t := Apply(s, step);
    forall k | k in t.watched && k.MemberKey? ensures Owned(t, k) { OwnedStep(s, step, k); }
  }

  lemma RemovalKeepsHeld(s: Store, l: nat, c: Success)
    requires Held(s, c) && l in s.leases && (l == c.lease ==> c.granted + c.ttl <= s.now)
    ensures Held(RemoveLease(s, l), c)
  {
  }

  /** A claim's own lease is removed only when its time is over. */
  lemma HeldStep(s: Store, step: Step, c: Success)
    requires LeaseInv(s) && Held(s, c) && c in s.successes
    ensures Held(Apply(s, step), c)
  {
    if Apply(s, step) != s && (step.Expire? || step.Revoke?) { RemovalKeepsHeld(s, step.lease, c); }
  }

  lemma SuccessShape(s: Store, step: Step)
    ensures
      var t := Apply(s, step);
      || t.successes == s.successes
      || (step.Claim? && Compare(s, step) && Disciplined(s, step) &&
          var l := s.leases[step.lease];
          t.successes == s.successes + [Success(step.task, step.lease, l.granted, l.ttl, s.now)])
  {
  }

  lemma ClaimStep(s: Store, step: Step)
    requires LeaseInv(s) && ClaimInv(s)
    ensures ClaimInv(Apply(s, step))
  {
    var t := Apply(s, step);
    SuccessShape(s, step);
    forall c | c in s.successes ensures Held(t, c) { HeldStep(s, step, c); }
    if t.successes != s.successes {
      assert Held(t, t.successes[|s.successes|]);
      forall i | 0 <= i < |s.successes| && s.successes[i].task == step.task
        ensures s.now >= s.successes[i].granted + s.successes[i].ttl
      {
        assert Held(s, s.successes[i]);
      }
    }
  }

  lemma StepIsLater(s: Store, step: Step)
    requires LeaseInv(s)
    ensures Later(s, Apply(s, step))
  {
    StepShape(s, step);
    SuccessShape(s, step);
    MarkerShape(s, step);
    LeasesStand(s, step);
    ShapesAreLater(s, Apply(s, step), Event(s, step));
  }

  lemma ShapesAreLater(s: Store, t: Store, c: Change)
    requires Quiet(s, t) || Appends(s, t, c)
    requires s.allowed == t.allowed && s.now <= t.now && s.nextLease <= t.nextLease
    requires s.markers <= t.markers && s.successes <= t.successes
    requires forall l | l in t.leases && l < s.nextLease ::
               l in s.leases && t.leases[l].(deadline := 0) == s.leases[l].(deadline := 0)
    ensures Later(s, t)
  {
  }

  lemma StepKeepsInv(s: Store, step: Step)
    requires Inv(s)
    ensures Inv(Apply(s, step)) && Later(s, Apply(s, step))
  {
    StepIsLater(s, step);
    LogStep(s, step);
    MarkerStep(s, step);
    TopologyStep(s, step);
    LeaseStep(s, step);
    RecordStep(s, step);
    ClaimStep(s, step);
  }

  lemma StartInv(allowed: Whitelist)
    ensures Inv(Start(allowed))
  {
  }

  lemma LaterTransitive(a: Store, b: Store, c: Store)
    requires Later(a, b) && Later(b, c)
    ensures Later(a, c)
  {
    forall i | |a.log| <= i < |c.log| ensures c.log[i].rev > a.rev {
      if i < |b.log| { assert c.log[i] == b.log[i]; }
    }
  }

  lemma {:induction false} RunKeepsInv(s: Store, steps: seq<Step>)
    requires Inv(s)
    ensures Inv(Exec(s, steps)) && Later(s, Exec(s, steps))
    decreases |steps|
  {
    if steps != [] {
      var t := Apply(s, steps[0]);
      StepKeepsInv(s, steps[0]);
      RunKeepsInv(t, steps[1..]);
      LaterTransitive(s, t, Exec(s, steps));
    }
  }
}
