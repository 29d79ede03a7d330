/** The part of etcd that the control plane uses: a linearizable store with one
    revision counter, leases, compare-and-put transactions and the event history
    that a watch reads. A `Step` is one atomic request (or a lease expiring, or
    time passing); every run of the cluster against etcd is a sequence of steps. */
module EtcdStore {
  import opened Wrappers
  import opened Topologies

  datatype Member = Member(name: string, address: string, instance: int, protocol: int, draining: bool)

  /** The watched keys: one record per member under the members prefix, and the topology. */
  datatype Key = MemberKey(name: string) | TopologyKey
  datatype Value = MemberValue(member: Member) | TopologyValue(topology: Topology)
  datatype Entry = Entry(value: Value, modRev: nat, lease: nat)
  /** One event of a watched key; `None` is a deletion. */
  datatype Change = Change(rev: nat, key: Key, entry: Option<Entry>)
  /** One write of the view-epoch marker, which lies outside the watched keys. */
  datatype Marker = Marker(value: nat, modRev: nat)
  datatype Lease = Lease(name: string, instance: int, granted: nat, ttl: nat, deadline: nat, session: bool)
  /** A task claim that was reported to its caller as successful. */
  datatype Success = Success(task: string, lease: nat, granted: nat, ttl: nat, at: nat)

  datatype Store = Store(
    allowed: Whitelist,
    rev: nat,
    now: nat,
    nextLease: nat,
    leases: map<nat, Lease>,
    watched: map<Key, Entry>,
    log: seq<Change>,
    markers: seq<Marker>,
    taskKeys: map<string, nat>,
    successes: seq<Success>)

  datatype Step =
    | Unrelated
    | Tick(to: nat)
    | Grant(name: string, instance: int, ttl: nat, session: bool)
    | KeepAlive(lease: nat)
    | Register(lease: nat, member: Member)
    | Drain(lease: nat, member: Member)
    | InitTopology(topology: Topology)
    | CasTopology(read: Topology, readRev: nat, topology: Topology)
    | AdvanceMarker(seen: Option<Marker>, epoch: nat)
    | Claim(lease: nat, task: string, reported: bool)
    | Expire(lease: nat)
    | Revoke(lease: nat)

  function Start(allowed: Whitelist): Store {
    Store(allowed, 1, 0, 1, map[], map[], [], [], map[], [])
  }

  // ---------- reading ----------

  function Get(s: Store, k: Key): Option<Entry> {
    if k in s.watched then Some(s.watched[k]) else None
  }

  function LastChange(s: Store): nat {
    if s.log == [] then 0 else s.log[|s.log| - 1].rev
  }

  function MarkerValue(s: Store): nat {
    if s.markers == [] then 0 else s.markers[|s.markers| - 1].value
  }

  function MarkerRead(s: Store): Option<Marker> {
    if s.markers == [] then None else Some(s.markers[|s.markers| - 1])
  }

  function TopologyPut(rev: nat, t: Topology): Change {
    Change(rev, TopologyKey, Some(Entry(TopologyValue(t), rev, 0)))
  }

  // ---------- transactions ----------

  const PROTOCOL_VERSION := 3
  const MIN_PROTOCOL_VERSION := 3

  /** The identity checks a node makes before it registers. */
  predicate Admissible(m: Member, allowed: Whitelist) {
    && m.name in allowed && allowed[m.name] == m.address
    && MIN_PROTOCOL_VERSION <= m.protocol <= PROTOCOL_VERSION
  }

  predicate OwnsLease(s: Store, lease: nat, m: Member) {
    && Admissible(m, s.allowed)
    && (lease in s.leases ==>
          s.leases[lease].session && s.leases[lease].name == m.name && s.leases[lease].instance == m.instance)
  }

  /** What the code guarantees about every request it sends: it registers and
      drains under the lease granted to its own instance, it validates a
      topology against one it read, it advances the marker only past a value it
      read and to a revision etcd has already reported, it keeps alive only its
      registration lease and never revokes a claim it reported. */
  predicate Disciplined(s: Store, step: Step) {
    match step
    case Register(l, m) => OwnsLease(s, l, m)
    case Drain(l, m) => OwnsLease(s, l, m) && m.draining
    case InitTopology(t) => Canonical(t, s.allowed)
    case CasTopology(before, beforeRev, t) =>
      Canonical(t, s.allowed) && Adjacent(before, t) && TopologyPut(beforeRev, before) in s.log
    case AdvanceMarker(seen, e) =>
      0 < e <= s.rev && (seen.Some? ==> seen.value in s.markers && seen.value.value < e)
    case KeepAlive(l) => l in s.leases ==> s.leases[l].session
    case Claim(l, _, _) => l in s.leases ==> !s.leases[l].session
    case Revoke(l) => l in s.leases ==> forall c | c in s.successes :: c.lease != l
    case _ => true
  }

  /** The comparison etcd evaluates (and the lease checks it makes itself). */
  predicate Compare(s: Store, step: Step) {
    match step
    case Tick(to) => s.now <= to
    case KeepAlive(l) => l in s.leases
    case Register(l, m) => l in s.leases && MemberKey(m.name) !in s.watched
    case Drain(l, m) =>
      l in s.leases && MemberKey(m.name) in s.watched && s.watched[MemberKey(m.name)].lease == l
    case InitTopology(_) => TopologyKey !in s.watched
    case CasTopology(_, beforeRev, _) =>
      TopologyKey in s.watched && s.watched[TopologyKey].modRev == beforeRev
    case AdvanceMarker(seen, _) =>
      if seen.None? then s.markers == []
      else s.markers != [] && s.markers[|s.markers| - 1].modRev == seen.value.modRev
    case Claim(l, task, _) => l in s.leases && task !in s.taskKeys
    case Expire(l) => l in s.leases && s.leases[l].deadline <= s.now
    case Revoke(l) => l in s.leases
    case _ => true
  }

  function Put(s: Store, k: Key, v: Value, lease: nat): Store {
    var e := Entry(v, s.rev + 1, lease);
    s.(rev := s.rev + 1, watched := s.watched[k := e], log := s.log + [Change(s.rev + 1, k, Some(e))])
  }

  /** Removing a lease deletes the keys attached to it in one revision. */
  function RemoveLease(s: Store, l: nat): Store
    requires l in s.leases
  {
    var k := MemberKey(s.leases[l].name);
    var tasks := map t | t in s.taskKeys && s.taskKeys[t] != l :: s.taskKeys[t];
    var s' := s.(leases := s.leases - {l}, taskKeys := tasks);
    if k in s.watched && s.watched[k].lease == l then
      s'.(rev := s.rev + 1, watched := s.watched - {k}, log := s.log + [Change(s.rev + 1, k, None)])
    else if tasks != s.taskKeys then s'.(rev := s.rev + 1)
    else s'
  }

  function Effect(s: Store, step: Step): Store
    requires Compare(s, step)
  {
    match step
    case Unrelated => s.(rev := s.rev + 1)
    case Tick(to) => s.(now := to)
    case Grant(name, instance, ttl, session) =>
      s.(leases := s.leases[s.nextLease := Lease(name, instance, s.now, ttl, s.now + ttl, session)],
         nextLease := s.nextLease + 1)
    case KeepAlive(l) => s.(leases := s.leases[l := s.leases[l].(deadline := s.now + s.leases[l].ttl)])
    case Register(l, m) => Put(s, MemberKey(m.name), MemberValue(m), l)
    case Drain(l, m) => Put(s, MemberKey(m.name), MemberValue(m), l)
    case InitTopology(t) => Put(s, TopologyKey, TopologyValue(t), 0)
    case CasTopology(_, _, t) => Put(s, TopologyKey, TopologyValue(t), 0)
    case AdvanceMarker(_, e) => s.(rev := s.rev + 1, markers := s.markers + [Marker(e, s.rev + 1)])
    case Claim(l, task, reported) =>
      var s' := s.(rev := s.rev + 1, taskKeys := s.taskKeys[task := l]);
      if reported
      then s'.(successes := s.successes + [Success(task, l, s.leases[l].granted, s.leases[l].ttl, s.now)])
      else s'
    case Expire(l) => RemoveLease(s, l)
    case Revoke(l) => RemoveLease(s, l)
  }

  function Apply(s: Store, step: Step): Store {
    if Disciplined(s, step) && Compare(s, step) then Effect(s, step) else s
  }

  function Exec(s: Store, steps: seq<Step>): Store
    decreases |steps|
  {
    if steps == [] then s else Exec(Apply(s, steps[0]), steps[1..])
  }

  lemma {:induction false} ExecConcat(s: Store, a: seq<Step>, b: seq<Step>)
    ensures Exec(s, a + b) == Exec(Exec(s, a), b)
    decreases |a|
  {
    if a == [] {
      assert a + b == b;
    } else {
      assert (a + b)[1..] == a[1..] + b;
      ExecConcat(Apply(s, a[0]), a[1..], b);
    }
  }

  // ---------- the event history ----------

  /** The value of a key after the given events. */
  function Replay(v: Option<Entry>, events: seq<Change>, k: Key): Option<Entry> {
    if events == [] then v
    else
      var last := events[|events| - 1];
      if last.key == k then last.entry else Replay(v, events[..|events| - 1], k)
  }

  /** The committed topologies, oldest first. */
  function TopologiesOf(log: seq<Change>): seq<Topology> {
    if log == [] then []
    else
      var rest := TopologiesOf(log[..|log| - 1]);
      match log[|log| - 1]
      case Change(_, TopologyKey, Some(Entry(TopologyValue(t), _, _))) => rest + [t]
      case _ => rest
  }

  ghost predicate LogInv(s: Store) {
    && (forall i | 0 <= i < |s.log| :: 0 < s.log[i].rev <= s.rev)
    && (forall i, j | 0 <= i < j < |s.log| :: s.log[i].rev < s.log[j].rev)
    && (forall i | 0 <= i < |s.log| && s.log[i].entry.Some? :: s.log[i].entry.value.modRev == s.log[i].rev)
    && (forall k :: Replay(None, s.log, k) == Get(s, k))
    && (forall k | k in s.watched :: 0 < s.watched[k].modRev <= LastChange(s))
  }

  ghost predicate MarkerInv(s: Store) {
    && (forall i | 0 <= i < |s.markers| :: 0 < s.markers[i].value < s.markers[i].modRev <= s.rev)
    && (forall i, j | 0 <= i < j < |s.markers| ::
          s.markers[i].value < s.markers[j].value && s.markers[i].modRev < s.markers[j].modRev)
  }

  ghost predicate TopologyInv(s: Store) {
    var ts := TopologiesOf(s.log);
    && (forall i | 0 <= i < |s.log| && s.log[i].key == TopologyKey ::
          exists t :: s.log[i] == TopologyPut(s.log[i].rev, t))
    && (TopologyKey in s.watched ==>
          && ts != []
          && s.watched[TopologyKey] == Entry(TopologyValue(ts[|ts| - 1]), s.watched[TopologyKey].modRev, 0))
    && (TopologyKey !in s.watched ==> ts == [])
    && (forall i | 0 <= i < |ts| :: Canonical(ts[i], s.allowed))
    && (forall i | 0 <= i < |ts| - 1 :: Adjacent(ts[i], ts[i + 1]))
  }

  /** A member record is attached to a live lease of the instance it names. */
  ghost predicate Owned(s: Store, k: Key)
    requires k in s.watched && k.MemberKey?
  {
    var e := s.watched[k];
    && e.value.MemberValue? && e.value.member.name == k.name && Admissible(e.value.member, s.allowed)
    && e.lease in s.leases
    && var l := s.leases[e.lease];
       l.session && l.name == k.name && l.instance == e.value.member.instance
  }

  ghost predicate LeaseInv(s: Store) {
    && s.nextLease > 0
    && (forall l | l in s.leases :: 0 < l < s.nextLease && s.leases[l].granted <= s.now)
    && (forall l | l in s.leases :: s.leases[l].deadline >= s.leases[l].granted + s.leases[l].ttl)
    && (forall t | t in s.taskKeys :: s.taskKeys[t] in s.leases && !s.leases[s.taskKeys[t]].session)
  }

  ghost predicate RecordInv(s: Store) {
    forall k | k in s.watched && k.MemberKey? :: Owned(s, k)
  }

  /** A reported claim holds its task key until its own lease runs out. */
  ghost predicate Held(s: Store, c: Success) {
    && c.lease < s.nextLease && c.granted <= c.at <= s.now
    && if c.lease in s.leases then
         var l := s.leases[c.lease];
         && !l.session && l.granted == c.granted && l.ttl == c.ttl
         && c.task in s.taskKeys && s.taskKeys[c.task] == c.lease
       else c.granted + c.ttl <= s.now
  }

  ghost predicate ClaimInv(s: Store) {
    && (forall c | c in s.successes :: Held(s, c))
    && (forall i, j | 0 <= i < j < |s.successes| && s.successes[i].task == s.successes[j].task ::
          s.successes[j].at >= s.successes[i].granted + s.successes[i].ttl)
  }

  ghost predicate Inv(s: Store) {
    LogInv(s) && MarkerInv(s) && TopologyInv(s) && LeaseInv(s) && RecordInv(s) && ClaimInv(s) && s.rev > 0
  }
}
