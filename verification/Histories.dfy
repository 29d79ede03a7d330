/** Concrete histories of etcd, from an empty store: three nodes register and the
    first topology is committed; then one node's lease lapses, or one node drains. */
module Histories {
  import opened Wrappers
  import opened Topologies
  import opened EtcdStore
  import opened StoreInvariants
  import opened Epochs

  const ALLOWED: Whitelist := map["a" := "a:1", "b" := "b:1", "c" := "c:1"]
  const THREE := Topology(3, ["a", "b", "c"])

  function Joined(name: string, instance: int): Member {
    Member(name, name + ":1", instance, PROTOCOL_VERSION, false)
  }

  const BOOT: seq<Step> := [
    Grant("a", 1, 10, true), Grant("b", 2, 10, true), Grant("c", 3, 10, true),
    Step.Register(1, Joined("a", 1)), Step.Register(2, Joined("b", 2)), Step.Register(3, Joined("c", 3)),
    InitTopology(THREE)]

  /** The sessions of a and b are kept alive, that of c lapses. */
  const LAPSE: seq<Step> := [Tick(5), KeepAlive(1), KeepAlive(2), Tick(10), Expire(3)]

  /** The node c takes a new lease and registers again. */
  const RETURN: seq<Step> := [Grant("c", 3, 10, true), Step.Register(4, Joined("c", 3))]

  const DRAIN: seq<Step> := [Step.Drain(3, Joined("c", 3).(draining := true))]

  function Session(name: string, instance: int, deadline: nat): Lease { Lease(name, instance, 0, 10, deadline, true) }

  function MemberPut(name: string, instance: nat): Change {
    Change(instance + 1, MemberKey(name), Some(Entry(MemberValue(Joined(name, instance)), instance + 1, instance)))
  }

  const GRANTED: Store :=
    Store(ALLOWED, 1, 0, 4,
          map[1 := Session("a", 1, 10), 2 := Session("b", 2, 10), 3 := Session("c", 3, 10)],
          map[], [], [], map[], [])

  const RECORDS: map<Key, Entry> := map[
    MemberKey("a") := MemberPut("a", 1).entry.value,
    MemberKey("b") := MemberPut("b", 2).entry.value,
    MemberKey("c") := MemberPut("c", 3).entry.value,
    TopologyKey := Entry(TopologyValue(THREE), 5, 0)]

  const EVENTS: seq<Change> := [MemberPut("a", 1), MemberPut("b", 2), MemberPut("c", 3), TopologyPut(5, THREE)]

  /** etcd after BOOT ... */
  const BOOTED: Store := GRANTED.(rev := 5, watched := RECORDS, log := EVENTS)

  /** ... and after c's lease has lapsed ... */
  const LAPSED: Store :=
    BOOTED.(rev := 6, now := 10, leases := map[1 := Session("a", 1, 15), 2 := Session("b", 2, 15)],
            watched := RECORDS - {MemberKey("c")}, log := EVENTS + [Change(6, MemberKey("c"), None)])

  /** ... or c has drained instead. */
  const DRAINED_C: Entry := Entry(MemberValue(Joined("c", 3).(draining := true)), 6, 3)
  const DRAINED: Store :=
    BOOTED.(rev := 6, watched := RECORDS[MemberKey("c") := DRAINED_C],
            log := EVENTS + [Change(6, MemberKey("c"), Some(DRAINED_C))])

  lemma ThreeIsCanonical()
    ensures Canonical(THREE, ALLOWED) && Elems(THREE.members) == {"a", "b", "c"}
  {
    assert Less("a", "b") && Less("b", "c") && Less("a", "c");
    assert Trim("a") == "a" && Trim("b") == "b" && Trim("c") == "c";
  }

  lemma NextOf(s: Store, steps: seq<Step>, k: nat)
    requires k < |steps|
    ensures Exec(s, steps[..k + 1]) == Apply(Exec(s, steps[..k]), steps[k])
  {
    assert steps[..k + 1] == steps[..k] + [steps[k]];
    ExecConcat(s, steps[..k], [steps[k]]);
    assert [steps[k]][1..] == [];
    assert Exec(Apply(Exec(s, steps[..k]), steps[k]), []) == Apply(Exec(s, steps[..k]), steps[k]);
  }

  lemma Grants()
    ensures Exec(Start(ALLOWED), BOOT[..3]) == GRANTED
  {
    NextOf(Start(ALLOWED), BOOT, 0);
    NextOf(Start(ALLOWED), BOOT, 1);
    NextOf(Start(ALLOWED), BOOT, 2);
    assert Exec(Start(ALLOWED), BOOT[..0]) == Start(ALLOWED);
    assert Exec(Start(ALLOWED), BOOT[..3]).leases == GRANTED.leases;
  }

  function Partly(n: nat): Store
    requires n <= 3
  {
    GRANTED.(rev := 1 + n, log := EVENTS[..n],
             watched := map k | k in RECORDS && RECORDS[k].modRev <= 1 + n :: RECORDS[k])
  }

  lemma Registers(n: nat)
    requires n < 3
    ensures Apply(Partly(n), BOOT[3 + n]) == Partly(n + 1)
  {
    var step := BOOT[3 + n];
    assert Disciplined(Partly(n), step) && Compare(Partly(n), step);
    assert EVENTS[..n + 1] == EVENTS[..n] + [EVENTS[n]];
    assert Apply(Partly(n), step).watched == Partly(n + 1).watched;
  }

  lemma RegistersAll(n: nat)
    requires n <= 3
    ensures Exec(Start(ALLOWED), BOOT[..3 + n]) == Partly(n)
  {
    if n == 0 {
      Grants();
      assert Partly(0).watched == map[];
    } else {
      RegistersAll(n - 1);
      NextOf(Start(ALLOWED), BOOT, 2 + n);
      Registers(n - 1);
    }
  }

  lemma Commits()
    ensures Apply(Partly(3), BOOT[6]) == BOOTED
  {
    ThreeIsCanonical();
    assert Apply(Partly(3), BOOT[6]).watched == RECORDS;
  }

  lemma Boots()
    ensures Exec(Start(ALLOWED), BOOT) == BOOTED
  {
    RegistersAll(3);
    NextOf(Start(ALLOWED), BOOT, 6);
    Commits();
    assert BOOT[..7] == BOOT;
  }

  const WAITED: Store :=
    BOOTED.(now := 10, leases := map[1 := Session("a", 1, 15), 2 := Session("b", 2, 15), 3 := Session("c", 3, 10)])

  lemma Waits()
    ensures Exec(BOOTED, LAPSE[..4]) == WAITED
  {
    assert Exec(BOOTED, LAPSE[..0]) == BOOTED;
    NextOf(BOOTED, LAPSE, 0);
    NextOf(BOOTED, LAPSE, 1);
    NextOf(BOOTED, LAPSE, 2);
    NextOf(BOOTED, LAPSE, 3);
    assert Exec(BOOTED, LAPSE[..4]).leases == WAITED.leases;
  }

  lemma Expires()
    ensures Apply(WAITED, LAPSE[4]) == LAPSED
  {
    assert Apply(WAITED, LAPSE[4]).leases == LAPSED.leases;
  }

  lemma Lapses()
    ensures Exec(BOOTED, LAPSE) == LAPSED
  {
    Waits();
    NextOf(BOOTED, LAPSE, 4);
    Expires();
    assert LAPSE[..5] == LAPSE;
  }

  const RETURNED_C: Entry := Entry(MemberValue(Joined("c", 3)), 7, 4)
  const RETURNED: Store :=
    LAPSED.(rev := 7, nextLease := 5, leases := LAPSED.leases[4 := Lease("c", 3, 10, 10, 20, true)],
            watched := LAPSED.watched[MemberKey("c") := RETURNED_C],
            log := LAPSED.log + [Change(7, MemberKey("c"), Some(RETURNED_C))])

  lemma Returns()
    ensures Exec(LAPSED, RETURN) == RETURNED
  {
    NextOf(LAPSED, RETURN, 0);
    NextOf(LAPSED, RETURN, 1);
    assert Exec(LAPSED, RETURN[..0]) == LAPSED;
    assert RETURN[..2] == RETURN;
    assert Exec(LAPSED, RETURN).leases == RETURNED.leases;
  }

  lemma Drains()
    ensures Exec(BOOTED, DRAIN) == DRAINED
  {
    NextOf(BOOTED, DRAIN, 0);
    assert Exec(BOOTED, DRAIN[..0]) == BOOTED;
    assert DRAIN[..1] == DRAIN;
  }

  lemma Derived()
    ensures Epoch(BOOTED) == 5 && Serving(BOOTED.watched) == {"a", "b", "c"} && Replicas(BOOTED.watched) == 3
    ensures Epoch(LAPSED) == 5 && Serving(LAPSED.watched) == {"a", "b"} && Replicas(LAPSED.watched) == 3
    ensures Epoch(DRAINED) == 6 && Serving(DRAINED.watched) == {"a", "b"} && Replicas(DRAINED.watched) == 3
  {
    ThreeIsCanonical();
    DerivedBooted();
    DerivedLapsed();
    DerivedDrained();
  }

  lemma DerivedBooted()
    ensures Epoch(BOOTED) == 5 && Serving(BOOTED.watched) == {"a", "b", "c"}
  {
    ThreeIsCanonical();
    var w := BOOTED.watched;
    assert TopologyKey in w && w[TopologyKey].modRev == 5;
    assert MemberKey("a") in w && MemberKey("b") in w && MemberKey("c") in w;
  }

  lemma DerivedLapsed()
    ensures Epoch(LAPSED) == 5 && Serving(LAPSED.watched) == {"a", "b"}
  {
    ThreeIsCanonical();
    var w := LAPSED.watched;
    assert TopologyKey in w && w[TopologyKey].modRev == 5;
    assert MemberKey("a") in w && MemberKey("b") in w && MemberKey("c") !in w;
  }

  lemma DerivedDrained()
    ensures Epoch(DRAINED) == 6 && Serving(DRAINED.watched) == {"a", "b"}
  {
    ThreeIsCanonical();
    var w := DRAINED.watched;
    assert MemberKey("c") in w && w[MemberKey("c")].modRev == 6;
    assert MemberKey("a") in w && MemberKey("b") in w;
  }

  /** From an empty store: three nodes register, the topology is committed, one
      lease lapses - and the two snapshots have the same epoch and different members. */
  lemma EqualEpochsDifferentMembers()
    ensures
      var s := Exec(Start(ALLOWED), BOOT);
      var t := Exec(s, LAPSE);
      Epoch(s) == Epoch(t) && Serving(s.watched) == {"a", "b", "c"} && Serving(t.watched) == {"a", "b"}
  {
    Boots();
    Lapses();
    Derived();
  }
}
