/** The Cluster View epoch that refreshView derives, and the watch that resumes
    from it (cluster_control_plane.go, cluster_control_plane_watch.go). */
module Epochs {
  import opened Wrappers
  import opened Topologies
  import opened EtcdStore
  import opened StoreInvariants

  // ---------- deriving a view ----------

  /** The largest revision among the given records, 0 when there is none. */
  ghost function MaxRev(w: map<Key, Entry>): (r: nat)
    ensures forall k | k in w :: w[k].modRev <= r
    ensures r == 0 || exists k :: k in w && w[k].modRev == r
    decreases |w|
  {
    if w == map[] then 0
    else
      var k :| k in w;
      var rest := w - {k};
      assert |rest| < |w| by { assert rest.Keys == w.Keys - {k}; }
      assert forall x | x in w :: x == k || x in rest;
      var r := MaxRev(rest);
      if w[k].modRev > r then w[k].modRev else r
  }

  ghost function Epoch(s: Store): nat {
    if MaxRev(s.watched) >= MarkerValue(s) then MaxRev(s.watched) else MarkerValue(s)
  }

  function ActiveNames(w: map<Key, Entry>): set<string> {
    if TopologyKey in w && w[TopologyKey].value.TopologyValue?
    then Elems(w[TopologyKey].value.topology.members) else {}
  }

  function Replicas(w: map<Key, Entry>): int {
    if TopologyKey in w && w[TopologyKey].value.TopologyValue?
    then w[TopologyKey].value.topology.replicas else 0
  }

  /** The nodes of the owner ring: registered, in the topology, not draining. */
  function Serving(w: map<Key, Entry>): set<string> {
    set k | k in w && k.MemberKey? && w[k].value.MemberValue? && !w[k].value.member.draining &&
            k.name in ActiveNames(w) :: k.name
  }

  predicate ServesAs(w: map<Key, Entry>, name: string, instance: int) {
    name in Serving(w) && w[MemberKey(name)].value.member.instance == instance
  }

  /** The epoch of a snapshot is the largest revision of a record or the last marker. */
  lemma EpochIs(s: Store, e: nat)
    ensures
      Epoch(s) <= e <==>
        && (forall k | k in s.watched :: s.watched[k].modRev <= e)
        && (s.markers != [] ==> s.markers[|s.markers| - 1].value <= e)
  {
  }

  // ---------- the epoch as a version number ----------

  /** The snapshot's epoch covers the last change of members or topology. */
  ghost predicate CaughtUp(s: Store) { Epoch(s) >= LastChange(s) }

  /** A later snapshot is told apart from an earlier one by its epoch. */
  ghost predicate Distinguishes(earlier: Store, later: Store) {
    && Epoch(earlier) <= Epoch(later)
    && (Epoch(earlier) == Epoch(later) ==> earlier.watched == later.watched)
  }

  lemma EpochBound(s: Store)
    requires Inv(s)
    ensures Epoch(s) <= s.rev && MaxRev(s.watched) <= LastChange(s) <= s.rev
  {
  }

  /** The epoch of a snapshot never exceeds the revision it was read at. */
  lemma EpochNeverExceedsRevision(allowed: Whitelist, run: seq<Step>)
    ensures Epoch(Exec(Start(allowed), run)) <= Exec(Start(allowed), run).rev
  {
    StartInv(allowed);
    RunKeepsInv(Start(allowed), run);
    EpochBound(Exec(Start(allowed), run));
  }

  /** A snapshot is caught up exactly when the last change was a write, or the
      marker has reached it. */
  lemma CaughtUpIff(s: Store)
    requires Inv(s)
    ensures CaughtUp(s) <==>
              s.log == [] || s.log[|s.log| - 1].entry.Some? || MarkerValue(s) >= LastChange(s)
  {
    EpochBound(s);
    if s.log != [] {
      var last := s.log[|s.log| - 1];
      assert Replay(None, s.log, last.key) == Get(s, last.key);
      if last.entry.None? && MaxRev(s.watched) == last.rev {
        var k :| k in s.watched && s.watched[k].modRev == last.rev;
        assert Replay(None, s.log, k) == Get(s, k);
        ReplayAt(s.log, k);
        assert false;
      }
    }
  }

  lemma SameLogSameRecords(s: Store, t: Store)
    requires LogInv(s) && LogInv(t) && s.log == t.log
    ensures s.watched == t.watched
  {
    forall k ensures Get(s, k) == Get(t, k) {
      assert Replay(None, s.log, k) == Get(s, k);
      assert Replay(None, t.log, k) == Get(t, k);
    }
    forall k ensures k in s.watched <==> k in t.watched { assert Get(s, k) == Get(t, k); }
    forall k | k in s.watched ensures s.watched[k] == t.watched[k] { assert Get(s, k) == Get(t, k); }
  }

  lemma FaithfulBetween(s: Store, t: Store)
    requires Inv(s) && Inv(t) && Later(s, t) && CaughtUp(t)
    ensures Distinguishes(s, t)
    ensures Epoch(s) == Epoch(t) ==> s.log == t.log
  {
    EpochBound(s);
    if s.log == t.log {
      SameLogSameRecords(s, t);
      if s.markers != [] { assert t.markers[|s.markers| - 1] == s.markers[|s.markers| - 1]; }
    } else {
      assert t.log[|t.log| - 1].rev > s.rev;
    }
  }

  /** The derived epoch is a faithful version number: in every history, a caught
      up snapshot never has a smaller epoch than an earlier snapshot, and has the
      same epoch only if members and topology are the same. */
  lemma EpochIsFaithful(allowed: Whitelist, history: seq<Step>, more: seq<Step>)
    ensures
      var s := Exec(Start(allowed), history);
      var t := Exec(s, more);
      CaughtUp(t) ==> Distinguishes(s, t)
  {
    StartInv(allowed);
    RunKeepsInv(Start(allowed), history);
    var s := Exec(Start(allowed), history);
    RunKeepsInv(s, more);
    if CaughtUp(Exec(s, more)) { FaithfulBetween(s, Exec(s, more)); }
  }

  lemma DeletionLowersEpoch(s: Store, t: Store, c: Change)
    requires Inv(s) && Inv(t) && Appends(s, t, c) && t.markers == s.markers && c.entry.None?
    ensures Epoch(t) <= Epoch(s) && !CaughtUp(t)
  {
    EpochBound(s);
    assert forall k | k in t.watched :: k in s.watched && t.watched[k] == s.watched[k];
  }

  lemma ChangingStep(s: Store, step: Step)
    requires Apply(s, step).watched != s.watched
    ensures Appends(s, Apply(s, step), Event(s, step)) && Apply(s, step).markers == s.markers
    ensures Event(s, step).entry.None? <==> step.Expire? || step.Revoke?
  {
    StepShape(s, step);
  }

  /** The condition is exact: across a step that changes members or topology,
      the epochs before and after tell the two apart if and only if the second
      snapshot is caught up, that is, if and only if the step was a write. */
  lemma FaithfulAcrossChangeIff(s: Store, step: Step)
    requires Inv(s) && Apply(s, step).watched != s.watched
    ensures Distinguishes(s, Apply(s, step)) <==> CaughtUp(Apply(s, step))
    ensures CaughtUp(Apply(s, step)) <==> !(step.Expire? || step.Revoke?)
  {
    var t := Apply(s, step);
    StepKeepsInv(s, step);
    ChangingStep(s, step);
    if Event(s, step).entry.None? {
      DeletionLowersEpoch(s, t, Event(s, step));
    } else {
      CaughtUpIff(t);
      FaithfulBetween(s, t);
    }
  }

  // ---------- two snapshots of any history ----------

  /** A record that is not newer than an earlier snapshot was already in it. */
  lemma OldRecordStood(s: Store, t: Store, k: Key)
    requires Inv(s) && Inv(t) && Later(s, t) && k in t.watched && t.watched[k].modRev <= s.rev
    ensures k in s.watched && s.watched[k] == t.watched[k]
  {
    assert Replay(None, t.log, k) == Get(t, k);
    ReplaySuffix(s.log, t.log, k);
    assert Replay(None, s.log, k) == Get(s, k);
  }

  /** If the last event of a key lies in the earlier log, later events are of other keys. */
  lemma {:induction false} ReplaySuffix(before: seq<Change>, log: seq<Change>, k: Key)
    requires before <= log && Replay(None, log, k).Some?
    requires forall i | |before| <= i < |log| && log[i].entry.Some? && log[i].entry == Replay(None, log, k) ::
               log[i].key != k
    ensures Replay(None, before, k) == Replay(None, log, k)
  {
    if |before| < |log| {
      var init := log[..|log| - 1];
      assert Replay(None, log, k) == Replay(None, init, k);
      ReplaySuffix(before, init, k);
    } else {
      assert before == log;
    }
  }

  /** Between two snapshots of one history, an epoch that does not rise can only
      have lost records: what is left is unchanged, the ring has only shrunk, and
      nothing has changed at all exactly when nothing is missing. */
  lemma StandingEpochOnlyLoses(s: Store, t: Store)
    requires Inv(s) && Inv(t) && Later(s, t) && Epoch(t) <= Epoch(s)
    ensures forall k | k in t.watched :: k in s.watched && s.watched[k] == t.watched[k]
    ensures Serving(t.watched) <= Serving(s.watched)
    ensures s.watched == t.watched <==> s.watched.Keys <= t.watched.Keys
  {
    EpochBound(s);
    forall k | k in t.watched ensures k in s.watched && s.watched[k] == t.watched[k] {
      OldRecordStood(s, t, k);
    }
    forall n | n in Serving(t.watched) ensures n in Serving(s.watched) { assert MemberKey(n) in s.watched; }
    if s.watched.Keys <= t.watched.Keys {
      assert s.watched.Keys == t.watched.Keys;
      assert s.watched == t.watched;
    }
  }

  /** The exact condition for any two snapshots of any history: the epochs fail to
      tell them apart if and only if a record of the earlier one is gone in the
      later one, and since the earlier one's epoch neither a record that is still
      there has been written nor the marker moved past it. */
  lemma DistinguishedIff(allowed: Whitelist, history: seq<Step>, more: seq<Step>)
    ensures
      var s := Exec(Start(allowed), history);
      var t := Exec(s, more);
      Distinguishes(s, t) <==>
        || (forall k | k in s.watched :: k in t.watched)
        || (exists k :: k in t.watched && t.watched[k].modRev > Epoch(s))
        || MarkerValue(t) > Epoch(s)
  {
    StartInv(allowed);
    RunKeepsInv(Start(allowed), history);
    var s := Exec(Start(allowed), history);
    RunKeepsInv(s, more);
    var t := Exec(s, more);
    if Epoch(t) <= Epoch(s) {
      StandingEpochOnlyLoses(s, t);
      MarkersGrow(s, t);
      assert forall k | k in t.watched :: t.watched[k].modRev <= Epoch(s);
    } else {
      assert MaxRev(t.watched) > Epoch(s) || MarkerValue(t) > Epoch(s);
    }
  }

  lemma MarkersGrow(s: Store, t: Store)
    requires MarkerInv(t) && Later(s, t)
    ensures MarkerValue(s) <= MarkerValue(t)
  {
    if s.markers != [] { assert t.markers[|s.markers| - 1] == s.markers[|s.markers| - 1]; }
  }

  // ---------- the same, told by the events in between ----------

  /** The last event of its key. */
  ghost predicate LastOfKey(log: seq<Change>, i: nat) {
    i < |log| && forall j | i < j < |log| :: log[j].key != log[i].key
  }

  lemma {:induction false} ReplayLast(log: seq<Change>, i: nat)
    requires LastOfKey(log, i)
    ensures Replay(None, log, log[i].key) == log[i].entry
  {
    if i < |log| - 1 { ReplayLast(log[..|log| - 1], i); }
  }

  lemma {:induction false} ReplayUntouched(before: seq<Change>, log: seq<Change>, k: Key)
    requires before <= log && forall i | |before| <= i < |log| :: log[i].key != k
    ensures Replay(None, before, k) == Replay(None, log, k)
  {
    if |before| < |log| {
      ReplayUntouched(before, log[..|log| - 1], k);
    } else {
      assert before == log;
    }
  }

  lemma LastExists(log: seq<Change>, i: nat)
    requires i < |log|
    ensures exists j: nat :: i <= j && LastOfKey(log, j) && log[j].key == log[i].key
    decreases |log| - i
  {
    if j :| i < j < |log| && log[j].key == log[i].key {
      LastExists(log, j);
    } else {
      assert LastOfKey(log, i);
    }
  }

  /** Every key touched after `s` has in the end been deleted. */
  ghost predicate OnlyDeletions(s: Store, t: Store) {
    forall i: nat | |s.log| <= i && LastOfKey(t.log, i) :: t.log[i].entry.None?
  }

  lemma DeletedOrSame(s: Store, t: Store, k: Key)
    requires Inv(s) && Inv(t) && Later(s, t) && OnlyDeletions(s, t)
    ensures k in t.watched ==> k in s.watched && t.watched[k] == s.watched[k]
    ensures (exists i :: |s.log| <= i < |t.log| && t.log[i].key == k) ==> k !in t.watched
  {
    assert Replay(None, t.log, k) == Get(t, k) && Replay(None, s.log, k) == Get(s, k);
    if i: nat :| |s.log| <= i < |t.log| && t.log[i].key == k {
      LastExists(t.log, i);
      var j: nat :| i <= j && LastOfKey(t.log, j) && t.log[j].key == k;
      ReplayLast(t.log, j);
    } else {
      ReplayUntouched(s.log, t.log, k);
    }
  }

  lemma WrittenIsNewer(s: Store, t: Store, i: nat)
    requires Inv(s) && Inv(t) && Later(s, t) && |s.log| <= i && LastOfKey(t.log, i) && t.log[i].entry.Some?
    ensures Epoch(t) > Epoch(s)
  {
    EpochBound(s);
    assert Replay(None, t.log, t.log[i].key) == Get(t, t.log[i].key);
    ReplayLast(t.log, i);
    assert t.watched[t.log[i].key].modRev == t.log[i].rev > s.rev;
  }

  lemma MissingWasDeleted(s: Store, t: Store, k: Key)
    requires Inv(s) && Inv(t) && Later(s, t) && k in s.watched && k !in t.watched
    ensures exists i :: |s.log| <= i < |t.log| && t.log[i].key == k
  {
    assert Replay(None, t.log, k) == Get(t, k) && Replay(None, s.log, k) == Get(s, k);
    if forall i | |s.log| <= i < |t.log| :: t.log[i].key != k { ReplayUntouched(s.log, t.log, k); }
  }

  /** Which histories fail: the epochs of two snapshots do not tell them apart exactly
      when between them a record of the earlier one was touched, every key touched in
      between ended up deleted, and no marker above the earlier epoch was written. */
  lemma ConfusedIff(allowed: Whitelist, history: seq<Step>, more: seq<Step>)
    ensures
      var s := Exec(Start(allowed), history);
      var t := Exec(s, more);
      !Distinguishes(s, t) <==>
        && (exists i :: |s.log| <= i < |t.log| && t.log[i].key in s.watched)
        && OnlyDeletions(s, t) && MarkerValue(t) <= Epoch(s)
  {
    StartInv(allowed);
    RunKeepsInv(Start(allowed), history);
    var s := Exec(Start(allowed), history);
    RunKeepsInv(s, more);
    ConfusedBetween(s, Exec(s, more));
  }

  lemma ConfusedBetween(s: Store, t: Store)
    requires Inv(s) && Inv(t) && Later(s, t)
    ensures
      !Distinguishes(s, t) <==>
        && (exists i :: |s.log| <= i < |t.log| && t.log[i].key in s.watched)
        && OnlyDeletions(s, t) && MarkerValue(t) <= Epoch(s)
  {
    MarkersGrow(s, t);
    if !Distinguishes(s, t) {
      StandingEpochOnlyLoses(s, t);
      var k :| k in s.watched && k !in t.watched;
      MissingWasDeleted(s, t, k);
      forall i: nat | |s.log| <= i && LastOfKey(t.log, i) ensures t.log[i].entry.None? {
        if t.log[i].entry.Some? { WrittenIsNewer(s, t, i); }
      }
    }
    if OnlyDeletions(s, t) && MarkerValue(t) <= Epoch(s) {
      forall k | k in t.watched ensures k in s.watched && t.watched[k] == s.watched[k] { DeletedOrSame(s, t, k); }
      assert Epoch(t) <= Epoch(s);
      if i: nat :| |s.log| <= i < |t.log| && t.log[i].key in s.watched { DeletedOrSame(s, t, t.log[i].key); }
    }
  }

  // ---------- resuming a watch ----------

  /** What a watch started at revision `from` delivers. */
  function EventsFrom(log: seq<Change>, from: nat): seq<Change> {
    if log == [] then []
    else
      var rest := EventsFrom(log[..|log| - 1], from);
      if log[|log| - 1].rev >= from then rest + [log[|log| - 1]] else rest
  }

  lemma {:induction false} EventsConcat(a: seq<Change>, b: seq<Change>, from: nat)
    requires forall i | 0 <= i < |b| :: b[i].rev >= from
    ensures EventsFrom(a + b, from) == EventsFrom(a, from) + b
  {
    if b == [] {
      assert a + b == a;
    } else {
      assert (a + b)[..|a + b| - 1] == a + b[..|b| - 1];
      EventsConcat(a, b[..|b| - 1], from);
    }
  }

  lemma {:induction false} ReplayConcat(v: Option<Entry>, a: seq<Change>, b: seq<Change>, k: Key)
    ensures Replay(v, a + b, k) == Replay(Replay(v, a, k), b, k)
  {
    if b == [] {
      assert a + b == a;
    } else {
      assert (a + b)[..|a + b| - 1] == a + b[..|b| - 1];
      ReplayConcat(v, a, b[..|b| - 1], k);
    }
  }

  lemma {:induction false} NoEventsBefore(log: seq<Change>, from: nat)
    requires forall i | 0 <= i < |log| :: log[i].rev < from
    ensures EventsFrom(log, from) == []
  {
    if log != [] { NoEventsBefore(log[..|log| - 1], from); }
  }

  /** Events that a snapshot already contains can be applied to it again. */
  lemma {:induction false} Absorbed(v: Option<Entry>, log: seq<Change>, from: nat, k: Key)
    requires forall i, j | 0 <= i < j < |log| :: log[i].rev < log[j].rev
    ensures Replay(Replay(v, log, k), EventsFrom(log, from), k) == Replay(v, log, k)
  {
    if log != [] {
      var init := log[..|log| - 1];
      var last := log[|log| - 1];
      if last.rev < from {
        NoEventsBefore(init, from);
      } else {
        Absorbed(v, init, from, k);
        var rest := EventsFrom(init, from);
        assert (rest + [last])[..|rest + [last]| - 1] == rest;
      }
    }
  }

  /** Restarting the watch just after the view's epoch loses nothing: on every
      watched key, the view brought up to date with the delivered events equals
      etcd's current state, whatever happened since the view was read. */
  lemma WatchResumeIsGapFree(s: Store, more: seq<Step>, k: Key)
    requires Inv(s)
    ensures
      var t := Exec(s, more);
      Replay(Get(s, k), EventsFrom(t.log, Epoch(s) + 1), k) == Get(t, k)
  {
    var t := Exec(s, more);
    var from := Epoch(s) + 1;
    EpochBound(s);
    RunKeepsInv(s, more);
    var tail := t.log[|s.log|..];
    assert t.log == s.log + tail;
    EventsConcat(s.log, tail, from);
    ReplayConcat(Get(s, k), EventsFrom(s.log, from), tail, k);
    assert Replay(None, s.log, k) == Get(s, k);
    Absorbed(None, s.log, from, k);
    ReplayConcat(None, s.log, tail, k);
    assert Replay(None, t.log, k) == Get(t, k);
  }

  // ---------- the topology chain ----------

  /** Every committed topology is canonical (odd, at least three, whitelisted,
      duplicate free), and each one differs by two nodes from the one it
      replaced and shares a majority with it. */
  lemma TopologyChain(allowed: Whitelist, run: seq<Step>, i: nat)
    requires i < |TopologiesOf(Exec(Start(allowed), run).log)|
    ensures
      var ts := TopologiesOf(Exec(Start(allowed), run).log);
      && Canonical(ts[i], allowed)
      && (i + 1 < |ts| ==>
            && Adjacent(ts[i], ts[i + 1])
            && 2 * |Elems(ts[i].members) * Elems(ts[i + 1].members)| > |Elems(ts[i].members)|
            && 2 * |Elems(ts[i].members) * Elems(ts[i + 1].members)| > |Elems(ts[i + 1].members)|)
  {
    StartInv(allowed);
    RunKeepsInv(Start(allowed), run);
    var ts := TopologiesOf(Exec(Start(allowed), run).log);
    if i + 1 < |ts| { RetainedMajority(ts[i], ts[i + 1], allowed); }
  }

  // ---------- leases and claims ----------

  /** A member record always belongs to the instance that holds the live lease
      attached to it, so no transaction compared on that lease can overwrite
      another instance's record. */
  lemma RecordsAreLeaseOwned(allowed: Whitelist, run: seq<Step>, name: string)
    requires MemberKey(name) in Exec(Start(allowed), run).watched
    ensures
      var s := Exec(Start(allowed), run);
      var e := s.watched[MemberKey(name)];
      && e.value.MemberValue? && e.value.member.name == name && e.lease in s.leases
      && s.leases[e.lease].session && s.leases[e.lease].name == name
      && s.leases[e.lease].instance == e.value.member.instance
  {
    StartInv(allowed);
    RunKeepsInv(Start(allowed), run);
  }

  /** Draining replaces a record only by one of the same instance. */
  lemma DrainKeepsInstance(s: Store, lease: nat, m: Member)
    requires Inv(s) && Disciplined(s, Drain(lease, m)) && Compare(s, Drain(lease, m))
    ensures
      var t := Apply(s, Drain(lease, m));
      && s.watched[MemberKey(m.name)].value.member.instance == m.instance
      && t.watched == s.watched[MemberKey(m.name) := Entry(MemberValue(m), s.rev + 1, lease)]
      && m.name !in Serving(t.watched) && Serving(t.watched) == Serving(s.watched) - {m.name}
  {
    var t := Apply(s, Drain(lease, m));
    var k := MemberKey(m.name);
    assert t.watched == s.watched[k := Entry(MemberValue(m), s.rev + 1, lease)];
    forall n ensures n in Serving(t.watched) <==> n in Serving(s.watched) && n != m.name {
      if n in Serving(s.watched) && n != m.name { assert MemberKey(n) in t.watched; }
      if n in Serving(t.watched) { assert MemberKey(n) in s.watched; }
    }
  }

  // ---------- the owner ring ----------

  lemma CommittedTopology(s: Store)
    requires Inv(s)
    ensures TopologyKey in s.watched <==> TopologiesOf(s.log) != []
    ensures TopologyKey in s.watched ==>
              s.watched[TopologyKey].value == TopologyValue(TopologiesOf(s.log)[|TopologiesOf(s.log)| - 1])
  {
  }

  /** In every history the ring derived from a snapshot is made of exactly the nodes
      that the last committed topology names and that have a record not draining: a
      registered candidate outside the topology is not in it. */
  lemma RingIff(allowed: Whitelist, run: seq<Step>, n: string)
    ensures
      var s := Exec(Start(allowed), run);
      var ts := TopologiesOf(s.log);
      n in Serving(s.watched) <==>
        && ts != [] && n in ts[|ts| - 1].members && MemberKey(n) in s.watched
        && s.watched[MemberKey(n)].value.MemberValue? && !s.watched[MemberKey(n)].value.member.draining
  {
    StartInv(allowed);
    RunKeepsInv(Start(allowed), run);
    RingAt(Exec(Start(allowed), run), n);
  }

  lemma RingAt(s: Store, n: string)
    requires Inv(s)
    ensures
      var ts := TopologiesOf(s.log);
      n in Serving(s.watched) <==>
        && ts != [] && n in ts[|ts| - 1].members && MemberKey(n) in s.watched
        && s.watched[MemberKey(n)].value.MemberValue? && !s.watched[MemberKey(n)].value.member.draining
  {
    CommittedTopology(s);
    if n in Serving(s.watched) { assert MemberKey(n) in s.watched; }
  }

  /** So a registration by a name outside the last topology leaves the ring as it was. */
  lemma CandidateKeepsRing(allowed: Whitelist, run: seq<Step>, lease: nat, m: Member)
    requires
      var ts := TopologiesOf(Exec(Start(allowed), run).log);
      ts == [] || m.name !in ts[|ts| - 1].members
    ensures
      var s := Exec(Start(allowed), run);
      Serving(Apply(s, Register(lease, m)).watched) == Serving(s.watched)
  {
    StartInv(allowed);
    RunKeepsInv(Start(allowed), run);
    var s := Exec(Start(allowed), run);
    var t := Apply(s, Register(lease, m));
    StepKeepsInv(s, Register(lease, m));
    if t != s {
      assert t.log[..|t.log| - 1] == s.log;
      assert TopologiesOf(t.log) == TopologiesOf(s.log);
    }
    forall n ensures n in Serving(t.watched) <==> n in Serving(s.watched) {
      RingAt(s, n);
      RingAt(t, n);
    }
  }

  /** Two successful claims of one task: the second comes only after the lease
      of the first has run for the ttl it was granted with. */
  lemma ClaimsAreSeparated(allowed: Whitelist, run: seq<Step>, i: nat, j: nat)
    requires i < j < |Exec(Start(allowed), run).successes|
    requires Exec(Start(allowed), run).successes[i].task == Exec(Start(allowed), run).successes[j].task
    ensures
      var cs := Exec(Start(allowed), run).successes;
      cs[j].at >= cs[i].granted + cs[i].ttl
  {
    StartInv(allowed);
    RunKeepsInv(Start(allowed), run);
  }
}
