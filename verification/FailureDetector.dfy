/** The leader's health rounds (sendHealthChecks in cluster_leader.go): failure
    counts are kept node by node, and the active set is rebuilt only when one of
    them crosses the limit. */
module FailureDetector {
  /** `count` is each other node's failCount. */
  datatype Detector = Detector(self: string, limit: nat, count: map<string, nat>, active: set<string>)

  /** The nodes a rebuild declares active. */
  function Alive(self: string, limit: nat, count: map<string, nat>): set<string> {
    {self} + set n | n in count && count[n] < limit
  }

  function NextCount(count: map<string, nat>, failed: set<string>): map<string, nat> {
    map n | n in count :: if n in failed then count[n] + 1 else 0
  }

  /** Some count reaches the limit just now, or a node at the limit answers again. */
  ghost predicate Crosses(limit: nat, count: map<string, nat>, failed: set<string>) {
    exists n :: n in count && if n in failed then count[n] + 1 == limit else count[n] >= limit
  }

  ghost function Round(d: Detector, failed: set<string>): Detector {
    var count := NextCount(d.count, failed);
    d.(count := count, active := if Crosses(d.limit, d.count, failed) then Alive(d.self, d.limit, count) else d.active)
  }

  ghost predicate RebuildsIffChanged(self: string, limit: nat, count: map<string, nat>, failed: set<string>) {
    Crosses(limit, count, failed)
    <==> Alive(self, limit, NextCount(count, failed)) != Alive(self, limit, count)
  }

  lemma CrossingChanges(self: string, limit: nat, count: map<string, nat>, failed: set<string>)
    requires limit >= 1 && self !in count
    ensures RebuildsIffChanged(self, limit, count, failed)
  {
    var next := NextCount(count, failed);
    if n :| n in count && if n in failed then count[n] + 1 == limit else count[n] >= limit {
      assert n in Alive(self, limit, next) <==> n !in Alive(self, limit, count);
    } else {
      assert Alive(self, limit, next) == Alive(self, limit, count);
    }
  }

  /** The incremental test asks for a rebuild exactly when the active set changes,
      whatever the counts and failures, if and only if the limit is at least one:
      with a limit of zero every answer asks for one and nothing ever changes. */
  lemma RebuildsIffChangedIff(self: string, limit: nat)
    ensures (forall count: map<string, nat>, failed | self !in count :: RebuildsIffChanged(self, limit, count, failed))
            <==> limit >= 1
  {
    if limit >= 1 {
      forall count: map<string, nat>, failed | self !in count ensures RebuildsIffChanged(self, limit, count, failed) {
        CrossingChanges(self, limit, count, failed);
      }
    } else {
      var count: map<string, nat> := map[self + "2" := 0];
      assert self + "2" in count && self !in count by { assert |self + "2"| != |self|; }
      assert Crosses(limit, count, {});
      assert Alive(self, limit, NextCount(count, {})) == Alive(self, limit, count);
      assert !RebuildsIffChanged(self, limit, count, {});
    }
  }

  // ---------- whole runs ----------

  function Fresh(self: string, limit: nat, others: set<string>): Detector {
    Detector(self, limit, map n | n in others :: 0, others + {self})
  }

  ghost function Rounds(d: Detector, rounds: seq<set<string>>): Detector {
    if rounds == [] then d else Round(Rounds(d, rounds[..|rounds| - 1]), rounds[|rounds| - 1])
  }

  /** How many of the latest rounds in a row `n` has failed. */
  function Streak(rounds: seq<set<string>>, n: string): nat {
    if rounds == [] || n !in rounds[|rounds| - 1] then 0 else Streak(rounds[..|rounds| - 1], n) + 1
  }

  lemma {:induction false} CountsAreStreaks(d: Detector, others: set<string>, rounds: seq<set<string>>)
    requires d == Fresh(d.self, d.limit, others)
    ensures
      var e := Rounds(d, rounds);
      && e.self == d.self && e.limit == d.limit && e.count.Keys == others
      && (forall n | n in others :: e.count[n] == Streak(rounds, n))
  {
    if rounds != [] { CountsAreStreaks(d, others, rounds[..|rounds| - 1]); }
  }

  /** After every round of every run the active set is the leader and exactly the
      nodes that have failed fewer than `limit` rounds in a row. */
  lemma {:induction false} ActiveIsRecomputed(self: string, limit: nat, others: set<string>, rounds: seq<set<string>>)
    requires limit >= 1 && self !in others
    ensures
      Rounds(Fresh(self, limit, others), rounds).active
      == {self} + (set n | n in others && Streak(rounds, n) < limit)
  {
    var d := Fresh(self, limit, others);
    CountsAreStreaks(d, others, rounds);
    if rounds != [] {
      var init := rounds[..|rounds| - 1];
      ActiveIsRecomputed(self, limit, others, init);
      CountsAreStreaks(d, others, init);
      CrossingChanges(self, limit, Rounds(d, init).count, rounds[|rounds| - 1]);
      assert Rounds(d, init).active == Alive(self, limit, Rounds(d, init).count);
      assert Rounds(d, rounds).active == Alive(self, limit, Rounds(d, rounds).count);
    }
  }

  // ---------- the loop ----------

  /** With a limit of at least one, a round keeps the active set up to date and asks
      for a rebuild exactly when it changes. */
  lemma RoundAgrees(d: Detector, failed: set<string>)
    ensures
      var e := Round(d, failed);
      d.limit >= 1 && d.self !in e.count && d.active == Alive(d.self, d.limit, d.count) ==>
        && e.active == Alive(d.self, d.limit, e.count)
        && (Crosses(d.limit, d.count, failed) <==> e.active != d.active)
  {
    if d.limit >= 1 && d.self !in d.count { CrossingChanges(d.self, d.limit, d.count, failed); }
  }

  class Leader {
    const self: string
    const limit: nat
    var failCount: map<string, nat>
    var activeNodes: set<string>

    ghost function State(): Detector
      reads this
    {
      Detector(self, limit, failCount, activeNodes)
    }

    constructor (self: string, limit: nat, others: set<string>)
      ensures State() == Fresh(self, limit, others)
    {
      this.self, this.limit := self, limit;
      failCount := map n | n in others :: 0;
      activeNodes := others + {self};
    }

    method Rebuild()
      modifies this`activeNodes
      ensures activeNodes == Alive(self, limit, failCount)
    {
      activeNodes := {self};
      var left := failCount.Keys;
      while left != {}
        invariant left <= failCount.Keys
        invariant activeNodes == {self} + set n | n in failCount && n !in left && failCount[n] < limit
        decreases |left|
      {
        var n :| n in left;
        left := left - {n};
        if failCount[n] < limit {
          activeNodes := activeNodes + {n};
        }
      }
    }

    /** One round; `failed` are the nodes whose call returns an error. */
    method SendHealthChecks(failed: set<string>) returns (rehash: bool)
      modifies this
      ensures State() == Round(old(State()), failed)
      ensures failCount.Keys == old(failCount).Keys && forall n | n in failCount ::
                failCount[n] == if n in failed then old(failCount)[n] + 1 else 0
      ensures rehash <==>
                exists n :: n in old(failCount) &&
                            if n in failed then old(failCount)[n] + 1 == limit else old(failCount)[n] >= limit
      ensures activeNodes == if rehash then {self} + set n | n in failCount && failCount[n] < limit
                             else old(activeNodes)
      ensures limit >= 1 && self !in failCount && old(activeNodes) == Alive(self, limit, old(failCount)) ==>
                activeNodes == Alive(self, limit, failCount) && (rehash <==> activeNodes != old(activeNodes))
    {
      rehash := false;
      var left := failCount.Keys;
      while left != {}
        invariant failCount.Keys == old(failCount).Keys && left <= failCount.Keys
        invariant forall n | n in failCount ::
                    failCount[n]
                    == if n in left then old(failCount)[n]
                       else if n in failed then old(failCount)[n] + 1 else 0
        invariant rehash <==>
                  exists n :: n in old(failCount) && n !in left &&
                              if n in failed then old(failCount)[n] + 1 == limit else old(failCount)[n] >= limit
        invariant activeNodes == old(activeNodes)
        decreases |left|
      {
        var n :| n in left;
        left := left - {n};
        if n in failed {
          failCount := failCount[n := failCount[n] + 1];
          if failCount[n] == limit {
            rehash := true;
          }
        } else {
          if failCount[n] >= limit {
            rehash := true;
          }
          failCount := failCount[n := 0];
        }
      }
      assert failCount == NextCount(old(failCount), failed);
      if rehash {
        Rebuild();
      }
      RoundAgrees(old(State()), failed);
    }
  }
}
