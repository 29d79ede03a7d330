/** The bounded cache in front of the business policy service
    (business_policy.go): allowed and denied decisions are kept for their own ttl,
    batch greetings are always asked anew. */
module PolicyCache {
  import opened Wrappers

  datatype Query = Query(provider: string, actor: string, target: string, action: string)
  datatype Decision = Decision(allowed: bool, reason: string)
  datatype Cached = Cached(decision: Decision, expires: nat)

  /** An answer of the service. */
  datatype Given = Given(query: Query, decision: Decision, at: nat)

  datatype Cache = Cache(
    max: nat, allowTtl: nat, denyTtl: nat, now: nat, entries: map<Query, Cached>, given: seq<Given>)

  const BATCH := "batch_greeting"

  function Ttl(c: Cache, d: Decision): nat { if d.allowed then c.allowTtl else c.denyTtl }

  /** The cached decision a caller gets who read the clock at `seen`. */
  function Lookup(c: Cache, q: Query, seen: nat): Option<Decision> {
    if q.action != BATCH && q in c.entries && seen < c.entries[q].expires then Some(c.entries[q].decision) else None
  }

  function Purged(entries: map<Query, Cached>, now: nat): map<Query, Cached> {
    map q | q in entries && now <= entries[q].expires :: entries[q]
  }

  /** What is left when room is needed. */
  function Kept(c: Cache): map<Query, Cached> { if |c.entries| >= c.max then Purged(c.entries, c.now) else c.entries }

  /** The service answers, and the answer is kept if there is room for it. */
  function Answered(c: Cache, q: Query, d: Decision): Cache {
    var asked := c.(given := c.given + [Given(q, d, c.now)]);
    if q.action == BATCH then asked
    else
      var table := Kept(c);
      asked.(entries := if |table| >= c.max then table else table[q := Cached(d, c.now + Ttl(c, d))])
  }

  datatype Step = Ask(query: Query, decision: Decision) | Tick(now: nat)

  function Apply(c: Cache, s: Step): Cache {
    match s
    case Ask(q, d) => Answered(c, q, d)
    case Tick(now) => if c.now <= now then c.(now := now) else c
  }

  function Exec(c: Cache, steps: seq<Step>): Cache
    decreases |steps|
  {
    if steps == [] then c else Exec(Apply(c, steps[0]), steps[1..])
  }

  lemma {:induction false} ExecAppend(c: Cache, steps: seq<Step>, s: Step)
    ensures Exec(c, steps + [s]) == Apply(Exec(c, steps), s)
    decreases |steps|
  {
    if steps == [] {
      assert Exec(Apply(c, s), []) == Apply(c, s);
      assert ([s])[1..] == [];
    } else {
      assert (steps + [s])[1..] == steps[1..] + [s];
      ExecAppend(Apply(c, steps[0]), steps[1..], s);
    }
  }

  function Empty(max: nat, allowTtl: nat, denyTtl: nat): Cache { Cache(max, allowTtl, denyTtl, 0, map[], []) }

  ghost predicate Backed(c: Cache, q: Query, e: Cached) {
    exists i :: 0 <= i < |c.given| && c.given[i] == Given(q, e.decision, c.given[i].at) &&
                e.expires == c.given[i].at + Ttl(c, e.decision)
  }

  ghost predicate Inv(c: Cache) {
    && |c.entries| <= c.max
    && (forall q | q in c.entries :: q.action != BATCH && Backed(c, q, c.entries[q]))
    && (forall i | 0 <= i < |c.given| :: c.given[i].at <= c.now)
  }

  lemma BackedStands(c: Cache, d: Cache, q: Query, e: Cached)
    requires Backed(c, q, e) && c.given <= d.given && d.allowTtl == c.allowTtl && d.denyTtl == c.denyTtl
    ensures Backed(d, q, e)
  {
    var i :| 0 <= i < |c.given| && c.given[i] == Given(q, e.decision, c.given[i].at) &&
             e.expires == c.given[i].at + Ttl(c, e.decision);
    assert d.given[i] == c.given[i];
  }

  lemma PurgedIsSmaller(entries: map<Query, Cached>, now: nat)
    ensures |Purged(entries, now)| <= |entries|
  {
    var kept := Purged(entries, now).Keys;
    assert entries.Keys == kept + (entries.Keys - kept);
  }

  lemma InsertAddsOne(entries: map<Query, Cached>, q: Query, e: Cached)
    ensures |entries[q := e]| <= |entries| + 1
  {
    assert entries[q := e].Keys == entries.Keys + {q};
  }

  lemma AnsweredIsBounded(c: Cache, q: Query, d: Decision)
    requires |c.entries| <= c.max
    ensures |Answered(c, q, d).entries| <= c.max
  {
    PurgedIsSmaller(c.entries, c.now);
    InsertAddsOne(Kept(c), q, Cached(d, c.now + Ttl(c, d)));
  }

  lemma NewEntryIsBacked(c: Cache, q: Query, d: Decision)
    requires q.action != BATCH
    ensures Backed(Answered(c, q, d), q, Cached(d, c.now + Ttl(c, d)))
  {
    assert Answered(c, q, d).given[|c.given|] == Given(q, d, c.now);
  }

  lemma AnsweredKeepsInv(c: Cache, q: Query, d: Decision)
    requires Inv(c)
    ensures Inv(Answered(c, q, d))
  {
    var v := Answered(c, q, d);
    AnsweredIsBounded(c, q, d);
    forall x | x in v.entries ensures x.action != BATCH && Backed(v, x, v.entries[x]) {
      if x in c.entries && v.entries[x] == c.entries[x] {
        BackedStands(c, v, x, c.entries[x]);
      } else {
        NewEntryIsBacked(c, q, d);
      }
    }
  }

  lemma ApplyKeepsInv(c: Cache, s: Step)
    requires Inv(c)
    ensures Inv(Apply(c, s))
  {
    match s
    case Ask(q, d) => AnsweredKeepsInv(c, q, d);
    case Tick(now) =>
      forall q | q in c.entries ensures Backed(Apply(c, s), q, c.entries[q]) {
        BackedStands(c, Apply(c, s), q, c.entries[q]);
      }
  }

  lemma {:induction false} SettingsStand(c: Cache, steps: seq<Step>)
    ensures Exec(c, steps).max == c.max && Exec(c, steps).allowTtl == c.allowTtl && Exec(c, steps).denyTtl == c.denyTtl
    decreases |steps|
  {
    if steps != [] { SettingsStand(Apply(c, steps[0]), steps[1..]); }
  }

  lemma {:induction false} ExecKeepsInv(c: Cache, steps: seq<Step>)
    requires Inv(c)
    ensures Inv(Exec(c, steps))
    decreases |steps|
  {
    if steps != [] {
      ApplyKeepsInv(c, steps[0]);
      ExecKeepsInv(Apply(c, steps[0]), steps[1..]);
    }
  }

  /** Whatever has been asked and however full the cache: it never outgrows its
      bound, and a cached decision is one the service gave for that very query, less
      than that kind of decision's ttl before the caller read the clock; a batch
      greeting is never answered from the cache. */
  lemma CachedDecisionsAreFresh(max: nat, allowTtl: nat, denyTtl: nat, steps: seq<Step>, q: Query, seen: nat)
    ensures
      var c := Exec(Empty(max, allowTtl, denyTtl), steps);
      && |c.entries| <= max
      && (Lookup(c, q, seen).Some? ==>
            var d := Lookup(c, q, seen).value;
            && q.action != BATCH
            && exists i :: 0 <= i < |c.given| && c.given[i].query == q && c.given[i].decision == d
                           && seen < c.given[i].at + (if d.allowed then allowTtl else denyTtl))
  {
    ExecKeepsInv(Empty(max, allowTtl, denyTtl), steps);
    SettingsStand(Empty(max, allowTtl, denyTtl), steps);
    var c := Exec(Empty(max, allowTtl, denyTtl), steps);
    if Lookup(c, q, seen).Some? { assert Backed(c, q, c.entries[q]); }
  }

  /** A decision that is still valid is not pushed out by the answer to another query. */
  lemma ValidDecisionsStay(c: Cache, q: Query, other: Query, d: Decision)
    requires Inv(c) && q != other && Lookup(c, q, c.now).Some?
    ensures Lookup(Answered(c, other, d), q, c.now) == Lookup(c, q, c.now)
  {
  }

  lemma PurgeMakesRoom(entries: map<Query, Cached>, now: nat, k: Query)
    requires k in entries && entries[k].expires < now
    ensures |Purged(entries, now)| < |entries|
  {
    var kept := Purged(entries, now).Keys;
    var rest := entries.Keys - {k};
    assert kept <= rest;
    assert rest == kept + (rest - kept);
    assert entries.Keys == rest + {k};
  }

  lemma KeptAre(c: Cache)
    requires |c.entries| <= c.max
    ensures |Kept(c)| < c.max <==> |c.entries| < c.max || exists k :: k in c.entries && c.entries[k].expires < c.now
    ensures |Kept(c)| >= c.max ==> Kept(c) == c.entries
    ensures forall x | x in Kept(c) :: x in c.entries && Kept(c)[x] == c.entries[x]
    ensures forall x | x in c.entries :: x !in Kept(c) <==> |c.entries| == c.max && c.entries[x].expires < c.now
  {
    if |c.entries| >= c.max {
      if k :| k in c.entries && c.entries[k].expires < c.now {
        PurgeMakesRoom(c.entries, c.now, k);
      } else {
        assert Purged(c.entries, c.now) == c.entries;
      }
    }
  }

  /** An answer is kept, to the end of its own kind's ttl, exactly when it is not to a
      batch greeting and there is room: the cache is not full, or some entry has run out.
      No other entry changes, and one is dropped only if it has run out, when the cache
      is full and the answer is not to a batch greeting. */
  lemma KeptIff(c: Cache, q: Query, d: Decision)
    requires |c.entries| <= c.max
    ensures
      var v := Answered(c, q, d);
      var kept := Cached(d, c.now + if d.allowed then c.allowTtl else c.denyTtl);
      var room := |c.entries| < c.max || exists k :: k in c.entries && c.entries[k].expires < c.now;
      && (q.action != "batch_greeting" && room ==> q in v.entries && v.entries[q] == kept)
      && (q.action == "batch_greeting" || !room ==> v.entries == c.entries)
      && (forall x | x in v.entries && x != q :: x in c.entries && v.entries[x] == c.entries[x])
      && (forall x | x in c.entries && x != q ::
            x !in v.entries <==>
              && q.action != "batch_greeting" && |c.entries| == c.max && c.entries[x].expires < c.now)
  {
    KeptAre(c);
  }

  class Client {
    const max: nat
    const allowTtl: nat
    const denyTtl: nat
    var now: nat
    var entries: map<Query, Cached>
    ghost var given: seq<Given>

    ghost function State(): Cache
      reads this
    {
      Cache(max, allowTtl, denyTtl, now, entries, given)
    }

    constructor (max: nat, allowTtl: nat, denyTtl: nat)
      ensures State() == Empty(max, allowTtl, denyTtl) && Inv(State())
    {
      this.max, this.allowTtl, this.denyTtl := max, allowTtl, denyTtl;
      now, entries, given := 0, map[], [];
    }

    method Purge()
      modifies this`entries
      ensures entries == Purged(old(entries), now)
    {
      var left := entries.Keys;
      while left != {}
        invariant left <= entries.Keys <= old(entries).Keys
        invariant forall q | q in entries :: entries[q] == old(entries)[q]
        invariant forall q | q in old(entries) :: q in entries <==> q in left || now <= old(entries)[q].expires
        decreases |left|
      {
        var q :| q in left;
        left := left - {q};
        if now > entries[q].expires {
          entries := entries - {q};
        }
      }
    }

    /** evaluateUncached: `reply` is what the service says, None when the call fails. */
    method EvaluateUncached(q: Query, reply: Option<Decision>) returns (decision: Option<Decision>)
      modifies this`entries, this`given
      ensures decision == reply
      ensures State() == if reply.Some? then Answered(old(State()), q, reply.value) else old(State())
      ensures reply.None? || q.action == "batch_greeting" ==> entries == old(entries)
      ensures reply.Some? && q.action != "batch_greeting" && |old(entries)| < max ==>
                entries
                == old(entries)[q := Cached(reply.value, now + if reply.value.allowed then allowTtl else denyTtl)]
    {
      decision := reply;
      if reply.None? { return; }
      given := given + [Given(q, reply.value, now)];
      if q.action == BATCH { return; }
      if |entries| >= max {
        Purge();
        if |entries| >= max { return; }
      }
      entries := entries[q := Cached(reply.value, now + if reply.value.allowed then allowTtl else denyTtl)];
    }

    /** Other callers and the clock, while the lock is not held. */
    method Others(ghost start: Cache, ghost before: seq<Step>) returns (ghost steps: seq<Step>)
      requires State() == Exec(start, before)
      modifies this
      ensures before <= steps && State() == Exec(start, steps)
    {
      steps := before;
      var rounds: nat := *;
      while rounds > 0
        invariant before <= steps && State() == Exec(start, steps)
      {
        ghost var s;
        s := Other();
        ExecAppend(start, steps, s);
        steps := steps + [s];
        rounds := rounds - 1;
      }
    }

    method Other() returns (ghost s: Step)
      modifies this
      ensures State() == Apply(old(State()), s)
    {
      if * {
        var later: nat := *;
        s := Tick(later);
        if now <= later { now := later; }
      } else {
        var q: Query, d: Decision := *, *;
        s := Ask(q, d);
        var _ := EvaluateUncached(q, Some(d));
      }
    }

    /** evaluate, others asking and time passing whenever the lock is free; `steps` is
        what happened to the cache during the call. A decision valid when the clock was
        first read is given at once; one that others have brought by the second look is
        given then; else the service answers, and its answer is the last step. */
    method Evaluate(q: Query, seen: nat, reply: Option<Decision>)
      returns (decision: Option<Decision>, ghost steps: seq<Step>, ghost looked: nat)
      requires seen <= now
      modifies this
      ensures State() == Exec(old(State()), steps) && looked <= |steps|
      ensures
        var first := q.action != "batch_greeting" && q in old(entries) && seen < old(entries)[q].expires;
        var m := Exec(old(State()), steps[..looked]);
        var second := q.action != "batch_greeting" && q in m.entries && m.now < m.entries[q].expires;
        if first then decision == Some(old(entries)[q].decision) && steps == []
        else if second then decision == Some(m.entries[q].decision) && looked == |steps|
        else decision == reply && (reply.Some? ==> looked < |steps| && steps[|steps| - 1] == Ask(q, reply.value))
    {
      ghost var start := State();
      steps, looked := [], 0;
      if q.action != BATCH {
        if q in entries && seen < entries[q].expires {
          return Some(entries[q].decision), steps, 0;
        }
        steps := Others(start, steps);
        looked := |steps|;
        if q in entries && now < entries[q].expires {
          assert steps[..looked] == steps;
          return Some(entries[q].decision), steps, looked;
        }
      }
      ghost var before := steps;
      steps := Others(start, steps);
      assert steps[..looked] == before;
      decision := EvaluateUncached(q, reply);
      if reply.Some? {
        ExecAppend(start, steps, Ask(q, reply.value));
        steps := steps + [Ask(q, reply.value)];
        assert steps[..looked] == before;
      }
    }
  }

  /** Whatever others did during a call, its decision is one the service gave for that
      very query, and its ttl was not over when the caller first read the clock - or it
      was given only after that. */
  lemma DecisionsAreFresh(c: Cache, q: Query, seen: nat, steps: seq<Step>, decision: Decision)
    requires Inv(c) && seen <= c.now
    requires
      var d := Exec(c, steps);
      || (steps == [] && Lookup(c, q, seen) == Some(decision))
      || Lookup(d, q, d.now) == Some(decision)
      || (steps != [] && steps[|steps| - 1] == Ask(q, decision))
    ensures
      var d := Exec(c, steps);
      exists i :: 0 <= i < |d.given| && d.given[i].query == q && d.given[i].decision == decision
                  && (seen < d.given[i].at + Ttl(c, decision) || seen <= d.given[i].at)
  {
    var d := Exec(c, steps);
    ExecKeepsInv(c, steps);
    SettingsStand(c, steps);
    TimeGrows(c, steps);
    if steps != [] && steps[|steps| - 1] == Ask(q, decision) {
      var init := steps[..|steps| - 1];
      assert steps == init + [Ask(q, decision)];
      ExecAppend(c, init, Ask(q, decision));
      TimeGrows(c, init);
      assert d.given[|Exec(c, init).given|] == Given(q, decision, Exec(c, init).now);
    } else {
      assert Backed(d, q, d.entries[q]);
    }
  }

  lemma {:induction false} TimeGrows(c: Cache, steps: seq<Step>)
    ensures c.now <= Exec(c, steps).now
    decreases |steps|
  {
    if steps != [] { TimeGrows(Apply(c, steps[0]), steps[1..]); }
  }
}
