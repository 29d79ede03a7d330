/** Callers that ask the same question at the same time share one flight: one of them
    looks into the cache again and asks the service, the others wait for its result
    (evaluate in business_policy.go). */
module PolicyFlights {
  import opened Wrappers
  import opened PolicyCache

  /** How far the function of a flight has come: the second look, the service, done. */
  datatype Stage = Opened | Asking | Ready(result: Option<Decision>)

  /** An open flight; `looked` is when it took its second look, once it has. */
  datatype Flight = Flight(looked: nat, stage: Stage)

  /** A caller that read the clock at `seen`. What it is given was looked up, or asked
      for after a look that found nothing, at `looked`. */
  datatype Progress = Missed | Waiting | Done(result: Option<Decision>, looked: nat)
  datatype Caller = Caller(query: Query, seen: nat, progress: Progress)

  datatype Sys = Sys(cache: Cache, flights: map<Query, Flight>, callers: seq<Caller>)

  datatype Event =
    | Enter(query: Query, seen: nat)                     // the first look
    | Join(caller: nat)                                  // joins the flight, or opens it
    | Look(query: Query)                                 // the second look
    | Reply(query: Query, reply: Option<Decision>)       // the service answers, or fails
    | End(query: Query)                                  // everyone waiting is given the result
    | Other(step: Step)                                  // batch greetings, and time

  function Delivered(callers: seq<Caller>, q: Query, result: Option<Decision>, looked: nat): seq<Caller> {
    seq(|callers|, i requires 0 <= i < |callers| =>
      if callers[i].query == q && callers[i].progress == Waiting
      then callers[i].(progress := Done(result, looked)) else callers[i])
  }

  function Move(s: Sys, e: Event): Sys {
    match e
    case Enter(q, seen) =>
      if q.action == BATCH || seen > s.cache.now then s
      else
        var found := Lookup(s.cache, q, seen);
        s.(callers := s.callers + [Caller(q, seen, if found.Some? then Done(found, seen) else Missed)])
    case Join(i) =>
      if i < |s.callers| && s.callers[i].progress == Missed
      then
        var c := s.callers[i];
        s.(callers := s.callers[i := c.(progress := Waiting)],
           flights := if c.query in s.flights then s.flights else s.flights[c.query := Flight(0, Opened)])
      else s
    case Look(q) =>
      if q in s.flights && s.flights[q].stage == Opened
      then
        var found := Lookup(s.cache, q, s.cache.now);
        s.(flights := s.flights[q := Flight(s.cache.now, if found.Some? then Ready(found) else Asking)])
      else s
    case Reply(q, reply) =>
      if q in s.flights && s.flights[q].stage == Asking
      then
        s.(flights := s.flights[q := s.flights[q].(stage := Ready(reply))],
           cache := if reply.Some? then Answered(s.cache, q, reply.value) else s.cache)
      else s
    case End(q) =>
      if q in s.flights && s.flights[q].stage.Ready?
      then
        s.(flights := s.flights - {q},
           callers := Delivered(s.callers, q, s.flights[q].stage.result, s.flights[q].looked))
      else s
    case Other(step) =>
      if step.Tick? || step.query.action == BATCH then s.(cache := Apply(s.cache, step)) else s
  }

  function Run(s: Sys, events: seq<Event>): Sys
    decreases |events|
  {
    if events == [] then s else Run(Move(s, events[0]), events[1..])
  }

  function Idle(max: nat, allowTtl: nat, denyTtl: nat): Sys { Sys(Empty(max, allowTtl, denyTtl), map[], []) }

  // ---------- where a result comes from ----------

  /** The service gave the decision for the query, and its ttl was not over at `t`, or it
      was given only after that. */
  ghost predicate FreshSince(c: Cache, q: Query, d: Decision, t: nat) {
    exists i :: 0 <= i < |c.given| && c.given[i].query == q && c.given[i].decision == d
                && (t < c.given[i].at + Ttl(c, d) || t <= c.given[i].at)
  }

  ghost predicate FlightOk(c: Cache, q: Query, f: Flight) {
    && (!f.stage.Opened? ==> f.looked <= c.now)
    && (f.stage.Ready? && f.stage.result.Some? ==> FreshSince(c, q, f.stage.result.value, f.looked))
  }

  ghost predicate CallerOk(s: Sys, c: Caller) {
    && c.seen <= s.cache.now && (c.progress.Waiting? ==> c.query in s.flights)
    && (c.progress.Done? ==> c.progress.looked <= s.cache.now)
    && (c.progress.Done? && c.progress.result.Some? ==>
          FreshSince(s.cache, c.query, c.progress.result.value, c.progress.looked))
  }

  ghost predicate SharedInv(s: Sys) {
    && Inv(s.cache)
    && (forall q | q in s.flights :: q.action != BATCH && FlightOk(s.cache, q, s.flights[q]))
    && (forall i | 0 <= i < |s.callers| :: CallerOk(s, s.callers[i]) && s.callers[i].query.action != BATCH)
  }

  lemma FreshStands(c: Cache, d: Cache)
    requires c.given <= d.given && d.allowTtl == c.allowTtl && d.denyTtl == c.denyTtl
    ensures forall q, x, t: nat | FreshSince(c, q, x, t) :: FreshSince(d, q, x, t)
  {
    forall q, x, t: nat | FreshSince(c, q, x, t) ensures FreshSince(d, q, x, t) {
      var i :| 0 <= i < |c.given| && c.given[i].query == q && c.given[i].decision == x
               && (t < c.given[i].at + Ttl(c, x) || t <= c.given[i].at);
      assert d.given[i] == c.given[i];
    }
  }

  lemma FoundIsFresh(c: Cache, q: Query, t: nat)
    requires Inv(c) && Lookup(c, q, t).Some?
    ensures FreshSince(c, q, Lookup(c, q, t).value, t)
  {
    assert Backed(c, q, c.entries[q]);
  }

  lemma AnswerIsFresh(c: Cache, q: Query, d: Decision, t: nat)
    requires t <= c.now
    ensures FreshSince(Answered(c, q, d), q, d, t)
  {
    assert Answered(c, q, d).given[|c.given|].query == q;
  }

  /** The cache has moved on, and everything else stands. */
  lemma CacheMoves(s: Sys, c: Cache)
    requires SharedInv(s) && Inv(c) && s.cache.given <= c.given && s.cache.now <= c.now
    requires c.allowTtl == s.cache.allowTtl && c.denyTtl == s.cache.denyTtl
    ensures SharedInv(s.(cache := c))
  {
    FreshStands(s.cache, c);
    forall i | 0 <= i < |s.callers| ensures CallerOk(s.(cache := c), s.callers[i]) {
      assert CallerOk(s, s.callers[i]);
    }
    forall q | q in s.flights ensures FlightOk(c, q, s.flights[q]) { assert FlightOk(s.cache, q, s.flights[q]); }
  }

  lemma FlightMoves(s: Sys, q: Query, f: Flight)
    requires SharedInv(s) && q in s.flights && FlightOk(s.cache, q, f)
    ensures SharedInv(s.(flights := s.flights[q := f]))
  {
    forall i | 0 <= i < |s.callers| ensures CallerOk(s.(flights := s.flights[q := f]), s.callers[i]) {
      assert CallerOk(s, s.callers[i]);
    }
  }

  lemma EnterKeeps(s: Sys, e: Event)
    requires SharedInv(s) && e.Enter?
    ensures SharedInv(Move(s, e))
  {
    var v := Move(s, e);
    if v != s && Lookup(s.cache, e.query, e.seen).Some? { FoundIsFresh(s.cache, e.query, e.seen); }
    forall i | 0 <= i < |v.callers| ensures CallerOk(v, v.callers[i]) && v.callers[i].query.action != BATCH {
      if i < |s.callers| { assert CallerOk(s, s.callers[i]); }
    }
  }

  lemma JoinKeeps(s: Sys, e: Event)
    requires SharedInv(s) && e.Join?
    ensures SharedInv(Move(s, e))
  {
    var v := Move(s, e);
    forall i | 0 <= i < |v.callers| ensures CallerOk(v, v.callers[i]) && v.callers[i].query.action != BATCH {
      assert CallerOk(s, s.callers[i]);
    }
  }

  lemma EndKeeps(s: Sys, e: Event)
    requires SharedInv(s) && e.End?
    ensures SharedInv(Move(s, e))
  {
    var v := Move(s, e);
    forall i | 0 <= i < |v.callers| ensures CallerOk(v, v.callers[i]) && v.callers[i].query.action != BATCH {
      assert CallerOk(s, s.callers[i]);
      if e.query in s.flights { assert FlightOk(s.cache, e.query, s.flights[e.query]); }
    }
  }

  lemma ReplyKeeps(s: Sys, e: Event)
    requires SharedInv(s) && e.Reply? && e.query in s.flights && s.flights[e.query].stage == Asking
    ensures SharedInv(Move(s, e))
  {
    var f := s.flights[e.query].(stage := Ready(e.reply));
    if e.reply.Some? {
      AnsweredKeepsInv(s.cache, e.query, e.reply.value);
      AnswerIsFresh(s.cache, e.query, e.reply.value, f.looked);
      CacheMoves(s, Answered(s.cache, e.query, e.reply.value));
      FlightMoves(s.(cache := Answered(s.cache, e.query, e.reply.value)), e.query, f);
    } else {
      FlightMoves(s, e.query, f);
    }
  }

  lemma MoveKeepsShared(s: Sys, e: Event)
    requires SharedInv(s)
    ensures SharedInv(Move(s, e))
  {
    match e
    case Enter(_, _) => EnterKeeps(s, e);
    case Join(_) => JoinKeeps(s, e);
    case Look(q) =>
      if q in s.flights && s.flights[q].stage == Opened {
        if Lookup(s.cache, q, s.cache.now).Some? { FoundIsFresh(s.cache, q, s.cache.now); }
        FlightMoves(s, q, Move(s, e).flights[q]);
      }
    case Reply(q, _) => if q in s.flights && s.flights[q].stage == Asking { ReplyKeeps(s, e); }
    case End(_) => EndKeeps(s, e);
    case Other(step) =>
      if step.Tick? || step.query.action == BATCH {
        ApplyKeepsInv(s.cache, step);
        CacheMoves(s, Apply(s.cache, step));
      }
  }

  lemma {:induction false} RunKeepsShared(s: Sys, events: seq<Event>)
    requires SharedInv(s)
    ensures SharedInv(Run(s, events))
    decreases |events|
  {
    if events != [] {
      MoveKeepsShared(s, events[0]);
      RunKeepsShared(Move(s, events[0]), events[1..]);
    }
  }

  lemma {:induction false} SettingsKept(s: Sys, events: seq<Event>)
    ensures Run(s, events).cache.allowTtl == s.cache.allowTtl && Run(s, events).cache.denyTtl == s.cache.denyTtl
    decreases |events|
  {
    if events != [] { SettingsKept(Move(s, events[0]), events[1..]); }
  }

  /** Over every run, however callers share flights: nobody waits without a flight, and
      a decision that a caller is given was given by the service for that very query,
      with its ttl not over when it was looked up or asked for. So it was not over when
      the caller read the clock either - unless the caller joined a flight that had
      looked before that. */
  lemma SharedDecisionsAreFresh(max: nat, allowTtl: nat, denyTtl: nat, events: seq<Event>, i: nat)
    requires i < |Run(Idle(max, allowTtl, denyTtl), events).callers|
    ensures
      var s := Run(Idle(max, allowTtl, denyTtl), events);
      var c := s.callers[i];
      && (c.progress.Waiting? ==> c.query in s.flights)
      && (c.progress.Done? && c.progress.result.Some? ==>
            && FreshSince(s.cache, c.query, c.progress.result.value, c.progress.looked)
            && (c.seen <= c.progress.looked ==> FreshSince(s.cache, c.query, c.progress.result.value, c.seen))
            && exists g | 0 <= g < |s.cache.given| ::
                 && s.cache.given[g].query == c.query && s.cache.given[g].decision == c.progress.result.value
                 && (c.progress.looked <= s.cache.given[g].at ||
                     c.progress.looked < s.cache.given[g].at +
                                         if c.progress.result.value.allowed then allowTtl else denyTtl))
  {
    SettingsKept(Idle(max, allowTtl, denyTtl), events);
    RunKeepsShared(Idle(max, allowTtl, denyTtl), events);
    var s := Run(Idle(max, allowTtl, denyTtl), events);
    assert CallerOk(s, s.callers[i]);
  }

  /** The callers of `s` after `q`'s flight has ended with this result. */
  ghost predicate AllGiven(s: Sys, v: Sys, q: Query, result: Option<Decision>, looked: nat) {
    && v.flights == s.flights - {q} && |v.callers| == |s.callers|
    && forall i | 0 <= i < |s.callers| ::
         v.callers[i] == if s.callers[i].query == q && s.callers[i].progress == Waiting
                         then s.callers[i].(progress := Done(result, looked)) else s.callers[i]
  }

  /** What the callers of a flight are given. A decision that is in the cache and has not
      run out when the flight looks again ends it: everybody waiting for that query, and
      nobody else, gets it, and the service is not asked. Otherwise everybody waiting when
      the flight ends gets what the service has answered, or nothing if it failed. */
  lemma FlightGives(s: Sys, q: Query, reply: Option<Decision>)
    requires q in s.flights && q.action != "batch_greeting"
    ensures s.flights[q].stage == Opened && q in s.cache.entries && s.cache.now < s.cache.entries[q].expires ==>
              var v := Move(Move(Move(s, Look(q)), Reply(q, reply)), End(q));
              AllGiven(s, v, q, Some(s.cache.entries[q].decision), s.cache.now) && v.cache == s.cache
    ensures s.flights[q].stage == Opened && !(q in s.cache.entries && s.cache.now < s.cache.entries[q].expires) ==>
              var v := Move(Move(Move(s, Look(q)), Reply(q, reply)), End(q));
              && AllGiven(s, v, q, reply, s.cache.now)
              && v.cache == if reply.Some? then Answered(s.cache, q, reply.value) else s.cache
  {
    var a := Move(s, Look(q));
    var b := Move(a, Reply(q, reply));
    assert b.flights - {q} == s.flights - {q} && b.callers == s.callers;
  }

  /** Who looks, who waits: a caller whose first look finds a decision that has not run out
      is given it at once; else it joins the flight for its query, opening one only if
      there is none. */
  lemma CallersJoin(s: Sys, q: Query, seen: nat)
    requires q.action != "batch_greeting" && seen <= s.cache.now
    ensures
      var n := |s.callers|;
      var v := Move(Move(s, Enter(q, seen)), Join(n));
      && v.cache == s.cache && |v.callers| == n + 1 && v.callers[..n] == s.callers
      && v.callers[n].query == q && v.callers[n].seen == seen
      && (if q in s.cache.entries && seen < s.cache.entries[q].expires
          then
            v.callers[n].progress == Done(Some(s.cache.entries[q].decision), seen) && v.flights == s.flights
          else
            && v.callers[n].progress == Waiting
            && v.flights == if q in s.flights then s.flights else s.flights[q := Flight(0, Opened)])
  {
    var n := |s.callers|;
    var a := Move(s, Enter(q, seen));
    assert a.callers[..n] == s.callers && a.callers[n].query == q;
    assert Move(a, Join(n)).callers[..n] == s.callers;
  }

  /** The exception occurs whenever it can: while a flight that has found a decision is
      still open and that decision's entry has run out, a caller that comes now is
      given it all the same. */
  lemma LateJoinerGetsIt(s: Sys, q: Query)
    requires q in s.flights && s.flights[q].stage.Ready? && s.flights[q].stage.result.Some?
    requires q.action != BATCH && q in s.cache.entries && s.cache.entries[q].expires <= s.cache.now
    ensures
      var n := |s.callers|;
      var v := Move(Move(Move(s, Enter(q, s.cache.now)), Join(n)), End(q));
      && |v.callers| == n + 1 && v.cache == s.cache
      && v.callers[n] == Caller(q, s.cache.now, Done(s.flights[q].stage.result, s.flights[q].looked))
  {
    var n := |s.callers|;
    var a := Move(s, Enter(q, s.cache.now));
    assert a.callers[n] == Caller(q, s.cache.now, Missed);
    var b := Move(a, Join(n));
    assert b.callers[n] == Caller(q, s.cache.now, Waiting) && b.flights == s.flights;
  }
}
