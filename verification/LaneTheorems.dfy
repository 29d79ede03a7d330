/** The promises of a Lane: sequences agree, nothing is refused by mistake,
    requests run at most once, and in order. */
module LaneTheorems {
  import opened Wrappers
  import D = Dedupe
  import C = LaneClient
  import opened LaneSystem
  import opened LaneGuarantees

  ghost predicate Reachable(sys: Sys) {
    exists start, steps :: ValidStart(start) && OrderInv(start) && Exec(start, steps) == sys
  }

  lemma ReachableInv(sys: Sys)
    requires Reachable(sys)
    ensures Inv(sys)
  {
    var start, steps :| ValidStart(start) && OrderInv(start) && Exec(start, steps) == sys;
    StartInv(start);
    ExecKeepsInv(start, steps);
  }

  /** Client and server agree on every stream: the server never refuses a frame for
      its sequence number or for the lane it is bound to, never takes a retry for
      a different request, and every reply the client reads answers the oldest
      frame on the wire - a reply with an unknown request_id cannot arrive. */
  lemma SequencesAgree(sys: Sys, s: nat)
    requires Reachable(sys)
    ensures CanArrive(sys, s) ==>
              var f := sys.streams[s].frames[sys.streams[s].taken];
              && f.sequence == sys.streams[s].expected == sys.streams[s].taken + 1
              && (forall accepted :: Validates(sys.streams[s], f, accepted) <==> accepted)
              && (forall seen: nat | seen <= sys.table.now :: !D.Judge(sys.table, KeyOf(f), f.body, seen).Collision?)
    ensures CanDeliver(sys) ==>
              var st := sys.streams[|sys.streams| - 1];
              && sys.client.pending != []
              && st.replies[st.got].request == sys.client.pending[0].request
              && st.replies[st.got].sequence == sys.client.pending[0].sequence
  {
    ReachableInv(sys);
    if CanArrive(sys, s) {
      var st := sys.streams[s];
      var f := st.frames[st.taken];
      assert StreamOk(sys.origin, st);
      forall seen: nat | seen <= sys.table.now
        ensures !D.Judge(sys.table, KeyOf(f), f.body, seen).Collision?
      {
        D.VerdictFromLog(sys.table, KeyOf(f), f.body, seen);
      }
    }
    if CanDeliver(sys) { HeadMatches(sys); }
  }

  /** Every stream carries its requests in the order they were dequeued, numbered
      1, 2, 3, ... without gaps, and what still waits is younger than anything the
      open stream has carried. */
  lemma StreamsAreInOrder(sys: Sys, s: nat)
    requires Reachable(sys) && s < |sys.streams|
    ensures
      var st := sys.streams[s];
      && (forall k | 0 <= k < |st.frames| :: st.frames[k].sequence == k + 1)
      && (forall j, k | 0 <= j < k < |st.frames| :: st.frames[j].request < st.frames[k].request)
      && (sys.client.streaming && s == |sys.streams| - 1 ==>
            forall j, k | 0 <= j < |st.frames| && 0 <= k < |sys.client.ready| ::
              st.frames[j].request < sys.client.ready[k])
  {
    ReachableInv(sys);
    assert StreamOk(sys.origin, sys.streams[s]);
  }

  // ---------- effectively once ----------

  ghost function Arriving(sys: Sys, s: nat): D.Key
    requires CanArrive(sys, s)
  {
    KeyOf(sys.streams[s].frames[sys.streams[s].taken])
  }

  /** A frame arrives before the ttl of a finished execution of its request is over. */
  ghost predicate InTime(sys: Sys, step: Step) {
    step.Arrive? && CanArrive(sys, step.s) ==>
      forall r | 0 <= r < |sys.table.runs| && sys.table.runs[r].key == Arriving(sys, step.s) ::
        !D.Expired(sys.table, r, sys.table.now)
  }

  ghost predicate AllInTime(sys: Sys, steps: seq<Step>)
    requires OrderInv(sys)
    decreases |steps|
  {
    steps == [] || (ApplyKeepsOrder(sys, steps[0]);
                    InTime(sys, steps[0]) && AllInTime(Apply(sys, steps[0]), steps[1..]))
  }

  ghost predicate OnceEach(w: D.Window, origin: D.Origin) {
    forall i, j | 0 <= i < j < |w.runs| && w.runs[i].key.origin == origin :: w.runs[i].key != w.runs[j].key
  }

  /** A step starts an execution of one of the lane's requests only by reading its
      frame when the window holds nothing for it. */
  ghost predicate Starts(sys: Sys, step: Step)
    requires C.OrderInv(sys.client)
  {
    && |Apply(sys, step).table.runs| > |sys.table.runs|
    && Apply(sys, step).table.runs[|sys.table.runs|].key.origin == sys.origin
  }

  lemma StartsFresh(sys: Sys, step: Step)
    requires C.OrderInv(sys.client) && D.Inv(sys.table) && Starts(sys, step)
    ensures step.Arrive? && CanArrive(sys, step.s)
    ensures Apply(sys, step).table.runs[|sys.table.runs|].key == Arriving(sys, step.s)
    ensures forall r: nat | D.Latest(sys.table, Arriving(sys, step.s), r) :: D.Expired(sys.table, r, sys.table.now)
  {
    RunsStep(sys, step);
    var f := sys.streams[step.s].frames[sys.streams[step.s].taken];
    if step.seen <= sys.table.now { D.VerdictFromLog(sys.table, KeyOf(f), f.body, step.seen); }
  }

  lemma OnceGrows(w: D.Window, v: D.Window, origin: D.Origin)
    requires OnceEach(w, origin) && Extends(w, v) && |v.runs| <= |w.runs| + 1
    requires |v.runs| > |w.runs| && v.runs[|w.runs|].key.origin == origin ==>
               forall i | 0 <= i < |w.runs| :: w.runs[i].key != v.runs[|w.runs|].key
    ensures OnceEach(v, origin)
  {
  }

  lemma StartsOnce(sys: Sys, step: Step)
    requires Inv(sys) && InTime(sys, step) && Starts(sys, step)
    ensures
      forall i | 0 <= i < |sys.table.runs| ::
        sys.table.runs[i].key != Apply(sys, step).table.runs[|sys.table.runs|].key
  {
    StartsFresh(sys, step);
    LatestOrNone(sys.table, Arriving(sys, step.s));
  }

  lemma OnceKept(sys: Sys, step: Step)
    requires Inv(sys) && OnceEach(sys.table, sys.origin) && InTime(sys, step)
    ensures OnceEach(Apply(sys, step).table, sys.origin) && Apply(sys, step).origin == sys.origin
  {
    ApplyExtends(sys, step);
    RunsStep(sys, step);
    ClientStep(sys, step);
    if Starts(sys, step) { StartsOnce(sys, step); }
    OnceGrows(sys.table, Apply(sys, step).table, sys.origin);
  }

  lemma LatestExists(w: D.Window, key: D.Key, i: nat)
    requires i < |w.runs| && w.runs[i].key == key
    ensures exists r: nat :: D.Latest(w, key, r)
    decreases |w.runs| - i
  {
    if j :| i < j < |w.runs| && w.runs[j].key == key {
      LatestExists(w, key, j);
    } else {
      assert D.Latest(w, key, i);
    }
  }

  lemma LatestOrNone(w: D.Window, key: D.Key)
    ensures (exists r: nat :: D.Latest(w, key, r)) || forall i | 0 <= i < |w.runs| :: w.runs[i].key != key
  {
    if i :| 0 <= i < |w.runs| && w.runs[i].key == key { LatestExists(w, key, i); }
  }

  lemma {:induction false} OnceAlong(sys: Sys, steps: seq<Step>)
    requires Inv(sys) && OnceEach(sys.table, sys.origin) && AllInTime(sys, steps)
    ensures
      var v := Exec(sys, steps);
      Inv(v) && OnceEach(v.table, v.origin)
    decreases |steps|
  {
    if steps != [] {
      ApplyKeepsOrder(sys, steps[0]);
      ApplyKeepsInv(sys, steps[0]);
      OnceKept(sys, steps[0]);
      OnceAlong(Apply(sys, steps[0]), steps[1..]);
    }
  }

  /** Effectively once: across any number of broken streams and retries, if every
      copy of a request arrives before the ttl of its first execution is over, no
      request is dispatched twice; and a reliable request that ends with success
      was dispatched, exactly once, with that very payload as the answer. */
  lemma EffectivelyOnce(start: Sys, steps: seq<Step>, i: nat)
    requires ValidStart(start) && OrderInv(start) && AllInTime(start, steps)
    ensures
      var sys := Exec(start, steps);
      && (forall a, b | 0 <= a < b < |sys.table.runs| && sys.table.runs[a].key == OurKey(sys, i) ::
            sys.table.runs[b].key != OurKey(sys, i))
      && (forall p | i < |sys.client.reqs| && sys.client.reqs[i].reliable &&
                     C.Success(p) in sys.client.reqs[i].results ::
            exists a ::
              && 0 <= a < |sys.table.runs| && sys.table.runs[a].key == OurKey(sys, i)
              && sys.table.runs[a].done.Some? && Succeeds(sys.table.runs[a].done.value.answer)
              && sys.table.runs[a].done.value.answer.payload == p
              && (forall b | 0 <= b < |sys.table.runs| && b != a :: sys.table.runs[b].key != OurKey(sys, i)))
  {
    StartInv(start);
    OnceAlong(start, steps);
    var sys := Exec(start, steps);
    forall p | i < |sys.client.reqs| && sys.client.reqs[i].reliable && C.Success(p) in sys.client.reqs[i].results
      ensures exists a ::
                && 0 <= a < |sys.table.runs| && sys.table.runs[a].key == OurKey(sys, i)
                && sys.table.runs[a].done.Some? && Succeeds(sys.table.runs[a].done.value.answer)
                && sys.table.runs[a].done.value.answer.payload == p
                && (forall b | 0 <= b < |sys.table.runs| && b != a :: sys.table.runs[b].key != OurKey(sys, i))
    {
      assert Backed(sys.table, OurKey(sys, i), C.Success(p).payload);
    }
  }

  lemma StartsIffFresh(sys: Sys, s: nat, hint: D.Key)
    requires OrderInv(sys) && CanArrive(sys, s)
    ensures
      var f := sys.streams[s].frames[sys.streams[s].taken];
      Starts(sys, Arrive(s, true, sys.table.now, hint)) <==>
        D.Judge(sys.table, KeyOf(f), f.body, sys.table.now).Fresh?
  {
    assert StreamOk(sys.origin, sys.streams[s]);
  }

  /** When exactly an accepted frame is dispatched: if and only if every earlier
      execution of its request is over for the ttl (the server having read its clock just
      now), and there is room: the request has an entry, the window is not full, or some
      entry in it is over for the ttl. */
  lemma DispatchedIff(sys: Sys, s: nat, hint: D.Key)
    requires Reachable(sys) && CanArrive(sys, s)
    ensures Inv(sys) && forall k | k in sys.table.entries :: sys.table.entries[k] < |sys.table.runs|
    ensures
      var w := sys.table;
      Starts(sys, Arrive(s, true, w.now, hint)) <==>
        && (forall r | 0 <= r < |w.runs| && w.runs[r].key == Arriving(sys, s) ::
              w.runs[r].done.Some? && w.runs[r].done.value.at + w.ttl <= w.now)
        && (Arriving(sys, s) in w.entries || |w.entries| < w.capacity ||
            exists k :: k in w.entries && w.runs[w.entries[k]].done.Some? &&
                        w.runs[w.entries[k]].done.value.at + w.ttl <= w.now)
  {
    ReachableInv(sys);
    SequencesAgree(sys, s);
    var w := sys.table;
    var f := sys.streams[s].frames[sys.streams[s].taken];
    StartsIffFresh(sys, s, hint);
    D.FreshIff(w, KeyOf(f), f.body);
  }
}
