/** Why copies of a request arrive in time. A request's context ends `timeout` after
    the request was made, the lane writes no frame for a request whose context has
    ended, and the configuration keeps the ttl of the Request-ID window at least as
    long as that timeout (cluster_transport_config.go). */
module LaneTiming {
  import opened Wrappers
  import D = Dedupe
  import C = LaneClient
  import opened LaneSystem
  import opened LaneGuarantees
  import opened LaneTheorems

  /** When each request was taken off its queue, and when each frame of each stream
      was written. */
  datatype Times = Times(taken: seq<nat>, written: seq<seq<nat>>)

  ghost function Record(sys: Sys, t: Times, step: Step): Times
    requires |t.written| == |sys.streams|
  {
    match step
    case Local(act) =>
      if act.Dequeue? && C.Enabled(sys.client, act) then t.(taken := t.taken + [sys.table.now]) else t
    case Open => if C.Enabled(sys.client, C.Open) then t.(written := t.written + [[]]) else t
    case Send =>
      if CanSend(sys)
      then
        var last := |sys.streams| - 1;
        t.(written := t.written[last := t.written[last] + [sys.table.now]])
      else t
    case _ => t
  }

  ghost predicate Shapes(sys: Sys, t: Times) {
    && |t.taken| == |sys.client.reqs| && |t.written| == |sys.streams|
    && (forall s | 0 <= s < |sys.streams| :: |t.written[s]| == |sys.streams[s].frames|)
  }

  /** The step writes a frame only before its request's context ends, and a frame is
      read at most `delay` after it was written. */
  ghost predicate Punctual(sys: Sys, t: Times, step: Step, timeout: nat, delay: nat)
    requires OrderInv(sys) && Shapes(sys, t)
  {
    && (step.Send? && CanSend(sys) ==> sys.table.now < t.taken[sys.client.ready[0]] + timeout)
    && (step.Arrive? && CanArrive(sys, step.s) ==>
          sys.table.now <= t.written[step.s][sys.streams[step.s].taken] + delay)
  }

  // ---------- what the times have to do with each other ----------

  ghost predicate FramesTimely(sys: Sys, t: Times, timeout: nat)
    requires Shapes(sys, t)
  {
    forall s, k | 0 <= s < |sys.streams| && 0 <= k < |sys.streams[s].frames| ::
      && sys.streams[s].frames[k].request < |t.taken|
      && t.written[s][k] < t.taken[sys.streams[s].frames[k].request] + timeout
  }

  /** An execution starts after its request was taken off its queue, and ends after
      it starts. */
  ghost predicate RunsTimely(w: D.Window, origin: D.Origin, taken: seq<nat>) {
    && (forall i | 0 <= i < |taken| :: taken[i] <= w.now)
    && (forall r | 0 <= r < |w.runs| ::
          && (w.runs[r].key.origin == origin ==>
                w.runs[r].key.request < |taken| && taken[w.runs[r].key.request] <= w.runs[r].start)
          && (w.runs[r].done.Some? ==> w.runs[r].start <= w.runs[r].done.value.at))
  }

  ghost predicate TimesInv(sys: Sys, t: Times, timeout: nat) {
    Shapes(sys, t) && FramesTimely(sys, t, timeout) && RunsTimely(sys.table, sys.origin, t.taken)
  }

  lemma CountsStand(c: C.Client, a: C.Act)
    requires C.OrderInv(c)
    ensures |C.Apply(c, a).reqs| == |c.reqs| + if a.Dequeue? && C.Enabled(c, a) then 1 else 0
  {
    C.LiveInRange(c);
  }

  lemma ShapesKept(sys: Sys, t: Times, step: Step)
    requires C.OrderInv(sys.client) && Shapes(sys, t)
    ensures Shapes(Apply(sys, step), Record(sys, t, step))
    ensures t.taken <= Record(sys, t, step).taken
  {
    ClientStep(sys, step);
    if Acting(sys, step).Some? { CountsStand(sys.client, Acting(sys, step).value); }
    FramesStep(sys, step);
  }

  lemma FramesKept(sys: Sys, t: Times, step: Step, timeout: nat, delay: nat)
    requires OrderInv(sys) && Shapes(sys, t) && FramesTimely(sys, t, timeout)
    requires Punctual(sys, t, step, timeout, delay)
    ensures Shapes(Apply(sys, step), Record(sys, t, step))
    ensures FramesTimely(Apply(sys, step), Record(sys, t, step), timeout)
  {
    ShapesKept(sys, t, step);
    FramesStep(sys, step);
    var v := Apply(sys, step);
    var u := Record(sys, t, step);
    forall s, k | 0 <= s < |v.streams| && 0 <= k < |v.streams[s].frames|
      ensures
        && v.streams[s].frames[k].request < |u.taken|
        && u.written[s][k] < u.taken[v.streams[s].frames[k].request] + timeout
    {
      if s < |sys.streams| && k < |sys.streams[s].frames| {
        assert v.streams[s].frames[k] == sys.streams[s].frames[k] && u.written[s][k] == t.written[s][k];
      }
    }
  }

  lemma WindowTimely(w: D.Window, d: D.Step, origin: D.Origin, taken: seq<nat>)
    requires D.TimeInv(w) && RunsTimely(w, origin, taken)
    requires d.Call? && d.key.origin == origin ==> d.key.request < |taken|
    ensures RunsTimely(D.Apply(w, d), origin, taken)
  {
  }

  lemma RunsKept(sys: Sys, t: Times, step: Step)
    requires Inv(sys) && Shapes(sys, t) && RunsTimely(sys.table, sys.origin, t.taken)
    ensures RunsTimely(Apply(sys, step).table, sys.origin, Record(sys, t, step).taken)
  {
    TableStep(sys, step);
    if Inside(sys, step).Some? {
      WindowTimely(sys.table, Inside(sys, step).value, sys.origin, t.taken);
    }
  }

  lemma TimesKept(sys: Sys, t: Times, step: Step, timeout: nat, delay: nat)
    requires Inv(sys) && TimesInv(sys, t, timeout) && Punctual(sys, t, step, timeout, delay)
    ensures TimesInv(Apply(sys, step), Record(sys, t, step), timeout)
  {
    ClientStep(sys, step);
    FramesKept(sys, t, step, timeout, delay);
    RunsKept(sys, t, step);
  }

  lemma PunctualIsInTime(sys: Sys, t: Times, step: Step, timeout: nat, delay: nat)
    requires OrderInv(sys) && TimesInv(sys, t, timeout) && Punctual(sys, t, step, timeout, delay)
    requires timeout + delay <= sys.table.ttl
    ensures InTime(sys, step)
  {
    if step.Arrive? && CanArrive(sys, step.s) {
      assert StreamOk(sys.origin, sys.streams[step.s]);
    }
  }

  // ---------- over every run ----------

  ghost predicate AllPunctual(sys: Sys, t: Times, steps: seq<Step>, timeout: nat, delay: nat)
    requires OrderInv(sys) && Shapes(sys, t)
    decreases |steps|
  {
    steps == [] ||
    (ApplyKeepsOrder(sys, steps[0]);
     ShapesKept(sys, t, steps[0]);
     && Punctual(sys, t, steps[0], timeout, delay)
     && AllPunctual(Apply(sys, steps[0]), Record(sys, t, steps[0]), steps[1..], timeout, delay))
  }

  lemma {:induction false} PunctualAlong(sys: Sys, t: Times, steps: seq<Step>, timeout: nat, delay: nat)
    requires Inv(sys) && TimesInv(sys, t, timeout) && timeout + delay <= sys.table.ttl
    requires AllPunctual(sys, t, steps, timeout, delay)
    ensures AllInTime(sys, steps)
    decreases |steps|
  {
    if steps != [] {
      ApplyKeepsOrder(sys, steps[0]);
      ApplyKeepsInv(sys, steps[0]);
      ApplyExtends(sys, steps[0]);
      PunctualIsInTime(sys, t, steps[0], timeout, delay);
      TimesKept(sys, t, steps[0], timeout, delay);
      PunctualAlong(Apply(sys, steps[0]), Record(sys, t, steps[0]), steps[1..], timeout, delay);
    }
  }

  /** Whatever else happens, a run in which no frame outlives its writing by more
      than ttl - timeout is a run in which every copy arrives in time; so no request
      is dispatched twice (LaneTheorems.EffectivelyOnce). The configuration's
      ttl >= timeout is what this takes of a network without delay. */
  lemma PunctualRunsAreInTime(start: Sys, steps: seq<Step>, timeout: nat, delay: nat)
    requires ValidStart(start) && OrderInv(start) && timeout + delay <= start.table.ttl
    requires AllPunctual(start, Times([], []), steps, timeout, delay)
    ensures AllInTime(start, steps)
    ensures OnceEach(Exec(start, steps).table, start.origin)
  {
    StartInv(start);
    PunctualAlong(start, Times([], []), steps, timeout, delay);
    OnceAlong(start, steps);
    OriginStands(start, steps);
  }

  lemma {:induction false} OriginStands(sys: Sys, steps: seq<Step>)
    requires OrderInv(sys)
    ensures Exec(sys, steps).origin == sys.origin
    decreases |steps|
  {
    if steps != [] {
      ApplyKeepsOrder(sys, steps[0]);
      ClientStep(sys, steps[0]);
      OriginStands(Apply(sys, steps[0]), steps[1..]);
    }
  }
}
