/** How often a request can run at all, with no assumption about time: at most once
    for each frame that carried it. */
module LaneAttempts {
  import opened Wrappers
  import D = Dedupe
  import C = LaneClient
  import opened LaneSystem
  import opened LaneGuarantees
  import opened LaneTheorems

  /** The stream carries request `i`, or carries it and the server has read it. */
  ghost predicate Carries(st: Stream, i: nat, read: bool) {
    exists k :: 0 <= k < |st.frames| && st.frames[k].request == i && (read ==> k < st.taken)
  }

  ghost function Carriers(streams: seq<Stream>, i: nat, read: bool): nat {
    if streams == [] then 0
    else Carriers(streams[..|streams| - 1], i, read) + if Carries(streams[|streams| - 1], i, read) then 1 else 0
  }

  function Executions(runs: seq<D.Run>, key: D.Key): nat {
    if runs == [] then 0
    else Executions(runs[..|runs| - 1], key) + if runs[|runs| - 1].key == key then 1 else 0
  }

  lemma {:induction false} CarriersUpdate(streams: seq<Stream>, s: nat, st: Stream, i: nat, read: bool)
    requires s < |streams|
    ensures
      Carriers(streams[s := st], i, read)
      == Carriers(streams, i, read) - (if Carries(streams[s], i, read) then 1 else 0)
         + (if Carries(st, i, read) then 1 else 0)
  {
    var n := |streams| - 1;
    if s == n {
      assert streams[s := st][..n] == streams[..n];
    } else {
      assert streams[s := st][..n] == streams[..n][s := st];
      CarriersUpdate(streams[..n], s, st, i, read);
    }
  }

  lemma {:induction false} ReadIsCarried(streams: seq<Stream>, i: nat)
    ensures Carriers(streams, i, true) <= Carriers(streams, i, false)
  {
    if streams != [] { ReadIsCarried(streams[..|streams| - 1], i); }
  }

  lemma {:induction false} NotCarried(streams: seq<Stream>, i: nat)
    requires forall s, k | 0 <= s < |streams| && 0 <= k < |streams[s].frames| :: streams[s].frames[k].request != i
    ensures Carriers(streams, i, false) == 0
  {
    if streams != [] { NotCarried(streams[..|streams| - 1], i); }
  }

  lemma {:induction false} SameKeysSameExecutions(a: seq<D.Run>, b: seq<D.Run>, key: D.Key)
    requires |a| == |b| && forall r | 0 <= r < |a| :: a[r].key == b[r].key
    ensures Executions(a, key) == Executions(b, key)
  {
    if a != [] { SameKeysSameExecutions(a[..|a| - 1], b[..|b| - 1], key); }
  }

  ghost predicate CountInv(sys: Sys) {
    && (forall i | 0 <= i < |sys.client.reqs| :: sys.client.reqs[i].attempts == Carriers(sys.streams, i, false))
    && (forall i | 0 <= i < |sys.client.reqs| ::
          Executions(sys.table.runs, OurKey(sys, i)) <= Carriers(sys.streams, i, true))
  }

  /** Only sending counts as an attempt. */
  lemma AttemptStep(c: C.Client, a: C.Act, i: nat)
    requires C.OrderInv(c) && i < |c.reqs|
    ensures
      var d := C.Apply(c, a);
      && i < |d.reqs|
      && d.reqs[i].attempts
         == c.reqs[i].attempts + (if a.Send? && C.Enabled(c, a) && c.ready[0] == i then 1 else 0)
  {
    C.LiveInRange(c);
    if C.Enabled(c, a) {
      match a
      case Break(cause, expired) => C.RetryByFate(c, C.Live(c), cause, expired, i);
      case Close => C.CloseByRequest(c, c.ready, i);
      case _ =>
    }
  }

  ghost predicate SameLoad(a: Stream, b: Stream) { a.frames == b.frames && a.taken == b.taken }

  lemma {:induction false} SameCarriers(a: seq<Stream>, b: seq<Stream>, i: nat, read: bool)
    requires |a| == |b| && forall s | 0 <= s < |a| :: SameLoad(a[s], b[s])
    ensures Carriers(a, i, read) == Carriers(b, i, read)
  {
    if a != [] {
      var n := |a| - 1;
      assert SameLoad(a[n], b[n]);
      SameCarriers(a[..n], b[..n], i, read);
    }
  }

  lemma WriteOneMore(st: Stream, next: Stream, f: Frame, i: nat)
    requires next.frames == st.frames + [f] && next.taken == st.taken <= |st.frames|
    requires forall k | 0 <= k < |st.frames| :: st.frames[k].request < f.request
    ensures Carries(next, i, false) <==> Carries(st, i, false) || f.request == i
    ensures f.request == i ==> !Carries(st, i, false)
    ensures Carries(next, i, true) == Carries(st, i, true)
  {
    assert next.frames[|st.frames|] == f;
    assert forall k | 0 <= k < |st.frames| :: next.frames[k] == st.frames[k];
  }

  lemma SendCarriers(sys: Sys, i: nat)
    requires OrderInv(sys) && CanSend(sys)
    ensures
      var v := Apply(sys, Send);
      && Carriers(v.streams, i, false) == Carriers(sys.streams, i, false) + (if sys.client.ready[0] == i then 1 else 0)
      && Carriers(v.streams, i, true) == Carriers(sys.streams, i, true)
  {
    var last := |sys.streams| - 1;
    var st := sys.streams[last];
    var longer := st.(frames := st.frames + [NextFrame(sys)]);
    assert StreamOk(sys.origin, st) && Mirrors(sys.client, st);
    WriteOneMore(st, longer, NextFrame(sys), i);
    CarriersUpdate(sys.streams, last, longer, i, false);
    CarriersUpdate(sys.streams, last, longer, i, true);
  }

  lemma ReadOneMore(st: Stream, next: Stream, i: nat)
    requires st.taken < |st.frames| && next.frames == st.frames && next.taken == st.taken + 1
    requires forall j, k | 0 <= j < k < |st.frames| :: st.frames[j].request < st.frames[k].request
    ensures Carries(next, i, false) == Carries(st, i, false)
    ensures Carries(next, i, true) <==> Carries(st, i, true) || st.frames[st.taken].request == i
    ensures st.frames[st.taken].request == i ==> !Carries(st, i, true)
  {
    assert next.frames[st.taken] == st.frames[st.taken];
  }

  lemma ArriveCarriers(sys: Sys, step: Step, i: nat)
    requires OrderInv(sys) && step.Arrive? && CanArrive(sys, step.s) && step.seen <= sys.table.now
    ensures
      var v := Apply(sys, step);
      && Carriers(v.streams, i, false) == Carriers(sys.streams, i, false)
      && Carriers(v.streams, i, true)
         == Carriers(sys.streams, i, true) + (if Arriving(sys, step.s).request == i then 1 else 0)
  {
    var v := Apply(sys, step);
    var st := sys.streams[step.s];
    assert StreamOk(sys.origin, st) && v.streams == sys.streams[step.s := v.streams[step.s]];
    ReadOneMore(st, v.streams[step.s], i);
    CarriersUpdate(sys.streams, step.s, v.streams[step.s], i, false);
    CarriersUpdate(sys.streams, step.s, v.streams[step.s], i, true);
  }

  lemma OtherCarriers(sys: Sys, step: Step, i: nat, read: bool)
    requires C.OrderInv(sys.client)
    requires !(step.Send? && CanSend(sys)) && !(step.Arrive? && CanArrive(sys, step.s) && step.seen <= sys.table.now)
    ensures Carriers(Apply(sys, step).streams, i, read) == Carriers(sys.streams, i, read)
  {
    var v := Apply(sys, step);
    FramesStep(sys, step);
    assert forall s | 0 <= s < |sys.streams| :: SameLoad(sys.streams[s], v.streams[s]);
    SameCarriers(sys.streams, v.streams[..|sys.streams|], i, read);
    assert v.streams[..|v.streams|] == v.streams;
  }

  /** One step adds at most one execution of a request, and only by reading a frame. */
  lemma ExecutionStep(sys: Sys, step: Step, i: nat)
    requires C.OrderInv(sys.client)
    ensures
      var v := Apply(sys, step);
      Executions(v.table.runs, OurKey(sys, i))
      <= Executions(sys.table.runs, OurKey(sys, i))
         + (if step.Arrive? && CanArrive(sys, step.s) && step.seen <= sys.table.now &&
               Arriving(sys, step.s).request == i
            then 1 else 0)
  {
    var v := Apply(sys, step);
    var n := |sys.table.runs|;
    RunsStep(sys, step);
    ApplyExtends(sys, step);
    SameKeysSameExecutions(sys.table.runs, v.table.runs[..n], OurKey(sys, i));
    assert v.table.runs[..|v.table.runs|] == v.table.runs;
  }

  lemma CountKept(sys: Sys, step: Step, i: nat)
    requires Inv(sys) && CountInv(sys) && i < |Apply(sys, step).client.reqs|
    ensures
      var v := Apply(sys, step);
      && v.client.reqs[i].attempts == Carriers(v.streams, i, false)
      && Executions(v.table.runs, OurKey(v, i)) <= Carriers(v.streams, i, true)
  {
    ClientStep(sys, step);
    ExecutionStep(sys, step, i);
    if step.Send? && CanSend(sys) {
      SendCarriers(sys, i);
    } else if step.Arrive? && CanArrive(sys, step.s) && step.seen <= sys.table.now {
      ArriveCarriers(sys, step, i);
    } else {
      OtherCarriers(sys, step, i, false);
      OtherCarriers(sys, step, i, true);
    }
    if i < |sys.client.reqs| {
      if Acting(sys, step).Some? { AttemptStep(sys.client, Acting(sys, step).value, i); }
    } else {
      NewRequest(sys, step, i);
    }
  }

  lemma {:induction false} NoExecutions(runs: seq<D.Run>, key: D.Key)
    requires forall r | 0 <= r < |runs| :: runs[r].key != key
    ensures Executions(runs, key) == 0
  {
    if runs != [] { NoExecutions(runs[..|runs| - 1], key); }
  }

  /** A request just dequeued has not been attempted, carried or executed. */
  lemma NewRequest(sys: Sys, step: Step, i: nat)
    requires Inv(sys) && |sys.client.reqs| <= i < |Apply(sys, step).client.reqs|
    ensures Apply(sys, step).client.reqs[i].attempts == 0 && step.Local?
    ensures Carriers(sys.streams, i, false) == 0 && Carriers(sys.streams, i, true) == 0
    ensures Executions(sys.table.runs, OurKey(sys, i)) == 0
  {
    ClientStep(sys, step);
    NewRequests(sys.client, Acting(sys, step).value);
    NotCarried(sys.streams, i);
    ReadIsCarried(sys.streams, i);
    NoExecutions(sys.table.runs, OurKey(sys, i));
  }

  lemma {:induction false} CountAlong(sys: Sys, steps: seq<Step>)
    requires Inv(sys) && CountInv(sys)
    ensures Inv(Exec(sys, steps)) && CountInv(Exec(sys, steps))
    decreases |steps|
  {
    if steps != [] {
      var v := Apply(sys, steps[0]);
      ApplyKeepsOrder(sys, steps[0]);
      ApplyKeepsInv(sys, steps[0]);
      forall i | 0 <= i < |v.client.reqs|
        ensures v.client.reqs[i].attempts == Carriers(v.streams, i, false)
        ensures Executions(v.table.runs, OurKey(v, i)) <= Carriers(v.streams, i, true)
      {
        CountKept(sys, steps[0], i);
      }
      CountAlong(v, steps[1..]);
    }
  }

  /** However late copies arrive, a request is executed at most once for each time
      it was put on a stream: an ephemeral request at most once, a reliable one at
      most maxRetries + 1 times. */
  lemma ExecutedAtMostPerAttempt(sys: Sys, i: nat)
    requires Reachable(sys) && i < |sys.client.reqs|
    ensures
      && Executions(sys.table.runs, OurKey(sys, i)) <= sys.client.reqs[i].attempts
      && sys.client.reqs[i].attempts <= (if sys.client.reqs[i].reliable then sys.client.maxRetries + 1 else 1)
  {
    ReachableInv(sys);
    var start, steps :| ValidStart(start) && OrderInv(start) && Exec(start, steps) == sys;
    StartInv(start);
    CountAlong(start, steps);
    ReadIsCarried(sys.streams, i);
    assert C.RequestOk(sys.client.reqs[i], C.StatusOf(sys.client, i), sys.client.maxRetries);
  }
}
