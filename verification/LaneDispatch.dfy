/** In which order the requests of a Lane are dispatched for the first time. */
module LaneDispatch {
  import opened Wrappers
  import D = Dedupe
  import C = LaneClient
  import opened LaneSystem
  import opened LaneGuarantees
  import opened LaneTheorems

  /** Nothing is read from a closed stream, and the window has room. */
  ghost predicate Prompt(sys: Sys, step: Step) {
    step.Arrive? && CanArrive(sys, step.s) ==>
      && sys.client.streaming && step.s == |sys.streams| - 1
      && var f := sys.streams[step.s].frames[sys.streams[step.s].taken];
         !D.Judge(sys.table, KeyOf(f), f.body, step.seen).Full?
  }

  ghost predicate AllPrompt(sys: Sys, steps: seq<Step>)
    requires OrderInv(sys)
    decreases |steps|
  {
    steps == [] || (ApplyKeepsOrder(sys, steps[0]);
                    Prompt(sys, steps[0]) && AllPrompt(Apply(sys, steps[0]), steps[1..]))
  }

  ghost predicate HasRun(w: D.Window, key: D.Key) { exists r :: 0 <= r < |w.runs| && w.runs[r].key == key }

  ghost predicate Held(c: C.Client, i: nat) { C.OnWire(c, i) || i in c.ready }

  /** Whatever a loop that still reads has read, has been dispatched. */
  ghost predicate ReadRan(w: D.Window, st: Stream) {
    !st.handling.Stopped? ==> forall k | 0 <= k < st.taken <= |st.frames| :: HasRun(w, KeyOf(st.frames[k]))
  }

  ghost predicate ReadInv(sys: Sys) { forall s | 0 <= s < |sys.streams| :: ReadRan(sys.table, sys.streams[s]) }

  /** A request that was overtaken is no longer held. */
  ghost predicate NoOvertaking(sys: Sys) {
    forall i: nat, j: nat | i < j && HasRun(sys.table, OurKey(sys, j)) && Held(sys.client, i) ::
      HasRun(sys.table, OurKey(sys, i))
  }

  ghost predicate First(w: D.Window, b: int) {
    0 <= b < |w.runs| && forall a | 0 <= a < b :: w.runs[a].key != w.runs[b].key
  }

  ghost predicate FirstsInOrder(w: D.Window, origin: D.Origin) {
    forall a, b | a < b && First(w, a) && First(w, b) && w.runs[a].key.origin == origin == w.runs[b].key.origin ::
      w.runs[a].key.request < w.runs[b].key.request
  }

  lemma RunsRemain(w: D.Window, v: D.Window)
    requires Extends(w, v)
    ensures forall key | HasRun(w, key) :: HasRun(v, key)
  {
    forall key | HasRun(w, key) ensures HasRun(v, key) {
      var r :| 0 <= r < |w.runs| && w.runs[r].key == key;
      assert v.runs[r].key == key;
    }
  }

  /** A lane holds on only to what it held, and what it just dequeued. */
  lemma HeldStep(c: C.Client, a: C.Act, i: nat)
    requires C.OrderInv(c) && i < |c.reqs| && Held(C.Apply(c, a), i)
    ensures Held(c, i)
  {
    C.LiveInRange(c);
    if C.Enabled(c, a) {
      match a
      case Receive(request, result, valid, cause) =>
        var k := C.Position(c.pending, request);
        if k >= 0 { HeldAnswered(c, k, result, valid, cause, i); }
      case Send => HeldSent(c, i);
      case Break(cause, expired) =>
        C.RetryByFate(c, C.Live(c), cause, expired, i);
        C.LiveIff(c, i);
      case Close => C.CloseKeepsRest(c, c.ready);
      case _ =>
        assert C.OnWire(C.Apply(c, a), i) ==> C.OnWire(c, i);
    }
  }

  lemma HeldAnswered(c: C.Client, k: nat, result: C.Result, valid: bool, cause: C.Cause, i: nat)
    requires C.OrderInv(c) && k < |c.pending| && Held(C.Answered(c, k, result, valid, cause), i)
    ensures Held(c, i)
  {
    var d := C.Answered(c, k, result, valid, cause);
    if C.OnWire(d, i) {
      var j :| 0 <= j < |d.pending| && d.pending[j].request == i;
      assert c.pending[if j < k then j else j + 1].request == i;
    }
  }

  lemma HeldSent(c: C.Client, i: nat)
    requires C.OrderInv(c) && c.ready != [] && Held(C.SendNext(c), i)
    ensures Held(c, i)
  {
    var d := C.SendNext(c);
    if C.OnWire(d, i) {
      var j :| 0 <= j < |d.pending| && d.pending[j].request == i;
      if j < |c.pending| { assert c.pending[j].request == i; }
    }
  }

  /** A frame the server has not read belongs to a request on the wire, and every
      older request that is held was read before it on this stream. */
  lemma OlderWasRead(sys: Sys, i: nat)
    requires OrderInv(sys) && sys.client.streaming && CanArrive(sys, |sys.streams| - 1)
    requires i < Arriving(sys, |sys.streams| - 1).request && Held(sys.client, i)
    ensures
      var st := sys.streams[|sys.streams| - 1];
      exists k :: 0 <= k < st.taken && st.frames[k].request == i
  {
    var st := sys.streams[|sys.streams| - 1];
    assert StreamOk(sys.origin, st) && Mirrors(sys.client, st);
    var k :| 0 <= k < |sys.client.pending| && sys.client.pending[k].request == i;
    assert st.frames[st.got + k].request == i;
  }

  lemma ArrivingIsHeld(sys: Sys)
    requires OrderInv(sys) && sys.client.streaming && CanArrive(sys, |sys.streams| - 1)
    ensures Held(sys.client, Arriving(sys, |sys.streams| - 1).request)
  {
    var st := sys.streams[|sys.streams| - 1];
    assert StreamOk(sys.origin, st) && Mirrors(sys.client, st);
    assert sys.client.pending[st.taken - st.got].request == st.frames[st.taken].request;
  }

  lemma TakenStep(sys: Sys, step: Step, s: nat)
    requires C.OrderInv(sys.client) && s < |sys.streams|
    ensures
      var v := Apply(sys, step);
      && s < |v.streams|
      && (sys.streams[s].handling.Stopped? ==> v.streams[s].handling.Stopped?)
      && (v.streams[s].taken == sys.streams[s].taken
          || (step.Arrive? && step.s == s && CanArrive(sys, s) && step.seen <= sys.table.now
              && v.streams[s].taken == sys.streams[s].taken + 1))
  {
  }

  /** With room in the window, reading a frame leaves its request dispatched, or
      the loop stopped. */
  lemma ArrivalRuns(sys: Sys, step: Step)
    requires Reachable(sys) && Inv(sys) && step.Arrive? && CanArrive(sys, step.s) && step.seen <= sys.table.now
    requires Prompt(sys, step)
    ensures
      var v := Apply(sys, step);
      v.streams[step.s].handling.Stopped? || HasRun(v.table, Arriving(sys, step.s))
  {
    SequencesAgree(sys, step.s);
    ArrivalServes(sys, step);
  }

  lemma StillRead(w: D.Window, v: D.Window, st: Stream, next: Stream)
    requires ReadRan(w, st) && Extends(w, v) && st.frames <= next.frames && st.taken <= |st.frames|
    requires st.handling.Stopped? ==> next.handling.Stopped?
    requires next.taken == st.taken
             || (next.taken == st.taken + 1 <= |next.frames|
                 && (next.handling.Stopped? || HasRun(v, KeyOf(next.frames[st.taken]))))
    ensures ReadRan(v, next)
  {
    RunsRemain(w, v);
  }

  lemma ReadKeptAt(sys: Sys, step: Step, s: nat)
    requires Reachable(sys) && Inv(sys) && ReadInv(sys) && Prompt(sys, step) && s < |sys.streams|
    ensures s < |Apply(sys, step).streams| && ReadRan(Apply(sys, step).table, Apply(sys, step).streams[s])
  {
    var v := Apply(sys, step);
    ApplyExtends(sys, step);
    FramesStep(sys, step);
    TakenStep(sys, step, s);
    assert ReadRan(sys.table, sys.streams[s]) && StreamOk(sys.origin, sys.streams[s]);
    if v.streams[s].taken != sys.streams[s].taken { ArrivalRuns(sys, step); }
    StillRead(sys.table, v.table, sys.streams[s], v.streams[s]);
  }

  lemma ReadKept(sys: Sys, step: Step)
    requires Reachable(sys) && Inv(sys) && ReadInv(sys) && Prompt(sys, step)
    ensures ReadInv(Apply(sys, step))
  {
    FramesStep(sys, step);
    forall s | 0 <= s < |sys.streams|
      ensures s < |Apply(sys, step).streams| && ReadRan(Apply(sys, step).table, Apply(sys, step).streams[s])
    {
      ReadKeptAt(sys, step, s);
    }
  }

  /** The step starts an execution of request `j`, which had none. */
  lemma FirstStart(sys: Sys, step: Step, j: nat)
    requires Inv(sys) && !HasRun(sys.table, OurKey(sys, j)) && HasRun(Apply(sys, step).table, OurKey(sys, j))
    ensures Starts(sys, step) && step.Arrive? && CanArrive(sys, step.s) && Arriving(sys, step.s) == OurKey(sys, j)
  {
    var v := Apply(sys, step);
    ApplyExtends(sys, step);
    RunsStep(sys, step);
    var r :| 0 <= r < |v.table.runs| && v.table.runs[r].key == OurKey(sys, j);
    assert r == |sys.table.runs|;
    StartsFresh(sys, step);
  }

  lemma OldHeld(sys: Sys, step: Step, i: nat, j: nat)
    requires Inv(sys) && i < j
    requires Held(Apply(sys, step).client, i) && HasRun(Apply(sys, step).table, OurKey(sys, j))
    ensures Held(sys.client, i)
  {
    var v := Apply(sys, step);
    ClientStep(sys, step);
    ApplyKeepsOrder(sys, step);
    if Acting(sys, step).Some? {
      if i < |sys.client.reqs| {
        HeldStep(sys.client, Acting(sys, step).value, i);
      } else {
        NewRequests(sys.client, Acting(sys, step).value);
        assert false;
      }
    }
  }

  lemma OlderHasRun(sys: Sys, step: Step, i: nat)
    requires OrderInv(sys) && ReadInv(sys) && Prompt(sys, step) && step.Arrive? && CanArrive(sys, step.s)
    requires i < Arriving(sys, step.s).request && Held(sys.client, i)
    ensures HasRun(sys.table, OurKey(sys, i))
  {
    OlderWasRead(sys, i);
    var st := sys.streams[step.s];
    assert ReadRan(sys.table, st) && StreamOk(sys.origin, st);
    var k :| 0 <= k < st.taken && st.frames[k].request == i;
    assert KeyOf(st.frames[k]) == OurKey(sys, i);
  }

  lemma OvertakingKeptAt(sys: Sys, step: Step, i: nat, j: nat)
    requires Inv(sys) && ReadInv(sys) && NoOvertaking(sys) && Prompt(sys, step) && i < j
    requires HasRun(Apply(sys, step).table, OurKey(sys, j)) && Held(Apply(sys, step).client, i)
    ensures HasRun(sys.table, OurKey(sys, i))
  {
    OldHeld(sys, step, i, j);
    if !HasRun(sys.table, OurKey(sys, j)) {
      FirstStart(sys, step, j);
      OlderHasRun(sys, step, i);
    }
  }

  lemma OvertakingKept(sys: Sys, step: Step)
    requires Inv(sys) && ReadInv(sys) && NoOvertaking(sys) && Prompt(sys, step)
    ensures NoOvertaking(Apply(sys, step))
  {
    var v := Apply(sys, step);
    ClientStep(sys, step);
    ApplyExtends(sys, step);
    RunsRemain(sys.table, v.table);
    forall i: nat, j: nat | i < j && HasRun(v.table, OurKey(v, j)) && Held(v.client, i)
      ensures HasRun(v.table, OurKey(v, i))
    {
      OvertakingKeptAt(sys, step, i, j);
    }
  }

  lemma FirstBefore(w: D.Window, v: D.Window, a: nat)
    requires Extends(w, v) && a < |w.runs| && First(v, a)
    ensures First(w, a)
  {
    assert forall x | 0 <= x <= a :: v.runs[x].key == w.runs[x].key;
  }

  lemma FirstsGrow(w: D.Window, v: D.Window, origin: D.Origin)
    requires FirstsInOrder(w, origin) && Extends(w, v) && |v.runs| <= |w.runs| + 1
    requires |v.runs| > |w.runs| && v.runs[|w.runs|].key.origin == origin && First(v, |w.runs|) ==>
               forall a | 0 <= a < |w.runs| && w.runs[a].key.origin == origin ::
                 w.runs[a].key.request < v.runs[|w.runs|].key.request
    ensures FirstsInOrder(v, origin)
  {
    forall a: nat, b: nat | a < b && First(v, a) && First(v, b) &&
                            v.runs[a].key.origin == origin == v.runs[b].key.origin
      ensures v.runs[a].key.request < v.runs[b].key.request
    {
      FirstBefore(w, v, a);
      if b < |w.runs| { FirstBefore(w, v, b); }
    }
  }

  lemma FirstsKept(sys: Sys, step: Step)
    requires Inv(sys) && NoOvertaking(sys) && FirstsInOrder(sys.table, sys.origin) && Prompt(sys, step)
    ensures FirstsInOrder(Apply(sys, step).table, sys.origin) && Apply(sys, step).origin == sys.origin
  {
    ApplyExtends(sys, step);
    ClientStep(sys, step);
    RunsStep(sys, step);
    if Starts(sys, step) && First(Apply(sys, step).table, |sys.table.runs|) {
      forall a | 0 <= a < |sys.table.runs| && sys.table.runs[a].key.origin == sys.origin
        ensures sys.table.runs[a].key.request < Apply(sys, step).table.runs[|sys.table.runs|].key.request
      {
        NewestFirst(sys, step, a);
      }
    }
    FirstsGrow(sys.table, Apply(sys, step).table, sys.origin);
  }

  lemma NewestFirst(sys: Sys, step: Step, a: nat)
    requires Inv(sys) && NoOvertaking(sys) && Prompt(sys, step) && Starts(sys, step) && a < |sys.table.runs|
    requires First(Apply(sys, step).table, |sys.table.runs|) && sys.table.runs[a].key.origin == sys.origin
    ensures sys.table.runs[a].key.request < Apply(sys, step).table.runs[|sys.table.runs|].key.request
  {
    var v := Apply(sys, step);
    ApplyExtends(sys, step);
    StartsFresh(sys, step);
    ArrivingIsHeld(sys);
    var j := Arriving(sys, step.s).request;
    var i := sys.table.runs[a].key.request;
    assert HasRun(sys.table, OurKey(sys, i));
    assert !HasRun(sys.table, OurKey(sys, j)) by {
      assert forall x | 0 <= x < |sys.table.runs| :: v.table.runs[x].key == sys.table.runs[x].key;
    }
  }

  lemma ReachableStep(sys: Sys, step: Step)
    requires Reachable(sys)
    ensures OrderInv(sys) && Reachable(Apply(sys, step))
  {
    var start, steps :| ValidStart(start) && OrderInv(start) && Exec(start, steps) == sys;
    ExecAppend(start, steps, step);
    assert Exec(start, steps + [step]) == Apply(sys, step);
  }

  lemma {:induction false} ExecAppend(sys: Sys, steps: seq<Step>, step: Step)
    requires OrderInv(sys)
    ensures OrderInv(Exec(sys, steps)) && Exec(sys, steps + [step]) == Apply(Exec(sys, steps), step)
    decreases |steps|
  {
    if steps == [] {
      assert ([step])[1..] == [];
      ApplyKeepsOrder(sys, step);
      assert Exec(Apply(sys, step), []) == Apply(sys, step);
    } else {
      assert (steps + [step])[1..] == steps[1..] + [step];
      ApplyKeepsOrder(sys, steps[0]);
      ExecAppend(Apply(sys, steps[0]), steps[1..], step);
    }
  }

  lemma {:induction false} OrderAlong(sys: Sys, steps: seq<Step>)
    requires Reachable(sys) && ReadInv(sys) && NoOvertaking(sys) && FirstsInOrder(sys.table, sys.origin)
    requires OrderInv(sys) && AllPrompt(sys, steps)
    ensures FirstsInOrder(Exec(sys, steps).table, sys.origin) && Exec(sys, steps).origin == sys.origin
    decreases |steps|
  {
    if steps != [] {
      ReachableInv(sys);
      ApplyKeepsOrder(sys, steps[0]);
      ReachableStep(sys, steps[0]);
      ReadKept(sys, steps[0]);
      OvertakingKept(sys, steps[0]);
      FirstsKept(sys, steps[0]);
      OrderAlong(Apply(sys, steps[0]), steps[1..]);
    }
  }

  /** Retry keeps order: if closed streams deliver nothing more and the window has
      room, the requests of a lane are dispatched for the first time in the order
      in which they were dequeued, however many streams break in between. */
  lemma FirstDispatchesInOrder(start: Sys, steps: seq<Step>, a: nat, b: nat)
    requires ValidStart(start) && OrderInv(start) && AllPrompt(start, steps)
    requires a < b && First(Exec(start, steps).table, a) && First(Exec(start, steps).table, b)
    requires var sys := Exec(start, steps); sys.table.runs[a].key.origin == sys.origin == sys.table.runs[b].key.origin
    ensures Exec(start, steps).table.runs[a].key.request < Exec(start, steps).table.runs[b].key.request
  {
    assert Exec(start, []) == start;
    OrderAlong(start, steps);
  }
}
