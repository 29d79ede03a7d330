/** What a Lane promises end to end, over every run of LaneSystem. */
module LaneGuarantees {
  import opened Wrappers
  import D = Dedupe
  import C = LaneClient
  import opened LaneSystem

  // ---------- what a client step does to one request ----------

  predicate SameRequest(r: C.Request, q: C.Request) { q.body == r.body && q.reliable == r.reliable }

  /** A step ends a reliable request with success only by accepting a reply for it. */
  lemma RequestStands(c: C.Client, a: C.Act, i: nat)
    requires C.OrderInv(c) && i < |c.reqs|
    ensures
      var d := C.Apply(c, a);
      && i < |d.reqs| && SameRequest(c.reqs[i], d.reqs[i])
      && (forall x | x in d.reqs[i].results && x.Success? && c.reqs[i].reliable ::
            x in c.reqs[i].results || (a.Receive? && a.valid && a.request == i && a.result == x))
  {
    C.LiveInRange(c);
    if C.Enabled(c, a) {
      match a
      case Break(cause, expired) => C.RetryByFate(c, C.Live(c), cause, expired, i);
      case Close => C.CloseByRequest(c, c.ready, i);
      case _ =>
    }
  }

  lemma RequestsStand(c: C.Client, a: C.Act)
    requires C.OrderInv(c)
    ensures
      var d := C.Apply(c, a);
      |c.reqs| <= |d.reqs| && forall i | 0 <= i < |c.reqs| :: SameRequest(c.reqs[i], d.reqs[i])
  {
    forall i | 0 <= i < |c.reqs|
      ensures i < |C.Apply(c, a).reqs| && SameRequest(c.reqs[i], C.Apply(c, a).reqs[i])
    {
      RequestStands(c, a, i);
    }
    if |c.reqs| > 0 { RequestStands(c, a, |c.reqs| - 1); }
  }

  // ---------- what a step does to the window ----------

  /** Executions are only added; their key and body stand, and so does their answer. */
  ghost predicate Extends(w: D.Window, v: D.Window) {
    && |w.runs| <= |v.runs| && v.ttl == w.ttl
    && (forall r | 0 <= r < |w.runs| ::
          && v.runs[r].key == w.runs[r].key && v.runs[r].body == w.runs[r].body
          && (w.runs[r].done.Some? ==> v.runs[r] == w.runs[r]))
  }

  /** The step of the window inside a step of the system. */
  ghost function Inside(sys: Sys, step: Step): Option<D.Step>
    requires C.OrderInv(sys.client)
  {
    match step
    case Arrive(s, accepted, seen, hint) =>
      if CanArrive(sys, s) && seen <= sys.table.now &&
         Validates(sys.streams[s], sys.streams[s].frames[sys.streams[s].taken], accepted)
      then
        var f := sys.streams[s].frames[sys.streams[s].taken];
        Some(D.Call(KeyOf(f), f.body, seen, hint))
      else None
    case Finish(s, answer) =>
      if Apply(sys, step) != sys && s < |sys.streams| && sys.streams[s].handling.Running?
      then Some(D.Return(sys.streams[s].handling.run, answer)) else None
    case Elsewhere(d) => if Foreign(sys, d) then Some(d) else None
    case _ => None
  }

  lemma TableStep(sys: Sys, step: Step)
    requires C.OrderInv(sys.client)
    ensures
      Apply(sys, step).table
      == if Inside(sys, step).Some? then D.Apply(sys.table, Inside(sys, step).value) else sys.table
  {
  }

  lemma TableExtends(w: D.Window, d: D.Step)
    ensures Extends(w, D.Apply(w, d))
  {
    forall r | 0 <= r < |w.runs|
      ensures
        var v := D.Apply(w, d);
        && r < |v.runs| && v.runs[r].key == w.runs[r].key && v.runs[r].body == w.runs[r].body
        && (w.runs[r].done.Some? ==> v.runs[r] == w.runs[r])
    {
      D.RunsStand(w, d, r);
    }
  }

  lemma ApplyExtends(sys: Sys, step: Step)
    requires C.OrderInv(sys.client)
    ensures Extends(sys.table, Apply(sys, step).table)
  {
    TableStep(sys, step);
    if Inside(sys, step).Some? { TableExtends(sys.table, Inside(sys, step).value); }
  }

  // ---------- invariants that tie the parts together ----------

  function OurKey(sys: Sys, i: nat): D.Key { D.Key(sys.origin, i) }

  /** Frames and executions carry the body of the request they name. */
  ghost predicate BodyInv(sys: Sys) {
    && (forall s, k | 0 <= s < |sys.streams| && 0 <= k < |sys.streams[s].frames| ::
          && sys.streams[s].frames[k].request < |sys.client.reqs|
          && sys.streams[s].frames[k].body == sys.client.reqs[sys.streams[s].frames[k].request].body)
    && (forall r | 0 <= r < |sys.table.runs| && sys.table.runs[r].key.origin == sys.origin ::
          && sys.table.runs[r].key.request < |sys.client.reqs|
          && sys.table.runs[r].body == sys.client.reqs[sys.table.runs[r].key.request].body)
  }

  /** A server loop runs, or waits for, an execution of the frame it read last. */
  ghost predicate Serves(w: D.Window, st: Stream) {
    && (st.handling.Running? || st.handling.Waiting? ==>
          && 0 < st.taken <= |st.frames| && st.handling.run < |w.runs|
          && w.runs[st.handling.run].key == KeyOf(st.frames[st.taken - 1]))
    && (st.handling.Running? ==> w.runs[st.handling.run].done.None?)
  }

  ghost predicate DistinctRuns(streams: seq<Stream>) {
    forall s, t | 0 <= s < t < |streams| && streams[s].handling.Running? && streams[t].handling.Running? ::
      streams[s].handling.run != streams[t].handling.run
  }

  ghost predicate ServeInv(sys: Sys) {
    && (forall s | 0 <= s < |sys.streams| :: Serves(sys.table, sys.streams[s]))
    && DistinctRuns(sys.streams)
  }

  /** Some finished execution of `key` succeeded with this payload. */
  ghost predicate Backed(w: D.Window, key: D.Key, payload: D.Bytes) {
    exists r :: 0 <= r < |w.runs| && w.runs[r].key == key && w.runs[r].done.Some? &&
                Succeeds(w.runs[r].done.value.answer) && w.runs[r].done.value.answer.payload == payload
  }

  ghost predicate RepliesBacked(w: D.Window, st: Stream) {
    forall k | 0 <= k < |st.replies| <= |st.frames| && Succeeds(st.replies[k].answer) ::
      Backed(w, KeyOf(st.frames[k]), st.replies[k].answer.payload)
  }

  ghost predicate ReplyInv(sys: Sys) {
    forall s | 0 <= s < |sys.streams| :: RepliesBacked(sys.table, sys.streams[s])
  }

  ghost predicate ResultInv(sys: Sys) {
    forall i, x | 0 <= i < |sys.client.reqs| && sys.client.reqs[i].reliable &&
                  x in sys.client.reqs[i].results && x.Success? ::
      Backed(sys.table, OurKey(sys, i), x.payload)
  }

  ghost predicate Inv(sys: Sys) {
    OrderInv(sys) && D.Inv(sys.table) && BodyInv(sys) && ServeInv(sys) && ReplyInv(sys) && ResultInv(sys)
  }

  lemma BackedStands(w: D.Window, v: D.Window)
    requires Extends(w, v)
    ensures forall key, payload | Backed(w, key, payload) :: Backed(v, key, payload)
  {
    forall key, payload | Backed(w, key, payload) ensures Backed(v, key, payload) {
      var r :| 0 <= r < |w.runs| && w.runs[r].key == key && w.runs[r].done.Some? &&
               Succeeds(w.runs[r].done.value.answer) && w.runs[r].done.value.answer.payload == payload;
      assert v.runs[r].key == key;
    }
  }

  lemma TableKeepsInv(sys: Sys, step: Step)
    requires C.OrderInv(sys.client) && D.Inv(sys.table)
    ensures D.Inv(Apply(sys, step).table)
  {
    TableStep(sys, step);
    if Inside(sys, step).Some? { D.StepKeepsInv(sys.table, Inside(sys, step).value); }
  }

  /** The step of the client inside a step of the system. */
  ghost function Acting(sys: Sys, step: Step): Option<C.Act>
    requires C.OrderInv(sys.client)
  {
    match step
    case Local(act) => if IsLocal(act) then Some(act) else None
    case Open => Some(C.Open)
    case Send => if CanSend(sys) then Some(C.Send) else None
    case Deliver(fits) =>
      if CanDeliver(sys)
      then
        var st := sys.streams[|sys.streams| - 1];
        Some(ReceiveOf(sys.client, st.replies[st.got], fits))
      else None
    case _ => None
  }

  lemma ClientStep(sys: Sys, step: Step)
    requires C.OrderInv(sys.client)
    ensures
      Apply(sys, step).client
      == if Acting(sys, step).Some? then C.Apply(sys.client, Acting(sys, step).value) else sys.client
    ensures Apply(sys, step).origin == sys.origin
  {
  }

  lemma ApplyKeepsRequests(sys: Sys, step: Step)
    requires C.OrderInv(sys.client)
    ensures
      var d := Apply(sys, step).client;
      && |sys.client.reqs| <= |d.reqs|
      && forall i | 0 <= i < |sys.client.reqs| :: SameRequest(sys.client.reqs[i], d.reqs[i])
  {
    ClientStep(sys, step);
    if Acting(sys, step).Some? { RequestsStand(sys.client, Acting(sys, step).value); }
  }

  /** Frames are only written by Send, at the end of the last stream. */
  lemma FramesStep(sys: Sys, step: Step)
    requires C.OrderInv(sys.client)
    ensures
      var v := Apply(sys, step);
      && |sys.streams| <= |v.streams| <= |sys.streams| + 1
      && (|v.streams| > |sys.streams| ==> v.streams[|sys.streams|] == FRESH)
      && (forall s | 0 <= s < |sys.streams| ::
            v.streams[s].frames == sys.streams[s].frames
            || (step.Send? && CanSend(sys) && v.streams[s].frames == sys.streams[s].frames + [NextFrame(sys)]))
  {
  }

  /** A new execution belongs to another sender, or to the frame that arrived. */
  lemma RunsStep(sys: Sys, step: Step)
    requires C.OrderInv(sys.client)
    ensures
      var w := Apply(sys, step).table;
      && |sys.table.runs| <= |w.runs| <= |sys.table.runs| + 1
      && (|w.runs| > |sys.table.runs| ==>
            var run := w.runs[|sys.table.runs|];
            && run.done.None?
            && (run.key.origin != sys.origin
                || (step.Arrive? && CanArrive(sys, step.s) &&
                    var f := sys.streams[step.s].frames[sys.streams[step.s].taken];
                    run.key == KeyOf(f) && run.body == f.body)))
  {
    TableStep(sys, step);
  }

  lemma BodiesKept(sys: Sys, step: Step)
    requires C.OrderInv(sys.client) && BodyInv(sys)
    ensures BodyInv(Apply(sys, step))
  {
    var v := Apply(sys, step);
    ApplyKeepsRequests(sys, step);
    ApplyExtends(sys, step);
    FramesStep(sys, step);
    RunsStep(sys, step);
    ClientStep(sys, step);
    forall s, k | 0 <= s < |v.streams| && 0 <= k < |v.streams[s].frames|
      ensures
        && v.streams[s].frames[k].request < |v.client.reqs|
        && v.streams[s].frames[k].body == v.client.reqs[v.streams[s].frames[k].request].body
    {
      if s < |sys.streams| && k < |sys.streams[s].frames| {
        assert v.streams[s].frames[k] == sys.streams[s].frames[k];
        assert SameRequest(sys.client.reqs[sys.streams[s].frames[k].request],
                           v.client.reqs[sys.streams[s].frames[k].request]);
      } else {
        assert v.streams[s].frames[k] == NextFrame(sys);
        assert SameRequest(sys.client.reqs[sys.client.ready[0]], v.client.reqs[sys.client.ready[0]]);
      }
    }
  }

  /** Only the loop that started an execution finishes it. */
  lemma OpenStands(sys: Sys, step: Step, s: nat)
    requires OrderInv(sys) && ServeInv(sys) && s < |sys.streams| && sys.streams[s].handling.Running?
    requires step.Finish? ==> step.s != s
    ensures Extends(sys.table, Apply(sys, step).table)
    ensures Apply(sys, step).table.runs[sys.streams[s].handling.run].done.None?
  {
    ApplyExtends(sys, step);
    TableStep(sys, step);
    assert Serves(sys.table, sys.streams[s]) && StreamOk(sys.origin, sys.streams[s]);
    assert sys.table.runs[sys.streams[s].handling.run].key.origin == sys.origin;
    if step.Finish? && step.s < |sys.streams| && sys.streams[step.s].handling.Running? {
      assert sys.streams[step.s].handling.run != sys.streams[s].handling.run;
    }
  }

  lemma LoopStep(sys: Sys, step: Step, s: nat)
    requires C.OrderInv(sys.client) && s < |sys.streams|
    ensures
      var v := Apply(sys, step);
      && s < |v.streams|
      && ((v.streams[s].handling == sys.streams[s].handling && v.streams[s].taken == sys.streams[s].taken)
          || v.streams[s].handling.Idle? || v.streams[s].handling.Stopped?
          || (step.Arrive? && step.s == s && CanArrive(sys, s)))
  {
  }

  /** After reading a frame, the loop runs or waits for an execution of that frame. */
  lemma ArrivalServes(sys: Sys, step: Step)
    requires OrderInv(sys) && D.Inv(sys.table) && step.Arrive? && CanArrive(sys, step.s)
    ensures
      var v := Apply(sys, step);
      && Serves(v.table, v.streams[step.s])
      && (v.streams[step.s].handling.Running? ==> v.streams[step.s].handling.run == |sys.table.runs|)
  {
    var st := sys.streams[step.s];
    var f := st.frames[st.taken];
    if step.seen <= sys.table.now { D.VerdictFromLog(sys.table, KeyOf(f), f.body, step.seen); }
  }

  lemma StillServes(w: D.Window, v: D.Window, st: Stream, next: Stream)
    requires Serves(w, st) && Extends(w, v) && next.handling == st.handling && next.taken == st.taken
    requires st.frames <= next.frames
    requires st.handling.Running? ==> st.handling.run < |v.runs| && v.runs[st.handling.run].done.None?
    ensures Serves(v, next)
  {
  }

  lemma ServesKeptAt(sys: Sys, step: Step, s: nat)
    requires OrderInv(sys) && D.Inv(sys.table) && ServeInv(sys) && s < |sys.streams|
    ensures
      var v := Apply(sys, step);
      && s < |v.streams| && Serves(v.table, v.streams[s])
      && (v.streams[s].handling.Running? ==>
            || v.streams[s].handling == sys.streams[s].handling
            || (step.Arrive? && step.s == s && v.streams[s].handling.run == |sys.table.runs|))
  {
    var v := Apply(sys, step);
    LoopStep(sys, step, s);
    assert Serves(sys.table, sys.streams[s]);
    if step.Arrive? && step.s == s && CanArrive(sys, s) {
      ArrivalServes(sys, step);
    } else if v.streams[s].handling == sys.streams[s].handling && v.streams[s].taken == sys.streams[s].taken {
      FramesStep(sys, step);
      ApplyExtends(sys, step);
      if sys.streams[s].handling.Running? { FinishEnds(sys, step, s); OpenStands(sys, step, s); }
      StillServes(sys.table, v.table, sys.streams[s], v.streams[s]);
    }
  }

  lemma FinishEnds(sys: Sys, step: Step, s: nat)
    requires OrderInv(sys) && ServeInv(sys) && s < |sys.streams| && sys.streams[s].handling.Running?
    requires Apply(sys, step).streams[s].handling == sys.streams[s].handling
    ensures step.Finish? ==> step.s != s
  {
    assert Serves(sys.table, sys.streams[s]);
  }

  /** The loop still runs execution `run`, which it ran before, or the newest one. */
  ghost predicate RunsOld(before: seq<Stream>, after: seq<Stream>, n: nat, at: nat, s: nat) {
    s < |before| && s < |after| &&
    (after[s].handling.Running? ==>
       || (after[s].handling == before[s].handling && after[s].handling.run < n)
       || (s == at && after[s].handling.run == n))
  }

  lemma StayDistinct(before: seq<Stream>, after: seq<Stream>, n: nat, at: nat)
    requires DistinctRuns(before) && |before| <= |after|
    requires forall s | 0 <= s < |before| :: RunsOld(before, after, n, at, s)
    requires forall s | |before| <= s < |after| :: !after[s].handling.Running?
    ensures DistinctRuns(after)
  {
    forall s, t | 0 <= s < t < |after| && after[s].handling.Running? && after[t].handling.Running?
      ensures after[s].handling.run != after[t].handling.run
    {
      assert RunsOld(before, after, n, at, s) && RunsOld(before, after, n, at, t);
    }
  }

  lemma ServesKept(sys: Sys, step: Step)
    requires OrderInv(sys) && D.Inv(sys.table) && ServeInv(sys)
    ensures ServeInv(Apply(sys, step))
  {
    var v := Apply(sys, step);
    var at := if step.Arrive? then step.s else 0;
    FramesStep(sys, step);
    forall s | 0 <= s < |sys.streams|
      ensures Serves(v.table, v.streams[s]) && RunsOld(sys.streams, v.streams, |sys.table.runs|, at, s)
    {
      ServesKeptAt(sys, step, s);
      assert Serves(sys.table, sys.streams[s]);
    }
    StayDistinct(sys.streams, v.streams, |sys.table.runs|, at);
  }

  // ---------- answers ----------

  /** A client cannot tell a replayed answer from a first one: it succeeds in the
      same cases, with the same payload. */
  lemma ReplaySeemsFirst(a: D.Answer)
    ensures Succeeds(D.Replayed(a)) <==> Succeeds(a)
    ensures D.Replayed(a).payload == a.payload
  {
  }

  /** `next` has the replies of `st`, and possibly one more, which - if it reports
      success - is backed by an execution of the frame it answers. */
  ghost predicate RepliesGrow(w: D.Window, st: Stream, next: Stream) {
    && st.frames <= next.frames
    && (next.replies == st.replies
        || (&& |st.replies| < |st.frames| && |next.replies| == |st.replies| + 1
            && next.replies[..|st.replies|] == st.replies
            && (Succeeds(next.replies[|st.replies|].answer) ==>
                  Backed(w, KeyOf(st.frames[|st.replies|]), next.replies[|st.replies|].answer.payload))))
  }

  lemma FinishReply(sys: Sys, s: nat, answer: D.Answer)
    requires OrderInv(sys) && ServeInv(sys) && s < |sys.streams| && sys.streams[s].handling.Running?
    ensures RepliesGrow(Apply(sys, Finish(s, answer)).table, sys.streams[s], Apply(sys, Finish(s, answer)).streams[s])
  {
    var st := sys.streams[s];
    var w := Apply(sys, Finish(s, answer)).table;
    assert StreamOk(sys.origin, st) && Serves(sys.table, st);
    assert w.runs[st.handling.run].key == KeyOf(st.frames[|st.replies|]);
  }

  lemma ReplayReply(sys: Sys, s: nat)
    requires OrderInv(sys) && ServeInv(sys) && s < |sys.streams| && sys.streams[s].handling.Waiting?
    ensures RepliesGrow(Apply(sys, Replay(s)).table, sys.streams[s], Apply(sys, Replay(s)).streams[s])
  {
    var st := sys.streams[s];
    assert StreamOk(sys.origin, st) && Serves(sys.table, st);
    assert sys.table.runs[st.handling.run].key == KeyOf(st.frames[|st.replies|]);
    if sys.table.runs[st.handling.run].done.Some? {
      ReplaySeemsFirst(sys.table.runs[st.handling.run].done.value.answer);
    }
  }

  lemma RefusalReply(sys: Sys, step: Step, s: nat)
    requires OrderInv(sys) && step.Arrive? && s < |sys.streams|
    ensures s < |Apply(sys, step).streams|
    ensures RepliesGrow(Apply(sys, step).table, sys.streams[s], Apply(sys, step).streams[s])
  {
    assert StreamOk(sys.origin, sys.streams[s]);
  }

  lemma ReplyStep(sys: Sys, step: Step, s: nat)
    requires OrderInv(sys) && ServeInv(sys) && s < |sys.streams|
    ensures s < |Apply(sys, step).streams|
    ensures RepliesGrow(Apply(sys, step).table, sys.streams[s], Apply(sys, step).streams[s])
  {
    match step
    case Arrive(_, _, _, _) => RefusalReply(sys, step, s);
    case Finish(t, answer) => if t == s && sys.streams[s].handling.Running? { FinishReply(sys, s, answer); }
    case Replay(t) => if t == s && sys.streams[s].handling.Waiting? { ReplayReply(sys, s); }
    case _ =>
  }

  lemma GrownReplies(w: D.Window, v: D.Window, st: Stream, next: Stream)
    requires Extends(w, v) && RepliesBacked(w, st) && RepliesGrow(v, st, next) && |st.replies| <= |st.frames|
    ensures RepliesBacked(v, next)
  {
    BackedStands(w, v);
    forall k | 0 <= k < |next.replies| <= |next.frames| && Succeeds(next.replies[k].answer)
      ensures Backed(v, KeyOf(next.frames[k]), next.replies[k].answer.payload)
    {
      if k < |st.replies| { assert next.replies[k] == st.replies[k]; }
    }
  }

  lemma RepliesKept(sys: Sys, step: Step)
    requires OrderInv(sys) && ServeInv(sys) && ReplyInv(sys)
    ensures ReplyInv(Apply(sys, step))
  {
    var v := Apply(sys, step);
    FramesStep(sys, step);
    forall s | 0 <= s < |v.streams| ensures RepliesBacked(v.table, v.streams[s]) {
      if s < |sys.streams| {
        ApplyExtends(sys, step);
        ReplyStep(sys, step, s);
        assert RepliesBacked(sys.table, sys.streams[s]) && StreamOk(sys.origin, sys.streams[s]);
        GrownReplies(sys.table, v.table, sys.streams[s], v.streams[s]);
      }
    }
  }

  lemma NewRequests(c: C.Client, a: C.Act)
    requires C.OrderInv(c)
    ensures |C.Apply(c, a).reqs| > |c.reqs| ==> a.Dequeue?
    ensures forall i | |c.reqs| <= i < |C.Apply(c, a).reqs| ::
              C.Apply(c, a).reqs[i].results == [] && C.Apply(c, a).reqs[i].attempts == 0
  {
    C.LiveInRange(c);
    if C.Enabled(c, a) && a.Close? { C.CloseKeepsRest(c, c.ready); }
  }

  /** A success a client step adds to a reliable request is backed. */
  lemma SuccessIsBacked(sys: Sys, step: Step, i: nat, x: C.Result)
    requires OrderInv(sys) && ReplyInv(sys) && ResultInv(sys) && Acting(sys, step).Some? && x.Success?
    requires
      var d := C.Apply(sys.client, Acting(sys, step).value);
      i < |d.reqs| && d.reqs[i].reliable && x in d.reqs[i].results
    ensures Backed(sys.table, OurKey(sys, i), x.payload)
  {
    var act := Acting(sys, step).value;
    if i < |sys.client.reqs| {
      RequestStands(sys.client, act, i);
      if x !in sys.client.reqs[i].results { AcceptedIsBacked(sys, step); }
    } else {
      NewRequests(sys.client, act);
      assert false;
    }
  }

  lemma ResultsKept(sys: Sys, step: Step)
    requires OrderInv(sys) && ReplyInv(sys) && ResultInv(sys)
    ensures ResultInv(Apply(sys, step))
  {
    var v := Apply(sys, step);
    ApplyExtends(sys, step);
    BackedStands(sys.table, v.table);
    ClientStep(sys, step);
    forall i, x | 0 <= i < |v.client.reqs| && v.client.reqs[i].reliable && x in v.client.reqs[i].results && x.Success?
      ensures Backed(sys.table, OurKey(sys, i), x.payload)
    {
      if Acting(sys, step).Some? { SuccessIsBacked(sys, step, i, x); }
    }
  }

  lemma AcceptedIsBacked(sys: Sys, step: Step)
    requires OrderInv(sys) && ReplyInv(sys) && step.Deliver? && CanDeliver(sys)
    ensures
      var act := Acting(sys, step).value;
      act.result.Success? ==> Backed(sys.table, OurKey(sys, act.request), act.result.payload)
  {
    var st := sys.streams[|sys.streams| - 1];
    assert RepliesBacked(sys.table, st) && StreamOk(sys.origin, st);
  }

  lemma ApplyKeepsInv(sys: Sys, step: Step)
    requires Inv(sys)
    ensures Inv(Apply(sys, step))
  {
    ApplyKeepsOrder(sys, step);
    TableKeepsInv(sys, step);
    BodiesKept(sys, step);
    ServesKept(sys, step);
    RepliesKept(sys, step);
    ResultsKept(sys, step);
  }

  lemma {:induction false} ExecKeepsInv(sys: Sys, steps: seq<Step>)
    requires Inv(sys)
    ensures Inv(Exec(sys, steps))
    decreases |steps|
  {
    if steps != [] {
      ApplyKeepsOrder(sys, steps[0]);
      ApplyKeepsInv(sys, steps[0]);
      ExecKeepsInv(Apply(sys, steps[0]), steps[1..]);
    }
  }

  lemma StartInv(sys: Sys)
    requires ValidStart(sys)
    ensures Inv(sys)
  {
    C.IdleInv(sys.client.window, sys.client.maxRetries);
    D.EmptyInv(sys.table.capacity, sys.table.ttl);
  }
}
