/** One Lane end to end: the client of LaneClient, the gRPC streams it opens one
    after another, the server loop at the end of each stream, and the receiving
    node's Request-ID window. A stream is a pair of FIFO queues; what has not been
    read when it is closed may still be read, in order, or be lost
    (cluster_transport_grpc_client.go, cluster_transport_grpc_server.go). */
module LaneSystem {
  import opened Wrappers
  import D = Dedupe
  import C = LaneClient

  datatype Frame = Frame(sequence: nat, origin: D.Origin, request: nat, body: D.Body)
  datatype Reply = Reply(sequence: nat, request: nat, answer: D.Answer)

  /** What the server loop of a stream is doing; Waiting for an execution that an
      earlier copy of the request started. */
  datatype Handling = Idle | Running(run: nat) | Waiting(run: nat) | Stopped

  datatype Stream = Stream(
    frames: seq<Frame>,     // written by the client
    taken: nat,             // how many the server has read
    expected: nat,
    bound: Option<D.Origin>,
    handling: Handling,
    replies: seq<Reply>,    // written by the server
    got: nat)               // how many the client has read

  datatype Sys = Sys(origin: D.Origin, client: C.Client, streams: seq<Stream>, table: D.Window)

  datatype Step =
    | Local(act: C.Act)                                          // Dequeue, Skip, Break, Close
    | Open
    | Send
    | Deliver(fits: bool)                                        // the client reads a reply
    | Arrive(s: nat, accepted: bool, seen: nat, hint: D.Key)     // a server reads a frame
    | Finish(s: nat, answer: D.Answer)                           // a dispatch returns
    | Replay(s: nat)                                             // a wait ends
    | Stop(s: nat)                                               // a server loop ends
    | Elsewhere(step: D.Step)                                    // other lanes and nodes, and time

  const FRESH := Stream([], 0, 1, None, Idle, [], 0)
  const REFUSED := D.Answer([], Some("refused"))

  function KeyOf(f: Frame): D.Key { D.Key(f.origin, f.request) }

  /** The client looks only at whether the error text of a reply is empty. */
  predicate Succeeds(a: D.Answer) { a.error.None? || a.error.value == "" }

  function ResultOf(a: D.Answer): C.Result {
    if Succeeds(a) then C.Success(a.payload) else C.Failure(C.Cause(false, a.error.value))
  }

  // ---------- the server loop ----------

  /** validateFrame; `accepted` stands for the checks that read only the frame's
      constants and the receiving node: cluster, versions, lane range, certificate,
      ring signature, epoch. */
  predicate Validates(st: Stream, f: Frame, accepted: bool) {
    accepted && f.sequence == st.expected && (st.expected > 1 ==> st.bound == Some(f.origin))
  }

  function Answering(st: Stream, sequence: nat, request: nat, answer: D.Answer): Stream {
    st.(replies := st.replies + [Reply(sequence, request, answer)])
  }

  /** Reading the next frame, given what the window says about it. */
  function Accepting(st: Stream, accepted: bool, verdict: D.Verdict): Stream
    requires st.taken < |st.frames|
  {
    var f := st.frames[st.taken];
    if !Validates(st, f, accepted)
    then Answering(st, f.sequence, f.request, REFUSED).(taken := st.taken + 1, handling := Stopped)
    else
      var read := st.(taken := st.taken + 1, bound := if st.expected == 1 then Some(f.origin) else st.bound);
      match verdict
      case Fresh(r) => read.(handling := Running(r))
      case Wait(r) => read.(handling := Waiting(r))
      case _ => Answering(read, f.sequence, f.request, REFUSED).(expected := st.expected + 1)
  }

  /** The frame being handled is answered, and the loop goes on. */
  function Replying(st: Stream, answer: D.Answer): Stream
    requires 0 < st.taken <= |st.frames|
  {
    var f := st.frames[st.taken - 1];
    Answering(st, f.sequence, f.request, answer).(expected := st.expected + 1, handling := Idle)
  }

  // ---------- steps ----------

  ghost predicate Foreign(sys: Sys, step: D.Step) {
    match step
    case Call(key, _, _, _) => key.origin != sys.origin
    case Return(r, _) => r < |sys.table.runs| && sys.table.runs[r].key.origin != sys.origin
    case Tick(_) => true
  }

  predicate IsLocal(a: C.Act) { a.Dequeue? || a.Skip? || a.Break? || a.Close? }

  ghost predicate CanArrive(sys: Sys, s: nat) {
    s < |sys.streams| && sys.streams[s].handling == Idle && sys.streams[s].taken < |sys.streams[s].frames|
  }

  ghost predicate CanDeliver(sys: Sys) {
    && sys.client.streaming && sys.client.failed.None? && sys.streams != []
    && sys.streams[|sys.streams| - 1].got < |sys.streams[|sys.streams| - 1].replies|
  }

  ghost predicate CanSend(sys: Sys) { C.Enabled(sys.client, C.Send) && sys.streams != [] }

  /** Correlation of a reply with the pending frame of the same request_id. */
  function Correlates(c: C.Client, reply: Reply): bool {
    var k := C.Position(c.pending, reply.request);
    k >= 0 && c.pending[k].sequence == reply.sequence
  }

  function ReceiveOf(c: C.Client, reply: Reply, fits: bool): C.Act {
    C.Receive(reply.request, ResultOf(reply.answer), fits && Correlates(c, reply), C.BAD_REPLY)
  }

  function NextFrame(sys: Sys): Frame
    requires sys.client.ready != [] && sys.client.ready[0] < |sys.client.reqs|
  {
    var i := sys.client.ready[0];
    Frame(sys.client.sequence + 1, sys.origin, i, sys.client.reqs[i].body)
  }

  /** The client and the stream it uses change together. */
  ghost function OnLast(sys: Sys, c: C.Client, st: Stream): Sys
    requires sys.streams != []
  {
    sys.(client := c, streams := sys.streams[|sys.streams| - 1 := st])
  }

  ghost function Apply(sys: Sys, step: Step): Sys
    requires C.OrderInv(sys.client)
  {
    match step
    case Local(act) => if IsLocal(act) then sys.(client := C.Apply(sys.client, act)) else sys
    case Open =>
      if C.Enabled(sys.client, C.Open)
      then sys.(client := C.Apply(sys.client, C.Open), streams := sys.streams + [FRESH]) else sys
    case Send =>
      if CanSend(sys)
      then
        var st := sys.streams[|sys.streams| - 1];
        OnLast(sys, C.Apply(sys.client, C.Send), st.(frames := st.frames + [NextFrame(sys)]))
      else sys
    case Deliver(fits) =>
      if CanDeliver(sys)
      then
        var st := sys.streams[|sys.streams| - 1];
        OnLast(sys, C.Apply(sys.client, ReceiveOf(sys.client, st.replies[st.got], fits)), st.(got := st.got + 1))
      else sys
    case Arrive(s, accepted, seen, hint) =>
      if CanArrive(sys, s) && seen <= sys.table.now
      then
        var st := sys.streams[s];
        var f := st.frames[st.taken];
        if Validates(st, f, accepted)
        then sys.(streams := sys.streams[s := Accepting(st, accepted, D.Judge(sys.table, KeyOf(f), f.body, seen))],
                  table := D.Begin(sys.table, KeyOf(f), f.body, seen, hint))
        else sys.(streams := sys.streams[s := Accepting(st, accepted, D.Full)])
      else sys
    case Finish(s, answer) =>
      if s < |sys.streams| && sys.streams[s].handling.Running? && 0 < sys.streams[s].taken <= |sys.streams[s].frames|
      then sys.(streams := sys.streams[s := Replying(sys.streams[s], answer)],
                table := D.Complete(sys.table, sys.streams[s].handling.run, answer))
      else sys
    case Replay(s) =>
      if s < |sys.streams| && sys.streams[s].handling.Waiting? && 0 < sys.streams[s].taken <= |sys.streams[s].frames| &&
         sys.streams[s].handling.run < |sys.table.runs| && sys.table.runs[sys.streams[s].handling.run].done.Some?
      then
        var answer := D.Replayed(sys.table.runs[sys.streams[s].handling.run].done.value.answer);
        sys.(streams := sys.streams[s := Replying(sys.streams[s], answer)])
      else sys
    case Stop(s) =>
      if s < |sys.streams| && !sys.streams[s].handling.Running?
      then sys.(streams := sys.streams[s := sys.streams[s].(handling := Stopped)]) else sys
    case Elsewhere(d) => if Foreign(sys, d) then sys.(table := D.Apply(sys.table, d)) else sys
  }

  ghost predicate ValidStart(sys: Sys) {
    && sys.client == C.Idle(sys.client.window, sys.client.maxRetries)
    && sys.streams == [] && sys.table == D.Empty(sys.table.capacity, sys.table.ttl)
  }

  // ---------- each stream by itself ----------

  ghost predicate FramesOk(origin: D.Origin, st: Stream) {
    && (forall k | 0 <= k < |st.frames| :: st.frames[k].sequence == k + 1 && st.frames[k].origin == origin)
    && (forall j, k | 0 <= j < k < |st.frames| :: st.frames[j].request < st.frames[k].request)
  }

  ghost predicate RepliesOk(st: Stream) {
    && st.got <= |st.replies| <= st.taken <= |st.frames|
    && (forall k | 0 <= k < |st.replies| ::
          st.replies[k].sequence == k + 1 && st.replies[k].request == st.frames[k].request)
  }

  ghost predicate LoopOk(origin: D.Origin, st: Stream) {
    && (st.handling.Idle? ==> |st.replies| == st.taken && st.expected == st.taken + 1)
    && (st.handling.Running? || st.handling.Waiting? ==> |st.replies| + 1 == st.taken == st.expected)
    && (st.taken > 0 && !st.handling.Stopped? ==> st.bound == Some(origin))
  }

  ghost predicate StreamOk(origin: D.Origin, st: Stream) {
    FramesOk(origin, st) && RepliesOk(st) && LoopOk(origin, st)
  }

  lemma AcceptingOk(origin: D.Origin, st: Stream, accepted: bool, verdict: D.Verdict)
    requires StreamOk(origin, st) && st.handling.Idle? && st.taken < |st.frames|
    ensures StreamOk(origin, Accepting(st, accepted, verdict))
    ensures Validates(st, st.frames[st.taken], accepted) <==> accepted
  {
  }

  lemma ReplyingOk(origin: D.Origin, st: Stream, answer: D.Answer)
    requires StreamOk(origin, st) && (st.handling.Running? || st.handling.Waiting?)
    ensures 0 < st.taken <= |st.frames| && StreamOk(origin, Replying(st, answer))
  {
  }

  ghost predicate StreamsInv(sys: Sys) {
    forall s | 0 <= s < |sys.streams| :: StreamOk(sys.origin, sys.streams[s])
  }

  /** The wire as the client sees it: frames not answered yet are exactly `pending`,
      and what waits is younger than anything written. */
  ghost predicate Mirrors(c: C.Client, st: Stream) {
    && c.sequence == |st.frames|
    && |c.pending| + st.got == |st.frames|
    && (forall k | 0 <= k < |c.pending| ::
          c.pending[k] == C.Pending(st.frames[st.got + k].request, st.frames[st.got + k].sequence))
    && (forall j, k | 0 <= j < |st.frames| && 0 <= k < |c.ready| :: st.frames[j].request < c.ready[k])
    && (forall j | 0 <= j < |st.frames| :: st.frames[j].request < |c.reqs|)
  }

  ghost predicate WireInv(sys: Sys) {
    sys.client.streaming ==> sys.streams != [] && Mirrors(sys.client, sys.streams[|sys.streams| - 1])
  }

  ghost predicate OrderInv(sys: Sys) { C.Inv(sys.client) && StreamsInv(sys) && WireInv(sys) }

  /** A reply always answers the oldest frame on the wire. */
  lemma HeadMatches(sys: Sys)
    requires OrderInv(sys) && CanDeliver(sys)
    ensures
      var st := sys.streams[|sys.streams| - 1];
      && sys.client.pending != []
      && st.replies[st.got].request == sys.client.pending[0].request
      && st.replies[st.got].sequence == sys.client.pending[0].sequence
      && C.Position(sys.client.pending, st.replies[st.got].request) == 0
      && Correlates(sys.client, st.replies[st.got])
  {
    var st := sys.streams[|sys.streams| - 1];
    assert StreamOk(sys.origin, st);
    assert sys.client.pending[0] == C.Pending(st.frames[st.got + 0].request, st.frames[st.got + 0].sequence);
  }

  lemma DeliverIs(sys: Sys, fits: bool)
    requires C.OrderInv(sys.client) && CanDeliver(sys)
    ensures
      var st := sys.streams[|sys.streams| - 1];
      var act := ReceiveOf(sys.client, st.replies[st.got], fits);
      Apply(sys, Deliver(fits)) == OnLast(sys, C.Apply(sys.client, act), st.(got := st.got + 1))
  {
  }

  /** So reading a reply ends the oldest request on the wire, and no other: with the
      payload that the far side sent, with the far side's error, or, if the reply does not
      fit - which also ends the stream - with an error of the lane's own. */
  lemma DeliveredIs(sys: Sys, fits: bool)
    requires OrderInv(sys) && CanDeliver(sys)
    ensures
      var st := sys.streams[|sys.streams| - 1];
      var sent := st.replies[st.got].answer;
      var c := sys.client;
      var d := Apply(sys, Deliver(fits)).client;
      var result := if !fits then C.Failure(C.Cause(false, "invalid reply"))
                    else if sent.error.Some? && sent.error.value != ""
                    then C.Failure(C.Cause(false, sent.error.value))
                    else C.Success(sent.payload);
      && c.pending != [] && c.pending[0].request < |c.reqs| && d.pending == c.pending[1..]
      && d.reqs == c.reqs[c.pending[0].request := c.reqs[c.pending[0].request].(
           started := false, results := c.reqs[c.pending[0].request].results + [result])]
      && d.failed == if fits then None else Some(C.Cause(false, "invalid reply"))
  {
    HeadMatches(sys);
    DeliverIs(sys, fits);
  }

  lemma QuietKeepsMirror(c: C.Client, a: C.Act, st: Stream)
    requires C.OrderInv(c) && Mirrors(c, st) && (a.Dequeue? || a.Skip?)
    ensures Mirrors(C.Apply(c, a), st) && C.Apply(c, a).streaming == c.streaming
  {
  }

  lemma NotStreaming(c: C.Client, a: C.Act)
    requires C.Inv(c) && (a.Break? || a.Close?) && C.Enabled(c, a)
    ensures !C.Apply(c, a).streaming
  {
    C.LiveInRange(c);
    if a.Close? { C.CloseKeepsRest(c, c.ready); }
  }

  lemma LocalKeepsWire(sys: Sys, act: C.Act)
    requires OrderInv(sys) && IsLocal(act)
    ensures WireInv(Apply(sys, Local(act)))
  {
    if C.Enabled(sys.client, act) {
      if act.Break? || act.Close? {
        NotStreaming(sys.client, act);
      } else if sys.client.streaming {
        QuietKeepsMirror(sys.client, act, sys.streams[|sys.streams| - 1]);
      }
    }
  }

  lemma ReplacedLast(sys: Sys, c: C.Client, st: Stream)
    requires StreamsInv(sys) && sys.streams != [] && StreamOk(sys.origin, st) && Mirrors(c, st)
    ensures StreamsInv(OnLast(sys, c, st)) && WireInv(OnLast(sys, c, st))
  {
  }

  lemma FrameInSequence(sys: Sys, st: Stream)
    requires StreamOk(sys.origin, st) && Mirrors(sys.client, st) && sys.client.ready != []
    requires sys.client.ready[0] < |sys.client.reqs|
    ensures StreamOk(sys.origin, st.(frames := st.frames + [NextFrame(sys)]))
  {
  }

  lemma FramePending(sys: Sys, st: Stream)
    requires RepliesOk(st) && Mirrors(sys.client, st) && C.OrderInv(sys.client) && C.Enabled(sys.client, C.Send)
    ensures Mirrors(C.Apply(sys.client, C.Send), st.(frames := st.frames + [NextFrame(sys)]))
  {
  }

  lemma SendKeepsWire(sys: Sys)
    requires OrderInv(sys) && CanSend(sys)
    ensures StreamsInv(Apply(sys, Send)) && WireInv(Apply(sys, Send))
  {
    var st := sys.streams[|sys.streams| - 1];
    assert StreamOk(sys.origin, st);
    FrameInSequence(sys, st);
    FramePending(sys, st);
    ReplacedLast(sys, C.Apply(sys.client, C.Send), st.(frames := st.frames + [NextFrame(sys)]));
  }

  lemma HeadAnswered(c: C.Client, a: C.Act)
    requires C.OrderInv(c) && a.Receive? && C.Enabled(c, a) && C.Position(c.pending, a.request) == 0
    ensures
      var d := C.Apply(c, a);
      && d.pending == c.pending[1..] && d.ready == c.ready && d.sequence == c.sequence
      && |d.reqs| == |c.reqs|
  {
  }

  lemma MirrorsNext(c: C.Client, d: C.Client, st: Stream)
    requires Mirrors(c, st) && c.pending != []
    requires d.pending == c.pending[1..] && d.ready == c.ready && d.sequence == c.sequence && |d.reqs| == |c.reqs|
    ensures Mirrors(d, st.(got := st.got + 1))
  {
    forall k | 0 <= k < |d.pending|
      ensures d.pending[k] == C.Pending(st.frames[st.got + 1 + k].request, st.frames[st.got + 1 + k].sequence)
    {
      assert d.pending[k] == c.pending[k + 1];
    }
  }

  lemma DeliverHead(sys: Sys, st: Stream, act: C.Act)
    requires OrderInv(sys) && CanDeliver(sys) && st == sys.streams[|sys.streams| - 1]
    requires act.Receive? && act.request == st.replies[st.got].request
    ensures StreamOk(sys.origin, st.(got := st.got + 1))
    ensures Mirrors(C.Apply(sys.client, act), st.(got := st.got + 1))
  {
    HeadMatches(sys);
    assert StreamOk(sys.origin, st) && Mirrors(sys.client, st);
    HeadAnswered(sys.client, act);
    MirrorsNext(sys.client, C.Apply(sys.client, act), st);
  }

  lemma DeliverKeepsWire(sys: Sys, fits: bool)
    requires OrderInv(sys) && CanDeliver(sys)
    ensures StreamsInv(Apply(sys, Deliver(fits))) && WireInv(Apply(sys, Deliver(fits)))
  {
    var st := sys.streams[|sys.streams| - 1];
    var act := ReceiveOf(sys.client, st.replies[st.got], fits);
    DeliverIs(sys, fits);
    DeliverHead(sys, st, act);
    ReplacedLast(sys, C.Apply(sys.client, act), st.(got := st.got + 1));
  }

  /** A server step changes neither what a stream carries nor what the client has read. */
  ghost predicate SameWire(st: Stream, next: Stream) { next.frames == st.frames && next.got == st.got }

  lemma ServerKeepsWire(sys: Sys, s: nat, next: Stream, table: D.Window)
    requires OrderInv(sys) && s < |sys.streams| && SameWire(sys.streams[s], next) && StreamOk(sys.origin, next)
    ensures OrderInv(sys.(streams := sys.streams[s := next], table := table))
  {
  }

  lemma ArriveKeepsOrder(sys: Sys, s: nat, accepted: bool, seen: nat, hint: D.Key)
    requires OrderInv(sys)
    ensures OrderInv(Apply(sys, Arrive(s, accepted, seen, hint)))
  {
    if CanArrive(sys, s) && seen <= sys.table.now {
      var st := sys.streams[s];
      var f := st.frames[st.taken];
      var verdict := if Validates(st, f, accepted) then D.Judge(sys.table, KeyOf(f), f.body, seen) else D.Full;
      AcceptingOk(sys.origin, st, accepted, verdict);
      ServerKeepsWire(sys, s, Accepting(st, accepted, verdict), Apply(sys, Arrive(s, accepted, seen, hint)).table);
    }
  }

  lemma LoopKeepsOrder(sys: Sys, step: Step)
    requires OrderInv(sys) && (step.Finish? || step.Replay? || step.Stop?)
    ensures OrderInv(Apply(sys, step))
  {
    if step.s < |sys.streams| {
      var v := Apply(sys, step);
      var st := sys.streams[step.s];
      assert StreamOk(sys.origin, st);
      if v.streams != sys.streams && !step.Stop? {
        ReplyingOk(sys.origin, st, v.streams[step.s].replies[|st.replies|].answer);
      }
      ServerKeepsWire(sys, step.s, v.streams[step.s], v.table);
    }
  }

  lemma ApplyKeepsOrder(sys: Sys, step: Step)
    requires OrderInv(sys)
    ensures OrderInv(Apply(sys, step))
  {
    match step
    case Local(act) =>
      C.ApplyKeepsInv(sys.client, act);
      if IsLocal(act) { LocalKeepsWire(sys, act); }
    case Open => C.ApplyKeepsInv(sys.client, C.Open);
    case Send =>
      C.ApplyKeepsInv(sys.client, C.Send);
      if CanSend(sys) { SendKeepsWire(sys); }
    case Deliver(fits) =>
      if CanDeliver(sys) {
        var st := sys.streams[|sys.streams| - 1];
        C.ApplyKeepsInv(sys.client, ReceiveOf(sys.client, st.replies[st.got], fits));
        DeliverKeepsWire(sys, fits);
      }
    case Arrive(s, accepted, seen, hint) => ArriveKeepsOrder(sys, s, accepted, seen, hint);
    case Elsewhere(d) =>
    case _ => LoopKeepsOrder(sys, step);
  }

  ghost function Exec(sys: Sys, steps: seq<Step>): Sys
    requires OrderInv(sys)
    decreases |steps|
  {
    if steps == [] then sys
    else
      ApplyKeepsOrder(sys, steps[0]);
      Exec(Apply(sys, steps[0]), steps[1..])
  }
}
