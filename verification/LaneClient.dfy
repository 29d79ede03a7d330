/** The sending side of one Lane: a bounded pipeline of requests that are carried
    over, in order, from one stream to the next (cluster_transport_grpc_client.go).
    Requests are named by the order in which the lane took them off its queues. */
module LaneClient {
  import opened Wrappers
  import opened Dedupe

  /** Why a request or a stream failed; `retryable` is isRetryableClusterTransportError. */
  datatype Cause = Cause(retryable: bool, text: string)

  datatype Result = Success(payload: Bytes) | Failure(cause: Cause)

  datatype Request = Request(body: Body, reliable: bool, attempts: nat, started: bool, results: seq<Result>)

  /** A request on the wire and the sequence number of its frame. */
  datatype Pending = Pending(request: nat, sequence: nat)

  datatype Client = Client(
    window: nat,
    maxRetries: nat,
    reqs: seq<Request>,
    ready: seq<nat>,
    pending: seq<Pending>,
    sequence: nat,
    inFlight: int,
    streaming: bool,
    failed: Option<Cause>,   // runPipeline is returning with this error
    closed: bool)

  datatype Act =
    | Dequeue(body: Body, reliable: bool)
    | Open
    | Send
    | Skip(cause: Cause)
    | Receive(request: nat, result: Result, valid: bool, cause: Cause)
    | Break(cause: Cause, expired: set<nat>)
    | Close

  const CLOSED := Cause(false, "lane closed")
  const UNKNOWN := Cause(false, "reply with unknown request_id")
  const BAD_REPLY := Cause(false, "invalid reply")
  const EXPIRED := Cause(false, "request context done")

  function Ids(pending: seq<Pending>): seq<nat> { seq(|pending|, k requires 0 <= k < |pending| => pending[k].request) }

  /** Every request the lane holds, oldest first. */
  function Live(c: Client): seq<nat> { Ids(c.pending) + c.ready }

  // ---------- finishing and retrying ----------

  function Finished(r: Request, result: Result): Request {
    r.(started := false, results := r.results + [result])
  }

  function Finish(c: Client, i: nat, result: Result): (d: Client)
    requires i < |c.reqs|
  {
    c.(reqs := c.reqs[i := Finished(c.reqs[i], result)],
       inFlight := if c.reqs[i].started then c.inFlight - 1 else c.inFlight)
  }

  /** What becomes of a request when its stream, or the attempt to open one, fails:
      the result it ends with, or None when it is carried over. */
  function Fate(r: Request, expired: bool, cause: Cause, maxRetries: nat): Option<Result> {
    if expired then Some(Failure(EXPIRED))
    else if !r.started then None
    else if r.reliable && r.attempts <= maxRetries && cause.retryable then None
    else if !r.reliable then Some(Success([]))
    else Some(Failure(cause))
  }

  ghost predicate InRange(c: Client, ids: seq<nat>) { forall k | 0 <= k < |ids| :: ids[k] < |c.reqs| }

  /** retryRequests, request by request. */
  function Retry(c: Client, ids: seq<nat>, cause: Cause, expired: set<nat>): (d: Client)
    requires InRange(c, ids)
    ensures |d.reqs| == |c.reqs|
  {
    if ids == [] then c.(ready := [])
    else
      var init := ids[..|ids| - 1];
      assert InRange(c, init);
      var i := ids[|ids| - 1];
      var b := Retry(c, init, cause, expired);
      match Fate(b.reqs[i], i in expired, cause, c.maxRetries)
      case None => b.(ready := b.ready + [i])
      case Some(result) => Finish(b, i, result)
  }

  /** The stream is given up: what was on the wire, then what was waiting, is retried. */
  function Broken(c: Client, cause: Cause, expired: set<nat>): Client
    requires InRange(c, Live(c))
  {
    Retry(c, Live(c), cause, expired).(pending := [], streaming := false, failed := None)
  }

  // ---------- one step ----------

  ghost predicate Enabled(c: Client, a: Act) {
    && !c.closed
    && (c.failed.Some? ==> a.Break?)
    && match a
       case Dequeue(_, _) => c.ready == [] && (c.streaming ==> |c.pending| < c.window)
       case Open => !c.streaming && c.ready != []
       case Send => c.streaming && c.ready != [] && |c.pending| < c.window
       case Skip(_) => c.streaming && c.ready != [] && |c.pending| < c.window
       case Receive(_, _, _, _) => c.streaming
       case Break(cause, _) => (c.streaming || c.ready != []) && (c.failed.Some? ==> cause == c.failed.value)
       case Close => !c.streaming
  }

  /** Where the first pending entry of a request is, or -1. */
  function Position(pending: seq<Pending>, request: nat): (k: int)
    ensures -1 <= k < |pending|
    ensures k >= 0 ==> pending[k].request == request
    ensures forall j | 0 <= j < (if k < 0 then |pending| else k) :: pending[j].request != request
  {
    if pending == [] then -1
    else if pending[0].request == request then 0
    else
      var k := Position(pending[1..], request);
      assert forall j | 1 <= j < |pending| :: pending[j] == pending[1..][j - 1];
      if k < 0 then -1 else k + 1
  }

  function Sent(r: Request): Request { r.(started := true, attempts := r.attempts + 1) }

  function SendNext(c: Client): Client
    requires c.ready != [] && c.ready[0] < |c.reqs|
  {
    var i := c.ready[0];
    c.(reqs := c.reqs[i := Sent(c.reqs[i])],
       inFlight := if c.reqs[i].started then c.inFlight else c.inFlight + 1,
       sequence := c.sequence + 1,
       pending := c.pending + [Pending(i, c.sequence + 1)],
       ready := c.ready[1..])
  }

  /** The reply for pending[k] ends that request; one that is not accepted also
      ends the stream. */
  function Answered(c: Client, k: nat, result: Result, valid: bool, cause: Cause): Client
    requires k < |c.pending| && c.pending[k].request < |c.reqs|
  {
    Finish(c, c.pending[k].request, if valid then result else Failure(cause))
    .(pending := c.pending[..k] + c.pending[k + 1..], failed := if valid then None else Some(cause))
  }

  function CloseAll(c: Client, ids: seq<nat>): (d: Client)
    requires InRange(c, ids)
    ensures |d.reqs| == |c.reqs|
  {
    if ids == [] then c
    else
      assert InRange(c, ids[..|ids| - 1]);
      Finish(CloseAll(c, ids[..|ids| - 1]), ids[|ids| - 1], Failure(CLOSED))
  }

  /** The requests held are known, distinct and in the order they were dequeued:
      those on the wire first, then those waiting. */
  ghost predicate OrderInv(c: Client) {
    && (forall j, k | 0 <= j < k < |c.pending| :: c.pending[j].request < c.pending[k].request)
    && (forall j, k | 0 <= j < k < |c.ready| :: c.ready[j] < c.ready[k])
    && (forall j, k | 0 <= j < |c.pending| && 0 <= k < |c.ready| :: c.pending[j].request < c.ready[k])
    && (forall k | 0 <= k < |c.pending| :: c.pending[k].request < |c.reqs|)
    && (forall k | 0 <= k < |c.ready| :: c.ready[k] < |c.reqs|)
  }

  lemma LiveInRange(c: Client)
    requires OrderInv(c)
    ensures InRange(c, Live(c)) && InRange(c, c.ready)
    ensures forall j, k | 0 <= j < k < |Live(c)| :: Live(c)[j] < Live(c)[k]
  {
  }

  ghost function Apply(c: Client, a: Act): Client
    requires OrderInv(c)
  {
    LiveInRange(c);
    if !Enabled(c, a) then c
    else
      match a
      case Dequeue(body, reliable) =>
        c.(reqs := c.reqs + [Request(body, reliable, 0, false, [])], ready := [|c.reqs|])
      case Open => c.(streaming := true, sequence := 0)
      case Send => SendNext(c)
      case Skip(cause) => Finish(c, c.ready[0], Failure(cause)).(ready := c.ready[1..])
      case Receive(request, result, valid, cause) =>
        var k := Position(c.pending, request);
        if k >= 0 then Answered(c, k, result, valid, cause) else c.(failed := Some(UNKNOWN))
      case Break(cause, expired) => Broken(c, cause, expired)
      case Close => CloseAll(c, c.ready).(ready := [], closed := true)
  }

  ghost function Exec(c: Client, acts: seq<Act>): Client
    requires OrderInv(c)
    decreases |acts|
  {
    if acts == [] then c
    else
      ApplyKeepsOrder(c, acts[0]);
      Exec(Apply(c, acts[0]), acts[1..])
  }

  function Idle(window: nat, maxRetries: nat): Client {
    Client(window, maxRetries, [], [], [], 0, 0, false, None, false)
  }

  // ---------- invariants ----------

  datatype Status = Wire | Waiting | Gone

  ghost predicate OnWire(c: Client, i: nat) { exists k :: 0 <= k < |c.pending| && c.pending[k].request == i }

  ghost function StatusOf(c: Client, i: nat): Status {
    if OnWire(c, i) then Wire else if i in c.ready then Waiting else Gone
  }

  function Limit(r: Request, maxRetries: nat): nat { if r.reliable then maxRetries + 1 else 1 }

  predicate RequestOk(r: Request, status: Status, maxRetries: nat) {
    match status
    case Wire => r.started && r.results == [] && 1 <= r.attempts <= Limit(r, maxRetries)
    case Waiting =>
      && r.results == []
      && if r.started then r.reliable && 1 <= r.attempts <= maxRetries else r.attempts == 0
    case Gone => !r.started && |r.results| == 1 && r.attempts <= Limit(r, maxRetries)
  }

  ghost predicate RequestsInv(c: Client) {
    forall i | 0 <= i < |c.reqs| :: RequestOk(c.reqs[i], StatusOf(c, i), c.maxRetries)
  }

  function CountStarted(reqs: seq<Request>): nat {
    if reqs == [] then 0
    else CountStarted(reqs[..|reqs| - 1]) + if reqs[|reqs| - 1].started then 1 else 0
  }

  ghost predicate CountInv(c: Client) { c.inFlight == CountStarted(c.reqs) }

  ghost predicate BoundInv(c: Client) {
    && |c.pending| <= c.window
    && (!c.streaming ==> c.pending == [])
    && (c.closed ==> c.ready == [] && !c.streaming)
    && (c.failed.Some? ==> c.streaming)
  }

  ghost predicate Inv(c: Client) { OrderInv(c) && RequestsInv(c) && CountInv(c) && BoundInv(c) }

  // ---------- order ----------

  lemma {:induction false} RetryOrder(c: Client, ids: seq<nat>, cause: Cause, expired: set<nat>)
    requires InRange(c, ids) && forall j, k | 0 <= j < k < |ids| :: ids[j] < ids[k]
    ensures
      var d := Retry(c, ids, cause, expired);
      && d == c.(reqs := d.reqs, ready := d.ready, inFlight := d.inFlight)
      && (forall k | 0 <= k < |d.ready| :: d.ready[k] in ids)
      && (forall j, k | 0 <= j < k < |d.ready| :: d.ready[j] < d.ready[k])
  {
    if ids != [] {
      assert InRange(c, ids[..|ids| - 1]);
      RetryOrder(c, ids[..|ids| - 1], cause, expired);
    }
  }

  lemma {:induction false} CloseKeepsRest(c: Client, ids: seq<nat>)
    requires InRange(c, ids)
    ensures CloseAll(c, ids) == c.(reqs := CloseAll(c, ids).reqs, inFlight := CloseAll(c, ids).inFlight)
  {
    if ids != [] {
      assert InRange(c, ids[..|ids| - 1]);
      CloseKeepsRest(c, ids[..|ids| - 1]);
    }
  }

  lemma BrokenKeepsOrder(c: Client, cause: Cause, expired: set<nat>)
    requires OrderInv(c) && InRange(c, Live(c))
    ensures OrderInv(Broken(c, cause, expired))
  {
    LiveInRange(c);
    RetryOrder(c, Live(c), cause, expired);
  }

  lemma AnsweredKeepsOrder(c: Client, k: nat, result: Result, valid: bool, cause: Cause)
    requires OrderInv(c) && k < |c.pending|
    ensures OrderInv(Answered(c, k, result, valid, cause))
  {
  }

  lemma SendKeepsOrder(c: Client)
    requires OrderInv(c) && c.ready != []
    ensures OrderInv(SendNext(c))
  {
  }

  lemma OthersKeepOrder(c: Client, a: Act)
    requires OrderInv(c) && (a.Dequeue? || a.Open? || a.Skip? || a.Close?)
    ensures OrderInv(Apply(c, a))
  {
    LiveInRange(c);
    CloseKeepsRest(c, c.ready);
  }

  lemma ApplyKeepsOrder(c: Client, a: Act)
    requires OrderInv(c)
    ensures OrderInv(Apply(c, a))
  {
    LiveInRange(c);
    if Enabled(c, a) {
      match a
      case Receive(request, result, valid, cause) =>
        var k := Position(c.pending, request);
        if k >= 0 { AnsweredKeepsOrder(c, k, result, valid, cause); }
      case Break(cause, expired) => BrokenKeepsOrder(c, cause, expired);
      case Send => SendKeepsOrder(c);
      case _ => OthersKeepOrder(c, a);
    }
  }

  // ---------- one request at a time ----------

  lemma {:induction false} CountUpdate(reqs: seq<Request>, i: nat, r: Request)
    requires i < |reqs|
    ensures
      CountStarted(reqs[i := r])
      == CountStarted(reqs) - (if reqs[i].started then 1 else 0) + (if r.started then 1 else 0)
  {
    var n := |reqs| - 1;
    if i == n {
      assert reqs[i := r][..n] == reqs[..n];
    } else {
      assert reqs[i := r][..n] == reqs[..n][i := r];
      CountUpdate(reqs[..n], i, r);
    }
  }

  lemma {:induction false} CountZero(reqs: seq<Request>)
    requires forall i | 0 <= i < |reqs| :: !reqs[i].started
    ensures CountStarted(reqs) == 0
  {
    if reqs != [] { CountZero(reqs[..|reqs| - 1]); }
  }

  lemma FinishKeepsCount(c: Client, i: nat, result: Result)
    requires CountInv(c) && i < |c.reqs|
    ensures CountInv(Finish(c, i, result))
  {
    CountUpdate(c.reqs, i, Finished(c.reqs[i], result));
  }

  lemma {:induction false} RetryKeepsCount(c: Client, ids: seq<nat>, cause: Cause, expired: set<nat>)
    requires CountInv(c) && InRange(c, ids)
    ensures CountInv(Retry(c, ids, cause, expired))
  {
    if ids == [] {
      assert CountInv(c.(ready := []));
    } else {
      var init := ids[..|ids| - 1];
      var i := ids[|ids| - 1];
      assert InRange(c, init);
      RetryKeepsCount(c, init, cause, expired);
      var b := Retry(c, init, cause, expired);
      match Fate(b.reqs[i], i in expired, cause, c.maxRetries)
      case None =>
      case Some(result) => FinishKeepsCount(b, i, result);
    }
  }

  lemma {:induction false} CloseKeepsCount(c: Client, ids: seq<nat>)
    requires CountInv(c) && InRange(c, ids)
    ensures CountInv(CloseAll(c, ids))
  {
    if ids != [] {
      assert InRange(c, ids[..|ids| - 1]);
      CloseKeepsCount(c, ids[..|ids| - 1]);
      FinishKeepsCount(CloseAll(c, ids[..|ids| - 1]), ids[|ids| - 1], Failure(CLOSED));
    }
  }

  /** Retrying settles each request of the list by its own fate, once, and leaves
      the others alone; exactly the survivors are carried over. */
  lemma {:induction false} RetryByFate(c: Client, ids: seq<nat>, cause: Cause, expired: set<nat>, i: nat)
    requires InRange(c, ids) && i < |c.reqs| && forall j, k | 0 <= j < k < |ids| :: ids[j] < ids[k]
    ensures
      var d := Retry(c, ids, cause, expired);
      var fate := Fate(c.reqs[i], i in expired, cause, c.maxRetries);
      && d.reqs[i] == (if i in ids && fate.Some? then Finished(c.reqs[i], fate.value) else c.reqs[i])
      && (i in d.ready <==> i in ids && fate.None?)
  {
    if ids != [] {
      var init := ids[..|ids| - 1];
      var last := ids[|ids| - 1];
      assert InRange(c, init) && ids == init + [last];
      RetryByFate(c, init, cause, expired, i);
      RetryOrder(c, init, cause, expired);
      assert last !in init;
      if last != i { assert i in ids <==> i in init; }
    }
  }

  lemma {:induction false} CloseByRequest(c: Client, ids: seq<nat>, i: nat)
    requires InRange(c, ids) && i < |c.reqs| && forall j, k | 0 <= j < k < |ids| :: ids[j] < ids[k]
    ensures
      CloseAll(c, ids).reqs[i] == if i in ids then Finished(c.reqs[i], Failure(CLOSED)) else c.reqs[i]
  {
    if ids != [] {
      var init := ids[..|ids| - 1];
      var last := ids[|ids| - 1];
      assert InRange(c, init) && ids == init + [last];
      CloseByRequest(c, init, i);
      assert last !in init;
      if last != i { assert i in ids <==> i in init; }
    }
  }

  lemma LiveIff(c: Client, i: nat)
    ensures i in Live(c) <==> OnWire(c, i) || i in c.ready
  {
    if OnWire(c, i) {
      var k :| 0 <= k < |c.pending| && c.pending[k].request == i;
      assert Live(c)[k] == i;
    }
    if i in c.ready {
      var k :| 0 <= k < |c.ready| && c.ready[k] == i;
      assert Live(c)[|c.pending| + k] == i;
    }
  }

  lemma BrokenRequests(c: Client, cause: Cause, expired: set<nat>)
    requires OrderInv(c) && RequestsInv(c) && InRange(c, Live(c))
    ensures RequestsInv(Broken(c, cause, expired))
  {
    LiveInRange(c);
    forall i | 0 <= i < |c.reqs|
      ensures
        var d := Broken(c, cause, expired);
        RequestOk(d.reqs[i], StatusOf(d, i), c.maxRetries)
    {
      LiveIff(c, i);
      RetryByFate(c, Live(c), cause, expired, i);
    }
    RetryOrder(c, Live(c), cause, expired);
  }

  lemma AnsweredRequests(c: Client, k: nat, result: Result, valid: bool, cause: Cause)
    requires OrderInv(c) && RequestsInv(c) && k < |c.pending|
    ensures RequestsInv(Answered(c, k, result, valid, cause))
  {
    var d := Answered(c, k, result, valid, cause);
    var gone := c.pending[k].request;
    forall i | 0 <= i < |c.reqs| ensures RequestOk(d.reqs[i], StatusOf(d, i), c.maxRetries) {
      if OnWire(c, i) && i != gone {
        var j :| 0 <= j < |c.pending| && c.pending[j].request == i;
        assert d.pending[if j < k then j else j - 1].request == i;
      }
      assert OnWire(d, i) ==> OnWire(c, i);
      if i == gone { assert !OnWire(d, i) && i !in d.ready; }
    }
  }

  lemma SendRequests(c: Client)
    requires OrderInv(c) && RequestsInv(c) && c.ready != []
    ensures RequestsInv(SendNext(c))
  {
    var d := SendNext(c);
    var sent := c.ready[0];
    forall i | 0 <= i < |c.reqs| ensures RequestOk(d.reqs[i], StatusOf(d, i), c.maxRetries) {
      if OnWire(c, i) {
        var j :| 0 <= j < |c.pending| && c.pending[j].request == i;
        assert d.pending[j].request == i;
      }
      if i == sent { assert d.pending[|c.pending|].request == i; }
      if OnWire(d, i) && i != sent { assert OnWire(c, i); }
    }
  }

  lemma SkipRequests(c: Client, cause: Cause)
    requires OrderInv(c) && RequestsInv(c) && c.ready != []
    ensures RequestsInv(Finish(c, c.ready[0], Failure(cause)).(ready := c.ready[1..]))
  {
    var d := Finish(c, c.ready[0], Failure(cause)).(ready := c.ready[1..]);
    assert forall i :: OnWire(d, i) == OnWire(c, i);
  }

  lemma DequeueRequests(c: Client, r: Request)
    requires OrderInv(c) && RequestsInv(c) && c.ready == [] && r.results == [] && !r.started && r.attempts == 0
    ensures RequestsInv(c.(reqs := c.reqs + [r], ready := [|c.reqs|]))
  {
    var d := c.(reqs := c.reqs + [r], ready := [|c.reqs|]);
    assert forall i :: OnWire(d, i) == OnWire(c, i);
  }

  lemma CloseRequests(c: Client)
    requires OrderInv(c) && RequestsInv(c) && c.pending == []
    ensures InRange(c, c.ready) && RequestsInv(CloseAll(c, c.ready).(ready := [], closed := true))
  {
    LiveInRange(c);
    CloseKeepsRest(c, c.ready);
    forall i | 0 <= i < |c.reqs|
      ensures
        var d := CloseAll(c, c.ready).(ready := [], closed := true);
        RequestOk(d.reqs[i], StatusOf(d, i), c.maxRetries)
    {
      CloseByRequest(c, c.ready, i);
    }
  }

  lemma ApplyKeepsRequests(c: Client, a: Act)
    requires OrderInv(c) && RequestsInv(c) && BoundInv(c)
    ensures RequestsInv(Apply(c, a))
  {
    LiveInRange(c);
    if Enabled(c, a) {
      match a
      case Dequeue(body, reliable) => DequeueRequests(c, Request(body, reliable, 0, false, []));
      case Open =>
        var d := Apply(c, a);
        assert forall i :: OnWire(d, i) == OnWire(c, i);
      case Send => SendRequests(c);
      case Skip(cause) => SkipRequests(c, cause);
      case Receive(request, result, valid, cause) =>
        var k := Position(c.pending, request);
        if k >= 0 {
          AnsweredRequests(c, k, result, valid, cause);
        } else {
          var d := Apply(c, a);
          assert forall i :: OnWire(d, i) == OnWire(c, i);
        }
      case Break(cause, expired) => BrokenRequests(c, cause, expired);
      case Close => CloseRequests(c);
    }
  }

  lemma ApplyKeepsCount(c: Client, a: Act)
    requires OrderInv(c) && CountInv(c)
    ensures CountInv(Apply(c, a))
  {
    LiveInRange(c);
    if Enabled(c, a) {
      match a
      case Dequeue(body, reliable) =>
        var r := Request(body, reliable, 0, false, []);
        assert (c.reqs + [r])[..|c.reqs|] == c.reqs;
      case Open =>
      case Send => CountUpdate(c.reqs, c.ready[0], Sent(c.reqs[c.ready[0]]));
      case Skip(cause) => FinishKeepsCount(c, c.ready[0], Failure(cause));
      case Receive(request, result, valid, cause) =>
        var k := Position(c.pending, request);
        if k >= 0 { FinishKeepsCount(c, request, if valid then result else Failure(cause)); }
      case Break(cause, expired) => RetryKeepsCount(c, Live(c), cause, expired);
      case Close => CloseKeepsCount(c, c.ready);
    }
  }

  lemma ApplyKeepsBound(c: Client, a: Act)
    requires OrderInv(c) && BoundInv(c)
    ensures BoundInv(Apply(c, a))
  {
    LiveInRange(c);
    if Enabled(c, a) {
      match a
      case Break(cause, expired) => RetryOrder(c, Live(c), cause, expired);
      case Close => CloseKeepsRest(c, c.ready);
      case _ =>
    }
  }

  lemma ApplyKeepsInv(c: Client, a: Act)
    requires Inv(c)
    ensures Inv(Apply(c, a))
  {
    ApplyKeepsOrder(c, a);
    ApplyKeepsRequests(c, a);
    ApplyKeepsCount(c, a);
    ApplyKeepsBound(c, a);
  }

  lemma {:induction false} ExecKeepsInv(c: Client, acts: seq<Act>)
    requires Inv(c)
    ensures Inv(Exec(c, acts))
    decreases |acts|
  {
    if acts != [] {
      ApplyKeepsInv(c, acts[0]);
      ExecKeepsInv(Apply(c, acts[0]), acts[1..]);
    }
  }

  // ---------- what every run of a lane guarantees ----------

  /** Conservation: whatever the far side answers and however often streams break,
      the window is respected, inFlight counts the started requests, no request is
      put on the wire more often than allowed, each has exactly one result once the
      lane has let go of it and none before, and on exit nothing is left. */
  lemma LaneConserves(window: nat, maxRetries: nat, acts: seq<Act>)
    ensures
      var c := Exec(Idle(window, maxRetries), acts);
      && |c.pending| <= window
      && c.inFlight == CountStarted(c.reqs)
      && (forall i | 0 <= i < |c.reqs| ::
            && c.reqs[i].attempts <= Limit(c.reqs[i], maxRetries)
            && |c.reqs[i].results| == (if OnWire(c, i) || i in c.ready then 0 else 1)
            && (c.reqs[i].started ==> c.reqs[i].results == []))
      && (c.closed ==> c.inFlight == 0 && forall i | 0 <= i < |c.reqs| :: |c.reqs[i].results| == 1)
  {
    IdleInv(window, maxRetries);
    ExecKeepsInv(Idle(window, maxRetries), acts);
    SettingsStand(Idle(window, maxRetries), acts);
    var c := Exec(Idle(window, maxRetries), acts);
    assert forall i | 0 <= i < |c.reqs| :: RequestOk(c.reqs[i], StatusOf(c, i), maxRetries);
    if c.closed { CountZero(c.reqs); }
  }

  lemma IdleInv(window: nat, maxRetries: nat)
    ensures Inv(Idle(window, maxRetries))
  {
  }

  lemma ApplyKeepsSettings(c: Client, a: Act)
    requires OrderInv(c)
    ensures Apply(c, a).window == c.window && Apply(c, a).maxRetries == c.maxRetries
  {
    LiveInRange(c);
    if Enabled(c, a) {
      match a
      case Break(cause, expired) => RetryOrder(c, Live(c), cause, expired);
      case Close => CloseKeepsRest(c, c.ready);
      case _ =>
    }
  }

  lemma {:induction false} SettingsStand(c: Client, acts: seq<Act>)
    requires OrderInv(c)
    ensures Exec(c, acts).window == c.window && Exec(c, acts).maxRetries == c.maxRetries
    decreases |acts|
  {
    if acts != [] {
      ApplyKeepsSettings(c, acts[0]);
      ApplyKeepsOrder(c, acts[0]);
      SettingsStand(Apply(c, acts[0]), acts[1..]);
    }
  }

  /** A request on the wire outlives its stream exactly when it is reliable, has
      attempts left, has not timed out and the stream's error is retryable. In
      particular one request's timeout ends every other request on the wire. */
  lemma OutlivesStreamIff(c: Client, cause: Cause, expired: set<nat>, i: nat)
    requires Inv(c) && i < |c.reqs| && OnWire(c, i) && Enabled(c, Break(cause, expired))
    ensures
      var d := Apply(c, Break(cause, expired));
      && i < |d.reqs|
      && (i in d.ready <==>
          c.reqs[i].reliable && c.reqs[i].attempts <= c.maxRetries && cause.retryable && i !in expired)
      && (i !in d.ready ==>
            d.reqs[i].results == [if !c.reqs[i].reliable && i !in expired then Success([])
                                  else Failure(if i in expired then EXPIRED else cause)])
  {
    LiveInRange(c);
    LiveIff(c, i);
    assert RequestOk(c.reqs[i], StatusOf(c, i), c.maxRetries);
    RetryByFate(c, Live(c), cause, expired, i);
  }

  /** What becomes of every request when a stream, or the attempt to open one, is given
      up. A request held is carried over exactly when its context is not done and, if it
      has been on the wire, it is reliable, has attempts left and the error is retryable;
      it is then as it was, and the order is kept. Otherwise it ends, once: with its
      context's error, without one if it is ephemeral, or with the error of the stream.
      What is not held does not change, and nothing is left on the wire. */
  lemma RetriedIff(c: Client, cause: Cause, expired: set<nat>, i: nat)
    requires Inv(c) && i < |c.reqs| && Enabled(c, Break(cause, expired))
    ensures
      var d := Apply(c, Break(cause, expired));
      var r := c.reqs[i];
      && i < |d.reqs| && d.pending == [] && !d.streaming
      && (forall j, k | 0 <= j < k < |d.ready| :: d.ready[j] < d.ready[k])
      && (i in d.ready <==>
            && (OnWire(c, i) || i in c.ready) && i !in expired
            && (r.started ==> r.reliable && r.attempts <= c.maxRetries && cause.retryable))
      && (i in d.ready || !(OnWire(c, i) || i in c.ready) ==> d.reqs[i] == r)
      && (i !in d.ready && (OnWire(c, i) || i in c.ready) ==>
            d.reqs[i] == r.(started := false,
                            results := [if i in expired then Failure(EXPIRED)
                                        else if r.reliable then Failure(cause) else Success([])]))
  {
    LiveInRange(c);
    LiveIff(c, i);
    RetryOrder(c, Live(c), cause, expired);
    assert RequestOk(c.reqs[i], StatusOf(c, i), c.maxRetries);
    RetryByFate(c, Live(c), cause, expired, i);
  }

  /** After a reply for no request on the wire, one that does not fit its request, a
      timeout or the closing of the peer, nothing that was on the wire is sent again. */
  lemma OwnErrorsAreFinal(c: Client, cause: Cause, expired: set<nat>, i: nat)
    requires Inv(c) && i < |c.reqs| && Enabled(c, Break(cause, expired))
    requires cause == UNKNOWN || cause == BAD_REPLY || cause == EXPIRED || cause == CLOSED
    ensures
      var d := Apply(c, Break(cause, expired));
      i in d.ready <==> i in c.ready && !c.reqs[i].started && i !in expired
  {
    RetriedIff(c, cause, expired, i);
    assert RequestOk(c.reqs[i], StatusOf(c, i), c.maxRetries);
  }

  /** inFlight says nothing about a request that was taken off its queue and has
      not been put on the wire: it is 0 exactly when every held request is such. */
  lemma NothingInFlightIff(c: Client)
    requires Inv(c)
    ensures c.inFlight == 0 <==>
              c.pending == [] && forall k | 0 <= k < |c.ready| :: !c.reqs[c.ready[k]].started
  {
    if c.pending != [] {
      var i := c.pending[0].request;
      assert OnWire(c, i) && RequestOk(c.reqs[i], StatusOf(c, i), c.maxRetries);
      StartedCounts(c.reqs, i);
    } else if k :| 0 <= k < |c.ready| && c.reqs[c.ready[k]].started {
      StartedCounts(c.reqs, c.ready[k]);
    } else {
      forall i | 0 <= i < |c.reqs| ensures !c.reqs[i].started {
        assert RequestOk(c.reqs[i], StatusOf(c, i), c.maxRetries);
      }
      CountZero(c.reqs);
    }
  }

  lemma {:induction false} StartedCounts(reqs: seq<Request>, i: nat)
    requires i < |reqs| && reqs[i].started
    ensures CountStarted(reqs) > 0
  {
    if i < |reqs| - 1 { StartedCounts(reqs[..|reqs| - 1], i); }
  }
}
