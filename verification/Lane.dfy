/** The goroutine of one Lane, as its code runs: the pipeline loop, the retry loop
    and the loop that moves from stream to stream (cluster_transport_grpc_client.go).
    Every method is a run of the steps of LaneClient. */
module Lanes {
  import opened Wrappers
  import Dedupe
  import opened LaneClient

  /** What the select of the pipeline loop picks next. */
  datatype Event =
    | Reply(request: nat, result: Result, valid: bool)
    | StreamError(cause: Cause)
    | TimedOut       // the ticker found an expired request on the wire
    | PeerClosed

  /** A request in the queues. */
  datatype Queued = Queued(body: Dedupe.Body, reliable: bool)

  /** What happens when a request's turn to be sent comes: its context is done, its frame
      is written, or the write fails. */
  datatype Turn = ContextDone | Written | WriteFails(cause: Cause)

  /** What one round of the pipeline loop meets: the requests that the queues give up
      while the window is filled, each request's turn, the request that arrives if the
      wire is empty - None when the peer closes - and else what the select picks. */
  datatype Round = Round(queue: seq<Queued>, turn: nat -> Turn, next: Option<Queued>, event: Event)

  /** What one pass of the outer loop meets: the request it waits for if it holds none,
      the error of opening a stream or the rounds on it, and which requests' contexts are
      done when the stream is given up. */
  datatype Trip = Trip(first: Queued, dial: Option<Cause>, rounds: seq<Round>, expired: set<nat>)

  function Fresh(q: Queued): Request { Request(q.body, q.reliable, 0, false, []) }

  // ---------- what the loops do, request by request ----------

  /** Those waiting, then those the queues give up. */
  function Line(c: Client, queue: seq<Queued>): seq<nat> { c.ready + seq(|queue|, k => |c.reqs| + k) }

  function Before(c: Client, queue: seq<Queued>, i: nat): Request
    requires i < |c.reqs| + |queue|
  {
    if i < |c.reqs| then c.reqs[i] else Fresh(queue[i - |c.reqs|])
  }

  /** The first `n` requests of the line have had their turn: the others still wait ... */
  ghost predicate TurnedHeld(c: Client, queue: seq<Queued>, n: nat, d: Client) {
    && n <= |Line(c, queue)| && c.window == d.window && c.maxRetries == d.maxRetries
    && |d.reqs| == (if n <= |c.ready| then |c.reqs| else |c.reqs| + n - |c.ready|)
    && d.ready == (if n <= |c.ready| then c.ready[n..] else [])
  }

  /** ... those whose context was done have ended, the others count one more attempt, and
      no other request has changed; ... */
  ghost predicate TurnedReqs(c: Client, queue: seq<Queued>, turn: nat -> Turn, n: nat, d: Client)
    requires TurnedHeld(c, queue, n, d)
  {
    forall i {:trigger d.reqs[i]} | 0 <= i < |d.reqs| ::
      d.reqs[i] ==
      var r := Before(c, queue, i);
      if i !in Line(c, queue)[..n] then r
      else if turn(i).ContextDone? then r.(started := false, results := r.results + [Failure(EXPIRED)])
      else r.(started := true, attempts := r.attempts + 1)
  }

  /** ... and they are on the wire, in order, with the next sequence numbers. */
  ghost predicate TurnedWire(c: Client, queue: seq<Queued>, turn: nat -> Turn, n: nat, d: Client)
    requires TurnedHeld(c, queue, n, d)
  {
    var line := Line(c, queue);
    && c.pending <= d.pending && d.sequence == c.sequence + |d.pending| - |c.pending|
    && (forall k {:trigger d.pending[k]} | |c.pending| <= k < |d.pending| ::
          && d.pending[k].sequence == c.sequence + 1 + k - |c.pending|
          && d.pending[k].request in line[..n] && !turn(d.pending[k].request).ContextDone?)
    && (forall k {:trigger OnWire(d, line[k])} | 0 <= k < n && !turn(line[k]).ContextDone? :: OnWire(d, line[k]))
  }

  ghost predicate Turned(c: Client, queue: seq<Queued>, turn: nat -> Turn, n: nat, d: Client) {
    TurnedHeld(c, queue, n, d) && TurnedReqs(c, queue, turn, n, d) && TurnedWire(c, queue, turn, n, d)
  }

  /** No write has failed in the first `n` turns, except, with this error, in the last. */
  ghost predicate WritesAre(c: Client, queue: seq<Queued>, turn: nat -> Turn, n: nat, error: Option<Cause>)
    requires n <= |Line(c, queue)|
  {
    var line := Line(c, queue);
    && (forall k {:trigger turn(line[k])} | 0 <= k < n - 1 :: !turn(line[k]).WriteFails?)
    && (error.Some? <==> n > 0 && turn(line[n - 1]).WriteFails?)
    && (error.Some? ==> error.value == turn(line[n - 1]).cause)
  }

  /** The window has been filled as far as it goes: until a write failed, the line was at
      its end, or the window was full. */
  ghost predicate Filled(c: Client, queue: seq<Queued>, turn: nat -> Turn, n: nat, d: Client, error: Option<Cause>) {
    && Turned(c, queue, turn, n, d)
    && WritesAre(c, queue, turn, n, error)
    && (error.None? ==> n == |Line(c, queue)| || |d.pending| >= c.window)
  }

  /** A reply has been read: the request it names on the wire ends with the very result
      that came, or with an error if the reply does not fit it; a reply for no request on
      the wire, or one that does not fit, fails the stream. No other request changes. */
  ghost predicate Settled(c: Client, request: nat, result: Result, valid: bool, cause: Cause, d: Client) {
    && d.ready == c.ready && d.sequence == c.sequence && d.streaming == c.streaming
    && if exists k :: 0 <= k < |c.pending| && c.pending[k].request == request
       then
         && request < |c.reqs|
         && d.reqs == c.reqs[request := c.reqs[request].(
              started := false, results := c.reqs[request].results + [if valid then result else Failure(cause)])]
         && (exists k ::
               && 0 <= k < |c.pending| && c.pending[k].request == request
               && d.pending == c.pending[..k] + c.pending[k + 1..])
         && d.failed == if valid then None else Some(cause)
       else d.reqs == c.reqs && d.pending == c.pending && d.failed == Some(UNKNOWN)
  }

  datatype Outcome = Goes(next: Client) | Ends(last: Client, cause: Cause)

  /** What follows once the window is filled: wait for a request if nothing is on the
      wire, else take what the select picks. */
  ghost predicate Selected(m: Client, error: Option<Cause>, r: Round, o: Outcome) {
    if error.Some? then o == Ends(m, error.value)
    else if m.pending == [] then
      if m.ready == [] && m.window > 0 && r.next.Some?
      then o == Goes(m.(reqs := m.reqs + [Fresh(r.next.value)], ready := [|m.reqs|]))
      else o == Ends(m, CLOSED)
    else
      match r.event
      case Reply(request, result, valid) =>
        var d := if o.Goes? then o.next else o.last;
        && Settled(m, request, result, valid, BAD_REPLY, d)
        && (if d.failed.None? then o == Goes(d) else o == Ends(d, d.failed.value))
      case StreamError(cause) => o == Ends(m, cause)
      case TimedOut => o == Ends(m, EXPIRED)
      case PeerClosed => o == Ends(m, CLOSED)
  }

  ghost predicate RoundDoes(c: Client, r: Round, o: Outcome) {
    exists n: nat, m: Client, error: Option<Cause> ::
      Filled(c, r.queue, r.turn, n, m, error) && Selected(m, error, r, o)
  }

  /** The pipeline loop goes through the rounds until one ends the stream, or the peer is
      closed after the last. */
  ghost predicate PipelineRun(c: Client, rounds: seq<Round>, d: Client, cause: Cause)
    decreases |rounds|
  {
    if rounds == [] then d == c && cause == CLOSED
    else
      exists o: Outcome :: RoundDoes(c, rounds[0], o) &&
        if o.Ends? then d == o.last && cause == o.cause else PipelineRun(o.next, rounds[1..], d, cause)
  }

  function Holding(c: Client, t: Trip): Client {
    if c.ready == [] then c.(reqs := c.reqs + [Fresh(t.first)], ready := [|c.reqs|]) else c
  }

  /** One pass of the outer loop: a stream cannot be opened, or is opened and run until it
      fails; then every request held is retried with that error. */
  ghost predicate TripDoes(c: Client, t: Trip, d: Client) {
    var b := Holding(c, t);
    if t.dial.Some? then OrderInv(b) && d == Apply(b, Break(t.dial.value, t.expired))
    else
      exists e: Client, cause: Cause ::
        && PipelineRun(b.(streaming := true, sequence := 0), t.rounds, e, cause)
        && OrderInv(e) && d == Apply(e, Break(cause, t.expired))
  }

  ghost predicate TripsDo(c: Client, trips: seq<Trip>, d: Client)
    decreases |trips|
  {
    if trips == [] then d == c
    else exists m: Client :: TripDoes(c, trips[0], m) && TripsDo(m, trips[1..], d)
  }

  lemma {:induction false} ExecAppend(c: Client, acts: seq<Act>, a: Act)
    requires OrderInv(c)
    ensures OrderInv(Exec(c, acts)) && Exec(c, acts + [a]) == Apply(Exec(c, acts), a)
    decreases |acts|
  {
    if acts == [] {
      assert ([a])[1..] == [];
      ApplyKeepsOrder(c, a);
      assert Exec(Apply(c, a), []) == Apply(c, a);
    } else {
      assert (acts + [a])[1..] == acts[1..] + [a];
      ApplyKeepsOrder(c, acts[0]);
      ExecAppend(Apply(c, acts[0]), acts[1..], a);
    }
  }

  /** Some run of a lane with these settings ends in `c`. */
  ghost predicate Reachable(c: Client) {
    exists acts :: Exec(Idle(c.window, c.maxRetries), acts) == c
  }

  lemma ReachableInv(c: Client)
    requires Reachable(c)
    ensures Inv(c)
  {
    var acts :| Exec(Idle(c.window, c.maxRetries), acts) == c;
    IdleInv(c.window, c.maxRetries);
    ExecKeepsInv(Idle(c.window, c.maxRetries), acts);
  }

  lemma ReachableStep(c: Client, a: Act)
    requires Reachable(c)
    ensures OrderInv(c) && Reachable(Apply(c, a))
  {
    ReachableInv(c);
    var idle := Idle(c.window, c.maxRetries);
    IdleInv(c.window, c.maxRetries);
    var acts :| Exec(idle, acts) == c;
    ExecAppend(idle, acts, a);
    ApplyKeepsSettings(c, a);
    assert Exec(idle, acts + [a]) == Apply(c, a);
  }

  /** Retrying reads only the requests and the in-flight counter. */
  lemma {:induction false} RetryFrom(c: Client, d: Client, ids: seq<nat>, cause: Cause, expired: set<nat>)
    requires d == c.(ready := d.ready, pending := d.pending, streaming := d.streaming, failed := d.failed)
    requires InRange(c, ids)
    ensures
      Retry(d, ids, cause, expired)
      == Retry(c, ids, cause, expired).(pending := d.pending, streaming := d.streaming, failed := d.failed)
  {
    if ids != [] {
      assert InRange(c, ids[..|ids| - 1]);
      RetryFrom(c, d, ids[..|ids| - 1], cause, expired);
    }
  }

  // ---------- steps of these relations ----------

  lemma ReachableOrder(c: Client)
    requires Reachable(c)
    ensures OrderInv(c)
  {
    ReachableInv(c);
  }

  lemma TurnedNone(c: Client, queue: seq<Queued>, turn: nat -> Turn)
    requires Reachable(c)
    ensures Turned(c, queue, turn, 0, c) && WritesAre(c, queue, turn, 0, None)
  {
    ReachableOrder(c);
  }

  /** The client after the next request has been taken off the queues, if none waits. */
  function Taken(c: Client, queue: seq<Queued>, n: nat, b: Client): Client
    requires b.ready == [] ==> |c.ready| <= n < |c.ready| + |queue|
  {
    if b.ready == [] then b.(reqs := b.reqs + [Fresh(queue[n - |c.ready|])], ready := [|b.reqs|]) else b
  }

  /** How many the queues have given up for the first `n` turns. */
  function UsedUp(c: Client, n: nat): nat { if n <= |c.ready| then 0 else n - |c.ready| }

  ghost predicate MayTurn(c: Client, queue: seq<Queued>, n: nat, b: Client) {
    OrderInv(c) && TurnedHeld(c, queue, n, b) && (b.ready != [] || n < |c.ready| + |queue|)
  }

  lemma NextOf(c: Client, queue: seq<Queued>, n: nat, b: Client)
    requires MayTurn(c, queue, n, b)
    ensures b.ready == [] ==> |c.ready| <= n < |c.ready| + |queue|
    ensures n < |Line(c, queue)| && Taken(c, queue, n, b).ready != []
    ensures Taken(c, queue, n, b).ready[0] == Line(c, queue)[n] < |Taken(c, queue, n, b).reqs|
    ensures Line(c, queue)[n] !in Line(c, queue)[..n]
    ensures Line(c, queue)[..n + 1] == Line(c, queue)[..n] + [Line(c, queue)[n]]
  {
    var line := Line(c, queue);
    assert line[..n + 1] == line[..n] + [line[n]];
    forall k | 0 <= k < n ensures line[k] < line[n] { }
  }

  lemma NextIs(c: Client, queue: seq<Queued>, n: nat, b: Client)
    requires MayTurn(c, queue, n, b)
    requires b.ready == [] ==> |c.ready| <= n < |c.ready| + |queue|
    ensures n < |Line(c, queue)| && Taken(c, queue, n, b).ready != []
    ensures Taken(c, queue, n, b).ready[0] == Line(c, queue)[n]
  {
    NextOf(c, queue, n, b);
  }

  lemma HeldNext(c: Client, queue: seq<Queued>, n: nat, b: Client, d: Client)
    requires MayTurn(c, queue, n, b)
    requires b.ready == [] ==> |c.ready| <= n < |c.ready| + |queue|
    requires
      var a := Taken(c, queue, n, b);
      && a.ready != [] && d.ready == a.ready[1..] && |d.reqs| == |a.reqs|
      && d.window == b.window && d.maxRetries == b.maxRetries
    ensures TurnedHeld(c, queue, n + 1, d)
  {
    NextOf(c, queue, n, b);
  }

  lemma ReqsNext(c: Client, queue: seq<Queued>, turn: nat -> Turn, n: nat, b: Client, d: Client)
    requires MayTurn(c, queue, n, b) && TurnedReqs(c, queue, turn, n, b) && TurnedHeld(c, queue, n + 1, d)
    requires b.ready == [] ==> |c.ready| <= n < |c.ready| + |queue|
    requires
      var a := Taken(c, queue, n, b);
      var i := Line(c, queue)[n];
      && i < |a.reqs| && |d.reqs| == |a.reqs|
      && (forall j | 0 <= j < |d.reqs| && j != i :: d.reqs[j] == a.reqs[j])
      && d.reqs[i] ==
         var r := a.reqs[i];
         if turn(i).ContextDone? then r.(started := false, results := r.results + [Failure(EXPIRED)])
         else r.(started := true, attempts := r.attempts + 1)
    ensures TurnedReqs(c, queue, turn, n + 1, d)
  {
    NextOf(c, queue, n, b);
  }

  lemma WireNext(c: Client, queue: seq<Queued>, turn: nat -> Turn, n: nat, b: Client, d: Client)
    requires MayTurn(c, queue, n, b) && TurnedWire(c, queue, turn, n, b) && TurnedHeld(c, queue, n + 1, d)
    requires
      var i := Line(c, queue)[n];
      if turn(i).ContextDone? then d.pending == b.pending && d.sequence == b.sequence
      else d.pending == b.pending + [Pending(i, b.sequence + 1)] && d.sequence == b.sequence + 1
    ensures TurnedWire(c, queue, turn, n + 1, d)
  {
    NextOf(c, queue, n, b);
    var line := Line(c, queue);
    forall k | 0 <= k < n + 1 && !turn(line[k]).ContextDone? ensures OnWire(d, line[k]) {
      if k < n {
        assert OnWire(b, line[k]);
        var j :| 0 <= j < |b.pending| && b.pending[j].request == line[k];
        assert d.pending[j].request == line[k];
      } else {
        assert d.pending[|b.pending|].request == line[k];
      }
    }
  }

  /** The oldest request waiting has had its turn. */
  ghost predicate Served(a: Client, t: Turn, d: Client) {
    && a.ready != [] && a.ready[0] < |a.reqs| && d.ready == a.ready[1..]
    && d.window == a.window && d.maxRetries == a.maxRetries
    && var i := a.ready[0];
       if t.ContextDone?
       then
         && d.reqs == a.reqs[i := a.reqs[i].(started := false, results := a.reqs[i].results + [Failure(EXPIRED)])]
         && d.pending == a.pending && d.sequence == a.sequence
       else
         && d.reqs == a.reqs[i := a.reqs[i].(started := true, attempts := a.reqs[i].attempts + 1)]
         && d.pending == a.pending + [Pending(i, a.sequence + 1)] && d.sequence == a.sequence + 1
  }

  lemma TurnedNext(c: Client, queue: seq<Queued>, turn: nat -> Turn, n: nat, b: Client, a: Client, d: Client)
    requires MayTurn(c, queue, n, b) && Turned(c, queue, turn, n, b)
    requires b.ready == [] ==> |c.ready| <= n < |c.ready| + |queue|
    requires a == Taken(c, queue, n, b) && a.ready != [] && Served(a, turn(a.ready[0]), d)
    ensures Turned(c, queue, turn, n + 1, d)
  {
    NextIs(c, queue, n, b);
    HeldNext(c, queue, n, b, d);
    assert TurnedReqs(c, queue, turn, n + 1, d) by { ReqsNext(c, queue, turn, n, b, d); }
    assert TurnedWire(c, queue, turn, n + 1, d) by { WireNext(c, queue, turn, n, b, d); }
  }

  /** The pending entries are distinct, so a reply settles the one that it names. */
  lemma FoundSettled(c: Client, request: nat, k: nat, result: Result, valid: bool, cause: Cause, d: Client)
    requires OrderInv(c) && k < |c.pending| && c.pending[k].request == request
    requires d.ready == c.ready && d.sequence == c.sequence && d.streaming == c.streaming
    requires d.reqs == c.reqs[request := c.reqs[request].(
               started := false, results := c.reqs[request].results + [if valid then result else Failure(cause)])]
    requires d.pending == c.pending[..k] + c.pending[k + 1..] && d.failed == if valid then None else Some(cause)
    ensures Settled(c, request, result, valid, cause, d)
    ensures forall j | 0 <= j < |c.pending| && c.pending[j].request == request :: j == k
  {
  }

  lemma WritesNext(c: Client, queue: seq<Queued>, turn: nat -> Turn, n: nat)
    requires n < |Line(c, queue)| && WritesAre(c, queue, turn, n, None)
    ensures WritesAre(c, queue, turn, n + 1,
                      match turn(Line(c, queue)[n]) case WriteFails(cause) => Some(cause) case _ => None)
  {
  }

  lemma FilledSo(c: Client, queue: seq<Queued>, turn: nat -> Turn, n: nat, d: Client, error: Option<Cause>)
    requires Turned(c, queue, turn, n, d) && WritesAre(c, queue, turn, n, error)
    requires error.None? ==> n == |Line(c, queue)| || |d.pending| >= c.window
    ensures exists n: nat :: Filled(c, queue, turn, n, d, error)
  {
    assert Filled(c, queue, turn, n, d, error);
  }

  lemma RoundMade(c: Client, r: Round, n: nat, m: Client, error: Option<Cause>, o: Outcome)
    requires Filled(c, r.queue, r.turn, n, m, error) && Selected(m, error, r, o)
    ensures RoundDoes(c, r, o)
  {
  }

  lemma RoundEnds(c: Client, rounds: seq<Round>, d: Client, cause: Cause)
    requires rounds != [] && RoundDoes(c, rounds[0], Ends(d, cause))
    ensures PipelineRun(c, rounds, d, cause)
  {
  }

  lemma RoundGoes(c: Client, rounds: seq<Round>, next: Client)
    requires rounds != [] && RoundDoes(c, rounds[0], Goes(next))
    ensures forall d, cause | PipelineRun(next, rounds[1..], d, cause) :: PipelineRun(c, rounds, d, cause)
  {
    forall d, cause | PipelineRun(next, rounds[1..], d, cause) ensures PipelineRun(c, rounds, d, cause) {
      var o := Goes(next);
      assert RoundDoes(c, rounds[0], o) && PipelineRun(o.next, rounds[1..], d, cause);
    }
  }

  lemma TripGoes(c: Client, trips: seq<Trip>, next: Client)
    requires trips != [] && TripDoes(c, trips[0], next)
    ensures forall d | TripsDo(next, trips[1..], d) :: TripsDo(c, trips, d)
  {
  }

  /** Closing ends every request held, and no other. */
  lemma CloseEach(c: Client)
    requires OrderInv(c) && Enabled(c, Close)
    ensures InRange(c, c.ready) && Apply(c, Close) == CloseAll(c, c.ready).(ready := [], closed := true)
    ensures CloseAll(c, c.ready) == c.(reqs := CloseAll(c, c.ready).reqs, inFlight := CloseAll(c, c.ready).inFlight)
    ensures forall i | 0 <= i < |c.reqs| ::
              CloseAll(c, c.ready).reqs[i].results == c.reqs[i].results + if i in c.ready then [Failure(CLOSED)] else []
  {
    LiveInRange(c);
    CloseKeepsRest(c, c.ready);
    forall i: nat | i < |c.reqs|
      ensures CloseAll(c, c.ready).reqs[i].results
              == c.reqs[i].results + if i in c.ready then [Failure(CLOSED)] else []
    {
      CloseByRequest(c, c.ready, i);
    }
  }

  lemma ClosedLane(c: Client)
    requires Reachable(c) && c.closed
    ensures c.inFlight == 0 && forall i | 0 <= i < |c.reqs| :: |c.reqs[i].results| == 1
  {
    var acts :| Exec(Idle(c.window, c.maxRetries), acts) == c;
    LaneConserves(c.window, c.maxRetries, acts);
  }

  class Lane {
    const window: nat
    const maxRetries: nat
    var reqs: seq<Request>
    var inFlight: int
    var sequence: nat
    var streaming: bool
    var closed: bool

    /** The lane together with the lists its goroutine holds in local variables. */
    ghost function State(ready: seq<nat>, pending: seq<Pending>, failed: Option<Cause>): Client
      reads this
    {
      Client(window, maxRetries, reqs, ready, pending, sequence, inFlight, streaming, failed, closed)
    }

    constructor (window: nat, maxRetries: nat)
      ensures State([], [], None) == Idle(window, maxRetries)
    {
      this.window := window;
      this.maxRetries := maxRetries;
      reqs, inFlight, sequence, streaming, closed := [], 0, 0, false, false;
    }

    method FinishRequest(i: nat, result: Result)
      requires i < |reqs|
      modifies this`reqs, this`inFlight
      ensures forall ready, pending, failed ::
                State(ready, pending, failed) == Finish(old(State(ready, pending, failed)), i, result)
      ensures reqs == old(reqs)[i := old(reqs)[i].(started := false, results := old(reqs)[i].results + [result])]
      ensures inFlight == old(inFlight) - if old(reqs)[i].started then 1 else 0
    {
      var request := reqs[i];
      if request.started {
        inFlight := inFlight - 1;
      }
      reqs := reqs[i := request.(started := false, results := request.results + [result])];
    }

    method RetryRequests(requests: seq<nat>, cause: Cause, expired: set<nat>) returns (retry: seq<nat>)
      requires forall k | 0 <= k < |requests| :: requests[k] < |reqs|
      modifies this`reqs, this`inFlight
      ensures State(retry, [], None) == Retry(old(State([], [], None)), requests, cause, expired)
    {
      retry := [];
      for k := 0 to |requests|
        invariant |reqs| == |old(reqs)|
        invariant State(retry, [], None) == Retry(old(State([], [], None)), requests[..k], cause, expired)
      {
        assert requests[..k + 1][..k] == requests[..k];
        var i := requests[k];
        var request := reqs[i];
        if i in expired {
          FinishRequest(i, Failure(EXPIRED));
        } else if !request.started {
          retry := retry + [i];
        } else if request.reliable && request.attempts <= maxRetries && cause.retryable {
          retry := retry + [i];
        } else if !request.reliable {
          FinishRequest(i, Success([]));
        } else {
          FinishRequest(i, Failure(cause));
        }
      }
      assert requests[..|requests|] == requests;
    }

    method FinishRequests(requests: seq<nat>)
      requires forall k | 0 <= k < |requests| :: requests[k] < |reqs|
      modifies this`reqs, this`inFlight
      ensures State(requests, [], None) == CloseAll(old(State(requests, [], None)), requests)
    {
      for k := 0 to |requests|
        invariant |reqs| == |old(reqs)|
        invariant State(requests, [], None) == CloseAll(old(State(requests, [], None)), requests[..k])
      {
        assert requests[..k + 1][..k] == requests[..k];
        FinishRequest(requests[k], Failure(CLOSED));
      }
      assert requests[..|requests|] == requests;
    }

    /** Takes a request off the queues. */
    method Take(q: Queued, pending: seq<Pending>) returns (ready: seq<nat>)
      requires !closed && (streaming ==> |pending| < window) && Reachable(State([], pending, None))
      modifies this`reqs
      ensures Reachable(State(ready, pending, None))
      ensures ready == [|old(reqs)|] && reqs == old(reqs) + [Fresh(q)]
    {
      ReachableStep(State([], pending, None), Dequeue(q.body, q.reliable));
      ready := [|reqs|];
      reqs := reqs + [Request(q.body, q.reliable, 0, false, [])];
    }

    /** newRequestFrame, the bookkeeping before the write, and the write itself. */
    method SendRequest(i: nat, pending: seq<Pending>, ghost rest: seq<nat>) returns (longer: seq<Pending>)
      requires i < |reqs|
      modifies this`reqs, this`inFlight, this`sequence
      ensures State(rest, longer, None) == SendNext(old(State([i] + rest, pending, None)))
      ensures sequence == old(sequence) + 1 && longer == pending + [Pending(i, sequence)]
      ensures reqs == old(reqs)[i := old(reqs)[i].(started := true, attempts := old(reqs)[i].attempts + 1)]
      ensures inFlight == old(inFlight) + if old(reqs)[i].started then 0 else 1
    {
      sequence := sequence + 1;
      var request := reqs[i];
      if !request.started {
        inFlight := inFlight + 1;
      }
      reqs := reqs[i := request.(started := true, attempts := request.attempts + 1)];
      longer := pending + [Pending(i, sequence)];
    }

    /** The turn of the oldest request waiting. */
    method GiveTurn(t: Turn, ready: seq<nat>, wire: seq<Pending>) returns (pending: seq<Pending>)
      requires streaming && !closed && Reachable(State(ready, wire, None)) && ready != [] && |wire| < window
      requires ready[0] < |reqs|
      modifies this`reqs, this`inFlight, this`sequence
      ensures Reachable(State(ready[1..], pending, None))
      ensures Served(old(State(ready, wire, None)), t, State(ready[1..], pending, None))
    {
      ghost var now := State(ready, wire, None);
      assert ready == [ready[0]] + ready[1..];
      if t.ContextDone? {
        ReachableStep(now, Skip(EXPIRED));
        FinishRequest(ready[0], Failure(EXPIRED));
        pending := wire;
      } else {
        ReachableStep(now, Send);
        pending := SendRequest(ready[0], wire, ready[1..]);
      }
    }

    /** The next turn, of a request carried over or one from the queues. */
    method GoTurn(waiting: seq<nat>, wire: seq<Pending>, queue: seq<Queued>, taken: nat, turn: nat -> Turn,
                  ghost c: Client, ghost n: nat)
      returns (ready: seq<nat>, pending: seq<Pending>, used: nat, error: Option<Cause>)
      requires streaming && !closed && Reachable(State(waiting, wire, None)) && |wire| < window
      requires Reachable(c) && Turned(c, queue, turn, n, State(waiting, wire, None))
      requires taken == UsedUp(c, n) <= |queue| && (waiting != [] || taken < |queue|)
      requires WritesAre(c, queue, turn, n, None)
      modifies this`reqs, this`inFlight, this`sequence
      ensures Reachable(State(ready, pending, None)) && Turned(c, queue, turn, n + 1, State(ready, pending, None))
      ensures taken <= used == UsedUp(c, n + 1) <= |queue| && |ready| - used < |waiting| - taken
      ensures WritesAre(c, queue, turn, n + 1, error)
    {
      ghost var before := State(waiting, wire, None);
      ready, used := waiting, taken;
      if ready == [] {
        ready := Take(queue[taken], wire);
        used := taken + 1;
      }
      ghost var now := State(ready, wire, None);
      ReachableOrder(c);
      ReachableOrder(now);
      NextOf(c, queue, n, before);
      assert now == Taken(c, queue, n, before);
      var t := turn(ready[0]);
      pending := GiveTurn(t, ready, wire);
      TurnedNext(c, queue, turn, n, before, now, State(ready[1..], pending, None));
      WritesNext(c, queue, turn, n);
      ready, error := ready[1..], if t.WriteFails? then Some(t.cause) else None;
    }

    /** The inner loop of runPipeline: carried-over requests first, then requests
        from the queues, until the window is full, the queues are empty or a write
        fails. A request whose context is done ends without using a sequence number. */
    method Fill(waiting: seq<nat>, wire: seq<Pending>, queue: seq<Queued>, turn: nat -> Turn)
      returns (ready: seq<nat>, pending: seq<Pending>, error: Option<Cause>)
      requires streaming && !closed && Reachable(State(waiting, wire, None))
      modifies this`reqs, this`inFlight, this`sequence
      ensures Reachable(State(ready, pending, None))
      ensures exists n: nat ::
                Filled(old(State(waiting, wire, None)), queue, turn, n, State(ready, pending, None), error)
    {
      ready, pending, error := waiting, wire, None;
      ghost var n: nat := 0;
      ghost var start := State(waiting, wire, None);
      var taken := 0;
      TurnedNone(start, queue, turn);
      while |pending| < window && (ready != [] || taken < |queue|)
        invariant streaming && !closed && Reachable(State(ready, pending, None))
        invariant Turned(start, queue, turn, n, State(ready, pending, None))
        invariant taken == UsedUp(start, n) <= |queue|
        invariant error.None? && WritesAre(start, queue, turn, n, None)
        decreases |queue| - taken + |ready|
      {
        ready, pending, taken, error := GoTurn(ready, pending, queue, taken, turn, start, n);
        n := n + 1;
        if error.Some? { break; }
      }
      FilledSo(start, queue, turn, n, State(ready, pending, None), error);
    }

    /** A reply: it ends the request it names, if it is on the wire. */
    method Accept(request: nat, result: Result, valid: bool, cause: Cause, ready: seq<nat>, wire: seq<Pending>)
      returns (pending: seq<Pending>, failed: Option<Cause>)
      requires streaming && !closed && Reachable(State(ready, wire, None))
      modifies this`reqs, this`inFlight
      ensures Reachable(State(ready, pending, failed))
      ensures Settled(old(State(ready, wire, None)), request, result, valid, cause, State(ready, pending, failed))
      ensures (forall k | 0 <= k < |wire| :: wire[k].request != request) ==>
                reqs == old(reqs) && pending == wire && failed == Some(UNKNOWN)
      ensures forall k | 0 <= k < |wire| && wire[k].request == request ::
                && request < |old(reqs)| && pending == wire[..k] + wire[k + 1..]
                && failed == (if valid then None else Some(cause))
                && reqs == old(reqs)[request := old(reqs)[request].(
                     started := false,
                     results := old(reqs)[request].results + [if valid then result else Failure(cause)])]
    {
      pending, failed := wire, None;
      ghost var now := State(ready, wire, None);
      ReachableInv(now);
      ReachableStep(now, Receive(request, result, valid, cause));
      var k := Find(wire, request);
      if k < 0 { return wire, Some(UNKNOWN); }
      FinishRequest(wire[k].request, if valid then result else Failure(cause));
      pending := wire[..k] + wire[k + 1..];
      failed := if valid then None else Some(cause);
      FoundSettled(now, request, k, result, valid, cause, State(ready, pending, failed));
    }

    static method Find(pending: seq<Pending>, request: nat) returns (index: int)
      ensures index == Position(pending, request)
    {
      for i := 0 to |pending|
        invariant forall j | 0 <= j < i :: pending[j].request != request
      {
        if pending[i].request == request { return i; }
      }
      index := -1;
    }

    /** What follows once the window is filled. */
    method Select(waiting: seq<nat>, wire: seq<Pending>, wrote: Option<Cause>, r: Round)
      returns (left: seq<nat>, next: seq<Pending>, error: Option<Cause>, ghost failed: Option<Cause>)
      requires streaming && !closed && Reachable(State(waiting, wire, None))
      modifies this`reqs, this`inFlight
      ensures Reachable(State(left, next, failed)) && (failed.Some? ==> error == failed)
      ensures Selected(old(State(waiting, wire, None)), wrote, r,
                       if error.None? then Goes(State(left, next, None))
                       else Ends(State(left, next, failed), error.value))
    {
      left, next, error, failed := waiting, wire, wrote, None;
      if error.None? {
        if next == [] {
          if left != [] || window == 0 || r.next.None? {
            error := Some(CLOSED);
          } else {
            left := Take(r.next.value, next);
          }
        } else {
          match r.event
          case Reply(request, result, valid) =>
            next, error := Accept(request, result, valid, BAD_REPLY, left, next);
            failed := error;
          case StreamError(cause) => error := Some(cause);
          case TimedOut => error := Some(EXPIRED);
          case PeerClosed => error := Some(CLOSED);
        }
      }
    }

    /** One round of the loop. */
    method GoRound(waiting: seq<nat>, wire: seq<Pending>, r: Round)
      returns (left: seq<nat>, next: seq<Pending>, error: Option<Cause>, ghost failed: Option<Cause>)
      requires streaming && !closed && Reachable(State(waiting, wire, None))
      modifies this`reqs, this`inFlight, this`sequence
      ensures Reachable(State(left, next, failed)) && (failed.Some? ==> error == failed)
      ensures RoundDoes(old(State(waiting, wire, None)), r,
                        if error.None? then Goes(State(left, next, None))
                        else Ends(State(left, next, failed), error.value))
    {
      left, next, error := Fill(waiting, wire, r.queue, r.turn);
      ghost var m, wrote := State(left, next, None), error;
      ghost var n: nat :| Filled(old(State(waiting, wire, None)), r.queue, r.turn, n, m, wrote);
      left, next, error, failed := Select(left, next, error, r);
      RoundMade(old(State(waiting, wire, None)), r, n, m, wrote,
                if error.None? then Goes(State(left, next, None)) else Ends(State(left, next, failed), error.value));
    }

    /** Runs one stream until it fails. The result lists every request still held: those
        on the wire first, then those waiting. */
    method RunPipeline(waiting: seq<nat>, rounds: seq<Round>)
      returns (carry: seq<nat>, cause: Cause, ghost ready: seq<nat>, ghost pending: seq<Pending>,
               ghost failed: Option<Cause>)
      requires streaming && !closed && Reachable(State(waiting, [], None))
      modifies this`reqs, this`inFlight, this`sequence
      ensures Reachable(State(ready, pending, failed)) && carry == Live(State(ready, pending, failed))
      ensures failed.Some? ==> cause == failed.value
      ensures PipelineRun(old(State(waiting, [], None)), rounds, State(ready, pending, failed), cause)
    {
      var left: seq<nat>, wire: seq<Pending> := waiting, [];
      ready, pending, failed := left, wire, None;
      ghost var start := State(waiting, [], None);
      for j := 0 to |rounds|
        invariant streaming && !closed && Reachable(State(left, wire, None))
        invariant forall d, why | PipelineRun(State(left, wire, None), rounds[j..], d, why) ::
                    PipelineRun(start, rounds, d, why)
      {
        ghost var before := State(left, wire, None);
        var error;
        left, wire, error, failed := GoRound(left, wire, rounds[j]);
        assert rounds[j..][0] == rounds[j] && rounds[j..][1..] == rounds[j + 1..];
        if error.Some? {
          RoundEnds(before, rounds[j..], State(left, wire, failed), error.value);
          return Ids(wire) + left, error.value, left, wire, failed;
        }
        RoundGoes(before, rounds[j..], State(left, wire, None));
      }
      assert PipelineRun(State(left, wire, None), rounds[|rounds|..], State(left, wire, None), CLOSED);
      return Ids(wire) + left, CLOSED, left, wire, None;
    }

    /** Gives the stream up, or the attempt to open one, and retries what is held. */
    method GiveUp(carry: seq<nat>, cause: Cause, expired: set<nat>, ghost ready: seq<nat>, ghost pending: seq<Pending>,
                  ghost failed: Option<Cause>)
      returns (retry: seq<nat>)
      requires !closed && (streaming || carry != []) && Reachable(State(ready, pending, failed))
      requires carry == Live(State(ready, pending, failed)) && (failed.Some? ==> cause == failed.value)
      modifies this`reqs, this`inFlight, this`streaming
      ensures !streaming && Reachable(State(retry, [], None))
      ensures OrderInv(old(State(ready, pending, failed)))
      ensures State(retry, [], None) == Apply(old(State(ready, pending, failed)), Break(cause, expired))
    {
      ghost var now := State(ready, pending, failed);
      ReachableInv(now);
      LiveInRange(now);
      ReachableStep(now, Break(cause, expired));
      streaming := false;
      RetryFrom(now, State([], [], None), carry, cause, expired);
      retry := RetryRequests(carry, cause, expired);
    }

    /** One pass of the outer loop. */
    method GoTrip(held: seq<nat>, t: Trip) returns (carry: seq<nat>)
      requires !streaming && !closed && Reachable(State(held, [], None))
      modifies this`reqs, this`inFlight, this`sequence, this`streaming
      ensures !streaming && Reachable(State(carry, [], None))
      ensures TripDoes(old(State(held, [], None)), t, State(carry, [], None))
    {
      carry := held;
      if carry == [] { carry := Take(t.first, []); }
      ghost var now := State(carry, [], None);
      assert Live(now) == carry;
      if t.dial.Some? {
        carry := GiveUp(carry, t.dial.value, t.expired, carry, [], None);
      } else {
        ReachableStep(now, Open);
        streaming, sequence := true, 0;
        ghost var ready, pending, failed;
        var cause;
        carry, cause, ready, pending, failed := RunPipeline(carry, t.rounds);
        ghost var end := State(ready, pending, failed);
        carry := GiveUp(carry, cause, t.expired, ready, pending, failed);
        assert PipelineRun(now.(streaming := true, sequence := 0), t.rounds, end, cause);
      }
    }

    /** The goroutine, from start to the closing of the peer after these passes: when it
        returns, every request it ever took has exactly one result - what the passes have
        made of it, or that the lane was closed if it was still held - and nothing is in
        flight. */
    method Run(trips: seq<Trip>) returns (ghost held: Client)
      requires State([], [], None) == Idle(window, maxRetries)
      modifies this
      ensures closed && Reachable(State([], [], None))
      ensures inFlight == 0 && forall i | 0 <= i < |reqs| :: |reqs[i].results| == 1
      ensures TripsDo(Idle(window, maxRetries), trips, held) && |reqs| == |held.reqs|
      ensures forall i | 0 <= i < |reqs| ::
                reqs[i].results == held.reqs[i].results + if i in held.ready then [Failure(CLOSED)] else []
    {
      var carry: seq<nat> := [];
      ghost var start := Idle(window, maxRetries);
      assert Exec(start, []) == State([], [], None);
      for j := 0 to |trips|
        invariant !streaming && !closed && Reachable(State(carry, [], None))
        invariant forall d | TripsDo(State(carry, [], None), trips[j..], d) :: TripsDo(start, trips, d)
      {
        ghost var before := State(carry, [], None);
        carry := GoTrip(carry, trips[j]);
        assert trips[j..][0] == trips[j] && trips[j..][1..] == trips[j + 1..];
        TripGoes(before, trips[j..], State(carry, [], None));
      }
      held := State(carry, [], None);
      assert TripsDo(held, trips[|trips|..], held);
      Shut(carry);
    }

    method Shut(carry: seq<nat>)
      requires !streaming && !closed && Reachable(State(carry, [], None))
      modifies this
      ensures closed && Reachable(State([], [], None))
      ensures inFlight == 0 && forall i | 0 <= i < |reqs| :: |reqs[i].results| == 1
      ensures |reqs| == |old(reqs)| && forall i | 0 <= i < |reqs| ::
                reqs[i].results == old(reqs)[i].results + if i in carry then [Failure(CLOSED)] else []
    {
      ghost var now := State(carry, [], None);
      ReachableInv(now);
      ReachableStep(now, Close);
      CloseEach(now);
      FinishRequests(carry);
      closed := true;
      ClosedLane(State([], [], None));
    }
  }
}
