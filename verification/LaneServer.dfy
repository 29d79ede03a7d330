/** The server loop of one stream, as its code runs (Lane in
    cluster_transport_grpc_server.go), on the node's shared Request-ID cache. */
module LaneServers {
  import opened Wrappers
  import D = Dedupe
  import opened LaneSystem

  /** The answer is the one recorded for the execution the verdict names. */
  ghost predicate Recorded(w: D.Window, verdict: D.Verdict, key: D.Key, answer: D.Answer) {
    && (verdict.Fresh? || verdict.Wait?)
    && verdict.run < |w.runs| && w.runs[verdict.run].key == key && w.runs[verdict.run].done.Some?
    && var first := w.runs[verdict.run].done.value.answer;
       answer == if verdict.Fresh? then first else D.Replayed(first)
  }

  /** One iteration of the loop on a valid frame: refused by the window, answered,
      or - a wait cut short - ended without an answer. */
  ghost predicate Handled(st: Stream, next: Stream, verdict: D.Verdict, answer: Option<D.Answer>)
    requires st.taken < |st.frames|
  {
    var read := Accepting(st, true, verdict);
    if verdict.Collision? || verdict.Full? then next == read && answer.None?
    else if read.taken == 0 then false
    else if answer.Some? then next == Replying(read, answer.value)
    else verdict.Wait? && next == read.(handling := Stopped)
  }

  /** What Handled asks for, given the loop's variables after the frame was read. */
  lemma HandledCases(st: Stream, f: Frame, read: Stream, verdict: D.Verdict, answer: Option<D.Answer>)
    requires st.taken < |st.frames| && f == st.frames[st.taken] && Validates(st, f, true) && st.handling.Idle?
    requires read == st.(taken := st.taken + 1, bound := if st.expected == 1 then Some(f.origin) else st.bound)
    ensures (verdict.Collision? || verdict.Full?) && answer.None? ==>
              Handled(st, Answering(read, f.sequence, f.request, REFUSED).(expected := st.expected + 1), verdict,
                      answer)
    ensures (verdict.Fresh? || verdict.Wait?) && answer.Some? ==>
              Handled(st, Answering(read, f.sequence, f.request, answer.value).(expected := st.expected + 1), verdict,
                      answer)
    ensures verdict.Wait? && answer.None? ==> Handled(st, read.(handling := Stopped), verdict, answer)
  {
  }

  function Refusal(f: Frame): Reply { Reply(f.sequence, f.request, D.Answer([], Some("refused"))) }

  class LaneServer {
    const cache: D.Cache
    var taken: nat
    var expected: nat
    var bound: Option<D.Origin>
    var replies: seq<Reply>
    var stopped: bool

    /** The server's end of a stream that carries `frames`. */
    ghost function State(frames: seq<Frame>): Stream
      reads this
    {
      Stream(frames, taken, expected, bound, if stopped then Stopped else Idle, replies, 0)
    }

    constructor (cache: D.Cache)
      ensures this.cache == cache && State([]) == FRESH
    {
      this.cache := cache;
      taken, expected, bound, replies, stopped := 0, 1, None, [], false;
    }

    method Answer(frame: Frame, answer: D.Answer)
      modifies this`replies
      ensures replies == old(replies) + [Reply(frame.sequence, frame.request, answer)]
    {
      replies := replies + [Reply(frame.sequence, frame.request, answer)];
    }

    /** Reads and validates the next frame, and binds the stream to its first sender. */
    method Admit(frames: seq<Frame>, accepted: bool) returns (ok: bool)
      requires !stopped && taken < |frames|
      modifies this
      ensures ok == Validates(old(State(frames)), frames[old(taken)], accepted)
      ensures !ok ==> stopped && State(frames) == Accepting(old(State(frames)), accepted, D.Full)
      ensures ok ==>
                State(frames) == old(State(frames)).(
                  taken := old(taken) + 1,
                  bound := if old(expected) == 1 then Some(frames[old(taken)].origin) else old(bound))
      ensures ok <==>
                && accepted && frames[old(taken)].sequence == old(expected)
                && (old(expected) > 1 ==> old(bound) == Some(frames[old(taken)].origin))
      ensures stopped == !ok && expected == old(expected)
      ensures bound == if ok && old(expected) == 1 then Some(frames[old(taken)].origin) else old(bound)
      ensures replies == if ok then old(replies) else old(replies) + [Refusal(frames[old(taken)])]
    {
      var frame := frames[taken];
      taken := taken + 1;
      ok := accepted && frame.sequence == expected && (expected > 1 ==> bound == Some(frame.origin));
      if !ok {
        Answer(frame, REFUSED);
        stopped := true;
      } else if expected == 1 {
        bound := Some(frame.origin);
      }
    }

    /** Sends the answer or the window's refusal; a wait without an answer ends the loop. */
    method Respond(frame: Frame, waited: bool, answer: Option<D.Answer>)
      requires !stopped
      modifies this`replies, this`expected, this`stopped
      ensures stopped == (answer.None? && waited)
      ensures replies == if stopped then old(replies)
                         else
                           old(replies) +
                           [Reply(frame.sequence, frame.request, if answer.Some? then answer.value else REFUSED)]
      ensures expected == if stopped then old(expected) else old(expected) + 1
    {
      if answer.None? && waited {
        stopped := true;
        return;
      }
      Answer(frame, if answer.Some? then answer.value else REFUSED);
      expected := expected + 1;
    }

    /** One iteration. A frame that fails validation is answered and ends the loop;
        any other is answered from its dispatch, from an earlier execution, or with
        the window's refusal, and the next sequence number is expected. A wait that
        the stream's context cuts short ends the loop without an answer. */
    method Handle(frames: seq<Frame>, accepted: bool, seen: nat, givesUp: bool)
      returns (ghost verdict: D.Verdict, answer: Option<D.Answer>)
      requires !stopped && taken < |frames| && D.Inv(cache.State()) && seen <= cache.now
      modifies this, cache
      ensures D.Inv(cache.State()) && taken == old(taken) + 1
      ensures verdict == old(D.Judge(cache.State(), KeyOf(frames[taken]), frames[taken].body, seen))
      ensures !Validates(old(State(frames)), frames[old(taken)], accepted) ==>
                State(frames) == Accepting(old(State(frames)), accepted, D.Full) && stopped
      ensures Validates(old(State(frames)), frames[old(taken)], accepted) ==>
                && Handled(old(State(frames)), State(frames), verdict, answer)
                && (answer.Some? ==> Recorded(cache.State(), verdict, KeyOf(frames[old(taken)]), answer.value))
      ensures var f := frames[old(taken)];
              if !accepted || f.sequence != old(expected) || (old(expected) > 1 && old(bound) != Some(f.origin))
              then
                && stopped && expected == old(expected) && bound == old(bound)
                && replies == old(replies) + [Refusal(f)] && cache.State() == old(cache.State())
              else
                && stopped == (verdict.Wait? && answer.None?)
                && (verdict.Wait? ==>
                      verdict.run < |cache.runs| && (stopped <==> givesUp || cache.runs[verdict.run].done.None?))
                && bound == (if old(expected) == 1 then Some(f.origin) else old(bound))
                && expected == (if stopped then old(expected) else old(expected) + 1)
                && (verdict.Fresh? ==> answer.Some?) && (verdict.Collision? || verdict.Full? ==> answer.None?)
                && replies == old(replies) + if stopped then []
                                             else if answer.Some? then [Reply(f.sequence, f.request, answer.value)]
                                             else [Refusal(f)]
    {
      var frame := frames[taken];
      ghost var st := State(frames);
      verdict := D.Judge(cache.State(), KeyOf(frame), frame.body, seen);
      answer := None;
      var ok := Admit(frames, accepted);
      if ok {
        var found;
        found, answer := cache.Execute(KeyOf(frame), frame.body, seen, givesUp);
        HandledCases(st, frame, State(frames), verdict, answer);
        Respond(frame, found.Wait?, answer);
      }
    }

    /** Serves a lane's stream until it ends. On frames a lane writes, only the checks
        on the receiving node's side can refuse one: sequence and binding never do. */
    method Serve(origin: D.Origin, frames: seq<Frame>) returns (refused: bool)
      requires State(frames) == FRESH.(frames := frames) && D.Inv(cache.State())
      requires FramesOk(origin, State(frames))
      modifies this, cache
      ensures D.Inv(cache.State()) && RepliesOk(State(frames)) && LoopOk(origin, State(frames))
      ensures stopped || taken == |frames| == |replies|
      ensures stopped && !refused ==> |replies| < taken
    {
      refused := false;
      while taken < |frames| && !stopped
        invariant taken <= |frames| && D.Inv(cache.State()) && StreamOk(origin, State(frames))
        invariant stopped && !refused ==> |replies| < taken
        decreases |frames| - taken
      {
        var accepted: bool, givesUp: bool := *, *;
        var seen: nat :| seen <= cache.now;
        ghost var st := State(frames);
        ghost var verdict;
        var answer;
        verdict, answer := Handle(frames, accepted, seen, givesUp);
        AcceptingOk(origin, st, accepted, if accepted then verdict else D.Full);
        refused := !accepted;
        if accepted { HandledOk(origin, st, State(frames), verdict, answer); }
      }
    }
  }

  lemma HandledOk(origin: D.Origin, st: Stream, next: Stream, verdict: D.Verdict, answer: Option<D.Answer>)
    requires StreamOk(origin, st) && st.handling.Idle? && st.taken < |st.frames|
    requires Handled(st, next, verdict, answer)
    ensures StreamOk(origin, next) && (next.handling.Stopped? ==> |next.replies| < next.taken)
  {
    AcceptingOk(origin, st, true, verdict);
    if answer.Some? { ReplyingOk(origin, Accepting(st, true, verdict), answer.value); }
  }
}
