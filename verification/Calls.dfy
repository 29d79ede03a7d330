/** The audio or video call of a topic, from invitation to end, over any sequence of
    events (calls.go, calls_agora.go). Sessions are named by their ids. A call has
    parties; those that hold media credentials are its participants. */
module Calls {
  import opened Wrappers

  datatype Party = Party(uid: nat, agora: bool)

  datatype Call = Call(
    number: nat,
    parties: map<string, Party>,
    accepted: bool,
    joined: bool,              // some session has been given credentials
    originator: nat,
    originatorSid: string)

  datatype State = Accepted | Finished | Missed | Declined | Disconnected
  datatype Record = Record(number: nat, state: State)

  /** A topic: its kind, the participant limit, the last message id, the call in
      progress and the call states recorded so far. */
  datatype Topic = Topic(p2p: bool, max: nat, lastId: nat, call: Option<Call>, log: seq<Record>)

  /** `saved` tells whether the state message of the event could be stored. */
  datatype Event =
    | Invite(uid: nat, sid: string)
    | Join(uid: nat, sid: string, refresh: bool, issued: bool, saved: bool)
    | Answer(uid: nat, sid: string, accept: bool, saved: bool)
    | Leave(uid: nat, sid: string, saved: bool)
    | HangUp(uid: nat, sid: string, admin: bool, saved: bool)
    | Disconnect(gone: set<string>, saved: bool)
    | Timeout(saved: bool)

  function Participants(parties: map<string, Party>): set<string> {
    set s | s in parties && parties[s].agora
  }

  function Logged(t: Topic, state: State, saved: bool): Topic
    requires t.call.Some?
  {
    if saved then t.(log := t.log + [Record(t.call.value.number, state)]) else t
  }

  /** maybeEndCallInProgress; `from` is None when the server ends the call. */
  function Ended(t: Topic, from: Option<nat>, timeout: bool, saved: bool): Topic
    requires t.call.Some?
  {
    var c := t.call.value;
    var state :=
      if from.Some? && c.accepted then Finished
      else if from.Some? then (if from.value == c.originator then Missed else Declined)
      else if timeout then Missed
      else Disconnected;
    Logged(t, state, saved).(call := None)
  }

  function Joining(t: Topic, e: Event): Topic
    requires e.Join? && t.call.Some?
  {
    var c := t.call.value;
    var holds := e.sid in c.parties && c.parties[e.sid].agora;
    if e.refresh && !holds then t
    else if !holds && |Participants(c.parties)| >= t.max then t
    else if !e.issued then t
    else if !e.refresh && !c.accepted && !e.saved then t
    else
      var marked := if !e.refresh && !c.accepted then Logged(t, Accepted, true) else t;
      var party := Party(if e.sid in c.parties then c.parties[e.sid].uid else e.uid, true);
      marked.(call := Some(c.(parties := c.parties[e.sid := party], accepted := c.accepted || !e.refresh,
                              joined := true)))
  }

  /** handleP2PCallAnswer gets past its checks. */
  predicate Answers(t: Topic, e: Event)
    requires e.Answer? && t.call.Some?
  {
    && t.p2p && |t.call.value.parties| == 1
    && t.call.value.originatorSid != e.sid && t.call.value.originator != e.uid
  }

  function Answering(t: Topic, e: Event): Topic
    requires e.Answer? && t.call.Some?
  {
    if Answers(t, e) && e.accept && e.saved
    then
      var c := t.call.value;
      Logged(t, Accepted, true).(call := Some(c.(parties := c.parties[e.sid := Party(e.uid, false)], accepted := true)))
    else t
  }

  function Without(t: Topic, sids: set<string>): Topic
    requires t.call.Some?
  {
    t.(call := Some(t.call.value.(parties := t.call.value.parties - sids)))
  }

  /** The participants among `sids` are removed; the last one ends the call. */
  function Removing(t: Topic, sids: set<string>, from: nat, saved: bool): Topic
    requires t.call.Some?
  {
    var rest := Without(t, sids);
    if Participants(rest.call.value.parties) == {} then Ended(rest, Some(from), false, saved) else rest
  }

  function Leaving(t: Topic, e: Event): Topic
    requires e.Leave? && t.call.Some?
  {
    var c := t.call.value;
    if e.sid in c.parties && c.parties[e.sid].agora && c.parties[e.sid].uid == e.uid
    then Removing(t, {e.sid}, e.uid, e.saved) else t
  }

  predicate MayHangUp(t: Topic, e: Event)
    requires e.HangUp? && t.call.Some?
  {
    var c := t.call.value;
    if !t.p2p then e.uid == c.originator || e.admin
    else if |c.parties| == 2 then e.sid in c.parties
    else if |c.parties| == 1 then e.uid != c.originator || e.sid == c.originatorSid
    else true
  }

  /** The user in whose name a disconnect ends the call: any of the sessions gone. */
  ghost function LastOf(parties: map<string, Party>, sids: set<string>): nat {
    if s :| s in sids && s in parties then parties[s].uid else 0
  }

  ghost function Apply(t: Topic, e: Event): Topic {
    if t.call.None?
    then
      if e.Invite?
      then t.(lastId := t.lastId + 1,
              call := Some(Call(t.lastId + 1, map[e.sid := Party(e.uid, false)], false, false, e.uid, e.sid)))
      else t
    else
      match e
      case Invite(_, _) => t
      case Join(_, _, _, _, _) => Joining(t, e)
      case Answer(_, _, _, _) => Answering(t, e)
      case Leave(_, _, _) => Leaving(t, e)
      case HangUp(uid, sid, admin, saved) => if MayHangUp(t, e) then Ended(t, Some(uid), false, saved) else t
      case Disconnect(gone, saved) =>
        var lost := gone * Participants(t.call.value.parties);
        if lost == {} then t else Removing(t, lost, LastOf(t.call.value.parties, lost), saved)
      case Timeout(saved) => Ended(t, None, true, saved)
  }

  ghost function Exec(t: Topic, events: seq<Event>): Topic
    decreases |events|
  {
    if events == [] then t else Exec(Apply(t, events[0]), events[1..])
  }

  function Quiet(p2p: bool, max: nat, lastId: nat): Topic { Topic(p2p, max, lastId, None, []) }

  // ---------- invariants ----------

  ghost predicate CallInv(t: Topic) {
    t.call.Some? ==>
      var c := t.call.value;
      && |Participants(c.parties)| <= t.max
      && (Participants(c.parties) != {} ==> c.joined)
      && (c.joined ==> c.accepted)
      && c.number <= t.lastId
  }

  predicate Terminal(s: State) { s != Accepted }

  ghost predicate LogInv(t: Topic) {
    && (forall i | 0 <= i < |t.log| :: t.log[i].number <= t.lastId)
    && (forall i | 0 <= i < |t.log| && t.log[i].state == Finished ::
          exists j :: 0 <= j < i && t.log[j] == Record(t.log[i].number, Accepted))
    && (forall i, j | 0 <= i < j < |t.log| && Terminal(t.log[i].state) :: t.log[j].number != t.log[i].number)
    && (t.call.Some? ==>
          && (forall i | 0 <= i < |t.log| && Terminal(t.log[i].state) :: t.log[i].number != t.call.value.number)
          && (t.call.value.accepted ==> Record(t.call.value.number, Accepted) in t.log))
  }

  ghost predicate Inv(t: Topic) { CallInv(t) && LogInv(t) }

  lemma FewerParticipants(parties: map<string, Party>, sids: set<string>)
    ensures Participants(parties - sids) == Participants(parties) - sids
    ensures |Participants(parties - sids)| <= |Participants(parties)|
  {
    assert Participants(parties) == Participants(parties - sids) + Participants(parties) * sids;
  }

  lemma OneMoreParticipant(parties: map<string, Party>, sid: string, p: Party)
    ensures
      Participants(parties[sid := p])
      == if p.agora then Participants(parties) + {sid} else Participants(parties) - {sid}
    ensures |Participants(parties) - {sid}| <= |Participants(parties)|
  {
    if sid in Participants(parties) {
      assert Participants(parties) == (Participants(parties) - {sid}) + {sid};
    } else {
      assert Participants(parties) - {sid} == Participants(parties);
    }
  }

  lemma RemovingKeepsCall(t: Topic, sids: set<string>, from: nat, saved: bool)
    requires CallInv(t) && t.call.Some?
    ensures CallInv(Removing(t, sids, from, saved))
  {
    FewerParticipants(t.call.value.parties, sids);
  }

  lemma JoiningKeepsCall(t: Topic, e: Event)
    requires CallInv(t) && e.Join? && t.call.Some?
    ensures CallInv(Joining(t, e))
  {
    var c := t.call.value;
    var d := Joining(t, e);
    if d != t {
      OneMoreParticipant(c.parties, e.sid, d.call.value.parties[e.sid]);
      if e.sid in Participants(c.parties) { assert Participants(c.parties) + {e.sid} == Participants(c.parties); }
    }
  }

  lemma AnsweringKeepsCall(t: Topic, e: Event)
    requires CallInv(t) && e.Answer? && t.call.Some?
    ensures CallInv(Answering(t, e))
  {
    OneMoreParticipant(t.call.value.parties, e.sid, Party(e.uid, false));
  }

  lemma ApplyKeepsCall(t: Topic, e: Event)
    requires CallInv(t)
    ensures CallInv(Apply(t, e))
  {
    if t.call.Some? {
      match e
      case Join(_, _, _, _, _) => JoiningKeepsCall(t, e);
      case Answer(_, _, _, _) => AnsweringKeepsCall(t, e);
      case Leave(uid, sid, saved) => RemovingKeepsCall(t, {sid}, uid, saved);
      case Disconnect(gone, saved) =>
        var lost := gone * Participants(t.call.value.parties);
        RemovingKeepsCall(t, lost, LastOf(t.call.value.parties, lost), saved);
      case _ =>
    } else if e.Invite? {
      assert Participants(map[e.sid := Party(e.uid, false)]) == {};
    }
  }

  /** What any event can add to the log: one record of the call in progress, which
      is then over or accepted. */
  ghost predicate LogStep(t: Topic, v: Topic) {
    || (&& v.log == t.log && v.lastId >= t.lastId
        && (v.call.Some? ==>
              || (t.call.Some? && v.call.value.number == t.call.value.number &&
                  v.call.value.accepted == t.call.value.accepted)
              || (t.call.None? && v.call.value.number == v.lastId > t.lastId && !v.call.value.accepted)))
    || (&& t.call.Some? && v.lastId == t.lastId
        && |v.log| == |t.log| + 1 && v.log[..|t.log|] == t.log && v.log[|t.log|].number == t.call.value.number
        && (if v.call.Some?
            then v.log[|t.log|].state == Accepted && v.call.value.number == t.call.value.number
            else Terminal(v.log[|t.log|].state) && (v.log[|t.log|].state == Finished ==> t.call.value.accepted)))
  }

  lemma LogSteps(t: Topic, e: Event)
    requires t.call.Some? && t.call.value.joined ==> t.call.value.accepted
    requires t.call.Some? && Participants(t.call.value.parties) != {} ==> t.call.value.joined
    ensures LogStep(t, Apply(t, e))
  {
  }

  lemma LogStepKeeps(t: Topic, v: Topic)
    requires LogInv(t) && CallInv(t) && LogStep(t, v)
    ensures LogInv(v)
  {
    if v.log != t.log {
      forall i | 0 <= i < |v.log| && v.log[i].state == Finished
        ensures exists j :: 0 <= j < i && v.log[j] == Record(v.log[i].number, Accepted)
      {
        if i < |t.log| {
          assert v.log[i] == t.log[i];
          var j :| 0 <= j < i && t.log[j] == Record(t.log[i].number, Accepted);
          assert v.log[j] == t.log[j];
        } else {
          var j :| 0 <= j < |t.log| && t.log[j] == Record(t.call.value.number, Accepted);
          assert v.log[j] == t.log[j];
        }
      }
    }
  }

  lemma ApplyKeepsInv(t: Topic, e: Event)
    requires Inv(t)
    ensures Inv(Apply(t, e))
  {
    ApplyKeepsCall(t, e);
    LogSteps(t, e);
    LogStepKeeps(t, Apply(t, e));
  }

  lemma ApplyKeepsMax(t: Topic, e: Event)
    ensures Apply(t, e).max == t.max
  {
  }

  lemma {:induction false} ExecKeepsInv(t: Topic, events: seq<Event>)
    requires Inv(t)
    ensures Inv(Exec(t, events)) && Exec(t, events).max == t.max
    decreases |events|
  {
    if events != [] {
      ApplyKeepsInv(t, events[0]);
      ApplyKeepsMax(t, events[0]);
      ExecKeepsInv(Apply(t, events[0]), events[1..]);
    }
  }

  lemma QuietInv(p2p: bool, max: nat, lastId: nat)
    ensures Inv(Quiet(p2p, max, lastId))
  {
  }

  // ---------- what every event sequence guarantees ----------

  /** The number of participants never exceeds the limit, nobody holds credentials
      in a call that was not accepted, and "finished" is recorded only for a call
      recorded as accepted before; a call ends at most once. */
  lemma CallsAreOrderly(p2p: bool, max: nat, lastId: nat, events: seq<Event>)
    ensures
      var t := Exec(Quiet(p2p, max, lastId), events);
      && (t.call.Some? ==>
            && |Participants(t.call.value.parties)| <= max
            && (Participants(t.call.value.parties) != {} ==> t.call.value.accepted))
      && (forall i | 0 <= i < |t.log| && t.log[i].state == Finished ::
            exists j :: 0 <= j < i && t.log[j] == Record(t.log[i].number, Accepted))
      && (forall i, j | 0 <= i < j < |t.log| && Terminal(t.log[i].state) :: t.log[j].number != t.log[i].number)
  {
    QuietInv(p2p, max, lastId);
    ExecKeepsInv(Quiet(p2p, max, lastId), events);
  }

  /** Once anyone has joined, a call in progress has a participant. */
  ghost predicate Occupied(t: Topic) {
    t.call.Some? && t.call.value.joined ==> Participants(t.call.value.parties) != {}
  }

  /** An "accept" from the session that is the only party and already holds
      credentials: it passes the checks once the originator has left. */
  predicate AcceptsAgain(t: Topic, e: Event) {
    && t.call.Some? && e.Answer? && Answers(t, e) && e.accept && e.saved
    && e.sid in t.call.value.parties && t.call.value.parties[e.sid].agora
  }

  lemma OnlyParty(parties: map<string, Party>, sid: string)
    requires |parties| == 1 && sid in parties
    ensures parties.Keys == {sid}
  {
    assert parties.Keys == (parties.Keys - {sid}) + {sid};
    assert |parties.Keys - {sid}| == 0;
  }

  /** The last participant's leaving or disconnect ends the call, so the call stays
      occupied - except in one case, and always in that one: the accept of a session
      that has already joined replaces its credentials by none. */
  lemma StaysOccupiedIff(t: Topic, e: Event)
    requires Inv(t) && Occupied(t)
    ensures Occupied(Apply(t, e)) <==> !AcceptsAgain(t, e)
  {
    if t.call.Some? {
      var c := t.call.value;
      match e
      case Join(_, sid, _, _, _) =>
        var d := Joining(t, e);
        if d != t { OneMoreParticipant(c.parties, sid, d.call.value.parties[sid]); }
      case Answer(uid, sid, _, _) =>
        OneMoreParticipant(c.parties, sid, Party(uid, false));
        if AcceptsAgain(t, e) {
          OnlyParty(c.parties, sid);
          assert Participants(c.parties) - {sid} == {};
          assert sid in Participants(c.parties);
        } else if sid !in Participants(c.parties) {
          assert Participants(c.parties) - {sid} == Participants(c.parties);
        }
      case _ =>
    }
  }

  ghost predicate NeverAgain(t: Topic, events: seq<Event>)
    decreases |events|
  {
    events == [] || (!AcceptsAgain(t, events[0]) && NeverAgain(Apply(t, events[0]), events[1..]))
  }

  lemma {:induction false} OccupiedAlong(t: Topic, events: seq<Event>)
    requires Inv(t) && Occupied(t) && NeverAgain(t, events)
    ensures Occupied(Exec(t, events))
    decreases |events|
  {
    if events != [] {
      StaysOccupiedIff(t, events[0]);
      ApplyKeepsInv(t, events[0]);
      OccupiedAlong(Apply(t, events[0]), events[1..]);
    }
  }

  /** So over every sequence without such an accept, a call that anyone has joined
      has a participant as long as it exists. */
  lemma JoinedCallsAreOccupied(p2p: bool, max: nat, lastId: nat, events: seq<Event>)
    requires NeverAgain(Quiet(p2p, max, lastId), events)
    ensures Occupied(Exec(Quiet(p2p, max, lastId), events))
  {
    QuietInv(p2p, max, lastId);
    OccupiedAlong(Quiet(p2p, max, lastId), events);
  }

  function InCall(max: nat, parties: map<string, Party>, accepted: bool, log: seq<Record>): Topic {
    Topic(true, max, 1, Some(Call(1, parties, accepted, accepted, 1, "a")), log)
  }

  lemma CallerJoins(max: nat)
    requires max >= 1
    ensures
      Apply(Apply(Quiet(true, max, 0), Invite(1, "a")), Join(1, "a", false, true, true))
      == InCall(max, map["a" := Party(1, true)], true, [Record(1, Accepted)])
  {
    assert Participants(map["a" := Party(1, false)]) == {};
    assert map["a" := Party(1, false)]["a" := Party(1, true)] == map["a" := Party(1, true)];
  }

  lemma CalleeJoinsAndCallerLeaves(max: nat, log: seq<Record>)
    requires max >= 2
    ensures
      Apply(Apply(InCall(max, map["a" := Party(1, true)], true, log), Join(2, "b", false, true, true)),
            Leave(1, "a", true))
      == InCall(max, map["b" := Party(2, true)], true, log)
  {
    assert Participants(map["a" := Party(1, true)]) == {"a"};
    assert map["a" := Party(1, true), "b" := Party(2, true)] - {"a"} == map["b" := Party(2, true)];
    assert "b" in Participants(map["b" := Party(2, true)]);
  }

  /** The exception happens: in a two-party call both join, the caller leaves, and
      the other side's session then sends an accept. */
  lemma AcceptAfterJoinEmptiesCall(max: nat)
    requires max >= 2
    ensures
      var both := Apply(Apply(Apply(Quiet(true, max, 0), Invite(1, "a")), Join(1, "a", false, true, true)),
                        Join(2, "b", false, true, true));
      var t := Apply(Apply(both, Leave(1, "a", true)), Answer(2, "b", true, true));
      t.call.Some? && t.call.value.joined && Participants(t.call.value.parties) == {}
  {
    CallerJoins(max);
    CalleeJoinsAndCallerLeaves(max, [Record(1, Accepted)]);
    var parties := map["b" := Party(2, true)];
    assert |parties| == 1;
    assert parties["b" := Party(2, false)] == map["b" := Party(2, false)];
    assert Participants(map["b" := Party(2, false)]) == {};
  }
}
