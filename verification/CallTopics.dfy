/** The handlers of a topic's call as their code runs (calls.go, calls_agora.go);
    each is one event of Calls. */
module CallTopics {
  import opened Wrappers
  import opened Calls

  class CallTopic {
    const p2p: bool
    const max: nat
    var lastId: nat
    var currentCall: Option<Call>
    var log: seq<Record>

    ghost function State(): Topic
      reads this
    {
      Topic(p2p, max, lastId, currentCall, log)
    }

    /** The call is over, with this state recorded if it could be stored. */
    ghost predicate IsOver(before: Topic, state: State, saved: bool)
      requires before.call.Some?
      reads this
    {
      currentCall.None? && log == before.log + if saved then [Record(before.call.value.number, state)] else []
    }

    constructor (p2p: bool, max: nat, lastId: nat)
      ensures State() == Quiet(p2p, max, lastId) && Inv(State())
    {
      this.p2p, this.max, this.lastId := p2p, max, lastId;
      currentCall, log := None, [];
    }

    method HandleInvite(uid: nat, sid: string)
      requires Inv(State())
      modifies this`currentCall, this`lastId
      ensures State() == Apply(old(State()), Invite(uid, sid)) && Inv(State())
      ensures old(currentCall).Some? ==> currentCall == old(currentCall) && lastId == old(lastId)
      ensures old(currentCall).None? ==>
                && lastId == old(lastId) + 1
                && currentCall == Some(Call(lastId, map[sid := Party(uid, false)], false, false, uid, sid))
    {
      ApplyKeepsInv(State(), Invite(uid, sid));
      if currentCall.Some? { return; }
      lastId := lastId + 1;
      currentCall := Some(Call(lastId, map[sid := Party(uid, false)], false, false, uid, sid));
    }

    method PersistCallState(state: State, saved: bool)
      requires currentCall.Some?
      modifies this`log
      ensures State() == Logged(old(State()), state, saved)
    {
      if saved { log := log + [Record(currentCall.value.number, state)]; }
    }

    /** agoraParticipantCount. */
    method ParticipantCount() returns (count: nat)
      requires currentCall.Some?
      ensures count == |Participants(currentCall.value.parties)|
    {
      count := 0;
      var left := currentCall.value.parties.Keys;
      ghost var seen: set<string> := {};
      while left != {}
        invariant left <= currentCall.value.parties.Keys
        invariant seen == (set s | s in Participants(currentCall.value.parties) && s !in left)
        invariant count == |seen|
        decreases |left|
      {
        var sid :| sid in left;
        left := left - {sid};
        if currentCall.value.parties[sid].agora {
          count := count + 1;
          seen := seen + {sid};
        }
      }
      assert seen == Participants(currentCall.value.parties);
    }

    method MaybeEndCall(from: Option<nat>, timeout: bool, saved: bool)
      requires currentCall.Some?
      modifies this`currentCall, this`log
      ensures State() == Ended(old(State()), from, timeout, saved)
      ensures from.Some? && old(currentCall).value.accepted ==> IsOver(old(State()), Finished, saved)
      ensures from.Some? && !old(currentCall).value.accepted ==>
                IsOver(old(State()),
                       if from.value == old(currentCall).value.originator then Missed else Declined, saved)
      ensures from.None? ==> IsOver(old(State()), if timeout then Missed else Disconnected, saved)
    {
      var state := Disconnected;
      if from.Some? && currentCall.value.accepted {
        state := Finished;
      } else if from.Some? {
        state := if from.value == currentCall.value.originator then Missed else Declined;
      } else if timeout {
        state := Missed;
      }
      PersistCallState(state, saved);
      currentCall := None;
    }

    /** issueAgoraCallCredentials, for a join or a refresh. */
    method IssueCredentials(uid: nat, sid: string, refresh: bool, issued: bool, saved: bool)
      requires Inv(State()) && currentCall.Some?
      modifies this`currentCall, this`log
      ensures State() == Apply(old(State()), Join(uid, sid, refresh, issued, saved)) && Inv(State())
      ensures
        var c := old(currentCall).value;
        var holds := sid in c.parties && c.parties[sid].agora;
        if (!holds && (refresh || |set s | s in c.parties && c.parties[s].agora| >= max)) || !issued ||
           (!refresh && !c.accepted && !saved)
        then currentCall == old(currentCall) && log == old(log)
        else
          && currentCall == Some(c.(
               parties := c.parties[sid := Party(if sid in c.parties then c.parties[sid].uid else uid, true)],
               accepted := c.accepted || !refresh, joined := true))
          && log == old(log) + if refresh || c.accepted then [] else [Record(c.number, Accepted)]
    {
      ApplyKeepsInv(State(), Join(uid, sid, refresh, issued, saved));
      var found := sid in currentCall.value.parties;
      var holds := found && currentCall.value.parties[sid].agora;
      if refresh && !holds { return; }
      var count := ParticipantCount();
      if !holds && count >= max { return; }
      if !issued { return; }
      var party := Party(if found then currentCall.value.parties[sid].uid else uid, true);
      var accepted := currentCall.value.accepted;
      if !refresh && !accepted {
        if !saved { return; }
        PersistCallState(Accepted, true);
        accepted := true;
      }
      currentCall := Some(currentCall.value.(
        parties := currentCall.value.parties[sid := party], accepted := accepted, joined := true));
    }

    /** handleP2PCallAnswer. */
    method HandleAnswer(uid: nat, sid: string, accept: bool, saved: bool)
      requires Inv(State()) && currentCall.Some?
      modifies this`currentCall, this`log
      ensures State() == Apply(old(State()), Answer(uid, sid, accept, saved)) && Inv(State())
      ensures
        var c := old(currentCall).value;
        if p2p && |c.parties| == 1 && sid != c.originatorSid && uid != c.originator && accept && saved
        then
          && currentCall == Some(c.(parties := c.parties[sid := Party(uid, false)], accepted := true))
          && log == old(log) + [Record(c.number, Accepted)]
        else currentCall == old(currentCall) && log == old(log)
    {
      ApplyKeepsInv(State(), Answer(uid, sid, accept, saved));
      var call := currentCall.value;
      if !p2p || |call.parties| != 1 { return; }
      if call.originatorSid == sid || call.originator == uid { return; }
      if accept && saved {
        PersistCallState(Accepted, true);
        currentCall := Some(call.(parties := call.parties[sid := Party(uid, false)], accepted := true));
      }
    }

    method RemoveParty(sid: string)
      requires currentCall.Some? && sid in currentCall.value.parties
      modifies this`currentCall
      ensures State() == Without(old(State()), {sid})
    {
      currentCall := Some(currentCall.value.(parties := currentCall.value.parties - {sid}));
    }

    method LeaveCall(uid: nat, sid: string, saved: bool)
      requires Inv(State()) && currentCall.Some?
      modifies this`currentCall, this`log
      ensures State() == Apply(old(State()), Leave(uid, sid, saved)) && Inv(State())
      ensures
        var c := old(currentCall).value;
        if sid !in c.parties || !c.parties[sid].agora || c.parties[sid].uid != uid
        then currentCall == old(currentCall) && log == old(log)
        else if exists s :: s in c.parties && s != sid && c.parties[s].agora
        then currentCall == Some(c.(parties := c.parties - {sid})) && log == old(log)
        else IsOver(old(State()), Finished, saved)
    {
      ApplyKeepsInv(State(), Leave(uid, sid, saved));
      var parties := currentCall.value.parties;
      if sid !in parties || !parties[sid].agora || parties[sid].uid != uid { return; }
      NobodyLeftIff(parties, {sid});
      assert sid in Participants(parties);
      RemoveParty(sid);
      var count := ParticipantCount();
      if count == 0 { MaybeEndCall(Some(uid), false, saved); }
    }

    method HangUp(uid: nat, sid: string, admin: bool, saved: bool)
      requires Inv(State()) && currentCall.Some?
      modifies this`currentCall, this`log
      ensures State() == Apply(old(State()), Event.HangUp(uid, sid, admin, saved)) && Inv(State())
      ensures
        var c := old(currentCall).value;
        if (!p2p && uid != c.originator && !admin) || (p2p && |c.parties| == 2 && sid !in c.parties) ||
           (p2p && |c.parties| == 1 && uid == c.originator && sid != c.originatorSid)
        then currentCall == old(currentCall) && log == old(log)
        else
          IsOver(old(State()),
                 if c.accepted then Finished else if uid == c.originator then Missed else Declined, saved)
    {
      ApplyKeepsInv(State(), Event.HangUp(uid, sid, admin, saved));
      var call := currentCall.value;
      var allowed;
      if p2p {
        allowed := true;
        if |call.parties| == 2 {
          allowed := sid in call.parties;
        } else if |call.parties| == 1 {
          allowed := uid != call.originator || call.originatorSid == sid;
        }
      } else {
        allowed := uid == call.originator || admin;
      }
      if allowed { MaybeEndCall(Some(uid), false, saved); }
    }

    /** The loop over the parties: participants whose sessions are gone are removed. */
    method RemoveGone(gone: set<string>) returns (lastUid: Option<nat>)
      requires currentCall.Some?
      modifies this`currentCall
      ensures State() == Without(old(State()), gone * Participants(old(currentCall).value.parties))
      ensures lastUid.Some? <==> gone * Participants(old(currentCall).value.parties) != {}
    {
      ghost var before := State();
      ghost var parties := currentCall.value.parties;
      ghost var done: set<string> := {};
      lastUid := None;
      var left := currentCall.value.parties.Keys;
      WithoutNone(before);
      while left != {}
        invariant State() == Without(before, done)
        invariant left <= parties.Keys && done !! left
        invariant forall s :: s in done <==> s in parties && s !in left && s in gone && parties[s].agora
        invariant lastUid.Some? <==> done != {}
        decreases |left|
      {
        var sid :| sid in left;
        left := left - {sid};
        var party := currentCall.value.parties[sid];
        if sid in gone && party.agora {
          WithoutMore(before, done, sid);
          lastUid := Some(party.uid);
          RemoveParty(sid);
          done := done + {sid};
        }
      }
      assert done == gone * Participants(parties);
    }

    /** disconnectAgoraCallSessions: the last participant's going ends the call. */
    method DisconnectSessions(gone: set<string>, saved: bool)
      requires Inv(State()) && currentCall.Some?
      modifies this`currentCall, this`log
      ensures State() == Apply(old(State()), Disconnect(gone, saved)) && Inv(State())
      ensures
        var c := old(currentCall).value;
        var lost := gone * Participants(c.parties);
        if lost == {} then currentCall == old(currentCall) && log == old(log)
        else if exists s :: s in c.parties && s !in lost && c.parties[s].agora
        then currentCall == Some(c.(parties := c.parties - lost)) && log == old(log)
        else IsOver(old(State()), Finished, saved)
    {
      ApplyKeepsInv(State(), Disconnect(gone, saved));
      ghost var parties := currentCall.value.parties;
      ghost var lost := gone * Participants(parties);
      assert parties - {} == parties;
      assert lost != {} ==> currentCall.value.accepted by { assert lost <= Participants(parties); }
      NobodyLeftIff(parties, lost);
      var lastUid := RemoveGone(gone);
      var count := ParticipantCount();
      if count == 0 && lastUid.Some? {
        EndedByAnyone(State(), lastUid.value, LastOf(parties, lost), saved);
        MaybeEndCall(lastUid, false, saved);
      }
    }

    /** terminateCallInProgress, on the establishment timer. */
    method OnTimeout(saved: bool)
      requires Inv(State()) && currentCall.Some?
      modifies this`currentCall, this`log
      ensures State() == Apply(old(State()), Timeout(saved)) && Inv(State())
      ensures IsOver(old(State()), Missed, saved)
    {
      ApplyKeepsInv(State(), Timeout(saved));
      MaybeEndCall(None, true, saved);
    }
  }

  /** An accepted call is finished, whoever's leaving ends it. */
  lemma EndedByAnyone(t: Topic, a: nat, b: nat, saved: bool)
    requires t.call.Some? && t.call.value.accepted
    ensures Ended(t, Some(a), false, saved) == Ended(t, Some(b), false, saved)
  {
  }

  lemma NobodyLeftIff(parties: map<string, Party>, sids: set<string>)
    ensures |Participants(parties - sids)| == 0 <==> !exists s :: s in parties && s !in sids && parties[s].agora
  {
    var left := Participants(parties - sids);
    if s :| s in parties && s !in sids && parties[s].agora { assert s in left; }
    if s :| s in left { assert s in parties && s !in sids && parties[s].agora; }
  }

  lemma WithoutNone(t: Topic)
    requires t.call.Some?
    ensures Without(t, {}) == t
  {
    assert t.call.value.parties - {} == t.call.value.parties;
  }

  lemma WithoutMore(t: Topic, sids: set<string>, sid: string)
    requires t.call.Some?
    ensures Without(Without(t, sids), {sid}) == Without(t, sids + {sid})
  {
    assert t.call.value.parties - sids - {sid} == t.call.value.parties - (sids + {sid});
  }
}
