/** The moderation operations as their code runs, over stores whose writes - the
    compensating ones included - may fail at any time
    (admin_official_moderation.go). */
module Moderators {
  import opened Wrappers
  import opened Moderation
  import Topologies

  datatype Audit = Audit(action: string, users: seq<Uid>, version: nat)

  function CellIn(records: map<Uid, string>, rows: map<Uid, Row>, x: Uid): Cell {
    Cell(if x in records then Some(records[x]) else None, if x in rows then Some(rows[x]) else None)
  }

  function CellsOf(records: map<Uid, string>, rows: map<Uid, Row>): Cells { x => CellIn(records, rows, x) }

  lemma PrefixNext(ks: seq<Uid>, i: nat)
    requires i < |ks| && Distinct(ks)
    ensures ks[..i + 1][..i] == ks[..i] && ks[..i + 1][i] == ks[i] && ks[i] !in ks[..i]
    ensures forall k :: k in ks[..i + 1] <==> k in ks[..i] || k == ks[i]
    ensures Distinct(ks[..i]) && Distinct(ks[..i + 1])
  {
    assert ks[..i + 1] == ks[..i] + [ks[i]];
  }

  /** The stores of one official topic, its control-plane version and audit trail.
      Each operation holds the manager's lock. `up` tells which of the requests to the
      stores, by their number, are served; the others fail and change nothing. */
  class Manager {
    const owner: Uid
    const users: set<Uid>
    const up: nat -> bool
    var requests: nat
    var records: map<Uid, string>
    var rows: map<Uid, Row>
    var version: nat
    var audit: seq<Audit>

    ghost function Cells(): Cells
      reads this
    {
      CellsOf(records, rows)
    }

    ghost predicate Same(cells: Cells)
      reads this
    {
      forall x :: CellIn(records, rows, x) == cells(x)
    }

    constructor (owner: Uid, users: set<Uid>, up: nat -> bool)
    {
      this.owner, this.users, this.up, requests := owner, users, up, 0;
      records, rows, version, audit := map[], map[], 0, [];
    }

    /** How many of the first `n` requests have failed. */
    ghost function Fails(n: nat): nat { if n == 0 then 0 else Fails(n - 1) + if up(n - 1) then 0 else 1 }

    /** A request is carried out only if it is valid, and then always if the stores serve
        everything; its compensations go through if they do, and for a valid one unless a
        second request to the stores fails. */
    ghost predicate MayJoin(k: Uid)
      reads this`rows
    {
      k in rows && !rows[k].deleted && 'J' in rows[k].want && 'J' in rows[k].given
    }

    ghost predicate Decided(valid: bool, ok: bool, complete: bool, before: nat)
      reads this
    {
      && (ok ==> valid)
      && (Fails(requests) == Fails(before) ==> complete && (valid ==> ok))
      && (valid && Fails(requests) <= Fails(before) + 1 ==> complete)
    }

    // ---------- single requests ----------

    method Request() returns (ok: bool)
      modifies this`requests
      ensures requests == old(requests) + 1 && ok == up(old(requests))
      ensures Fails(requests) == Fails(old(requests)) + if ok then 0 else 1
    {
      ok := up(requests);
      requests := requests + 1;
    }

    method PutRecord(k: Uid, record: Option<string>) returns (ok: bool)
      modifies this`records, this`requests
      ensures Fails(requests) == Fails(old(requests)) + if ok then 0 else 1
      ensures forall x :: CellIn(records, rows, x) ==
                          if ok && x == k then CellIn(old(records), rows, x).(record := record)
                          else CellIn(old(records), rows, x)
    {
      ok := Request();
      if ok {
        records := if record.Some? then records[k := record.value] else records - {k};
      }
    }

    /** A write of the subscription row of `k`. */
    method PutRow(k: Uid, row: Row) returns (ok: bool)
      modifies this`rows, this`requests
      ensures Fails(requests) == Fails(old(requests)) + if ok then 0 else 1
      ensures forall x :: CellIn(records, rows, x) ==
                          if ok && x == k then CellIn(records, old(rows), x).(row := Some(row))
                          else CellIn(records, old(rows), x)
    {
      ok := Request();
      if ok { rows := rows[k := row]; }
    }

    /** subs.Update, Create and Delete and the record store, as compensations use them. */
    method RunUndo(u: Undo) returns (ok: bool)
      modifies this`records, this`rows, this`requests
      ensures Fails(requests) == Fails(old(requests)) + if ok then 0 else 1
      ensures ok ==> forall x :: CellIn(records, rows, x) ==
                                 if x == u.user then Undone(old(CellIn(records, rows, x)), u)
                                 else old(CellIn(records, rows, x))
    {
      match u
      case PutRecord(k, record) => ok := PutRecord(k, record);
      case PutModes(k, want, given) =>
        if k in rows { ok := PutRow(k, rows[k].(want := want, given := given)); } else { ok := Request(); }
      case Remove(k) =>
        if k in rows { ok := PutRow(k, rows[k].(deleted := true)); } else { ok := Request(); }
      case Revive(k, want, given, priv) =>
        ok := PutRow(k, Row(false, want, given, if k in rows then rows[k].priv else priv, 0));
      case PutBack(k, deleted, want, given) =>
        if k in rows {
          ok := PutRow(k, rows[k].(deleted := deleted, want := want, given := given));
        } else {
          ok := Request();
        }
    }

    /** Runs the compensations in the order they were recorded, ignoring errors;
        `complete` tells whether every one of them went through. */
    method RunUndos(undos: seq<Undo>) returns (complete: bool)
      modifies this`records, this`rows, this`requests
      ensures Fails(requests) >= Fails(old(requests)) && (complete <==> Fails(requests) == Fails(old(requests)))
      ensures complete ==> forall x :: CellIn(records, rows, x) == UndoneAll(old(CellIn(records, rows, x)), x, undos)
    {
      complete := true;
      for i := 0 to |undos|
        invariant Fails(requests) >= Fails(old(requests)) && (complete <==> Fails(requests) == Fails(old(requests)))
        invariant complete ==>
                    forall x :: CellIn(records, rows, x) == UndoneAll(old(CellIn(records, rows, x)), x, undos[..i])
      {
        assert undos[..i + 1][..i] == undos[..i];
        var ok := RunUndo(undos[i]);
        complete := complete && ok;
      }
      assert undos[..|undos|] == undos;
    }

    /** The versioned audit action: it succeeds only at the expected version. */
    method RecordOfficialAction(expected: nat, action: string, targets: seq<Uid>) returns (ok: bool)
      modifies this`version, this`audit, this`requests
      ensures ok ==> expected == old(version) && version == old(version) + 1 &&
                     audit == old(audit) + [Audit(action, targets, version)]
      ensures !ok ==> version == old(version) && audit == old(audit)
      ensures Fails(requests) == Fails(old(requests)) + if ok || expected != old(version) then 0 else 1
      ensures ok ==> expected == old(version)
    {
      if expected != version { return false; }
      ok := Request();
      if ok {
        version := version + 1;
        audit := audit + [Audit(action, targets, version)];
      }
    }

    // ---------- mute ----------

    /** Every record of `ks` is written and can be put back by `undos`. */
    ghost predicate Muted(cells: Cells, ks: seq<Uid>, text: Uid -> string, undos: seq<Undo>)
      reads this
    {
      undos == Recorded(cells, ks, text) && Same(Written(cells, ks, text))
    }

    /** Putting back `undos` restores `cells`. */
    ghost predicate Restorable(cells: Cells, undos: seq<Undo>)
      reads this
    {
      forall x :: UndoneAll(CellIn(records, rows, x), x, undos) == cells(x)
    }

    /** Reads the subscription and then the record of a member who may join. */
    method CanMute(uid: Uid) returns (ok: bool)
      modifies this`requests
      ensures Fails(old(requests)) <= Fails(requests) <= Fails(old(requests)) + 1
      ensures ok <==> old(MayJoin(uid)) && Fails(requests) == Fails(old(requests))
    {
      var readable := Request();
      if !readable || uid !in rows || rows[uid].deleted || 'J' !in rows[uid].want * rows[uid].given { return false; }
      ok := Request();
    }

    method MuteOne(ghost cells: Cells, targets: seq<Uid>, i: nat, text: Uid -> string, undos: seq<Undo>)
      returns (ok: bool, more: seq<Undo>)
      requires i < |targets| && Distinct(targets) && Muted(cells, targets[..i], text, undos)
      modifies this`records, this`requests
      ensures ok ==> Muted(cells, targets[..i + 1], text, more)
      ensures !ok ==> Restorable(cells, more)
      ensures Fails(old(requests)) <= Fails(requests) <= Fails(old(requests)) + 1
      ensures ok <==> old(MayJoin(targets[i])) && Fails(requests) == Fails(old(requests))
    {
      var uid := targets[i];
      PrefixNext(targets, i);
      assert CellIn(records, rows, uid).row == cells(uid).row;
      ok := CanMute(uid);
      if !ok {
        Restores(cells, targets[..i], text);
        return false, undos;
      }
      more := undos + [Undo.PutRecord(uid, if uid in records then Some(records[uid]) else None)];
      assert more == Recorded(cells, targets[..i + 1], text);
      ok := PutRecord(uid, Some(text(uid)));
      if !ok { Restores(cells, targets[..i + 1], text); }
    }

    lemma Restores(cells: Cells, ks: seq<Uid>, text: Uid -> string)
      requires Distinct(ks)
      requires forall x :: CellIn(records, rows, x).row == cells(x).row
      requires forall x | x !in ks :: CellIn(records, rows, x) == cells(x)
      ensures Restorable(cells, Recorded(cells, ks, text))
    {
      forall x ensures UndoneAll(CellIn(records, rows, x), x, Recorded(cells, ks, text)) == cells(x) {
        RecordsRestored(cells, ks, text, CellIn(records, rows, x), x);
      }
    }

    /** The loop over the targets. */
    method MuteEach(ghost cells: Cells, targets: seq<Uid>, text: Uid -> string) returns (ok: bool, undos: seq<Undo>)
      requires Distinct(targets) && Same(cells)
      modifies this`records, this`requests
      ensures ok ==> Muted(cells, targets, text, undos)
      ensures !ok ==> Restorable(cells, undos)
      ensures Fails(old(requests)) <= Fails(requests) <= Fails(old(requests)) + 1
      ensures ok <==> (forall k | k in targets :: old(MayJoin(k))) && Fails(requests) == Fails(old(requests))
    {
      undos := [];
      for i := 0 to |targets|
        invariant Fails(requests) == Fails(old(requests))
        invariant Muted(cells, targets[..i], text, undos)
        invariant forall j | 0 <= j < i :: old(MayJoin(targets[j]))
      {
        ok, undos := MuteOne(cells, targets, i, text, undos);
        if !ok { return; }
      }
      ok := true;
      assert targets[..|targets|] == targets;
    }

    /** Mutes every target or none: on success every target's record is the new one,
        nothing else changed, and one audit action took the next version; on failure
        version and audit stand, and so does every record and subscription as long
        as the compensating writes went through. It succeeds exactly when every target is
        a member who may join, the version is the expected one and every request is
        served; the compensations go through unless a second request fails. */
    method MuteAll(expected: nat, targets: seq<Uid>, text: Uid -> string) returns (ok: bool, complete: bool)
      requires Distinct(targets)
      modifies this
      ensures ok ==>
                && Same(Written(old(Cells()), targets, text))
                && version == old(version) + 1 && audit == old(audit) + [Audit("mute", targets, version)]
      ensures !ok ==> version == old(version) && audit == old(audit)
      ensures !ok && complete ==> Same(old(Cells()))
      ensures ok ==> forall x ::
                CellIn(records, rows, x)
                == if x in targets then Cell(Some(text(x)), old(Cells())(x).row) else old(Cells())(x)
      ensures Decided(expected == old(version) && (forall k | k in targets :: old(MayJoin(k))),
                      ok, complete, old(requests))
      ensures Fails(requests) >= Fails(old(requests))
    {
      ghost var cells := Cells();
      complete := true;
      var undos;
      ok, undos := MuteEach(cells, targets, text);
      if ok {
        ok := RecordOfficialAction(expected, "mute", targets);
        if !ok { Restores(cells, targets, text); }
      }
      if !ok { complete := RunUndos(undos); }
    }

    /** The whole request. What is rejected before the first write changes nothing; if the
        stores serve every request, exactly the valid ones succeed, and a valid one that
        fails because one request was not served leaves every record and subscription as
        it was. `text` is the record a target gets. */
    method Mute(expected: nat, topic: TopicState, settings: Settings, parse: string -> Uid, input: MuteInput, now: int,
                text: Uid -> string)
      returns (targets: Option<seq<Uid>>, ok: bool, complete: bool)
      modifies this
      ensures targets.Some? ==> targets.value == Firsts(Named(parse, input.user, input.users))
      ensures ok ==>
                && targets.Some?
                && version == old(version) + 1 && audit == old(audit) + [Audit("mute", targets.value, version)]
      ensures ok ==> forall x ::
                CellIn(records, rows, x)
                == if x in targets.value then Cell(Some(text(x)), old(Cells())(x).row) else old(Cells())(x)
      ensures !ok ==> version == old(version) && audit == old(audit) && (complete ==> Same(old(Cells())))
      ensures var valid :=
                && expected == old(version)
                && topic.registered && topic.stored && !topic.useBt && topic.large && topic.official
                && Targetable(owner, Named(parse, input.user, input.users))
                && (var scope := Lower(Topologies.Trim(input.scope));
                    scope == "message" || scope == "media" || scope == "call" || scope == "all")
                && (settings.requireReason ==> Topologies.Trim(input.reason) != "")
                && ByteLength(Topologies.Trim(input.reason)) <= 64
                && ByteLength(Topologies.Trim(input.note)) <= 1000
                && ValidTimes(settings, input, now)
                && forall k | k in Named(parse, input.user, input.users) ::
                     k in old(rows) && !old(rows)[k].deleted && 'J' in old(rows)[k].want && 'J' in old(rows)[k].given;
              Decided(valid, ok, complete, old(requests))
    {
      targets, ok, complete := None, false, true;
      var readable := Request();
      if !readable || !IsOfficialLarge(topic) { return; }
      targets := ModerationTargets(parse, owner, input.user, input.users);
      if targets.None? || !ValidMute(settings, input, now) { return; }
      ok, complete := MuteAll(expected, targets.value, text);
    }

    // ---------- unmute ----------

    method UnmuteOne(expected: nat, uid: Uid) returns (ok: bool, complete: bool)
      modifies this
      ensures ok ==>
                && (forall x :: CellIn(records, rows, x) ==
                                if x == uid then old(Cells())(x).(record := None) else old(Cells())(x))
                && version == old(version) + 1 && audit == old(audit) + [Audit("unmute", [uid], version)]
      ensures !ok ==> version == old(version) && audit == old(audit)
      ensures !ok && complete ==> Same(old(Cells()))
      ensures Decided(expected == old(version), ok, complete, old(requests))
      ensures Fails(requests) >= Fails(old(requests))
    {
      ghost var cells := Cells();
      complete := true;
      var readable := Request();
      if !readable { return false, true; }
      var undo := Undo.PutRecord(uid, if uid in records then Some(records[uid]) else None);
      ok := PutRecord(uid, None);
      if !ok { return false, true; }
      ok := RecordOfficialAction(expected, "unmute", [uid]);
      if !ok { complete := RunUndo(undo); }
    }

    /** Clears one record with one audit action, or changes nothing; the owner and the
        zero user are refused. */
    method Unmute(expected: nat, topic: TopicState, parse: string -> Uid, user: string)
      returns (ok: bool, complete: bool)
      modifies this
      ensures
        var uid := parse(Topologies.Trim(user));
        && (ok ==>
              && (forall x :: CellIn(records, rows, x) ==
                              if x == uid then old(Cells())(x).(record := None) else old(Cells())(x))
              && version == old(version) + 1 && audit == old(audit) + [Audit("unmute", [uid], version)])
        && (!ok ==> version == old(version) && audit == old(audit) && (complete ==> Same(old(Cells()))))
      ensures var uid := parse(Topologies.Trim(user));
              var valid :=
                && topic.registered && topic.stored && !topic.useBt && topic.large && topic.official
                && Topologies.Trim(user) != "" && uid != 0 && uid != owner && expected == old(version);
              Decided(valid, ok, complete, old(requests))
    {
      OneTarget(parse, owner, user);
      var readable := Request();
      if !readable || !IsOfficialLarge(topic) { return false, true; }
      var targets := ModerationTargets(parse, owner, user, []);
      if targets.None? { return false, true; }
      ok, complete := UnmuteOne(expected, targets.value[0]);
    }

    // ---------- kick ----------

    method KickOne(expected: nat, uid: Uid) returns (ok: bool, complete: bool)
      modifies this
      ensures ok ==>
                && IsLive(old(Cells())(uid))
                && (forall x :: CellIn(records, rows, x) ==
                                if x == uid then Deleted(old(Cells())(x)).(record := None) else old(Cells())(x))
                && uid in old(rows) && uid !in records && uid in rows
                && rows[uid] == old(rows)[uid].(deleted := true)
                && version == old(version) + 1 && audit == old(audit) + [Audit("kick", [uid], version)]
      ensures !ok ==> version == old(version) && audit == old(audit)
      ensures !ok && complete ==>
                forall x :: CellIn(records, rows, x) == old(Cells())(x)
                            || (x == uid && IsLive(old(Cells())(x)) &&
                                CellIn(records, rows, x) ==
                                old(Cells())(x).(row := Some(old(Cells())(x).row.value.(marks := 0))))
      ensures Decided(expected == old(version) && IsLive(old(Cells())(uid)), ok, complete, old(requests))
      ensures Fails(requests) >= Fails(old(requests))
    {
      ghost var cells := Cells();
      complete := true;
      var readable := Request();
      if !readable || uid !in rows || rows[uid].deleted { return false, true; }
      var sub := rows[uid];
      var create := Revive(uid, sub.want, sub.given, sub.priv);
      ok := PutRow(uid, sub.(deleted := true));
      if !ok { return false, true; }
      var putBack := Undo.PutRecord(uid, if uid in records then Some(records[uid]) else None);
      readable := Request();
      if readable { ok := PutRecord(uid, None); } else { ok := false; }
      if !ok {
        complete := RunUndo(create);
        return false, complete;
      }
      assert CellIn(records, rows, uid) == Cell(None, Some(sub.(deleted := true)));
      ok := RecordOfficialAction(expected, "kick", [uid]);
      if !ok {
        complete := RunUndo(create);
        var also := RunUndo(putBack);
        complete := complete && also;
      }
    }

    /** Removes one member and its record with one audit action, or nothing; the owner
        and the zero user are refused. A failed kick leaves what can be seen as it was
        once the compensations went through; if the subscription had already been
        removed its read positions start over. */
    method Kick(expected: nat, topic: TopicState, settings: Settings, parse: string -> Uid, user: string,
                reason: string, note: string)
      returns (ok: bool, complete: bool)
      modifies this
      ensures
        var uid := parse(Topologies.Trim(user));
        && (ok ==>
              && (forall x :: CellIn(records, rows, x) ==
                              if x == uid then Deleted(old(Cells())(x)).(record := None) else old(Cells())(x))
              && uid in old(rows) && uid !in records && uid in rows
              && rows[uid] == old(rows)[uid].(deleted := true)
              && version == old(version) + 1 && audit == old(audit) + [Audit("kick", [uid], version)])
        && (!ok ==> version == old(version) && audit == old(audit))
        && (!ok && complete ==>
              forall x :: CellIn(records, rows, x) == old(Cells())(x)
                          || (x == uid && IsLive(old(Cells())(x)) &&
                              CellIn(records, rows, x) ==
                              old(Cells())(x).(row := Some(old(Cells())(x).row.value.(marks := 0)))))
      ensures var uid := parse(Topologies.Trim(user));
              var valid :=
                && topic.registered && topic.stored && !topic.useBt && topic.large && topic.official
                && (settings.requireReason ==> Topologies.Trim(reason) != "")
                && ByteLength(Topologies.Trim(reason)) <= 64 && ByteLength(Topologies.Trim(note)) <= 1000
                && Topologies.Trim(user) != "" && uid != 0 && uid != owner
                && uid in old(rows) && !old(rows)[uid].deleted && expected == old(version);
              Decided(valid, ok, complete, old(requests))
    {
      OneTarget(parse, owner, user);
      var readable := Request();
      if !readable || !IsOfficialLarge(topic) { return false, true; }
      if settings.requireReason && Topologies.Trim(reason) == "" { return false, true; }
      if !ValidText(reason, note) { return false, true; }
      var targets := ModerationTargets(parse, owner, user, []);
      if targets.None? { return false, true; }
      ok, complete := KickOne(expected, targets.value[0]);
    }

    // ---------- ban ----------

    ghost predicate BannedSoFar(cells: Cells, ks: seq<Uid>, undos: seq<Undo>)
      reads this
    {
      undos == Unbans(cells, ks) && Same(Bans(cells, ks))
    }

    /** Reads the account and then the subscription of a user. */
    method CanBan(uid: Uid) returns (ok: bool)
      modifies this`requests
      ensures Fails(old(requests)) <= Fails(requests) <= Fails(old(requests)) + 1
      ensures ok <==> uid in users && Fails(requests) == Fails(old(requests))
    {
      var readable := Request();
      if !readable || uid !in users { return false; }
      ok := Request();
    }

    /** Takes every right from a subscription, or creates one without rights. */
    method PutBan(uid: Uid) returns (ok: bool, undo: Undo)
      modifies this`rows, this`requests
      ensures Fails(requests) == Fails(old(requests)) + if ok then 0 else 1
      ensures undo == Moderation.Unban(uid, old(CellIn(records, rows, uid)))
      ensures forall x :: CellIn(records, rows, x) ==
                          if ok && x == uid then Banned(old(CellIn(records, rows, x)))
                          else old(CellIn(records, rows, x))
    {
      if uid in rows && !rows[uid].deleted {
        undo := PutModes(uid, rows[uid].want, rows[uid].given);
        ok := PutRow(uid, rows[uid].(want := NONE, given := NONE));
      } else {
        undo := Remove(uid);
        ok := PutRow(uid, Row(false, NONE, NONE, if uid in rows then rows[uid].priv else "", 0));
      }
    }

    method BanOne(ghost cells: Cells, targets: seq<Uid>, i: nat, undos: seq<Undo>)
      returns (ok: bool, more: seq<Undo>)
      requires i < |targets| && Distinct(targets) && BannedSoFar(cells, targets[..i], undos)
      modifies this`rows, this`requests
      ensures ok ==> BannedSoFar(cells, targets[..i + 1], more)
      ensures !ok ==> BannedSoFar(cells, targets[..i], more)
      ensures Fails(old(requests)) <= Fails(requests) <= Fails(old(requests)) + 1
      ensures ok <==> targets[i] in users && Fails(requests) == Fails(old(requests))
    {
      PrefixNext(targets, i);
      more := undos;
      assert CellIn(records, rows, targets[i]) == cells(targets[i]);
      ok := CanBan(targets[i]);
      if !ok { return; }
      var undo;
      ok, undo := PutBan(targets[i]);
      if ok { more := undos + [undo]; }
    }

    /** Running the compensations restores what can be seen of every member. */
    method Unban(ghost cells: Cells, ghost ks: seq<Uid>, undos: seq<Undo>) returns (complete: bool)
      requires Distinct(ks) && BannedSoFar(cells, ks, undos)
      modifies this`records, this`rows, this`requests
      ensures Fails(requests) >= Fails(old(requests)) && (complete <==> Fails(requests) == Fails(old(requests)))
      ensures complete ==> forall x :: AsBefore(cells(x), CellIn(records, rows, x))
    {
      forall x ensures AsBefore(cells(x), UndoneAll(CellIn(records, rows, x), x, undos)) {
        BansRestored(cells, ks, x);
      }
      complete := RunUndos(undos);
    }

    /** The loop over the targets. If it stops, what can be seen is as before once the
        compensations have run, as it is after the whole loop. */
    method BanEach(ghost cells: Cells, targets: seq<Uid>) returns (ok: bool, undos: seq<Undo>)
      requires Distinct(targets) && Same(cells)
      modifies this`rows, this`requests
      ensures ok ==> Same(Bans(cells, targets))
      ensures exists ks :: Distinct(ks) && BannedSoFar(cells, ks, undos)
      ensures Fails(old(requests)) <= Fails(requests) <= Fails(old(requests)) + 1
      ensures ok <==> (forall k | k in targets :: k in users) && Fails(requests) == Fails(old(requests))
    {
      undos := [];
      assert Distinct([]) && BannedSoFar(cells, [], undos);
      for i := 0 to |targets|
        invariant Fails(requests) == Fails(old(requests))
        invariant Distinct(targets[..i]) && BannedSoFar(cells, targets[..i], undos)
        invariant forall j | 0 <= j < i :: targets[j] in users
      {
        ok, undos := BanOne(cells, targets, i, undos);
        PrefixNext(targets, i);
        if !ok { return; }
      }
      ok := true;
      assert targets[..|targets|] == targets;
    }

    /** Bans every target or none: on success each has a live subscription with no
        rights and nothing else changed; on failure live subscriptions are back
        whole, members who had none have none, and no record changed - as long as
        the compensating writes went through. */
    method BanAll(expected: nat, targets: seq<Uid>) returns (ok: bool, complete: bool)
      requires Distinct(targets)
      modifies this
      ensures ok ==>
                && Same(Bans(old(Cells()), targets))
                && version == old(version) + 1 && audit == old(audit) + [Audit("ban", targets, version)]
      ensures !ok ==> version == old(version) && audit == old(audit)
      ensures !ok && complete ==> forall x :: AsBefore(old(Cells())(x), CellIn(records, rows, x))
      ensures ok ==> forall x ::
                CellIn(records, rows, x)
                == if x !in targets then old(Cells())(x)
                   else if x !in old(rows) then old(Cells())(x).(row := Some(Row(false, {}, {}, "", 0)))
                   else if old(rows)[x].deleted
                   then old(Cells())(x).(row := Some(Row(false, {}, {}, old(rows)[x].priv, 0)))
                   else old(Cells())(x).(row := Some(old(rows)[x].(want := {}, given := {})))
      ensures Decided(expected == old(version) && (forall k | k in targets :: k in users),
                      ok, complete, old(requests))
      ensures Fails(requests) >= Fails(old(requests))
    {
      ghost var cells := Cells();
      complete := true;
      var undos;
      ok, undos := BanEach(cells, targets);
      ghost var ks :| Distinct(ks) && BannedSoFar(cells, ks, undos);
      if ok { ok := RecordOfficialAction(expected, "ban", targets); }
      if !ok { complete := Unban(cells, ks, undos); }
    }

    /** The whole request, as for Mute. */
    method Ban(expected: nat, topic: TopicState, settings: Settings, parse: string -> Uid, single: string,
               names: seq<string>, reason: string, note: string)
      returns (targets: Option<seq<Uid>>, ok: bool, complete: bool)
      modifies this
      ensures targets.Some? ==> targets.value == Firsts(Named(parse, single, names))
      ensures ok ==>
                && targets.Some?
                && version == old(version) + 1 && audit == old(audit) + [Audit("ban", targets.value, version)]
      ensures !ok ==>
                && version == old(version) && audit == old(audit)
                && (complete ==> forall x :: AsBefore(old(Cells())(x), CellIn(records, rows, x)))
      ensures ok ==> forall x ::
                CellIn(records, rows, x)
                == if x !in targets.value then old(Cells())(x)
                   else if x !in old(rows) then old(Cells())(x).(row := Some(Row(false, {}, {}, "", 0)))
                   else if old(rows)[x].deleted
                   then old(Cells())(x).(row := Some(Row(false, {}, {}, old(rows)[x].priv, 0)))
                   else old(Cells())(x).(row := Some(old(rows)[x].(want := {}, given := {})))
      ensures var valid :=
                && expected == old(version)
                && topic.registered && topic.stored && !topic.useBt && topic.large && topic.official
                && Targetable(owner, Named(parse, single, names))
                && (settings.requireReason ==> Topologies.Trim(reason) != "")
                && ByteLength(Topologies.Trim(reason)) <= 64 && ByteLength(Topologies.Trim(note)) <= 1000
                && forall k | k in Named(parse, single, names) :: k in users;
              Decided(valid, ok, complete, old(requests))
    {
      targets, ok, complete := None, false, true;
      var readable := Request();
      if !readable || !IsOfficialLarge(topic) { return; }
      targets := ModerationTargets(parse, owner, single, names);
      if targets.None? || !ValidReason(settings, reason, note) { return; }
      ok, complete := BanAll(expected, targets.value);
    }

    // ---------- unban ----------

    method UnbanOne(expected: nat, uid: Uid) returns (ok: bool, complete: bool)
      modifies this
      ensures ok ==>
                && (forall x :: CellIn(records, rows, x) ==
                                if x == uid then Placed(old(Cells())(x), false, MEMBER, MEMBER) else old(Cells())(x))
                && uid in old(rows) && uid in rows
                && rows[uid] == old(rows)[uid].(
                     deleted := false, want := {'J', 'R', 'W', 'P'}, given := {'J', 'R', 'W', 'P'})
                && version == old(version) + 1 && audit == old(audit) + [Audit("unban", [uid], version)]
      ensures !ok ==> version == old(version) && audit == old(audit)
      ensures !ok && complete ==> Same(old(Cells()))
      ensures var valid := expected == old(version) && uid in old(rows) &&
                           'J' !in old(rows)[uid].want * old(rows)[uid].given;
              Decided(valid, ok, complete, old(requests))
      ensures Fails(requests) >= Fails(old(requests))
    {
      ghost var cells := Cells();
      complete := true;
      var readable := Request();
      if !readable || uid !in rows || 'J' in rows[uid].want * rows[uid].given { return false, true; }
      var sub := rows[uid];
      ok := PutRow(uid, sub.(deleted := false, want := MEMBER, given := MEMBER));
      assert ok ==> CellIn(records, rows, uid).row == Some(sub.(deleted := false, want := MEMBER, given := MEMBER));
      if !ok { return false, true; }
      ok := RecordOfficialAction(expected, "unban", [uid]);
      if !ok { complete := RunUndo(PutBack(uid, sub.deleted, sub.want, sub.given)); }
    }

    /** Gives one member without the right to join the ordinary member's rights, and
        revives a removed one - or changes nothing; the owner and the zero user are
        refused. */
    method UnbanMember(expected: nat, topic: TopicState, parse: string -> Uid, user: string)
      returns (ok: bool, complete: bool)
      modifies this
      ensures
        var uid := parse(Topologies.Trim(user));
        && (ok ==>
              && (forall x :: CellIn(records, rows, x) ==
                              if x == uid then Placed(old(Cells())(x), false, MEMBER, MEMBER) else old(Cells())(x))
              && uid in old(rows) && uid in rows
              && rows[uid] == old(rows)[uid].(
                   deleted := false, want := {'J', 'R', 'W', 'P'}, given := {'J', 'R', 'W', 'P'})
              && version == old(version) + 1 && audit == old(audit) + [Audit("unban", [uid], version)])
        && (!ok ==> version == old(version) && audit == old(audit) && (complete ==> Same(old(Cells()))))
      ensures var uid := parse(Topologies.Trim(user));
              var valid :=
                && topic.registered && topic.stored && !topic.useBt && topic.large && topic.official
                && Topologies.Trim(user) != "" && uid != 0 && uid != owner && expected == old(version)
                && uid in old(rows) && !('J' in old(rows)[uid].want && 'J' in old(rows)[uid].given);
              Decided(valid, ok, complete, old(requests))
    {
      OneTarget(parse, owner, user);
      var readable := Request();
      if !readable || !IsOfficialLarge(topic) { return false, true; }
      var targets := ModerationTargets(parse, owner, user, []);
      if targets.None? { return false, true; }
      ok, complete := UnbanOne(expected, targets.value[0]);
    }
  }
}
