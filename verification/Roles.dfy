/** Assigning a role in an official topic: a member holds either a group
    subscription or a channel subscription, and an assignment may have to switch
    from one to the other (admin_official_topics.go). */
module Roles {
  import opened Wrappers
  import opened Moderation
  import Topologies

  const FULL := {'J', 'R', 'W', 'P', 'A', 'S', 'D', 'O'}
  const READER := {'J', 'R', 'P'}

  datatype Grant = Grant(mode: set<char>, viaChannel: bool)

  /** officialRoleAccess: what a role means in a channel or in a group. */
  function RoleAccess(role: string, channel: bool): Option<Grant> {
    if role == "admin" then Some(Grant(FULL - {'O'}, false))
    else if channel then
      if role == "publisher" then Some(Grant(MEMBER, false))
      else if role == "subscriber" then Some(Grant(READER, true))
      else None
    else if role == "member" then Some(Grant(MEMBER, false))
    else if role == "readonly" then Some(Grant(READER, false))
    else if role == "banned" then Some(Grant(NONE, false))
    else None
  }

  /** Which roles there are in a channel and in a group, and which right each gives. No
      role makes an owner, only an administrator manages others, only administrators,
      publishers and members write, whoever is not banned may join, read and be notified;
      a channel subscription is what subscribers hold, and no other role. */
  lemma RolesAreBounded(role: string, channel: bool)
    ensures RoleAccess(role, channel).Some? <==>
              if channel then role == "admin" || role == "publisher" || role == "subscriber"
              else role == "admin" || role == "member" || role == "readonly" || role == "banned"
    ensures RoleAccess(role, channel).Some? ==>
              var g := RoleAccess(role, channel).value;
              && g.mode <= {'J', 'R', 'W', 'P', 'A', 'S', 'D'}
              && ('J' in g.mode <==> role != "banned")
              && ('R' in g.mode <==> role != "banned")
              && ('P' in g.mode <==> role != "banned")
              && ('W' in g.mode <==> role == "admin" || role == "publisher" || role == "member")
              && ('A' in g.mode <==> role == "admin")
              && ('S' in g.mode <==> role == "admin")
              && ('D' in g.mode <==> role == "admin")
              && (g.viaChannel <==> role == "subscriber")
  {
  }

  /** A request: what control plane and store say of the topic (`stored` is None when
      the store has none, else whether it is a channel), the target as parsed from
      its name, the target's account (None when there is none, else whether its state
      is OK), and the role as given. */
  datatype Request = Request(
    registered: bool, stored: Option<bool>, official: bool, owner: Uid, target: Uid, account: Option<bool>,
    role: string)

  function RoleName(q: Request): string { Lower(Topologies.Trim(q.role)) }

  function Granted(q: Request): Option<Grant> {
    if q.stored.Some? then RoleAccess(RoleName(q), q.stored.value) else None
  }

  function ModesPut(row: Option<Row>, want: set<char>, given: set<char>): Option<Row> {
    if row.Some? then Some(row.value.(want := want, given := given)) else None
  }

  function RowCreated(row: Option<Row>, want: set<char>, given: set<char>, priv: string): Option<Row> {
    Some(Row(false, want, given, if row.Some? then row.value.priv else priv, 0))
  }

  function RowDeleted(row: Option<Row>): Option<Row> {
    if row.Some? then Some(row.value.(deleted := true)) else None
  }

  /** One member's two possible subscriptions, the topic's version and audit trail. `up`
      tells which of the requests to the stores, by their number, are served. */
  class RoleManager {
    const up: nat -> bool
    var requests: nat
    var group: Option<Row>
    var channel: Option<Row>
    var version: nat
    var audit: seq<string>

    constructor (group: Option<Row>, channel: Option<Row>, up: nat -> bool)
      ensures this.group == group && this.channel == channel
    {
      this.group, this.channel, version, audit := group, channel, 0, [];
      this.up, requests := up, 0;
    }

    /** How many of the first `n` requests have failed. */
    ghost function Fails(n: nat): nat { if n == 0 then 0 else Fails(n - 1) + if up(n - 1) then 0 else 1 }

    method Request() returns (ok: bool)
      modifies this`requests
      ensures requests == old(requests) + 1 && ok == up(old(requests))
      ensures Fails(requests) == Fails(old(requests)) + if ok then 0 else 1
    {
      ok := up(requests);
      requests := requests + 1;
    }

    function Side(viaChannel: bool): Option<Row>
      reads this
    {
      if viaChannel then channel else group
    }

    /** One write of one subscription row. */
    method Write(viaChannel: bool, row: Option<Row>) returns (ok: bool)
      modifies this`group, this`channel, this`requests
      ensures Side(viaChannel) == if ok then row else old(Side(viaChannel))
      ensures Side(!viaChannel) == old(Side(!viaChannel))
      ensures Fails(requests) == Fails(old(requests)) + if ok then 0 else 1
    {
      ok := Request();
      if ok {
        if viaChannel { channel := row; } else { group := row; }
      }
    }

    method RecordOfficialAction(expected: nat, role: string) returns (ok: bool)
      modifies this`version, this`audit, this`requests
      ensures ok ==> expected == old(version) && version == old(version) + 1 && audit == old(audit) + [role]
      ensures !ok ==> version == old(version) && audit == old(audit)
      ensures Fails(requests) == Fails(old(requests)) + if ok || expected != old(version) then 0 else 1
    {
      if expected != version { return false; }
      ok := Request();
      if ok {
        version := version + 1;
        audit := audit + [role];
      }
    }

    /** applyOfficialRole, its first half: the role is stored. On failure whatever was
        written is taken back. */
    method ApplyRole(g: Grant, current: Option<Row>, other: Option<Row>) returns (ok: bool, complete: bool)
      requires current == (if LiveOf(Side(g.viaChannel)).Some? then Side(g.viaChannel) else None)
      requires other == (if LiveOf(Side(!g.viaChannel)).Some? then Side(!g.viaChannel) else None)
      requires current.None? || other.None?
      modifies this`group, this`channel, this`requests
      ensures Fails(requests) >= Fails(old(requests)) && (ok <==> Fails(requests) == Fails(old(requests)))
      ensures Fails(requests) <= Fails(old(requests)) + 1 ==> complete
      ensures ok && current.Some? ==>
                && Side(g.viaChannel) == ModesPut(current, g.mode, g.mode)
                && Side(!g.viaChannel) == old(Side(!g.viaChannel))
      ensures ok && current.None? ==>
                && Side(g.viaChannel) == RowCreated(old(Side(g.viaChannel)), g.mode, g.mode, "")
                && Side(!g.viaChannel) == (if other.Some? then RowDeleted(other) else old(Side(!g.viaChannel)))
      ensures !ok && complete ==> LiveOf(group) == LiveOf(old(group)) && LiveOf(channel) == LiveOf(old(channel))
    {
      complete := true;
      if current.Some? {
        ok := Write(g.viaChannel, ModesPut(current, g.mode, g.mode));
        return;
      }
      ok := Write(g.viaChannel, RowCreated(Side(g.viaChannel), g.mode, g.mode, ""));
      if !ok { return; }
      if other.Some? {
        ok := Write(!g.viaChannel, RowDeleted(other));
        if !ok { complete := Write(g.viaChannel, RowDeleted(Side(g.viaChannel))); }
      }
    }

    /** The compensation applyOfficialRole returns. */
    method UndoRole(g: Grant, current: Option<Row>, other: Option<Row>) returns (complete: bool)
      modifies this`group, this`channel, this`requests
      ensures Fails(requests) >= Fails(old(requests)) && (complete <==> Fails(requests) == Fails(old(requests)))
      ensures complete && current.Some? ==>
                && Side(g.viaChannel) == ModesPut(old(Side(g.viaChannel)), current.value.want, current.value.given)
                && Side(!g.viaChannel) == old(Side(!g.viaChannel))
      ensures complete && current.None? ==>
                && Side(g.viaChannel) == RowDeleted(old(Side(g.viaChannel)))
                && Side(!g.viaChannel) ==
                   if other.Some?
                   then RowCreated(old(Side(!g.viaChannel)), other.value.want, other.value.given, other.value.priv)
                   else old(Side(!g.viaChannel))
    {
      if current.Some? {
        complete := Write(g.viaChannel, ModesPut(Side(g.viaChannel), current.value.want, current.value.given));
        return;
      }
      complete := Write(g.viaChannel, RowDeleted(Side(g.viaChannel)));
      if other.Some? {
        var also := Write(!g.viaChannel,
          RowCreated(Side(!g.viaChannel), other.value.want, other.value.given, other.value.priv));
        complete := complete && also;
      }
    }

    /** The role switch: exclusive on success, reversible on failure. After success
        exactly one of the two subscriptions is live, on the side the role calls for,
        with both modes the role's; after any failure whose compensations went
        through, both are live or not as before, with the same modes and private
        data. If the stores serve everything, exactly the valid requests succeed: those for
        a known role in a registered official topic and a target in good standing other
        than the owner, at the expected version, unless both subscriptions are live. The
        compensations go through unless a second request to the stores fails. */
    method AssignRole(expected: nat, q: Request)
      returns (ok: bool, complete: bool)
      modifies this
      ensures ok ==>
                && Granted(q).Some?
                && var g := Granted(q).value;
                   && LiveOf(Side(g.viaChannel)).Some? && LiveOf(Side(!g.viaChannel)).None?
                   && LiveOf(Side(g.viaChannel)).value.want == LiveOf(Side(g.viaChannel)).value.given == g.mode
                   && (old(Side(g.viaChannel)).Some? ==>
                         LiveOf(Side(g.viaChannel)).value.priv == old(Side(g.viaChannel)).value.priv)
                   && version == old(version) + 1 && audit == old(audit) + [RoleName(q)]
      ensures ok ==>
                && q.stored.Some? && RoleAccess(RoleName(q), q.stored.value).Some?
                && var g := RoleAccess(RoleName(q), q.stored.value).value;
                   var was, other := old(Side(g.viaChannel)), old(Side(!g.viaChannel));
                   && Side(g.viaChannel)
                      == (if was.None? then Some(Row(false, g.mode, g.mode, "", 0))
                          else if was.value.deleted then Some(Row(false, g.mode, g.mode, was.value.priv, 0))
                          else Some(was.value.(want := g.mode, given := g.mode)))
                   && Side(!g.viaChannel)
                      == (if other.Some? && !other.value.deleted then Some(other.value.(deleted := true)) else other)
      ensures !ok ==> version == old(version) && audit == old(audit)
      ensures !ok && complete ==> LiveOf(group) == LiveOf(old(group)) && LiveOf(channel) == LiveOf(old(channel))
      ensures var valid :=
                && q.registered && q.stored.Some? && q.official && q.target != 0 && q.target != q.owner
                && RoleAccess(Lower(Topologies.Trim(q.role)), q.stored.value).Some?
                && q.account == Some(true) && expected == old(version)
                && !(old(group).Some? && !old(group).value.deleted &&
                     old(channel).Some? && !old(channel).value.deleted);
              && (ok ==> valid)
              && (Fails(requests) == Fails(old(requests)) ==> complete && (valid ==> ok))
              && (valid && Fails(requests) <= Fails(old(requests)) + 1 ==> complete)
    {
      ok, complete := false, true;
      if !q.registered { return; }
      var readable := Request();
      if !readable || q.stored.None? || !q.official || q.target == 0 || q.target == q.owner { return; }
      var access := RoleAccess(RoleName(q), q.stored.value);
      if access.None? { return; }
      readable := Request();
      if !readable || q.account != Some(true) { return; }
      readable := Request();
      if !readable { return; }
      readable := Request();
      if !readable || (LiveOf(group).Some? && LiveOf(channel).Some?) { return; }
      var g := access.value;
      var current := if LiveOf(Side(g.viaChannel)).Some? then Side(g.viaChannel) else None;
      var other := if LiveOf(Side(!g.viaChannel)).Some? then Side(!g.viaChannel) else None;
      ok, complete := ApplyRole(g, current, other);
      if !ok { return; }
      ok := RecordOfficialAction(expected, RoleName(q));
      if !ok { complete := UndoRole(g, current, other); }
    }
  }

  /** Switching back revives the other subscription without its read positions: it
      is restored whole only if they had not started. */
  lemma SwitchUndoneIff(row: Row)
    requires !row.deleted
    ensures
      var back := RowCreated(RowDeleted(Some(row)), row.want, row.given, row.priv);
      LiveOf(back) == LiveOf(Some(row)) && (back == Some(row) <==> row.marks == 0)
  {
  }
}
