/** Moderation of an official large group: a batch of store writes, each recorded
    with its compensation, then one versioned audit action; if anything fails the
    compensations run in the order they were recorded
    (admin_official_moderation.go, on the stores of server/db/mysql). */
module Moderation {
  import opened Wrappers
  import Topologies

  type Uid = int   // 0 is the zero user

  /** A subscription row; deletion is soft. `marks` stands for the read positions. */
  datatype Row = Row(deleted: bool, want: set<char>, given: set<char>, priv: string, marks: nat)

  /** What the stores hold for one member of the topic. */
  datatype Cell = Cell(record: Option<string>, row: Option<Row>)

  const NONE: set<char> := {}
  const MEMBER := {'J', 'R', 'W', 'P'}

  /** A live subscription, without its read positions. */
  datatype Live = Live(want: set<char>, given: set<char>, priv: string)

  function LiveOf(row: Option<Row>): Option<Live> {
    if row.Some? && !row.value.deleted then Some(Live(row.value.want, row.value.given, row.value.priv)) else None
  }

  /** The part of a member's state that a failed operation must leave alone. */
  datatype Visible = Visible(record: Option<string>, live: Option<Live>)

  function VisibleOf(c: Cell): Visible { Visible(c.record, LiveOf(c.row)) }

  // ---------- the stores' writes, member by member ----------

  /** subs.Update changes the modes of whatever row there is. */
  function WithModes(c: Cell, want: set<char>, given: set<char>): Cell {
    if c.row.Some? then c.(row := Some(c.row.value.(want := want, given := given))) else c
  }

  /** subs.Create inserts a row, or revives the one there is: the private data stay,
      the read positions start over. */
  function Created(c: Cell, want: set<char>, given: set<char>, priv: string): Cell {
    c.(row := Some(Row(false, want, given, if c.row.Some? then c.row.value.priv else priv, 0)))
  }

  function Placed(c: Cell, deleted: bool, want: set<char>, given: set<char>): Cell {
    if c.row.Some? then c.(row := Some(c.row.value.(deleted := deleted, want := want, given := given))) else c
  }

  function Deleted(c: Cell): Cell {
    if c.row.Some? then c.(row := Some(c.row.value.(deleted := true))) else c
  }

  datatype Undo =
    | PutRecord(user: Uid, record: Option<string>)
    | PutModes(user: Uid, want: set<char>, given: set<char>)
    | Remove(user: Uid)
    | Revive(user: Uid, want: set<char>, given: set<char>, priv: string)
    | PutBack(user: Uid, deleted: bool, want: set<char>, given: set<char>)

  function Undone(c: Cell, u: Undo): Cell {
    match u
    case PutRecord(_, record) => c.(record := record)
    case PutModes(_, want, given) => WithModes(c, want, given)
    case Remove(_) => Deleted(c)
    case Revive(_, want, given, priv) => Created(c, want, given, priv)
    case PutBack(_, deleted, want, given) => Placed(c, deleted, want, given)
  }

  type Cells = Uid -> Cell

  /** The compensations of one member, in the order they are run. */
  function UndoneAll(c: Cell, k: Uid, undos: seq<Undo>): Cell {
    if undos == [] then c
    else
      var b := UndoneAll(c, k, undos[..|undos| - 1]);
      if undos[|undos| - 1].user == k then Undone(b, undos[|undos| - 1]) else b
  }

  // ---------- targets ----------

  /** The first occurrences, in order. */
  function Firsts(s: seq<Uid>): (r: seq<Uid>)
  {
    if s == [] then []
    else
      var rest := Firsts(s[..|s| - 1]);
      if s[|s| - 1] in rest then rest else rest + [s[|s| - 1]]
  }

  ghost predicate Distinct(s: seq<Uid>) { forall i, j | 0 <= i < j < |s| :: s[i] != s[j] }

  lemma {:induction false} FirstsAreDistinct(s: seq<Uid>)
    ensures Distinct(Firsts(s)) && (s != [] ==> Firsts(s) != [])
    ensures forall x :: x in Firsts(s) <==> x in s
  {
    if s != [] {
      FirstsAreDistinct(s[..|s| - 1]);
      assert s == s[..|s| - 1] + [s[|s| - 1]];
    }
  }

  lemma FirstsStep(s: seq<Uid>, i: nat)
    requires i < |s|
    ensures Firsts(s[..i + 1]) == if s[i] in Firsts(s[..i]) then Firsts(s[..i]) else Firsts(s[..i]) + [s[i]]
    ensures s[..i + 1] == s[..i] + [s[i]] && s[i] in s
  {
    assert s[..i + 1][..i] == s[..i];
  }

  /** Among the first occurrences, order is as in the list. */
  lemma {:induction false} FirstsKeepOrder(s: seq<Uid>, p: nat, q: nat)
    requires p < q < |s| && s[p] !in s[..p] && s[q] !in s[..q]
    ensures exists j: nat, k: nat :: j < k < |Firsts(s)| && Firsts(s)[j] == s[p] && Firsts(s)[k] == s[q]
  {
    var n := |s| - 1;
    var init := s[..n];
    if q < n {
      assert init[..p] == s[..p] && init[..q] == s[..q];
      FirstsKeepOrder(init, p, q);
      var j: nat, k: nat :| j < k < |Firsts(init)| && Firsts(init)[j] == s[p] && Firsts(init)[k] == s[q];
      assert Firsts(s)[j] == s[p] && Firsts(s)[k] == s[q];
    } else {
      FirstsAreDistinct(init);
      assert init[p] == s[p];
      assert s[p] in Firsts(init);
      var j: nat :| j < |Firsts(init)| && Firsts(init)[j] == s[p];
      assert Firsts(s)[j] == s[p] && Firsts(s)[|Firsts(init)|] == s[q];
    }
  }

  /** The users a request names: the list, then the single name if there is one. */
  function Named(parse: string -> Uid, single: string, users: seq<string>): seq<Uid> {
    var values := if Topologies.Trim(single) != "" then users + [single] else users;
    seq(|values|, i requires 0 <= i < |values| => parse(Topologies.Trim(values[i])))
  }

  lemma NamedAre(parse: string -> Uid, single: string, users: seq<string>)
    ensures |Named(parse, single, users)| == |users| + if Topologies.Trim(single) == "" then 0 else 1
    ensures forall i | 0 <= i < |users| :: Named(parse, single, users)[i] == parse(Topologies.Trim(users[i]))
    ensures Topologies.Trim(single) != "" ==>
              Named(parse, single, users)[|users|] == parse(Topologies.Trim(single))
  {
  }

  predicate Targetable(owner: Uid, uids: seq<Uid>) { 1 <= |uids| <= 100 && 0 !in uids && owner !in uids }

  /** moderationTargets: all values must name users other than the owner; each
      user is listed once, where it first occurs. */
  method ModerationTargets(parse: string -> Uid, owner: Uid, single: string, users: seq<string>)
    returns (targets: Option<seq<Uid>>)
    ensures targets.Some? <==> Targetable(owner, Named(parse, single, users))
    ensures targets.Some? ==>
              && targets.value == Firsts(Named(parse, single, users)) && targets.value != []
              && Distinct(targets.value) && (forall x :: x in targets.value <==> x in Named(parse, single, users))
    ensures targets.Some? <==>
              && 1 <= |Named(parse, single, users)| <= 100
              && 0 !in Named(parse, single, users) && owner !in Named(parse, single, users)
  {
    var values := users;
    if Topologies.Trim(single) != "" {
      values := values + [single];
    }
    ghost var all := Named(parse, single, users);
    if |values| == 0 || |values| > 100 {
      return None;
    }
    var seen: set<Uid> := {};
    var uids: seq<Uid> := [];
    for i := 0 to |values|
      invariant uids == Firsts(all[..i]) && (forall x :: x in seen <==> x in uids)
      invariant 0 !in all[..i] && owner !in all[..i]
    {
      FirstsStep(all, i);
      var uid := parse(Topologies.Trim(values[i]));
      if uid == 0 || uid == owner {
        return None;
      }
      if uid !in seen {
        seen := seen + {uid};
        uids := uids + [uid];
      }
    }
    assert all[..|values|] == all;
    FirstsAreDistinct(all);
    targets := Some(uids);
  }

  lemma OneTarget(parse: string -> Uid, owner: Uid, user: string)
    ensures Targetable(owner, Named(parse, user, [])) <==>
              Topologies.Trim(user) != "" && parse(Topologies.Trim(user)) != 0 && parse(Topologies.Trim(user)) != owner
    ensures Topologies.Trim(user) != "" ==> Firsts(Named(parse, user, [])) == [parse(Topologies.Trim(user))]
  {
    var uids := Named(parse, user, []);
    if Topologies.Trim(user) != "" {
      assert uids == [parse(Topologies.Trim(user))];
      assert uids[..0] == [];
    }
  }

  // ---------- what a request must satisfy ----------

  /** What the control plane and the store say of a topic. */
  datatype TopicState = TopicState(registered: bool, stored: bool, useBt: bool, large: bool, official: bool)

  predicate IsOfficialLarge(t: TopicState) { t.registered && t.stored && !t.useBt && t.large && t.official }

  datatype Settings = Settings(requireReason: bool, defaultMinutes: int, maxMinutes: int)

  /** The length of a string in UTF-8. */
  function ByteLength(s: string): nat {
    if s == [] then 0
    else
      var c := s[0];
      (if c < '\U{80}' then 1 else if c < '\U{800}' then 2 else if c < '\U{10000}' then 3 else 4) + ByteLength(s[1..])
  }

  /** Every character adds the length of its encoding. */
  lemma {:induction false} ByteLengthIs(s: string, c: char)
    ensures ByteLength("") == 0
    ensures c as int < 0x80 ==> ByteLength(s + [c]) == ByteLength(s) + 1
    ensures 0x80 <= c as int < 0x800 ==> ByteLength(s + [c]) == ByteLength(s) + 2
    ensures 0x800 <= c as int < 0x1_0000 ==> ByteLength(s + [c]) == ByteLength(s) + 3
    ensures 0x1_0000 <= c as int ==> ByteLength(s + [c]) == ByteLength(s) + 4
  {
    if s == [] {
      assert ([c])[1..] == [];
      assert s + [c] == [c];
    } else {
      assert (s + [c])[1..] == s[1..] + [c];
      ByteLengthIs(s[1..], c);
    }
  }

  predicate ValidText(reason: string, note: string) {
    ByteLength(Topologies.Trim(reason)) <= 64 && ByteLength(Topologies.Trim(note)) <= 1000
  }

  predicate ValidReason(settings: Settings, reason: string, note: string) {
    ValidText(reason, note) && (settings.requireReason ==> Topologies.Trim(reason) != "")
  }

  /** Lower case, as far as it can yield the letters of a scope. */
  function Lower(s: string): string {
    if s == [] then []
    else
      [if 'A' <= s[0] <= 'Z' then s[0] - 'A' + 'a' else if s[0] == '\U{130}' then 'i' else s[0]] + Lower(s[1..])
  }

  lemma {:induction false} LowerIs(s: string)
    ensures |Lower(s)| == |s|
    ensures forall i | 0 <= i < |s| && 'A' <= s[i] <= 'Z' :: Lower(s)[i] as int == s[i] as int + 32
    ensures forall i | 0 <= i < |s| && s[i] as int == 0x130 :: Lower(s)[i] == 'i'
    ensures forall i | 0 <= i < |s| && !('A' <= s[i] <= 'Z') && s[i] as int != 0x130 :: Lower(s)[i] == s[i]
  {
    if s != [] {
      LowerIs(s[1..]);
      assert forall i | 1 <= i < |s| :: s[i] == s[1..][i - 1] && Lower(s)[i] == Lower(s[1..])[i - 1];
    }
  }

  predicate ValidScope(scope: string) { Lower(Topologies.Trim(scope)) in ["message", "media", "call", "all"] }

  const MINUTE := 60_000_000_000

  /** Durations are 64-bit nanosecond counts that wrap around. */
  function Wrap64(x: int): int {
    (x + 0x8000_0000_0000_0000) % 0x1_0000_0000_0000_0000 - 0x8000_0000_0000_0000
  }

  /** The value in the 64-bit range that differs from `x` by a multiple of two to the 64. */
  lemma Wrap64Iff(x: int, y: int)
    ensures Wrap64(x) == y <==>
              && -0x8000_0000_0000_0000 <= y < 0x8000_0000_0000_0000
              && exists k: int :: x == y + k * 0x1_0000_0000_0000_0000
  {
    var z := x + 0x8000_0000_0000_0000;
    var m := 0x1_0000_0000_0000_0000;
    if Wrap64(x) == y {
      assert x == y + (z / m) * m;
    }
  }

  datatype MuteInput = MuteInput(
    user: string, users: seq<string>, scope: string, reason: string, note: string,
    startsAt: Option<int>, expiresAt: Option<int>, minutes: int)

  function StartOf(input: MuteInput, now: int): int { if input.startsAt.Some? then input.startsAt.value else now }

  function ExpiryOf(settings: Settings, input: MuteInput, now: int): int {
    if input.expiresAt.Some? then input.expiresAt.value
    else
      var minutes := if input.minutes <= 0 then settings.defaultMinutes else input.minutes;
      StartOf(input, now) + Wrap64(minutes * MINUTE)
  }

  /** A mute ends after it starts, and not later than the longest time allowed. */
  predicate ValidTimes(settings: Settings, input: MuteInput, now: int) {
    var start, expiry := StartOf(input, now), ExpiryOf(settings, input, now);
    start < expiry && expiry - start <= Wrap64(settings.maxMinutes * MINUTE)
  }

  predicate ValidMute(settings: Settings, input: MuteInput, now: int) {
    ValidScope(input.scope) && ValidReason(settings, input.reason, input.note) && ValidTimes(settings, input, now)
  }

  /** A minute is 60,000,000,000 nanoseconds. A mute that does not say when it ends lasts
      for the minutes it names or, if it names none, for the default, from its start or
      from now; none may be longer than the maximum. This is so in minutes as long as
      neither number of minutes leaves the range of a 64-bit count of nanoseconds. */
  lemma ValidTimesIff(settings: Settings, input: MuteInput, now: int)
    ensures
      var minutes := if input.minutes > 0 then input.minutes else settings.defaultMinutes;
      var longest := Wrap64(settings.maxMinutes * 60_000_000_000);
      ValidTimes(settings, input, now) <==>
        match (input.startsAt, input.expiresAt)
        case (Some(start), Some(end)) => start < end <= start + longest
        case (None, Some(end)) => now < end <= now + longest
        case (_, None) => 0 < Wrap64(minutes * 60_000_000_000) <= longest
    ensures
      var minutes := if input.minutes > 0 then input.minutes else settings.defaultMinutes;
      input.expiresAt.None? && -153_722_867 <= minutes <= 153_722_867
      && -153_722_867 <= settings.maxMinutes <= 153_722_867 ==>
        (ValidTimes(settings, input, now) <==> 1 <= minutes <= settings.maxMinutes)
  {
    var minutes := if input.minutes > 0 then input.minutes else settings.defaultMinutes;
    Wrap64Iff(minutes * MINUTE, minutes * MINUTE);
    Wrap64Iff(settings.maxMinutes * MINUTE, settings.maxMinutes * MINUTE);
    assert minutes * MINUTE == minutes * MINUTE + 0 * 0x1_0000_0000_0000_0000;
    assert settings.maxMinutes * MINUTE == settings.maxMinutes * MINUTE + 0 * 0x1_0000_0000_0000_0000;
  }

  // ---------- compensation in forward order ----------

  /** Each target's record is written, one after another. */
  function Written(cells: Cells, ks: seq<Uid>, text: Uid -> string): Cells {
    x => if x in ks then cells(x).(record := Some(text(x))) else cells(x)
  }

  /** The compensations remembered on the way. */
  function Recorded(cells: Cells, ks: seq<Uid>, text: Uid -> string): seq<Undo> {
    if ks == [] then []
    else
      var init := ks[..|ks| - 1];
      Recorded(cells, init, text) + [PutRecord(ks[|ks| - 1], Written(cells, init, text)(ks[|ks| - 1]).record)]
  }

  /** The last compensation that is run for a member decides; the others' do not matter. */
  lemma {:induction false} LastUndoDecides(cells: Cells, ks: seq<Uid>, text: Uid -> string, c: Cell, k: Uid, j: nat)
    requires j < |ks| && ks[j] == k && forall i | j < i < |ks| :: ks[i] != k
    ensures UndoneAll(c, k, Recorded(cells, ks, text)) == c.(record := Written(cells, ks[..j], text)(k).record)
  {
    var n := |ks| - 1;
    var undos := Recorded(cells, ks, text);
    assert undos[..|undos| - 1] == Recorded(cells, ks[..n], text);
    if j == n {
      OnlyRecords(cells, ks[..n], text, c, k);
    } else {
      assert ks[..n][..j] == ks[..j];
      LastUndoDecides(cells, ks[..n], text, c, k, j);
    }
  }

  lemma {:induction false} OnlyRecords(cells: Cells, ks: seq<Uid>, text: Uid -> string, c: Cell, k: Uid)
    ensures UndoneAll(c, k, Recorded(cells, ks, text)).row == c.row
    ensures k !in ks ==> UndoneAll(c, k, Recorded(cells, ks, text)) == c
  {
    if ks != [] {
      var undos := Recorded(cells, ks, text);
      assert undos[..|undos| - 1] == Recorded(cells, ks[..|ks| - 1], text);
      OnlyRecords(cells, ks[..|ks| - 1], text, c, k);
    }
  }

  lemma LastIndex(ks: seq<Uid>, k: Uid) returns (j: nat)
    requires k in ks
    ensures j < |ks| && ks[j] == k && forall i | j < i < |ks| :: ks[i] != k
  {
    j := |ks| - 1;
    while ks[j] != k
      invariant j < |ks| && forall i | j < i < |ks| :: ks[i] != k
      invariant k in ks[..j + 1]
      decreases j
    {
      assert ks[..j + 1] == ks[..j] + [ks[j]];
      j := j - 1;
    }
  }

  /** Why targets are deduplicated: running the compensations in the order they were
      recorded restores every record if and only if no target occurs twice (each
      new record differing from the one it replaces). */
  lemma ForwardUndoRestoresIff(cells: Cells, ks: seq<Uid>, text: Uid -> string)
    requires forall k | k in ks :: cells(k).record != Some(text(k))
    ensures (forall k | k in ks ::
               UndoneAll(Written(cells, ks, text)(k), k, Recorded(cells, ks, text)) == cells(k))
            <==> Distinct(ks)
  {
    if Distinct(ks) {
      forall k | k in ks
        ensures UndoneAll(Written(cells, ks, text)(k), k, Recorded(cells, ks, text)) == cells(k)
      {
        RecordsRestored(cells, ks, text, Written(cells, ks, text)(k), k);
      }
    } else {
      var i, i' :| 0 <= i < i' < |ks| && ks[i] == ks[i'];
      var j := LastIndex(ks, ks[i]);
      LastUndoDecides(cells, ks, text, Written(cells, ks, text)(ks[i]), ks[i], j);
      assert ks[i] in ks[..j];
    }
  }

  lemma RecordsRestored(cells: Cells, ks: seq<Uid>, text: Uid -> string, c: Cell, k: Uid)
    requires Distinct(ks) && c.row == cells(k).row && (k !in ks ==> c == cells(k))
    ensures UndoneAll(c, k, Recorded(cells, ks, text)) == cells(k)
  {
    if k in ks {
      var j := LastIndex(ks, k);
      LastUndoDecides(cells, ks, text, c, k, j);
      assert k !in ks[..j];
    } else {
      OnlyRecords(cells, ks, text, c, k);
    }
  }

  // ---------- banning ----------

  predicate IsLive(c: Cell) { c.row.Some? && !c.row.value.deleted }

  function Banned(c: Cell): Cell {
    if IsLive(c) then WithModes(c, NONE, NONE) else Created(c, NONE, NONE, "")
  }

  function Unban(k: Uid, c: Cell): Undo {
    if IsLive(c) then PutModes(k, c.row.value.want, c.row.value.given) else Remove(k)
  }

  function Bans(cells: Cells, ks: seq<Uid>): Cells { x => if x in ks then Banned(cells(x)) else cells(x) }

  function Unbans(cells: Cells, ks: seq<Uid>): seq<Undo> {
    if ks == [] then [] else Unbans(cells, ks[..|ks| - 1]) + [Unban(ks[|ks| - 1], cells(ks[|ks| - 1]))]
  }

  /** Nothing a user or moderator can see differs; a live subscription is back whole. */
  predicate AsBefore(c: Cell, d: Cell) { VisibleOf(c) == VisibleOf(d) && (IsLive(c) ==> c == d) }

  lemma {:induction false} BansRestored(cells: Cells, ks: seq<Uid>, k: Uid)
    requires Distinct(ks)
    ensures
      var c := UndoneAll(Bans(cells, ks)(k), k, Unbans(cells, ks));
      AsBefore(cells(k), c) && (k !in ks ==> c == cells(k))
  {
    UnbansAt(cells, ks, Bans(cells, ks)(k), k);
  }

  lemma {:induction false} UnbansAt(cells: Cells, ks: seq<Uid>, c: Cell, k: Uid)
    requires Distinct(ks)
    ensures UndoneAll(c, k, Unbans(cells, ks)) == if k in ks then Undone(c, Unban(k, cells(k))) else c
  {
    if ks != [] {
      var init := ks[..|ks| - 1];
      var undos := Unbans(cells, ks);
      assert undos[..|undos| - 1] == Unbans(cells, init);
      assert ks == init + [ks[|ks| - 1]];
      UnbansAt(cells, init, c, k);
    }
  }

  /** Reviving a kicked member restores the subscription except for its read
      positions, which start over: all of it only if they had not started. */
  lemma KickUndoneIff(k: Uid, c: Cell)
    requires IsLive(c)
    ensures
      var r := c.row.value;
      var d := Undone(Deleted(c), Revive(k, r.want, r.given, r.priv));
      VisibleOf(d) == VisibleOf(c) && (d == c <==> r.marks == 0)
  {
  }
}
