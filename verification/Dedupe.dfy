/** The bounded Request-ID window of a node: a request that arrives again is
    answered from the first execution instead of being dispatched again
    (cluster_transport_dedupe.go). */
module Dedupe {
  import opened Wrappers

  type Bytes = seq<bv8>

  /** The sending lane: node, process instance and lane number. */
  datatype Origin = Origin(node: string, instance: int, lane: nat)
  datatype Key = Key(origin: Origin, request: nat)
  /** What kind and digest identify. */
  datatype Body = Body(kind: nat, payload: Bytes)

  /** The result of one dispatch: a response, and an error text unless it succeeded. */
  datatype Answer = Answer(payload: Bytes, error: Option<string>)
  datatype Done = Done(at: nat, answer: Answer)

  /** One execution. The table points at it, and so do the callers waiting for it. */
  datatype Run = Run(key: Key, body: Body, start: nat, done: Option<Done>)

  datatype Window = Window(capacity: nat, ttl: nat, now: nat, entries: map<Key, nat>, runs: seq<Run>)

  datatype Verdict = Collision | Wait(run: nat) | Full | Fresh(run: nat)

  /** The run at `r` is over, and its ttl had passed at time `t`. */
  predicate Expired(w: Window, r: nat, t: nat) {
    r < |w.runs| && w.runs[r].done.Some? && w.runs[r].done.value.at + w.ttl <= t
  }

  /** The finished entries of a table whose ttl had passed at time `t`. */
  function ExpiredKeys(w: Window, table: map<Key, nat>, t: nat): set<Key> {
    set k | k in table && Expired(w, table[k], t)
  }

  function Without(table: map<Key, nat>, k: Key): (rest: map<Key, nat>)
    ensures forall x :: x in rest <==> x in table && x != k
    ensures forall x | x in rest :: rest[x] == table[x]
    ensures |rest| == if k in table then |table| - 1 else |table|
  {
    assert (table - {k}).Keys == table.Keys - {k};
    table - {k}
  }

  /** The table without the caller's own entry when that one has expired. */
  function Dropped(w: Window, key: Key, seen: nat): map<Key, nat> {
    if key in ExpiredKeys(w, w.entries, seen) then Without(w.entries, key) else w.entries
  }

  /** What a call finds, `seen` being the clock it read before taking the lock. */
  function Judge(w: Window, key: Key, body: Body, seen: nat): Verdict {
    if key in w.entries && w.entries[key] < |w.runs| && w.runs[w.entries[key]].body != body then Collision
    else if key in w.entries && !Expired(w, w.entries[key], seen) then Wait(w.entries[key])
    else
      var table := Dropped(w, key, seen);
      if |table| >= w.capacity && ExpiredKeys(w, table, seen) == {} then Full else Fresh(|w.runs|)
  }

  /** The table after making room: when it is full, one expired entry goes. Which
      one depends on the order the table is walked in: `hint` if that one has expired. */
  ghost function Room(w: Window, table: map<Key, nat>, seen: nat, hint: Key): map<Key, nat> {
    var gone := ExpiredKeys(w, table, seen);
    if |table| < w.capacity || gone == {} then table
    else if hint in gone then Without(table, hint)
    else var k :| k in gone; Without(table, k)
  }

  function Inserted(w: Window, key: Key, body: Body, room: map<Key, nat>): Window {
    w.(entries := room[key := |w.runs|], runs := w.runs + [Run(key, body, w.now, None)])
  }

  ghost function Begin(w: Window, key: Key, body: Body, seen: nat, hint: Key): Window {
    match Judge(w, key, body, seen)
    case Fresh(_) => Inserted(w, key, body, Room(w, Dropped(w, key, seen), seen, hint))
    case Full => w.(entries := Dropped(w, key, seen))
    case _ => w
  }

  function Complete(w: Window, r: nat, answer: Answer): Window {
    if r < |w.runs| && w.runs[r].done.None?
    then w.(runs := w.runs[r := w.runs[r].(done := Some(Done(w.now, answer)))])
    else w
  }

  /** What a waiting or late caller is given: the stored error is the empty text
      when there was none. */
  function Replayed(a: Answer): Answer {
    var text := if a.error.Some? then a.error.value else "";
    Answer(a.payload, if text != "" then Some("cluster: 去重响应回放: " + text) else None)
  }

  datatype Step =
    | Call(key: Key, body: Body, seen: nat, hint: Key)
    | Return(run: nat, answer: Answer)
    | Tick(now: nat)

  /** Clocks do not run backwards, and a call reads its clock before it gets the lock. */
  ghost function Apply(w: Window, s: Step): Window {
    match s
    case Call(key, body, seen, hint) => if seen <= w.now then Begin(w, key, body, seen, hint) else w
    case Return(r, answer) => Complete(w, r, answer)
    case Tick(now) => if w.now <= now then w.(now := now) else w
  }

  ghost function Exec(w: Window, steps: seq<Step>): Window
    decreases |steps|
  {
    if steps == [] then w else Exec(Apply(w, steps[0]), steps[1..])
  }

  function Empty(capacity: nat, ttl: nat): Window { Window(capacity, ttl, 0, map[], []) }

  // ---------- invariants ----------

  ghost predicate TableInv(w: Window) {
    && |w.entries| <= w.capacity
    && (forall k | k in w.entries ::
          && w.entries[k] < |w.runs| && w.runs[w.entries[k]].key == k
          && (forall j | w.entries[k] < j < |w.runs| :: w.runs[j].key != k))
  }

  /** An execution that is not over, or whose ttl has not passed, is in the table. */
  ghost predicate GuardInv(w: Window) {
    forall r | 0 <= r < |w.runs| && !Expired(w, r, w.now) ::
      w.runs[r].key in w.entries && w.entries[w.runs[r].key] == r
  }

  ghost predicate RunsInv(w: Window) {
    forall i, j | 0 <= i < j < |w.runs| && w.runs[i].key == w.runs[j].key :: Expired(w, i, w.runs[j].start)
  }

  ghost predicate TimeInv(w: Window) {
    forall r | 0 <= r < |w.runs| :: w.runs[r].start <= w.now
  }

  ghost predicate Inv(w: Window) { TableInv(w) && GuardInv(w) && RunsInv(w) && TimeInv(w) }

  /** `room` has a free place, and lacks only expired entries. */
  ghost predicate Fair(w: Window, key: Key, room: map<Key, nat>) {
    && |room| < w.capacity
    && (forall k | k in room :: k in w.entries && room[k] == w.entries[k])
    && (forall k | k in w.entries && (k !in room || k == key) :: Expired(w, w.entries[k], w.now))
  }

  lemma RoomIsFair(w: Window, key: Key, body: Body, seen: nat, hint: Key)
    requires |w.entries| <= w.capacity && seen <= w.now && Judge(w, key, body, seen).Fresh?
    ensures Fair(w, key, Room(w, Dropped(w, key, seen), seen, hint))
  {
  }

  lemma ExpiryStands(w: Window, key: Key, body: Body, room: map<Key, nat>)
    ensures forall r, t | 0 <= r < |w.runs| :: Expired(Inserted(w, key, body, room), r, t) == Expired(w, r, t)
    ensures forall t :: !Expired(Inserted(w, key, body, room), |w.runs|, t)
  {
  }

  lemma FreshKeepsTable(w: Window, key: Key, body: Body, room: map<Key, nat>)
    requires TableInv(w) && Fair(w, key, room)
    ensures TableInv(Inserted(w, key, body, room))
  {
    var v := Inserted(w, key, body, room);
    assert |v.entries| <= |room| + 1 by { assert v.entries.Keys == room.Keys + {key}; }
  }

  lemma FreshKeepsRuns(w: Window, key: Key, body: Body, room: map<Key, nat>)
    requires GuardInv(w) && RunsInv(w) && Fair(w, key, room)
    ensures GuardInv(Inserted(w, key, body, room)) && RunsInv(Inserted(w, key, body, room))
  {
    ExpiryStands(w, key, body, room);
    assert forall r | 0 <= r < |w.runs| && w.runs[r].key == key :: Expired(w, r, w.now);
  }

  lemma FreshKeepsInv(w: Window, key: Key, body: Body, room: map<Key, nat>)
    requires Inv(w) && Fair(w, key, room)
    ensures Inv(Inserted(w, key, body, room))
  {
    FreshKeepsTable(w, key, body, room);
    FreshKeepsRuns(w, key, body, room);
  }

  lemma FullChangesNothing(w: Window, key: Key, body: Body, seen: nat)
    requires |w.entries| <= w.capacity && Judge(w, key, body, seen).Full?
    ensures Dropped(w, key, seen) == w.entries
  {
  }

  lemma BeginKeepsInv(w: Window, key: Key, body: Body, seen: nat, hint: Key)
    requires Inv(w) && seen <= w.now
    ensures Inv(Begin(w, key, body, seen, hint))
  {
    match Judge(w, key, body, seen)
    case Fresh(_) =>
      var room := Room(w, Dropped(w, key, seen), seen, hint);
      RoomIsFair(w, key, body, seen, hint);
      FreshKeepsInv(w, key, body, room);
    case Full => FullChangesNothing(w, key, body, seen);
    case _ =>
  }

  lemma CompleteKeepsInv(w: Window, r: nat, answer: Answer)
    requires Inv(w)
    ensures Inv(Complete(w, r, answer))
  {
    var v := Complete(w, r, answer);
    assert forall i, t | 0 <= i < |w.runs| && Expired(w, i, t) :: Expired(v, i, t);
  }

  lemma TickKeepsInv(w: Window, now: nat)
    requires Inv(w) && w.now <= now
    ensures Inv(w.(now := now))
  {
    var v := w.(now := now);
    assert forall i, t :: Expired(v, i, t) == Expired(w, i, t);
    assert forall i | Expired(w, i, w.now) :: Expired(w, i, now);
  }

  lemma StepKeepsInv(w: Window, s: Step)
    requires Inv(w)
    ensures Inv(Apply(w, s))
  {
    match s
    case Call(key, body, seen, hint) => if seen <= w.now { BeginKeepsInv(w, key, body, seen, hint); }
    case Return(r, answer) => CompleteKeepsInv(w, r, answer);
    case Tick(now) => if w.now <= now { TickKeepsInv(w, now); }
  }

  lemma {:induction false} RunKeepsInv(w: Window, steps: seq<Step>)
    requires Inv(w)
    ensures Inv(Exec(w, steps))
    decreases |steps|
  {
    if steps != [] {
      StepKeepsInv(w, steps[0]);
      RunKeepsInv(Apply(w, steps[0]), steps[1..]);
    }
  }

  lemma EmptyInv(capacity: nat, ttl: nat)
    ensures Inv(Empty(capacity, ttl))
  {
  }

  lemma {:induction false} ExecAppend(w: Window, steps: seq<Step>, s: Step)
    ensures Exec(w, steps + [s]) == Apply(Exec(w, steps), s)
    decreases |steps|
  {
    if steps == [] {
      assert Exec(Apply(w, s), []) == Apply(w, s);
      assert ([s])[1..] == [];
    } else {
      assert (steps + [s])[1..] == steps[1..] + [s];
      ExecAppend(Apply(w, steps[0]), steps[1..], s);
    }
  }

  // ---------- what the window guarantees ----------

  /** A request is executed again only after its earlier execution has finished
      and the ttl has passed since; and the table never outgrows its capacity. */
  lemma RerunsAreSeparated(capacity: nat, ttl: nat, history: seq<Step>, i: nat, j: nat)
    requires i < j < |Exec(Empty(capacity, ttl), history).runs|
    requires var w := Exec(Empty(capacity, ttl), history); w.runs[i].key == w.runs[j].key
    ensures
      var w := Exec(Empty(capacity, ttl), history);
      w.runs[i].done.Some? && w.runs[i].done.value.at + w.ttl <= w.runs[j].start <= w.now
  {
    EmptyInv(capacity, ttl);
    RunKeepsInv(Empty(capacity, ttl), history);
  }

  lemma WindowIsBounded(capacity: nat, ttl: nat, history: seq<Step>)
    ensures |Exec(Empty(capacity, ttl), history).entries| <= capacity
  {
    EmptyInv(capacity, ttl);
    RunKeepsInv(Empty(capacity, ttl), history);
    SettingsStand(Empty(capacity, ttl), history);
  }

  lemma {:induction false} SettingsStand(w: Window, steps: seq<Step>)
    ensures Exec(w, steps).capacity == w.capacity && Exec(w, steps).ttl == w.ttl
    decreases |steps|
  {
    if steps != [] { SettingsStand(Apply(w, steps[0]), steps[1..]); }
  }

  lemma RunsStand(w: Window, s: Step, r: nat)
    requires r < |w.runs|
    ensures
      var v := Apply(w, s);
      && r < |v.runs| && v.runs[r].key == w.runs[r].key && v.runs[r].body == w.runs[r].body
      && v.runs[r].start == w.runs[r].start && (w.runs[r].done.Some? ==> v.runs[r] == w.runs[r])
  {
  }

  /** An execution has one answer: whoever waits for it, however long, is given
      the answer of that first execution. */
  lemma {:induction false} AnswersAreFinal(w: Window, steps: seq<Step>, r: nat)
    requires r < |w.runs| && w.runs[r].done.Some?
    ensures r < |Exec(w, steps).runs| && Exec(w, steps).runs[r] == w.runs[r]
    decreases |steps|
  {
    if steps != [] {
      RunsStand(w, steps[0], r);
      AnswersAreFinal(Apply(w, steps[0]), steps[1..], r);
    }
  }

  /** No step, however full the table, gives up an execution that is under way
      or whose ttl has not passed. */
  lemma ProtectedSurvives(w: Window, s: Step, r: nat)
    requires Inv(w) && r < |w.runs| && !Expired(w, r, w.now)
    ensures w.runs[r].key in Apply(w, s).entries && Apply(w, s).entries[w.runs[r].key] == r
  {
    if s.Call? && s.seen <= w.now && Judge(w, s.key, s.body, s.seen).Fresh? {
      RoomIsFair(w, s.key, s.body, s.seen, s.hint);
    }
  }

  ghost predicate Latest(w: Window, key: Key, r: nat) {
    r < |w.runs| && w.runs[r].key == key && forall j | r < j < |w.runs| :: w.runs[j].key != key
  }

  /** The table decides as the full log of executions would: a caller waits for
      the latest execution of its key if that one is open or inside its ttl, and
      never for one whose ttl had passed when it read the clock; it is refused
      for a mismatch only against that execution, and for lack of room only when
      every entry is protected. */
  lemma VerdictFromLog(w: Window, key: Key, body: Body, seen: nat)
    requires Inv(w) && seen <= w.now
    ensures
      var v := Judge(w, key, body, seen);
      && (forall r: nat | Latest(w, key, r) && !Expired(w, r, w.now) ::
            v == if w.runs[r].body == body then Wait(r) else Collision)
      && (v.Wait? ==> Latest(w, key, v.run) && w.runs[v.run].body == body && !Expired(w, v.run, seen))
      && (v.Collision? ==> exists r: nat :: Latest(w, key, r) && w.runs[r].body != body)
      && (v.Full? ==>
            && |w.entries| == w.capacity
            && forall k | k in w.entries :: !Expired(w, w.entries[k], seen))
      && (v.Fresh? ==> forall r: nat | Latest(w, key, r) :: Expired(w, r, w.now))
  {
    if key in w.entries { assert Latest(w, key, w.entries[key]); }
    forall r: nat | Latest(w, key, r) && !Expired(w, r, w.now)
      ensures Judge(w, key, body, seen) == if w.runs[r].body == body then Wait(r) else Collision
    {
      assert w.runs[r].key in w.entries && w.entries[w.runs[r].key] == r;
    }
    if Judge(w, key, body, seen).Full? {
      FullChangesNothing(w, key, body, seen);
      assert forall k | k in w.entries && Expired(w, w.entries[k], seen) :: k in ExpiredKeys(w, w.entries, seen);
    }
  }

  ghost predicate Protected(w: Window, r: nat, seen: nat)
    requires r < |w.runs|
  {
    w.runs[r].done.None? || seen < w.runs[r].done.value.at + w.ttl
  }

  lemma VerdictIs(w: Window, key: Key, body: Body, seen: nat)
    requires Inv(w) && seen <= w.now
    ensures forall k | k in w.entries :: w.entries[k] < |w.runs|
    ensures
      var v := Judge(w, key, body, seen);
      && (v.Collision? <==> key in w.entries && w.runs[w.entries[key]].body != body)
      && (v.Wait? <==>
            key in w.entries && w.runs[w.entries[key]].body == body && Protected(w, w.entries[key], seen))
      && (v.Wait? ==> v.run == w.entries[key])
      && (v.Full? <==>
            && key !in w.entries && |w.entries| == w.capacity
            && forall k | k in w.entries :: Protected(w, w.entries[k], seen))
  {
    if key !in w.entries {
      assert Dropped(w, key, seen) == w.entries;
      forall k | k in w.entries ensures k in ExpiredKeys(w, w.entries, seen) <==> Expired(w, w.entries[k], seen) { }
    }
  }

  /** A call that has just read its clock, and is not refused for another body, is
      dispatched exactly when every earlier execution of its key is over for the ttl and
      there is room. */
  lemma FreshIff(w: Window, key: Key, body: Body)
    requires Inv(w) && !Judge(w, key, body, w.now).Collision?
    ensures forall k | k in w.entries :: w.entries[k] < |w.runs|
    ensures Judge(w, key, body, w.now).Fresh? <==>
              && (forall r | 0 <= r < |w.runs| && w.runs[r].key == key ::
                    w.runs[r].done.Some? && w.runs[r].done.value.at + w.ttl <= w.now)
              && (key in w.entries || |w.entries| < w.capacity ||
                  exists k :: k in w.entries && w.runs[w.entries[k]].done.Some? &&
                              w.runs[w.entries[k]].done.value.at + w.ttl <= w.now)
  {
    VerdictIs(w, key, body, w.now);
    if r: nat :| r < |w.runs| && w.runs[r].key == key && Protected(w, r, w.now) {
      assert w.entries[key] == r;
    }
  }

  /** The verdict in terms of the table and the clock, after any history: only the exact
      body waits, while the execution is open or `seen` is before its end plus ttl; from
      then on it is dispatched again. A call is refused for room only when it has no
      entry, the table is full, and every entry is open or inside its ttl. */
  lemma VerdictIff(capacity: nat, ttl: nat, history: seq<Step>, key: Key, body: Body, seen: nat)
    requires seen <= Exec(Empty(capacity, ttl), history).now
    ensures
      var w := Exec(Empty(capacity, ttl), history);
      var v := Judge(w, key, body, seen);
      && w.ttl == ttl && (forall k | k in w.entries :: w.entries[k] < |w.runs|)
      && (v.Collision? <==> key in w.entries && w.runs[w.entries[key]].body != body)
      && (v.Wait? <==>
            && key in w.entries && w.runs[w.entries[key]].body == body
            && (w.runs[w.entries[key]].done.None? || seen < w.runs[w.entries[key]].done.value.at + ttl))
      && (v.Wait? ==> v.run == w.entries[key])
      && (v.Full? <==>
            && key !in w.entries && |w.entries| == capacity
            && forall k | k in w.entries ::
                 w.runs[w.entries[k]].done.None? || seen < w.runs[w.entries[k]].done.value.at + ttl)
  {
    EmptyInv(capacity, ttl);
    RunKeepsInv(Empty(capacity, ttl), history);
    SettingsStand(Empty(capacity, ttl), history);
    var w := Exec(Empty(capacity, ttl), history);
    VerdictIs(w, key, body, seen);
    assert (forall k | k in w.entries :: Protected(w, w.entries[k], seen)) <==>
           (forall k | k in w.entries ::
              w.runs[w.entries[k]].done.None? || seen < w.runs[w.entries[k]].done.value.at + ttl);
  }

  /** So, in terms of the log: a call that read its clock when the latest execution of its
      key was over for the ttl never waits for it, and is dispatched unless the table is
      full of entries that are open or inside their ttl. */
  lemma RunsAgainAfterTtl(capacity: nat, ttl: nat, history: seq<Step>, key: Key, body: Body, seen: nat, r: nat)
    requires seen <= Exec(Empty(capacity, ttl), history).now
    requires
      var w := Exec(Empty(capacity, ttl), history);
      && r < |w.runs| && w.runs[r].key == key && (forall j | r < j < |w.runs| :: w.runs[j].key != key)
      && w.runs[r].body == body && w.runs[r].done.Some? && w.runs[r].done.value.at + ttl <= seen
    ensures
      var w := Exec(Empty(capacity, ttl), history);
      var v := Judge(w, key, body, seen);
      && (v == Fresh(|w.runs|) || v.Full?)
      && (|w.entries| < capacity || key in w.entries ==> v.Fresh?)
  {
    VerdictIff(capacity, ttl, history, key, body, seen);
    EmptyInv(capacity, ttl);
    RunKeepsInv(Empty(capacity, ttl), history);
    var w := Exec(Empty(capacity, ttl), history);
    if key in w.entries {
      assert w.entries[key] == r;
    }
  }

  /** Executions are recorded with the times of their call and of their return. */
  lemma TimesAreRecorded(w: Window, key: Key, body: Body, seen: nat, hint: Key, r: nat, answer: Answer)
    ensures
      var v := Apply(w, Call(key, body, seen, hint));
      |v.runs| > |w.runs| ==> v.runs == w.runs + [Run(key, body, w.now, None)]
    ensures
      var v := Apply(w, Return(r, answer));
      v.runs == if r < |w.runs| && w.runs[r].done.None?
                then w.runs[r := Run(w.runs[r].key, w.runs[r].body, w.runs[r].start, Some(Done(w.now, answer)))]
                else w.runs
  {
  }

  /** A replay carries the first payload, and reports success exactly when the
      first execution did - unless that one failed with an empty error text. */
  lemma ReplayAgreesIff(a: Answer)
    ensures Replayed(a).payload == a.payload
    ensures Replayed(a).error.Some? == a.error.Some? <==> a.error != Some("")
    ensures Replayed(a).error.Some? ==>
              a.error.Some? && Replayed(a).error.value == "cluster: 去重响应回放: " + a.error.value
  {
  }

  // ---------- the cache ----------

  /** Each method body between its calls of others is one critical section. */
  class Cache {
    const capacity: nat
    const ttl: nat
    var now: nat
    var entries: map<Key, nat>
    var runs: seq<Run>

    ghost function State(): Window
      reads this
    {
      Window(capacity, ttl, now, entries, runs)
    }

    constructor (capacity: nat, ttl: nat)
      ensures State() == Empty(capacity, ttl) && Inv(State())
    {
      this.capacity := capacity;
      this.ttl := ttl;
      now, entries, runs := 0, map[], [];
    }

    /** Clears one finished entry past its ttl, if there is any. */
    method EvictOneCompleted(seen: nat) returns (evicted: Option<Key>)
      modifies this`entries
      ensures evicted.None? ==> ExpiredKeys(old(State()), old(entries), seen) == {} && entries == old(entries)
      ensures evicted.Some? ==>
                && evicted.value in ExpiredKeys(old(State()), old(entries), seen)
                && entries == Without(old(entries), evicted.value)
      ensures evicted.None? ==> forall k | k in old(entries) && old(entries)[k] < |runs| ::
                runs[old(entries)[k]].done.None? || seen < runs[old(entries)[k]].done.value.at + ttl
      ensures evicted.Some? ==>
                && evicted.value in old(entries) && old(entries)[evicted.value] < |runs|
                && runs[old(entries)[evicted.value]].done.Some?
                && runs[old(entries)[evicted.value]].done.value.at + ttl <= seen
    {
      var left := entries.Keys;
      while left != {}
        invariant entries == old(entries) && left <= entries.Keys
        invariant forall k | k in entries && k !in left :: !Expired(old(State()), entries[k], seen)
        invariant forall k | k in entries && k !in left && entries[k] < |runs| ::
                    runs[entries[k]].done.None? || seen < runs[entries[k]].done.value.at + ttl
        decreases |left|
      {
        var k :| k in left;
        left := left - {k};
        var r := entries[k];
        if r < |runs| && runs[r].done.Some? && runs[r].done.value.at + ttl <= seen {
          entries := Without(entries, k);
          return Some(k);
        }
      }
      evicted := None;
    }

    /** Makes room in a full table, or finds that every entry is protected. */
    method MakeRoom(seen: nat) returns (ok: bool, ghost hint: Key)
      modifies this`entries
      ensures ok <==> |old(entries)| < capacity || ExpiredKeys(old(State()), old(entries), seen) != {}
      ensures entries == Room(old(State()), old(entries), seen, hint)
    {
      hint :| true;
      ok := true;
      if |entries| >= capacity {
        var evicted := EvictOneCompleted(seen);
        ok := evicted.Some?;
        if ok { hint := evicted.value; }
      }
    }

    /** The first critical section of Execute. */
    method Enter(key: Key, body: Body, seen: nat) returns (verdict: Verdict, ghost hint: Key)
      requires TableInv(State())
      modifies this`entries, this`runs
      ensures verdict == old(Judge(State(), key, body, seen))
      ensures State() == Begin(old(State()), key, body, seen, hint)
      ensures verdict.Wait? <==>
                && key in old(entries) && old(runs)[old(entries)[key]].body == body
                && (old(runs)[old(entries)[key]].done.None? ||
                    seen < old(runs)[old(entries)[key]].done.value.at + ttl)
      ensures verdict.Collision? <==> key in old(entries) && old(runs)[old(entries)[key]].body != body
      ensures runs == if verdict.Fresh? then old(runs) + [Run(key, body, now, None)] else old(runs)
      ensures verdict.Fresh? ==> key in entries && entries[key] == |old(runs)| == verdict.run
    {
      hint := key;
      if key in entries {
        var r := entries[key];
        if runs[r].body != body { return Collision, hint; }
        if !(runs[r].done.Some? && runs[r].done.value.at + ttl <= seen) { return Wait(r), hint; }
        entries := Without(entries, key);
      }
      assert entries == Dropped(old(State()), key, seen);
      var ok;
      ok, hint := MakeRoom(seen);
      if !ok { return Full, hint; }
      verdict := Fresh(|runs|);
      entries := entries[key := |runs|];
      runs := runs + [Run(key, body, now, None)];
    }

    /** The second critical section: the first answer is stored. */
    method Leave(run: nat, answer: Answer)
      requires Inv(State()) && run < |runs| && runs[run].done.None?
      modifies this`runs
      ensures State() == Complete(old(State()), run, answer) && Inv(State())
      ensures runs == old(runs)[run := old(runs)[run].(done := Some(Done(now, answer)))]
    {
      CompleteKeepsInv(State(), run, answer);
      runs := runs[run := runs[run].(done := Some(Done(now, answer)))];
    }

    /** One critical section of another caller, or a tick of the clock. */
    method Other(mine: Option<nat>) returns (ghost step: Step)
      requires Inv(State()) && (mine.Some? ==> mine.value < |runs|)
      modifies this
      ensures Inv(State()) && State() == Apply(old(State()), step)
      ensures |old(runs)| <= |runs| && (mine.Some? ==> runs[mine.value] == old(runs[mine.value]))
    {
      if * {
        var key: Key, body: Body, at: nat :| at <= now;
        ghost var hint;
        var verdict;
        verdict, hint := Enter(key, body, at);
        BeginKeepsInv(old(State()), key, body, at, hint);
        step := Call(key, body, at, hint);
      } else if * {
        var run: nat, answer: Answer :| true;
        step := Tick(now);
        if run < |runs| && runs[run].done.None? && Some(run) != mine {
          Leave(run, answer);
          step := Return(run, answer);
        }
      } else {
        var later: nat :| now <= later;
        TickKeepsInv(State(), later);
        now := later;
        step := Tick(now);
      }
    }

    /** Any number of calls, returns and clock ticks of others, who leave an open
        execution of `mine` to its caller. */
    method Others(mine: Option<nat>) returns (ghost steps: seq<Step>)
      requires Inv(State()) && (mine.Some? ==> mine.value < |runs|)
      modifies this
      ensures Inv(State()) && State() == Exec(old(State()), steps)
      ensures |old(runs)| <= |runs| && (mine.Some? ==> runs[mine.value] == old(runs[mine.value]))
    {
      steps := [];
      var n: nat := *;
      while n > 0
        invariant Inv(State()) && State() == Exec(old(State()), steps)
        invariant |old(runs)| <= |runs| && (mine.Some? ==> runs[mine.value] == old(runs[mine.value]))
      {
        n := n - 1;
        ghost var step := Other(mine);
        ExecAppend(old(State()), steps, step);
        steps := steps + [step];
      }
    }

    /** One call. The dispatch function runs only if the verdict was Fresh, others
        keep calling while it runs, and its answer is recorded before it is
        returned. A caller told to wait gets the stored answer of that execution once it
        is over, unless its context ends and it gives up. */
    method Execute(key: Key, body: Body, seen: nat, givesUp: bool)
      returns (verdict: Verdict, answer: Option<Answer>)
      requires Inv(State()) && seen <= now
      modifies this
      ensures Inv(State())
      ensures verdict == old(Judge(State(), key, body, seen))
      ensures verdict.Fresh? ==> answer.Some?
      ensures answer.Some? ==> verdict.Fresh? || verdict.Wait?
      ensures verdict.Fresh? ==>
                && verdict.run < |runs| && runs[verdict.run].key == key
                && runs[verdict.run].done == Some(Done(now, answer.value))
      ensures verdict.Wait? ==>
                verdict.run < |runs| && (answer.Some? <==> !givesUp && runs[verdict.run].done.Some?)
      ensures verdict.Wait? && answer.Some? ==>
                && verdict.run < |runs| && runs[verdict.run].key == key && runs[verdict.run].body == body
                && runs[verdict.run].done.Some? && answer.value == Replayed(runs[verdict.run].done.value.answer)
    {
      ghost var hint, steps;
      verdict, hint := Enter(key, body, seen);
      BeginKeepsInv(old(State()), key, body, seen, hint);
      ghost var entered := State();
      match verdict
      case Fresh(r) =>
        steps := Others(Some(r));
        var dispatched: Answer := *;
        Leave(r, dispatched);
        return verdict, Some(dispatched);
      case Wait(r) =>
        steps := Others(None);
        RunStandsThrough(entered, steps, r);
        if !givesUp && runs[r].done.Some? { return verdict, Some(Replayed(runs[r].done.value.answer)); }
        return verdict, None;
      case _ => return verdict, None;
    }
  }

  lemma {:induction false} RunStandsThrough(w: Window, steps: seq<Step>, r: nat)
    requires r < |w.runs|
    ensures
      var v := Exec(w, steps);
      r < |v.runs| && v.runs[r].key == w.runs[r].key && v.runs[r].body == w.runs[r].body
    decreases |steps|
  {
    if steps != [] {
      RunsStand(w, steps[0], r);
      RunStandsThrough(Apply(w, steps[0]), steps[1..], r);
    }
  }
}
