/** Who may write. A world is etcd's history together with every node's local
    state and the shared database: the cluster fence, the owner row of each topic
    and the committed messages. Steps interleave freely, one atomic load, store,
    etcd request or database transaction at a time
    (cluster_membership.go, refreshView in cluster_control_plane.go,
    ClusterFenceAdvance and MessageSaveAtomic in server/db/mysql/messages.go). */
module Fencing {
  import opened Wrappers
  import opened EtcdStore
  import opened StoreInvariants
  import opened Epochs

  /** The owner of a topic is some function of the ring's set of node names. */
  type RingHash = (set<string>, string) -> string

  /** How far a node is in applying the view it read as `past[at]`. */
  datatype Phase =
    | Idle
    | Loaded(at: nat)      // read, Readiness withdrawn
    | Raised(at: nat)      // fence UPSERT done
    | Passed(at: nat)      // fence read back and equal to the view's epoch
    | Ringed(at: nat)      // ring stored
    | Stamped(at: nat)     // epoch stored

  /** A node's state; views are named by the index of the snapshot they come from. */
  datatype Node = Node(
    instance: int,
    leaseAlive: bool,
    applied: bool,
    view: Option<nat>,
    ringAt: Option<nat>,
    epochAt: Option<nat>,
    phase: Phase)

  /** How far writeFenceToken has come: Ready's loads of the lease flag, of the
      applied flag and of the view, then the load of the ring. The load of the epoch
      completes it. */
  datatype Stage = Asked | Leased | Applied | Viewed | Owned(ringAt: Option<nat>)
  datatype Ask = Ask(node: string, topic: string, stage: Stage)
  datatype Token = Token(topic: string, owner: string, ringAt: Option<nat>, epochAt: nat)
  datatype Row = Row(owner: string, epoch: nat)
  datatype Commit = Commit(topic: string, owner: string, epoch: nat)

  /** A state of etcd with the epoch and the ring names derived from it. */
  datatype Snap = Snap(store: Store, epoch: nat, serving: set<string>)

  ghost function SnapOf(s: Store): Snap { Snap(s, Epoch(s), Serving(s.watched)) }

  datatype World = World(
    own: RingHash,
    configured: set<string>,
    past: seq<Snap>,
    fence: nat,
    nodes: map<string, Node>,
    asks: set<Ask>,
    tokens: set<Token>,
    rows: map<string, Row>,
    commits: seq<Commit>)

  datatype Act =
    | Load | Raise | Check | Fail | StoreRing | StoreEpoch | Publish
    | LeaseLost | LeaseBack | Restart(instance: int)

  datatype WStep =
    | Etcd(step: Step)
    | Local(n: string, act: Act)
    | AskFirst(n: string, topic: string)
    | AskNext(ask: Ask)
    | AskEpoch(ask: Ask)
    | Save(token: Token)

  ghost predicate ValidStart(w: World) {
    && (exists allowed :: w.past == [SnapOf(Start(allowed))])
    && w.fence == 0 && w.asks == {} && w.tokens == {} && w.rows == map[] && w.commits == []
    && (forall n | n in w.nodes :: w.nodes[n] == Fresh(w.nodes[n].instance))
  }

  function Fresh(instance: int): Node { Node(instance, false, false, None, None, None, Idle) }

  ghost function Current(w: World): Store
    requires w.past != []
  {
    w.past[|w.past| - 1].store
  }

  ghost function EpochAt(w: World, at: nat): nat {
    if at < |w.past| then w.past[at].epoch else 0
  }

  ghost function RingNames(w: World, ringAt: Option<nat>): set<string> {
    if ringAt.Some? && ringAt.value < |w.past| then w.past[ringAt.value].serving else w.configured
  }

  /** What Ready asks of the view it has loaded. Its clock test is left out: safety
      does not rest on clocks. */
  ghost predicate ServesIn(w: World, n: string, instance: int, view: Option<nat>) {
    && view.Some? && view.value < |w.past|
    && var v := w.past[view.value];
       ServesAs(v.store.watched, n, instance) && |v.serving| >= Replicas(v.store.watched) / 2 + 1
  }

  /** The next load of writeFenceToken: the stage it reaches, None when it gives up. */
  ghost function NextStage(w: World, a: Ask): Option<Stage>
    requires a.node in w.nodes
  {
    var x := w.nodes[a.node];
    match a.stage
    case Asked => if x.leaseAlive then Some(Leased) else None
    case Leased => if x.applied then Some(Applied) else None
    case Applied => if ServesIn(w, a.node, x.instance, x.view) then Some(Viewed) else None
    case Viewed => if w.own(RingNames(w, x.ringAt), a.topic) == a.node then Some(Owned(x.ringAt)) else None
    case Owned(_) => None
  }

  /** One atomic act of a node; an act that is not next in line changes nothing. */
  ghost function NodeStep(w: World, act: Act, x: Node): Node
    requires w.past != []
  {
    var now := |w.past| - 1;
    match (act, x.phase)
    case (Load, Idle) =>
      if TopologyKey !in Current(w).watched || (x.view.Some? && EpochAt(w, x.view.value) == EpochAt(w, now))
      then x else x.(applied := false, phase := Loaded(now))
    case (Raise, Loaded(at)) => x.(phase := Raised(at))
    case (Check, Raised(at)) => x.(phase := if w.fence == EpochAt(w, at) then Passed(at) else Idle)
    case (Fail, Loaded(_)) => x.(phase := Idle)
    case (Fail, Raised(_)) => x.(phase := Idle)
    case (StoreRing, Passed(at)) => x.(ringAt := Some(at), phase := Ringed(at))
    case (StoreEpoch, Ringed(at)) => x.(epochAt := Some(at), phase := Stamped(at))
    case (Publish, Stamped(at)) => x.(view := Some(at), applied := true, phase := Idle)
    case (LeaseLost, _) => x.(leaseAlive := false, applied := false)
    case (LeaseBack, _) => x.(leaseAlive := true)
    case (Restart(i), _) => Fresh(i)
    case _ => x
  }

  /** The database UPSERT that only ever raises the fence. */
  ghost function FenceAfter(w: World, act: Act, x: Node): nat {
    if act.Raise? && x.phase.Loaded? && EpochAt(w, x.phase.at) > w.fence
    then EpochAt(w, x.phase.at) else w.fence
  }

  /** The conditions under which MessageSaveAtomic commits. */
  ghost predicate Accepts(w: World, t: Token) {
    && w.fence == EpochAt(w, t.epochAt)
    && (t.topic !in w.rows || w.rows[t.topic].epoch < w.fence || w.rows[t.topic] == Row(t.owner, w.fence))
  }

  ghost function Move(w: World, s: WStep): World
    requires w.past != []
  {
    match s
    case Etcd(step) => w.(past := w.past + [SnapOf(Apply(Current(w), step))])
    case Local(n, act) =>
      if n !in w.nodes then w
      else w.(nodes := w.nodes[n := NodeStep(w, act, w.nodes[n])], fence := FenceAfter(w, act, w.nodes[n]),
              asks := if act.Restart? then set a | a in w.asks && a.node != n else w.asks)
    case AskFirst(n, topic) => w.(asks := w.asks + {Ask(n, topic, Asked)})
    case AskNext(a) =>
      if a in w.asks && a.node in w.nodes && NextStage(w, a).Some?
      then w.(asks := w.asks + {a.(stage := NextStage(w, a).value)}) else w
    case AskEpoch(a) =>
      if a in w.asks && a.stage.Owned? && a.node in w.nodes && w.nodes[a.node].epochAt.Some? &&
         EpochAt(w, w.nodes[a.node].epochAt.value) > 0
      then w.(tokens := w.tokens + {Token(a.topic, a.node, a.stage.ringAt, w.nodes[a.node].epochAt.value)}) else w
    case Save(t) =>
      if t in w.tokens && Accepts(w, t)
      then w.(rows := w.rows[t.topic := Row(t.owner, w.fence)],
              commits := w.commits + [Commit(t.topic, t.owner, w.fence)]) else w
  }

  ghost function Run(w: World, steps: seq<WStep>): World
    requires w.past != []
    decreases |steps|
  {
    if steps == [] then w else Run(Move(w, steps[0]), steps[1..])
  }

  // ---------- invariants ----------

  ghost predicate SnapInv(s: Snap) { Inv(s.store) && s == SnapOf(s.store) }

  ghost predicate PastInv(past: seq<Snap>) {
    && past != []
    && (forall i | 0 <= i < |past| :: SnapInv(past[i]))
    && (forall i, j | 0 <= i <= j < |past| :: Later(past[i].store, past[j].store))
  }

  ghost predicate Below(w: World, at: nat) { at < |w.past| && EpochAt(w, at) <= w.fence }

  ghost predicate NodeOk(w: World, x: Node) {
    && (x.ringAt.Some? ==> Below(w, x.ringAt.value))
    && (x.epochAt.Some? ==> Below(w, x.epochAt.value))
    && (x.view.Some? ==> Below(w, x.view.value))
    && (x.phase.Loaded? ==> x.phase.at < |w.past|)
    && (x.phase.Raised? || x.phase.Passed? || x.phase.Ringed? || x.phase.Stamped? ==> Below(w, x.phase.at))
    && (x.epochAt.Some? && (x.phase.Passed? || x.phase.Ringed?) ==>
          EpochAt(w, x.epochAt.value) <= EpochAt(w, x.phase.at))
  }

  /** The ring loaded from `ringAt` names `n` as the owner of the topic. */
  ghost predicate OwnerOk(w: World, n: string, topic: string, ringAt: Option<nat>) {
    && (ringAt.Some? ==> ringAt.value < |w.past|)
    && w.own(RingNames(w, ringAt), topic) == n
  }

  ghost predicate AskOk(w: World, a: Ask) { a.stage.Owned? ==> OwnerOk(w, a.node, a.topic, a.stage.ringAt) }

  ghost predicate TokenOk(w: World, t: Token) { Below(w, t.epochAt) && OwnerOk(w, t.owner, t.topic, t.ringAt) }

  ghost predicate CommitInv(w: World) {
    && (forall t | t in w.rows :: w.rows[t].epoch <= w.fence)
    && (forall c | c in w.commits :: 0 < c.epoch <= w.fence && c.topic in w.rows)
    && (forall c | c in w.commits :: c.epoch < w.rows[c.topic].epoch || w.rows[c.topic] == Row(c.owner, c.epoch))
    && (forall i, j | 0 <= i < j < |w.commits| && w.commits[i].topic == w.commits[j].topic ::
          w.commits[i].epoch < w.commits[j].epoch || w.commits[i] == w.commits[j])
  }

  /** Every owner row comes from a committed message. */
  ghost predicate RowsInv(w: World) {
    forall topic | topic in w.rows :: Commit(topic, w.rows[topic].owner, w.rows[topic].epoch) in w.commits
  }

  ghost predicate LocalInv(w: World) {
    && (forall n | n in w.nodes :: NodeOk(w, w.nodes[n]))
    && (forall a | a in w.asks :: AskOk(w, a))
    && (forall t | t in w.tokens :: TokenOk(w, t) && EpochAt(w, t.epochAt) > 0)
    && CommitInv(w) && RowsInv(w)
  }

  ghost predicate WInv(w: World) { PastInv(w.past) && LocalInv(w) }

  lemma NextIsLater(past: seq<Snap>, step: Step, i: nat)
    requires PastInv(past) && i < |past|
    ensures Later(past[i].store, Apply(past[|past| - 1].store, step))
  {
    var last := past[|past| - 1].store;
    assert SnapInv(past[|past| - 1]);
    StepKeepsInv(last, step);
    LaterTransitive(past[i].store, last, Apply(last, step));
  }

  lemma NextSnapInv(past: seq<Snap>, step: Step)
    requires PastInv(past)
    ensures SnapInv(SnapOf(Apply(past[|past| - 1].store, step)))
  {
    assert SnapInv(past[|past| - 1]);
    StepKeepsInv(past[|past| - 1].store, step);
  }

  lemma LongerPast(past: seq<Snap>, next: Snap)
    requires PastInv(past) && SnapInv(next) && forall i | 0 <= i < |past| :: Later(past[i].store, next.store)
    ensures PastInv(past + [next])
  {
    var longer := past + [next];
    assert Later(next.store, next.store);
    forall i, j | 0 <= i <= j < |longer| ensures Later(longer[i].store, longer[j].store) {
      if j < |past| { assert longer[i] == past[i] && longer[j] == past[j]; }
    }
  }

  lemma PastGrows(past: seq<Snap>, step: Step)
    requires PastInv(past)
    ensures PastInv(past + [SnapOf(Apply(past[|past| - 1].store, step))])
  {
    forall i | 0 <= i < |past| ensures Later(past[i].store, Apply(past[|past| - 1].store, step)) {
      NextIsLater(past, step, i);
    }
    NextSnapInv(past, step);
    LongerPast(past, SnapOf(Apply(past[|past| - 1].store, step)));
  }

  /** `v` has the same history as `w`, or one more store, and no lower fence. */
  ghost predicate Grows(w: World, v: World) {
    w.past <= v.past && w.fence <= v.fence && w.own == v.own && w.configured == v.configured
  }

  lemma Preserved(w: World, v: World)
    requires Grows(w, v)
    ensures forall x {:trigger NodeOk(v, x)} :: NodeOk(w, x) ==> NodeOk(v, x)
    ensures forall a {:trigger AskOk(v, a)} :: AskOk(w, a) ==> AskOk(v, a)
    ensures forall t {:trigger TokenOk(v, t)} :: TokenOk(w, t) ==> TokenOk(v, t)
    ensures forall i {:trigger EpochAt(v, i)} :: 0 <= i < |w.past| ==> EpochAt(v, i) == EpochAt(w, i)
  {
  }

  lemma ActKeepsNode(w: World, act: Act, x: Node)
    requires w.past != [] && NodeOk(w, x)
    ensures NodeOk(w.(fence := FenceAfter(w, act, x)), NodeStep(w, act, x))
  {
  }

  lemma SaveKeepsCommits(w: World, t: Token)
    requires w.past != [] && CommitInv(w) && EpochAt(w, t.epochAt) > 0
    ensures CommitInv(Move(w, Save(t)))
  {
  }

  lemma SaveKeepsRows(w: World, t: Token)
    requires w.past != [] && RowsInv(w)
    ensures RowsInv(Move(w, Save(t)))
  {
    var v := Move(w, Save(t));
    if v != w { assert v.commits[|w.commits|] == Commit(t.topic, t.owner, w.fence); }
    forall topic | topic in v.rows
      ensures Commit(topic, v.rows[topic].owner, v.rows[topic].epoch) in v.commits
    {
      if topic in w.rows && v.rows[topic] == w.rows[topic] {
        assert Commit(topic, w.rows[topic].owner, w.rows[topic].epoch) in w.commits;
      }
    }
  }

  lemma EtcdKeepsInv(w: World, step: Step)
    requires WInv(w)
    ensures WInv(Move(w, Etcd(step)))
  {
    PastGrows(w.past, step);
    Preserved(w, Move(w, Etcd(step)));
  }

  lemma LocalKeepsInv(w: World, n: string, act: Act)
    requires WInv(w)
    ensures WInv(Move(w, Local(n, act)))
  {
    var v := Move(w, Local(n, act));
    Preserved(w, v);
    if n in w.nodes {
      ActKeepsNode(w, act, w.nodes[n]);
      Preserved(w.(fence := v.fence), v);
      assert forall m | m in v.nodes && m != n :: NodeOk(w, w.nodes[m]);
    }
  }

  lemma NewAskKeepsInv(w: World, a: Ask)
    requires WInv(w) && AskOk(w, a)
    ensures WInv(w.(asks := w.asks + {a}))
  {
    var v := w.(asks := w.asks + {a});
    Preserved(w, v);
    assert forall m | m in w.nodes :: NodeOk(w, w.nodes[m]);
  }

  lemma NextStageOk(w: World, a: Ask)
    requires a.node in w.nodes && NodeOk(w, w.nodes[a.node]) && NextStage(w, a).Some?
    ensures AskOk(w, a.(stage := NextStage(w, a).value))
  {
  }

  lemma AskKeepsInv(w: World, s: WStep)
    requires WInv(w) && (s.AskFirst? || s.AskNext?)
    ensures WInv(Move(w, s))
  {
    if s.AskFirst? {
      NewAskKeepsInv(w, Ask(s.n, s.topic, Asked));
    } else if s.ask in w.asks && s.ask.node in w.nodes && NextStage(w, s.ask).Some? {
      NextStageOk(w, s.ask);
      NewAskKeepsInv(w, s.ask.(stage := NextStage(w, s.ask).value));
    }
  }

  lemma TokenKeepsInv(w: World, a: Ask)
    requires WInv(w)
    ensures WInv(Move(w, AskEpoch(a)))
  {
    var v := Move(w, AskEpoch(a));
    Preserved(w, v);
    assert forall m | m in w.nodes :: NodeOk(w, w.nodes[m]);
    if a in w.asks { assert AskOk(w, a); }
  }

  lemma SaveKeepsInv(w: World, t: Token)
    requires WInv(w)
    ensures WInv(Move(w, Save(t)))
  {
    var v := Move(w, Save(t));
    Preserved(w, v);
    SaveKeepsRows(w, t);
    if t in w.tokens { SaveKeepsCommits(w, t); }
  }

  lemma MoveKeepsInv(w: World, s: WStep)
    requires WInv(w)
    ensures WInv(Move(w, s)) && Grows(w, Move(w, s))
  {
    match s
    case Etcd(step) => EtcdKeepsInv(w, step);
    case Local(n, act) => LocalKeepsInv(w, n, act);
    case Save(t) => SaveKeepsInv(w, t);
    case AskEpoch(a) => TokenKeepsInv(w, a);
    case _ => AskKeepsInv(w, s);
  }

  lemma {:induction false} RunKeepsWInv(w: World, steps: seq<WStep>)
    requires WInv(w)
    ensures WInv(Run(w, steps)) && Grows(w, Run(w, steps))
    decreases |steps|
  {
    if steps != [] {
      MoveKeepsInv(w, steps[0]);
      RunKeepsWInv(Move(w, steps[0]), steps[1..]);
    }
  }

  lemma StartKeepsWInv(w: World)
    requires ValidStart(w)
    ensures WInv(w)
  {
    var allowed :| w.past == [SnapOf(Start(allowed))];
    StartInv(allowed);
    assert Later(Start(allowed), Start(allowed));
    assert forall n | n in w.nodes :: NodeOk(w, Fresh(w.nodes[n].instance));
  }

  // ---------- what every run guarantees ----------

  /** A node's applied epoch never exceeds the database fence. */
  lemma AppliedEpochBelowFence(w: World, run: seq<WStep>, n: string)
    requires ValidStart(w) && n in Run(w, run).nodes && Run(w, run).nodes[n].epochAt.Some?
    ensures EpochAt(Run(w, run), Run(w, run).nodes[n].epochAt.value) <= Run(w, run).fence
  {
    StartKeepsWInv(w);
    RunKeepsWInv(w, run);
  }

  ghost predicate RestartsNode(s: WStep, n: string) { s.Local? && s.n == n && s.act.Restart? }

  lemma ActKeepsApplied(w: World, act: Act, x: Node)
    requires w.past != [] && NodeOk(w, x) && x.epochAt.Some? && !act.Restart?
    ensures
      var y := NodeStep(w, act, x);
      y.epochAt.Some? && EpochAt(w, x.epochAt.value) <= EpochAt(w, y.epochAt.value)
  {
  }

  lemma OnlyOwnActs(w: World, s: WStep, n: string)
    requires w.past != [] && n in w.nodes
    ensures
      var v := Move(w, s);
      && n in v.nodes
      && v.nodes[n] == (if s.Local? && s.n == n then NodeStep(w, s.act, w.nodes[n]) else w.nodes[n])
      && (s.Local? ==> v.past == w.past)
  {
  }

  lemma MoveKeepsApplied(w: World, s: WStep, n: string)
    requires WInv(w) && n in w.nodes && w.nodes[n].epochAt.Some? && !RestartsNode(s, n)
    ensures
      var v := Move(w, s);
      && n in v.nodes && v.nodes[n].epochAt.Some?
      && EpochAt(w, w.nodes[n].epochAt.value) <= EpochAt(v, v.nodes[n].epochAt.value)
  {
    assert NodeOk(w, w.nodes[n]);
    OnlyOwnActs(w, s, n);
    if s.Local? && s.n == n {
      ActKeepsApplied(w, s.act, w.nodes[n]);
    } else {
      MoveKeepsInv(w, s);
      Preserved(w, Move(w, s));
    }
  }

  lemma {:induction false} AppliedAlong(w: World, more: seq<WStep>, n: string)
    requires WInv(w) && n in w.nodes && w.nodes[n].epochAt.Some?
    requires forall i | 0 <= i < |more| :: !RestartsNode(more[i], n)
    ensures
      var v := Run(w, more);
      && n in v.nodes && v.nodes[n].epochAt.Some?
      && EpochAt(w, w.nodes[n].epochAt.value) <= EpochAt(v, v.nodes[n].epochAt.value)
    decreases |more|
  {
    if more != [] {
      MoveKeepsInv(w, more[0]);
      MoveKeepsApplied(w, more[0], n);
      AppliedAlong(Move(w, more[0]), more[1..], n);
    }
  }

  /** Although the derived epoch can fall (a lapsed lease takes its revision with
      it), the epoch a process writes with never does, however its run goes on. */
  lemma AppliedEpochNeverFalls(w: World, run: seq<WStep>, more: seq<WStep>, n: string)
    requires ValidStart(w) && n in Run(w, run).nodes && Run(w, run).nodes[n].epochAt.Some?
    requires forall i | 0 <= i < |more| :: !RestartsNode(more[i], n)
    ensures
      var now := Run(w, run);
      && now.past != []
      && var v := Run(now, more);
         && n in v.nodes && v.nodes[n].epochAt.Some?
         && EpochAt(now, now.nodes[n].epochAt.value) <= EpochAt(v, v.nodes[n].epochAt.value)
  {
    StartKeepsWInv(w);
    RunKeepsWInv(w, run);
    AppliedAlong(Run(w, run), more, n);
  }

  /** The database's promise, in every run: the messages of a topic are committed
      with epochs that never fall, and two messages committed under one epoch have
      the same owner - even when several nodes believe they own the topic. */
  lemma OneOwnerPerTopicAndEpoch(w: World, run: seq<WStep>, i: nat, j: nat)
    requires ValidStart(w) && i < j < |Run(w, run).commits|
    requires Run(w, run).commits[i].topic == Run(w, run).commits[j].topic
    ensures
      var cs := Run(w, run).commits;
      && cs[i].epoch <= cs[j].epoch
      && (cs[i].epoch == cs[j].epoch ==> cs[i].owner == cs[j].owner)
  {
    StartKeepsWInv(w);
    RunKeepsWInv(w, run);
  }

  /** No message of the topic has been committed under the present epoch for another owner. */
  ghost predicate Unrivalled(w: World, topic: string, owner: string) {
    forall i | 0 <= i < |w.commits| && w.commits[i].topic == topic && w.commits[i].epoch == w.fence ::
      w.commits[i].owner == owner
  }

  lemma AcceptsIff(w: World, t: Token)
    requires CommitInv(w) && RowsInv(w)
    ensures Accepts(w, t) <==> w.fence == EpochAt(w, t.epochAt) && Unrivalled(w, t.topic, t.owner)
  {
    if t.topic in w.rows {
      var c := Commit(t.topic, w.rows[t.topic].owner, w.rows[t.topic].epoch);
      assert c in w.commits;
      var i :| 0 <= i < |w.commits| && w.commits[i] == c;
    }
    assert forall i | 0 <= i < |w.commits| :: w.commits[i] in w.commits;
  }

  lemma SavedWhen(w: World, t: Token)
    requires w.past != [] && CommitInv(w) && RowsInv(w) && (t in w.tokens ==> TokenOk(w, t))
    ensures
      Move(w, Save(t)).commits
      == w.commits +
         if t in w.tokens && t.epochAt < |w.past| && w.past[t.epochAt].epoch == w.fence &&
            Unrivalled(w, t.topic, t.owner)
         then [Commit(t.topic, t.owner, w.fence)] else []
  {
    AcceptsIff(w, t);
    assert w.commits + [] == w.commits;
  }

  /** What the database commits, in every run: a message saved with a token is committed
      exactly when the token's epoch is the fence and no message of the topic has been
      committed under this epoch for another owner. */
  lemma SavedIff(start: World, run: seq<WStep>, t: Token)
    requires ValidStart(start)
    ensures
      var w := Run(start, run);
      w.past != [] &&
      Move(w, Save(t)).commits
      == w.commits +
         if t in w.tokens && t.epochAt < |w.past| && w.past[t.epochAt].epoch == w.fence &&
            forall i | 0 <= i < |w.commits| && w.commits[i].topic == t.topic && w.commits[i].epoch == w.fence ::
              w.commits[i].owner == t.owner
         then [Commit(t.topic, t.owner, w.fence)] else []
  {
    StartKeepsWInv(start);
    RunKeepsWInv(start, run);
    SavedWhen(Run(start, run), t);
  }

  lemma MoveCommits(w: World, s: WStep)
    requires w.past != []
    ensures
      var v := Move(w, s);
      && w.commits <= v.commits && w.fence <= v.fence
      && (forall i | |w.commits| <= i < |v.commits| :: v.commits[i].epoch == w.fence)
  {
  }

  /** Once the fence stands at an epoch, nothing older is committed any more. */
  lemma {:induction false} FenceShutsOutOldEpochs(w: World, more: seq<WStep>, i: nat)
    requires w.past != [] && |w.commits| <= i < |Run(w, more).commits|
    ensures Run(w, more).commits[i].epoch >= w.fence
    decreases |more|
  {
    var v := Move(w, more[0]);
    MoveCommits(w, more[0]);
    if i < |v.commits| {
      CommitsOnlyGrow(v, more[1..]);
    } else {
      FenceShutsOutOldEpochs(v, more[1..], i);
    }
  }

  lemma {:induction false} CommitsOnlyGrow(w: World, more: seq<WStep>)
    requires w.past != []
    ensures w.commits <= Run(w, more).commits
    decreases |more|
  {
    if more != [] {
      MoveCommits(w, more[0]);
      CommitsOnlyGrow(Move(w, more[0]), more[1..]);
    }
  }

  lemma ReachableBounds(w: World, run: seq<WStep>, n: string)
    requires ValidStart(w) && n in Run(w, run).nodes
    ensures
      var v := Run(w, run);
      && (v.nodes[n].view.Some? ==> EpochAt(v, v.nodes[n].view.value) <= v.fence)
      && (forall t | t in v.rows :: v.rows[t].epoch <= v.fence)
  {
    StartKeepsWInv(w);
    RunKeepsWInv(w, run);
    assert NodeOk(Run(w, run), Run(w, run).nodes[n]);
  }
}
