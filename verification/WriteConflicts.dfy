/** The two ways in which the database can be made to accept two owners' tokens for
    one topic at the same time, for every world in which they are open, and as runs
    from an empty cluster. */
module WriteConflicts {
  import opened Wrappers
  import opened EtcdStore
  import opened Epochs
  import opened Fencing
  import opened WriteTokens
  import opened Histories

  /** Two tokens for one topic, by different owners, both accepted as things stand. */
  ghost predicate Conflict(w: World, a: Token, b: Token) {
    a in w.tokens && b in w.tokens && a.topic == b.topic && a.owner != b.owner && Accepts(w, a) && Accepts(w, b)
  }

  // ---------- pieces of runs ----------

  function EtcdSteps(steps: seq<Step>): seq<WStep> { seq(|steps|, i requires 0 <= i < |steps| => Etcd(steps[i])) }

  /** etcd serves `steps`, and nothing else happens. */
  lemma {:induction false} EtcdRun(w: World, steps: seq<Step>)
    requires w.past != []
    ensures
      var v := Run(w, EtcdSteps(steps));
      && v == w.(past := v.past) && w.past <= v.past && |v.past| == |w.past| + |steps|
      && Current(v) == Exec(Current(w), steps)
      && (steps != [] ==> v.past[|v.past| - 1] == SnapOf(Current(v)))
    decreases |steps|
  {
    if steps != [] {
      assert EtcdSteps(steps)[1..] == EtcdSteps(steps[1..]);
      EtcdRun(Move(w, Etcd(steps[0])), steps[1..]);
    }
  }

  // A node's keep-alive stands, it reads the newest view, passes the fence, and
  // applies the view.

  function LoadBy(n: string): seq<WStep> { [Local(n, LeaseBack)] + [Local(n, Load)] }

  function PassBy(n: string): seq<WStep> { LoadBy(n) + [Local(n, Raise)] + [Local(n, Check)] }

  function StoreBy(n: string): seq<WStep> { PassBy(n) + [Local(n, StoreRing)] + [Local(n, StoreEpoch)] }

  function InstallBy(n: string): seq<WStep> { StoreBy(n) + [Local(n, Publish)] }

  function Installed(instance: int, at: nat): Node { Node(instance, true, true, Some(at), Some(at), Some(at), Idle) }

  ghost predicate CanInstall(w: World, n: string) {
    && w.past != [] && n in w.nodes && w.nodes[n].phase.Idle? && TopologyKey in Current(w).watched
    && w.fence <= EpochAt(w, |w.past| - 1)
    && (w.nodes[n].view.Some? ==> EpochAt(w, w.nodes[n].view.value) != EpochAt(w, |w.past| - 1))
  }

  /** The world with one node's state and the fence replaced. */
  ghost function At(w: World, n: string, x: Node, fence: nat): World { w.(nodes := w.nodes[n := x], fence := fence) }

  ghost function AfterInstall(w: World, n: string): World
    requires CanInstall(w, n)
  {
    At(w, n, Installed(w.nodes[n].instance, |w.past| - 1), EpochAt(w, |w.past| - 1))
  }

  lemma ActMove(w: World, n: string, act: Act, x: Node, fence: nat)
    requires w.past != [] && !act.Restart? && n in w.nodes
    ensures
      var u := At(w, n, x, fence);
      Move(u, Local(n, act)) == At(w, n, NodeStep(u, act, x), FenceAfter(u, act, x))
  {
    var u := At(w, n, x, fence);
    assert w.nodes[n := x][n := NodeStep(u, act, x)] == w.nodes[n := NodeStep(u, act, x)];
  }

  lemma RunThen(w: World, a: seq<WStep>, u: World, s: WStep)
    requires w.past != [] && u.past != [] && Run(w, a) == u
    ensures Run(w, a + [s]) == Move(u, s)
  {
    RunConcat(w, a, [s]);
    assert [s][1..] == [];
    assert Run(Move(u, s), []) == Move(u, s);
  }

  lemma ActThen(w: World, a: seq<WStep>, n: string, act: Act, x: Node, fence: nat, y: Node, next: nat)
    requires w.past != [] && !act.Restart? && n in w.nodes && Run(w, a) == At(w, n, x, fence)
    requires y == NodeStep(At(w, n, x, fence), act, x) && next == FenceAfter(At(w, n, x, fence), act, x)
    ensures Run(w, a + [Local(n, act)]) == At(w, n, y, next)
  {
    RunThen(w, a, At(w, n, x, fence), Local(n, act));
    ActMove(w, n, act, x, fence);
  }

  lemma LoadRun(w: World, n: string)
    requires CanInstall(w, n)
    ensures
      Run(w, LoadBy(n))
      == At(w, n, w.nodes[n].(leaseAlive := true, applied := false, phase := Loaded(|w.past| - 1)), w.fence)
  {
    var x := w.nodes[n];
    assert At(w, n, x, w.fence) == w && Run(w, []) == w;
    assert [] + [Local(n, LeaseBack)] == [Local(n, LeaseBack)];
    var y := x.(leaseAlive := true);
    ActThen(w, [], n, LeaseBack, x, w.fence, y, w.fence);
    var z := y.(applied := false, phase := Loaded(|w.past| - 1));
    ActThen(w, [Local(n, LeaseBack)], n, Load, y, w.fence, z, w.fence);
  }

  lemma RaiseThen(w: World, a: seq<WStep>, n: string, x: Node, at: nat)
    requires w.past != [] && n in w.nodes && w.fence <= EpochAt(w, at) && x.phase == Loaded(at)
    requires Run(w, a) == At(w, n, x, w.fence)
    ensures Run(w, a + [Local(n, Raise)]) == At(w, n, x.(phase := Raised(at)), EpochAt(w, at))
  {
    ActThen(w, a, n, Raise, x, w.fence, x.(phase := Raised(at)), EpochAt(w, at));
  }

  lemma CheckThen(w: World, a: seq<WStep>, n: string, x: Node, at: nat)
    requires w.past != [] && n in w.nodes && x.phase == Raised(at) && Run(w, a) == At(w, n, x, EpochAt(w, at))
    ensures Run(w, a + [Local(n, Check)]) == At(w, n, x.(phase := Passed(at)), EpochAt(w, at))
  {
    ActThen(w, a, n, Check, x, EpochAt(w, at), x.(phase := Passed(at)), EpochAt(w, at));
  }

  lemma StoreRingThen(w: World, a: seq<WStep>, n: string, x: Node, at: nat, e: nat)
    requires w.past != [] && n in w.nodes && x.phase == Passed(at) && Run(w, a) == At(w, n, x, e)
    ensures Run(w, a + [Local(n, StoreRing)]) == At(w, n, x.(ringAt := Some(at), phase := Ringed(at)), e)
  {
    ActThen(w, a, n, StoreRing, x, e, x.(ringAt := Some(at), phase := Ringed(at)), e);
  }

  lemma StoreEpochThen(w: World, a: seq<WStep>, n: string, x: Node, at: nat, e: nat)
    requires w.past != [] && n in w.nodes && x.phase == Ringed(at) && Run(w, a) == At(w, n, x, e)
    ensures Run(w, a + [Local(n, StoreEpoch)]) == At(w, n, x.(epochAt := Some(at), phase := Stamped(at)), e)
  {
    ActThen(w, a, n, StoreEpoch, x, e, x.(epochAt := Some(at), phase := Stamped(at)), e);
  }

  /** Ring and epoch of the view read as past[at] are stored; it is not published yet. */
  function Stored(x: Node, at: nat): Node {
    x.(leaseAlive := true, applied := false, ringAt := Some(at), epochAt := Some(at), phase := Stamped(at))
  }

  lemma StoreRun(w: World, n: string)
    requires CanInstall(w, n)
    ensures Run(w, StoreBy(n)) == At(w, n, Stored(w.nodes[n], |w.past| - 1), EpochAt(w, |w.past| - 1))
  {
    var at := |w.past| - 1;
    var x := w.nodes[n].(leaseAlive := true, applied := false, phase := Loaded(at));
    LoadRun(w, n);
    RaiseThen(w, LoadBy(n), n, x, at);
    CheckThen(w, LoadBy(n) + [Local(n, Raise)], n, x.(phase := Raised(at)), at);
    StoreRingThen(w, PassBy(n), n, x.(phase := Passed(at)), at, EpochAt(w, at));
    var r := x.(ringAt := Some(at), phase := Ringed(at));
    StoreEpochThen(w, PassBy(n) + [Local(n, StoreRing)], n, r, at, EpochAt(w, at));
  }

  lemma InstallRun(w: World, n: string)
    requires CanInstall(w, n)
    ensures Run(w, InstallBy(n)) == AfterInstall(w, n)
  {
    var at := |w.past| - 1;
    StoreRun(w, n);
    var y := Stored(w.nodes[n], at);
    ActThen(w, StoreBy(n), n, Publish, y, EpochAt(w, at), Installed(w.nodes[n].instance, at), EpochAt(w, at));
  }

  /** writeFenceToken up to the load of the ring. */
  function AskRing(n: string, topic: string): seq<WStep> {
    [AskFirst(n, topic)] + [AskNext(Ask(n, topic, Asked))] + [AskNext(Ask(n, topic, Leased))]
    + [AskNext(Ask(n, topic, Applied))] + [AskNext(Ask(n, topic, Viewed))]
  }

  ghost predicate CanAsk(w: World, n: string, topic: string) {
    && w.past != [] && n in w.nodes && w.nodes[n].leaseAlive && w.nodes[n].applied
    && ServesIn(w, n, w.nodes[n].instance, w.nodes[n].view)
    && w.own(RingNames(w, w.nodes[n].ringAt), topic) == n
  }

  ghost function AfterRing(w: World, n: string, topic: string): World
    requires n in w.nodes
  {
    w.(asks := w.asks + {Ask(n, topic, Asked), Ask(n, topic, Leased), Ask(n, topic, Applied), Ask(n, topic, Viewed),
                         Ask(n, topic, Owned(w.nodes[n].ringAt))})
  }

  lemma AskMove(w: World, asks: set<Ask>, a: Ask, stage: Stage)
    requires w.past != [] && a in asks && a.node in w.nodes && NextStage(w, a) == Some(stage)
    ensures Move(w.(asks := asks), AskNext(a)) == w.(asks := asks + {a.(stage := stage)})
  {
    assert NextStage(w.(asks := asks), a) == NextStage(w, a);
  }

  lemma AskThen(w: World, s: seq<WStep>, asks: set<Ask>, a: Ask, stage: Stage)
    requires w.past != [] && a in asks && a.node in w.nodes
    requires Run(w, s) == w.(asks := asks) && NextStage(w, a) == Some(stage)
    ensures Run(w, s + [AskNext(a)]) == w.(asks := asks + {a.(stage := stage)})
  {
    RunThen(w, s, w.(asks := asks), AskNext(a));
    AskMove(w, asks, a, stage);
  }

  lemma AskRun(w: World, n: string, topic: string)
    requires CanAsk(w, n, topic)
    ensures Run(w, AskRing(n, topic)) == AfterRing(w, n, topic)
  {
    var ringAt := w.nodes[n].ringAt;
    var a1 := w.asks + {Ask(n, topic, Asked)};
    var a2 := a1 + {Ask(n, topic, Leased)};
    var a3 := a2 + {Ask(n, topic, Applied)};
    var a4 := a3 + {Ask(n, topic, Viewed)};
    var s1 := [AskFirst(n, topic)];
    var s2 := s1 + [AskNext(Ask(n, topic, Asked))];
    var s3 := s2 + [AskNext(Ask(n, topic, Leased))];
    var s4 := s3 + [AskNext(Ask(n, topic, Applied))];
    assert [] + s1 == s1;
    assert Run(w, []) == w;
    RunThen(w, [], w, AskFirst(n, topic));
    AskThen(w, s1, a1, Ask(n, topic, Asked), Leased);
    AskThen(w, s2, a2, Ask(n, topic, Leased), Applied);
    AskThen(w, s3, a3, Ask(n, topic, Applied), Viewed);
    AskThen(w, s4, a4, Ask(n, topic, Viewed), Owned(ringAt));
    assert a4 + {Ask(n, topic, Owned(ringAt))} == AfterRing(w, n, topic).asks;
  }

  /** The whole of writeFenceToken. */
  function AskToken(n: string, topic: string, ringAt: Option<nat>): seq<WStep> {
    AskRing(n, topic) + [AskEpoch(Ask(n, topic, Owned(ringAt)))]
  }

  lemma EpochRun(w: World, a: Ask)
    requires w.past != [] && a in w.asks && a.stage.Owned? && a.node in w.nodes && w.nodes[a.node].epochAt.Some?
    requires EpochAt(w, w.nodes[a.node].epochAt.value) > 0
    ensures
      Run(w, [AskEpoch(a)])
      == w.(tokens := w.tokens + {Token(a.topic, a.node, a.stage.ringAt, w.nodes[a.node].epochAt.value)})
  {
    assert [AskEpoch(a)][1..] == [];
    assert Run(Move(w, AskEpoch(a)), []) == Move(w, AskEpoch(a));
  }

  ghost function AfterToken(w: World, n: string, topic: string, at: nat): World
    requires n in w.nodes
  {
    AfterRing(w, n, topic).(tokens := w.tokens + {Token(topic, n, Some(at), at)})
  }

  lemma TokenRun(w: World, n: string, topic: string, at: nat)
    requires CanAsk(w, n, topic) && w.nodes[n].ringAt == w.nodes[n].epochAt == Some(at) && EpochAt(w, at) > 0
    ensures Run(w, AskToken(n, topic, Some(at))) == AfterToken(w, n, topic, at)
  {
    var a := Ask(n, topic, Owned(Some(at)));
    AskRun(w, n, topic);
    RunConcat(w, AskRing(n, topic), [AskEpoch(a)]);
    EpochRun(AfterRing(w, n, topic), a);
  }

  lemma RunThree(w: World, a: seq<WStep>, b: seq<WStep>, c: seq<WStep>, u: World, v: World, x: World)
    requires w.past != [] && u.past != [] && v.past != []
    requires Run(w, a) == u && Run(u, b) == v && Run(v, c) == x
    ensures Run(w, a + b + c) == x
  {
    RunConcat(w, a, b);
    RunConcat(w, a + b, c);
  }

  // ---------- first cause: a view is installed between the two loads ----------

  /** Node `n` completes a request whose ring it loaded before installing the newest
      view; then `m` installs that view too and asks for the same topic. */
  ghost function SplitRun(w: World, a: Ask, m: string): seq<WStep>
    requires w.past != []
  {
    InstallBy(a.node) + [AskEpoch(a)] + InstallBy(m) + AskToken(m, a.topic, Some(|w.past| - 1))
  }

  /** For every world in which a node has loaded the ring for a topic, a newer view
      is about to be installed and names somebody else as the owner: both obtain
      tokens that the database accepts at the same time. */
  lemma SplitLoadConflict(w: World, a: Ask, m: string)
    requires a in w.asks && a.stage.Owned? && m != a.node && CanInstall(w, a.node) && CanInstall(w, m)
    requires w.fence < EpochAt(w, |w.past| - 1)
    requires w.own(RingNames(w, Some(|w.past| - 1)), a.topic) == m
    requires ServesIn(w, m, w.nodes[m].instance, Some(|w.past| - 1))
    requires a.topic in w.rows ==> w.rows[a.topic].epoch <= w.fence
    ensures
      var at := |w.past| - 1;
      Conflict(Run(w, SplitRun(w, a, m)), Token(a.topic, a.node, a.stage.ringAt, at), Token(a.topic, m, Some(at), at))
  {
    var at := |w.past| - 1;
    InstallRun(w, a.node);
    var w1 := AfterInstall(w, a.node);
    EpochRun(w1, a);
    var w2 := w1.(tokens := w.tokens + {Token(a.topic, a.node, a.stage.ringAt, at)});
    InstallRun(w2, m);
    var w3 := AfterInstall(w2, m);
    CanAskThen(w, w3, m, a.topic);
    TokenRun(w3, m, a.topic, at);
    RunThree(w, InstallBy(a.node), [AskEpoch(a)], InstallBy(m), w1, w2, w3);
    RunConcat(w, InstallBy(a.node) + [AskEpoch(a)] + InstallBy(m), AskToken(m, a.topic, Some(at)));
  }

  /** Having installed the newest view of `w`, its owner passes all of Ready. */
  lemma CanAskThen(w: World, v: World, m: string, topic: string)
    requires w.past != [] && v.past == w.past && v.own == w.own && m in w.nodes && m in v.nodes
    requires v.nodes[m] == Installed(w.nodes[m].instance, |w.past| - 1)
    requires w.own(RingNames(w, Some(|w.past| - 1)), topic) == m
    requires ServesIn(w, m, w.nodes[m].instance, Some(|w.past| - 1))
    ensures CanAsk(v, m, topic)
  {
  }

  // ---------- second cause: equal epochs after a lapsed lease ----------

  /** Both nodes ask undisturbed; `m` has installed the newest view just before. */
  ghost function LapseRun(w: World, n: string, m: string, topic: string, at: nat): seq<WStep>
    requires w.past != []
  {
    InstallBy(m) + AskToken(n, topic, Some(at)) + AskToken(m, topic, Some(|w.past| - 1))
  }

  /** What the database holds and answers when both tokens are out. */
  lemma LapsedTokens(v: World, topic: string, n: string, m: string, at: nat, now: nat)
    requires n != m && {Token(topic, n, Some(at), at), Token(topic, m, Some(now), now)} <= v.tokens
    requires EpochAt(v, at) == EpochAt(v, now) == v.fence && (topic in v.rows ==> v.rows[topic].epoch < v.fence)
    ensures Conflict(v, Token(topic, n, Some(at), at), Token(topic, m, Some(now), now))
  {
  }

  lemma LapseRunIs(w: World, n: string, m: string, topic: string, at: nat) returns (w1: World)
    requires n != m && CanInstall(w, m) && CanAsk(w, n, topic)
    requires w.nodes[n].ringAt == w.nodes[n].epochAt == Some(at)
    requires EpochAt(w, at) == EpochAt(w, |w.past| - 1) == w.fence > 0
    requires w.own(RingNames(w, Some(|w.past| - 1)), topic) == m
    requires ServesIn(w, m, w.nodes[m].instance, Some(|w.past| - 1))
    ensures
      && w1 == AfterInstall(w, m) && n in w1.nodes && m in w1.nodes
      && Run(w, LapseRun(w, n, m, topic, at)) == AfterToken(AfterToken(w1, n, topic, at), m, topic, |w.past| - 1)
  {
    var now := |w.past| - 1;
    InstallRun(w, m);
    w1 := AfterInstall(w, m);
    TokenRun(w1, n, topic, at);
    var w2 := AfterToken(w1, n, topic, at);
    CanAskThen(w, w2, m, topic);
    TokenRun(w2, m, topic, now);
    RunThree(w, InstallBy(m), AskToken(n, topic, Some(at)), AskToken(m, topic, Some(now)), w1, w2,
             AfterToken(w2, m, topic, now));
  }

  /** For every world in which a node has applied a view, and the newest snapshot has
      that view's epoch, the fence's, but names another owner: the node and that
      owner, each with ring and epoch of one view, obtain tokens that the database
      accepts at the same time. */
  lemma LapsedLeaseConflict(w: World, n: string, m: string, topic: string, at: nat)
    requires n != m && CanInstall(w, m) && CanAsk(w, n, topic)
    requires w.nodes[n].ringAt == w.nodes[n].epochAt == Some(at)
    requires EpochAt(w, at) == EpochAt(w, |w.past| - 1) == w.fence > 0
    requires w.own(RingNames(w, Some(|w.past| - 1)), topic) == m
    requires ServesIn(w, m, w.nodes[m].instance, Some(|w.past| - 1))
    requires topic in w.rows ==> w.rows[topic].epoch < w.fence
    ensures
      var now := |w.past| - 1;
      Conflict(Run(w, LapseRun(w, n, m, topic, at)), Token(topic, n, Some(at), at), Token(topic, m, Some(now), now))
  {
    var w1 := LapseRunIs(w, n, m, topic, at);
    LapsedTokens(Run(w, LapseRun(w, n, m, topic, at)), topic, n, m, at, |w.past| - 1);
  }

  // ---------- both from an empty cluster ----------

  /** A cluster that has just been started on an empty etcd. */
  ghost predicate JustStarted(w: World) {
    ValidStart(w) && forall n | n in w.nodes :: w.nodes[n].view.None? && w.nodes[n].phase.Idle?
  }

  lemma FreshCanInstall(w: World, u: World, n: string)
    requires JustStarted(w) && n in w.nodes && u == w.(past := u.past) && u.past != []
    requires TopologyKey in Current(u).watched
    ensures CanInstall(u, n)
  {
  }

  /** etcd serves `steps`, then node `n` installs its first view. */
  lemma FirstInstall(w: World, steps: seq<Step>, n: string) returns (v: World)
    requires JustStarted(w) && n in w.nodes && steps != [] && TopologyKey in Exec(Current(w), steps).watched
    ensures v == Run(w, EtcdSteps(steps) + InstallBy(n))
    ensures
      var s := Exec(Current(w), steps);
      && w.past <= v.past && |v.past| == 1 + |steps| && v.past[|v.past| - 1] == SnapOf(s)
      && v == At(w.(past := v.past), n, Installed(w.nodes[n].instance, |steps|), Epoch(s))
  {
    EtcdRun(w, steps);
    var u := Run(w, EtcdSteps(steps));
    RunConcat(w, EtcdSteps(steps), InstallBy(n));
    FreshCanInstall(w, u, n);
    InstallRun(u, n);
    v := AfterInstall(u, n);
  }

  /** Of a snapshot: `n` serves in it among a majority, and is the owner of the topic. */
  ghost predicate OwnsIn(own: RingHash, s: Store, n: string, instance: int, topic: string) {
    && ServesAs(s.watched, n, instance) && |Serving(s.watched)| >= Replicas(s.watched) / 2 + 1
    && own(Serving(s.watched), topic) == n && TopologyKey in s.watched
  }

  lemma OwnerInView(v: World, s: Store, m: string, instance: int, topic: string, at: nat)
    requires at < |v.past| && v.past[at] == SnapOf(s) && OwnsIn(v.own, s, m, instance, topic)
    ensures ServesIn(v, m, instance, Some(at)) && v.own(RingNames(v, Some(at)), topic) == m
  {
  }

  /** `n` has installed the view of snapshot `s`, read as past[at], and would own the
      topic in it; `m`, which has installed none, would own it in the newest, `t`. */
  ghost predicate Ahead(v: World, s: Store, t: Store, n: string, m: string, topic: string, at: nat) {
    && n != m && n in v.nodes && m in v.nodes && at < |v.past|
    && v.past[at] == SnapOf(s) && v.past[|v.past| - 1] == SnapOf(t) && v.fence == Epoch(s) && v.rows == map[]
    && v.nodes[n] == Installed(v.nodes[n].instance, at) && v.nodes[m].phase.Idle? && v.nodes[m].view.None?
    && OwnsIn(v.own, s, n, v.nodes[n].instance, topic) && OwnsIn(v.own, t, m, v.nodes[m].instance, topic)
  }

  lemma AheadLapsed(v: World, s: Store, t: Store, n: string, m: string, topic: string, at: nat)
    requires Ahead(v, s, t, n, m, topic, at) && Epoch(s) == Epoch(t) > 0
    ensures exists run, a, b :: Conflict(Run(v, run), a, b) && Paired(a) && Paired(b)
  {
    var now := |v.past| - 1;
    OwnerInView(v, s, n, v.nodes[n].instance, topic, at);
    OwnerInView(v, t, m, v.nodes[m].instance, topic, now);
    LapsedLeaseConflict(v, n, m, topic, at);
    assert Paired(Token(topic, n, Some(at), at)) && Paired(Token(topic, m, Some(now), now));
  }

  lemma AheadSplit(v: World, s: Store, t: Store, n: string, m: string, topic: string, at: nat)
    requires Ahead(v, s, t, n, m, topic, at) && 0 < Epoch(s) < Epoch(t)
    requires Ask(n, topic, Owned(Some(at))) in v.asks
    ensures exists run, a, b :: Conflict(Run(v, run), a, b) && !Paired(a) && Paired(b)
  {
    var now := |v.past| - 1;
    OwnerInView(v, t, m, v.nodes[m].instance, topic, now);
    SplitLoadConflict(v, Ask(n, topic, Owned(Some(at))), m);
    assert !Paired(Token(topic, n, Some(at), now)) && Paired(Token(topic, m, Some(now), now));
  }

  /** etcd serves `more` after `n` has installed its first view. */
  lemma GetsAhead(u: World, s: Store, more: seq<Step>, n: string, m: string, topic: string)
    requires u.past != [] && Current(u) == s && u.past[|u.past| - 1] == SnapOf(s) && more != []
    requires u.fence == Epoch(s) && u.rows == map[] && n != m && n in u.nodes && m in u.nodes
    requires u.nodes[n] == Installed(u.nodes[n].instance, |u.past| - 1)
    requires u.nodes[m].phase.Idle? && u.nodes[m].view.None?
    requires OwnsIn(u.own, s, n, u.nodes[n].instance, topic)
    requires OwnsIn(u.own, Exec(s, more), m, u.nodes[m].instance, topic)
    ensures
      var v := Run(u, EtcdSteps(more));
      Ahead(v, s, Exec(s, more), n, m, topic, |u.past| - 1) && v.asks == u.asks
  {
    EtcdRun(u, more);
  }

  lemma ConflictLater(w: World, first: seq<WStep>, v: World, clean: bool)
    requires w.past != [] && v == Run(w, first) && v.past != []
    requires exists run, a, b :: Conflict(Run(v, run), a, b) && Paired(a) == clean && Paired(b)
    ensures exists run, a, b :: Conflict(Run(w, run), a, b) && Paired(a) == clean && Paired(b)
  {
    var run, a, b :| Conflict(Run(v, run), a, b) && Paired(a) == clean && Paired(b);
    RunConcat(w, first, run);
  }

  lemma LapsedAfter(w: World, first: seq<WStep>, u: World, s: Store, more: seq<Step>, n: string, m: string,
                    topic: string)
    requires w.past != [] && u == Run(w, first) && u.past != []
    requires Ahead(Run(u, EtcdSteps(more)), s, Exec(s, more), n, m, topic, |u.past| - 1)
    requires Epoch(s) == Epoch(Exec(s, more)) > 0
    ensures exists run, a, b :: Conflict(Run(w, run), a, b) && Paired(a) && Paired(b)
  {
    RunConcat(w, first, EtcdSteps(more));
    AheadLapsed(Run(u, EtcdSteps(more)), s, Exec(s, more), n, m, topic, |u.past| - 1);
    ConflictLater(w, first + EtcdSteps(more), Run(u, EtcdSteps(more)), true);
  }

  lemma SplitAfter(w: World, first: seq<WStep>, u: World, s: Store, more: seq<Step>, n: string, m: string,
                   topic: string)
    requires w.past != [] && u == Run(w, first) && u.past != []
    requires Ahead(Run(u, EtcdSteps(more)), s, Exec(s, more), n, m, topic, |u.past| - 1)
    requires 0 < Epoch(s) < Epoch(Exec(s, more))
    requires Ask(n, topic, Owned(Some(|u.past| - 1))) in Run(u, EtcdSteps(more)).asks
    ensures exists run, a, b :: Conflict(Run(w, run), a, b) && !Paired(a) && Paired(b)
  {
    RunConcat(w, first, EtcdSteps(more));
    AheadSplit(Run(u, EtcdSteps(more)), s, Exec(s, more), n, m, topic, |u.past| - 1);
    ConflictLater(w, first + EtcdSteps(more), Run(u, EtcdSteps(more)), false);
  }

  /** From an empty cluster, for any history of etcd in which the epoch stands still
      while a topic's owner changes: both owners come to hold accepted tokens,
      although neither was disturbed between its two loads. */
  lemma LapsedLeaseFromStart(w: World, boot: seq<Step>, more: seq<Step>, n: string, m: string, topic: string)
    requires JustStarted(w) && n in w.nodes && m in w.nodes && n != m && boot != [] && more != []
    requires Epoch(Exec(Current(w), boot)) == Epoch(Exec(Exec(Current(w), boot), more)) > 0
    requires OwnsIn(w.own, Exec(Current(w), boot), n, w.nodes[n].instance, topic)
    requires OwnsIn(w.own, Exec(Exec(Current(w), boot), more), m, w.nodes[m].instance, topic)
    ensures exists run, a, b :: Conflict(Run(w, run), a, b) && Paired(a) && Paired(b)
  {
    var u := FirstInstall(w, boot, n);
    GetsAhead(u, Exec(Current(w), boot), more, n, m, topic);
    LapsedAfter(w, EtcdSteps(boot) + InstallBy(n), u, Exec(Current(w), boot), more, n, m, topic);
  }

  /** etcd serves `steps`, `n` installs its first view and loads the ring for a token. */
  lemma FirstAsk(w: World, steps: seq<Step>, n: string, topic: string) returns (v: World)
    requires JustStarted(w) && n in w.nodes && steps != []
    requires OwnsIn(w.own, Exec(Current(w), steps), n, w.nodes[n].instance, topic)
    ensures v == Run(w, EtcdSteps(steps) + InstallBy(n) + AskRing(n, topic))
    ensures |v.past| == 1 + |steps| && v.past[|steps|] == SnapOf(Exec(Current(w), steps))
    ensures v.own == w.own && v.rows == map[] && v.fence == Epoch(Exec(Current(w), steps))
    ensures v.nodes == w.nodes[n := Installed(w.nodes[n].instance, |steps|)]
    ensures Ask(n, topic, Owned(Some(|steps|))) in v.asks
  {
    var u := FirstInstall(w, steps, n);
    OwnerInView(u, Exec(Current(w), steps), n, w.nodes[n].instance, topic, |steps|);
    AskRun(u, n, topic);
    RunConcat(w, EtcdSteps(steps) + InstallBy(n), AskRing(n, topic));
    v := AfterRing(u, n, topic);
  }

  /** From an empty cluster, for any history of etcd in which the epoch rises and a
      topic's owner changes: if the old owner installs the new view between its two
      loads, both owners come to hold accepted tokens. */
  lemma SplitLoadFromStart(w: World, boot: seq<Step>, more: seq<Step>, n: string, m: string, topic: string)
    requires JustStarted(w) && n in w.nodes && m in w.nodes && n != m && boot != [] && more != []
    requires 0 < Epoch(Exec(Current(w), boot)) < Epoch(Exec(Exec(Current(w), boot), more))
    requires OwnsIn(w.own, Exec(Current(w), boot), n, w.nodes[n].instance, topic)
    requires OwnsIn(w.own, Exec(Exec(Current(w), boot), more), m, w.nodes[m].instance, topic)
    ensures exists run, a, b :: Conflict(Run(w, run), a, b) && !Paired(a) && Paired(b)
  {
    var u := FirstAsk(w, boot, n, topic);
    GetsAhead(u, Exec(Current(w), boot), more, n, m, topic);
    SplitAfter(w, EtcdSteps(boot) + InstallBy(n) + AskRing(n, topic), u, Exec(Current(w), boot), more, n, m, topic);
  }

  /** Some ring hash: when c leaves, every topic moves from a to b. */
  const OWN: RingHash := (names, topic) => if "c" in names then "a" else "b"

  ghost function Cluster(): World {
    World(OWN, {"a", "b", "c"}, [SnapOf(Start(ALLOWED))], 0,
          map["a" := Fresh(1), "b" := Fresh(2), "c" := Fresh(3)], {}, {}, map[], [])
  }

  lemma JustStartedCluster()
    ensures JustStarted(Cluster()) && Current(Cluster()) == Start(ALLOWED)
  {
    assert Cluster().past == [SnapOf(Start(ALLOWED))];
  }

  lemma OwnerOf(s: Store, names: set<string>, n: string, instance: int)
    requires Serving(s.watched) == names && ServesAs(s.watched, n, instance) && Replicas(s.watched) == 3
    requires |names| >= 2 && TopologyKey in s.watched && OWN(names, "t") == n
    ensures OwnsIn(OWN, s, n, instance, "t")
  {
  }

  lemma OwnersMove()
    ensures OwnsIn(OWN, BOOTED, "a", 1, "t") && OwnsIn(OWN, LAPSED, "b", 2, "t") && OwnsIn(OWN, DRAINED, "b", 2, "t")
  {
    Derived();
    assert |{"a", "b", "c"}| == 3 && |{"a", "b"}| == 2;
    OwnerOf(BOOTED, {"a", "b", "c"}, "a", 1);
    OwnerOf(LAPSED, {"a", "b"}, "b", 2);
    OwnerOf(DRAINED, {"a", "b"}, "b", 2);
  }

  /** Both causes do occur: three nodes boot, and then c's lease lapses, or c drains. */
  lemma ConflictsOccur()
    ensures exists run, a, b :: Conflict(Run(Cluster(), run), a, b) && Paired(a) && Paired(b)
    ensures exists run, a, b :: Conflict(Run(Cluster(), run), a, b) && !Paired(a) && Paired(b)
  {
    JustStartedCluster();
    OwnersMove();
    Boots();
    Lapses();
    Drains();
    Derived();
    LapsedLeaseFromStart(Cluster(), BOOT, LAPSE, "a", "b", "t");
    SplitLoadFromStart(Cluster(), BOOT, DRAIN, "a", "b", "t");
  }
}
