/** What a node can be ready with after it has lost its lease. keepAliveLoop clears the
    lease and the applied flag without taking refreshLock, so a refresh that is under
    way goes on and may publish what it has read (cluster_control_plane_watch.go,
    refreshView in cluster_control_plane.go). */
module LeaseLoss {
  import opened Wrappers
  import opened EtcdStore
  import opened Epochs
  import opened Fencing
  import opened WriteTokens
  import opened WriteConflicts
  import opened Histories

  /** The step publishes a view at the node. */
  ghost predicate Publishes(w: World, s: WStep, n: string) {
    s == Local(n, Publish) && n in w.nodes && w.nodes[n].phase.Stamped?
  }

  ghost function CountPublished(w: World, run: seq<WStep>, n: string): nat
    requires w.past != []
    decreases |run|
  {
    if run == [] then 0
    else (if Publishes(w, run[0], n) then 1 else 0) + CountPublished(Move(w, run[0]), run[1..], n)
  }

  /** A refresh of the node is under way, and it publishes. */
  ghost predicate Completes(w: World, run: seq<WStep>, n: string)
    requires w.past != []
    decreases |run|
  {
    && run != [] && n in w.nodes && !w.nodes[n].phase.Idle?
    && (Publishes(w, run[0], n) || Completes(Move(w, run[0]), run[1..], n))
  }

  /** Nothing but the refresh that was under way at first has published. */
  ghost predicate OnlyCompletes(w: World, run: seq<WStep>, n: string)
    requires w.past != []
  {
    Completes(w, run, n) && CountPublished(w, run, n) == 1
  }

  /** What node `x` of `w` becomes, `y`: its view stands while nothing is published; it
      is the one under way if that alone is; else one read since. */
  ghost predicate ViewAfter(x: Node, now: nat, only: bool, published: nat, y: Node) {
    && (published == 0 ==> y.view == x.view && (y.applied ==> x.applied))
    && (published > 0 ==> y.view.Some?)
    && (only ==> published > 0 && !x.phase.Idle? && y.view == Some(x.phase.at))
    && (published > 0 && !only ==> y.view.value >= now)
  }

  lemma ActView(w: World, act: Act, x: Node, now: nat, only: bool, published: nat, y: Node)
    requires w.past != [] && now == |w.past| - 1 && !act.Restart?
    requires only ==> published == 1
    requires ViewAfter(NodeStep(w, act, x), now, only, published, y)
    ensures
      var mine := act.Publish? && x.phase.Stamped?;
      ViewAfter(x, now, if mine then published == 0 else only && !x.phase.Idle?,
                published + (if mine then 1 else 0), y)
  {
  }

  lemma CompletesStep(w: World, run: seq<WStep>, n: string)
    requires w.past != [] && run != [] && n in w.nodes
    ensures
      var v := Move(w, run[0]);
      && n in v.nodes
      && OnlyCompletes(w, run, n)
         == if Publishes(w, run[0], n) then CountPublished(v, run[1..], n) == 0
            else !w.nodes[n].phase.Idle? && OnlyCompletes(v, run[1..], n)
  {
    OnlyOwnActs(w, run[0], n);
  }

  lemma {:induction false} ViewAlong(w: World, run: seq<WStep>, n: string)
    requires w.past != [] && n in w.nodes && forall k | 0 <= k < |run| :: !RestartsNode(run[k], n)
    ensures n in Run(w, run).nodes
    ensures ViewAfter(w.nodes[n], |w.past| - 1, OnlyCompletes(w, run, n), CountPublished(w, run, n),
                      Run(w, run).nodes[n])
    decreases |run|
  {
    if run != [] {
      var v := Move(w, run[0]);
      OnlyOwnActs(w, run[0], n);
      CompletesStep(w, run, n);
      ViewAlong(v, run[1..], n);
      if run[0].Local? && run[0].n == n {
        ActView(w, run[0].act, w.nodes[n], |w.past| - 1, OnlyCompletes(v, run[1..], n),
                CountPublished(v, run[1..], n), Run(w, run).nodes[n]);
      }
    }
  }

  /** From any world on, when its lease is lost at a node, and however its run goes on:
      if the node has a view applied, that view was read before the loss - as an older
      snapshot than etcd's newest at the loss - if and only if a refresh with such a
      snapshot was under way at the loss, it has published, and no later one has. */
  lemma OldViewIff(w: World, run: seq<WStep>, n: string)
    requires w.past != [] && n in w.nodes && forall k | 0 <= k < |run| :: !RestartsNode(run[k], n)
    ensures
      var u := Move(w, Local(n, LeaseLost));
      && u.past == w.past && n in Run(u, run).nodes
      && var x, y := w.nodes[n], Run(u, run).nodes[n];
         y.applied ==>
           && y.view.Some?
           && (y.view.value < |w.past| - 1
               <==> !x.phase.Idle? && x.phase.at < |w.past| - 1 && OnlyCompletes(u, run, n))
  {
    var u := Move(w, Local(n, LeaseLost));
    OnlyOwnActs(w, Local(n, LeaseLost), n);
    ViewAlong(u, run, n);
  }

  // ---------- the old view comes back ----------

  /** Ready's loads of the node succeed, and the view they find is the one read as
      past[at]. */
  ghost predicate ReadyWith(w: World, n: string, at: nat) {
    && w.past != [] && n in w.nodes && w.nodes[n].view == Some(at)
    && (forall topic ::
          && NextStage(w, Ask(n, topic, Asked)) == Some(Leased)
          && NextStage(w, Ask(n, topic, Leased)) == Some(Applied)
          && NextStage(w, Ask(n, topic, Applied)) == Some(Viewed))
  }

  /** The lease is lost, the refresh under way publishes, the node registers again. */
  function LoseAndReturn(n: string): seq<WStep> {
    [Local(n, LeaseLost)] + [Local(n, Publish)] + [Local(n, LeaseBack)]
  }

  function Returned(x: Node, at: nat): Node {
    x.(leaseAlive := true, applied := true, view := Some(at), phase := Idle)
  }

  lemma LoseRun(w: World, n: string, at: nat)
    requires w.past != [] && n in w.nodes && w.nodes[n].phase == Stamped(at)
    ensures Run(w, LoseAndReturn(n)) == At(w, n, Returned(w.nodes[n], at), w.fence)
  {
    var x := w.nodes[n];
    var y := x.(leaseAlive := false, applied := false);
    var z := y.(view := Some(at), applied := true, phase := Idle);
    assert At(w, n, x, w.fence) == w && Run(w, []) == w;
    assert [] + [Local(n, LeaseLost)] == [Local(n, LeaseLost)];
    ActThen(w, [], n, LeaseLost, x, w.fence, y, w.fence);
    ActThen(w, [Local(n, LeaseLost)], n, Publish, y, w.fence, z, w.fence);
    ActThen(w, [Local(n, LeaseLost)] + [Local(n, Publish)], n, LeaseBack, z, w.fence, Returned(x, at), w.fence);
  }

  /** In every world in which a node has stored ring and epoch of a view in which it
      serves, and not published it yet: losing its lease and registering again leaves
      the node ready with that view, however many changes etcd has seen since. */
  lemma OldViewServes(w: World, n: string, at: nat)
    requires w.past != [] && n in w.nodes && w.nodes[n].phase == Stamped(at)
    requires ServesIn(w, n, w.nodes[n].instance, Some(at))
    ensures
      var v := Run(w, LoseAndReturn(n));
      ReadyWith(v, n, at) && v.past == w.past
  {
    LoseRun(w, n, at);
    assert ServesIn(At(w, n, Returned(w.nodes[n], at), w.fence), n, w.nodes[n].instance, Some(at));
  }

  /** The node serves in the snapshot, among a majority. */
  ghost predicate ServesAmong(s: Store, n: string, instance: int) {
    TopologyKey in s.watched && ServesAs(s.watched, n, instance) && |Serving(s.watched)| >= Replicas(s.watched) / 2 + 1
  }

  lemma StoreThere(v: World, n: string) returns (u: World)
    requires CanInstall(v, n)
    ensures u == Run(v, StoreBy(n)) && u.past == v.past && n in u.nodes
    ensures u.nodes[n].phase == Stamped(|v.past| - 1) && u.nodes[n].instance == v.nodes[n].instance
  {
    StoreRun(v, n);
    u := At(v, n, Stored(v.nodes[n], |v.past| - 1), EpochAt(v, |v.past| - 1));
  }

  /** etcd serves `boot`; the node reads that snapshot and stores its ring and epoch. */
  lemma FirstStore(w: World, boot: seq<Step>, n: string) returns (u: World)
    requires JustStarted(w) && n in w.nodes && boot != [] && TopologyKey in Exec(Current(w), boot).watched
    ensures u == Run(w, EtcdSteps(boot) + StoreBy(n)) && |u.past| == 1 + |boot|
    ensures u.past[|boot|] == SnapOf(Exec(Current(w), boot)) && n in u.nodes
    ensures u.nodes[n].phase == Stamped(|boot|) && u.nodes[n].instance == w.nodes[n].instance
  {
    EtcdRun(w, boot);
    var v := Run(w, EtcdSteps(boot));
    FreshCanInstall(w, v, n);
    RunConcat(w, EtcdSteps(boot), StoreBy(n));
    u := StoreThere(v, n);
  }

  lemma ServesThere(v: World, s: Store, n: string, instance: int, at: nat)
    requires at < |v.past| && v.past[at] == SnapOf(s) && ServesAmong(s, n, instance)
    ensures ServesIn(v, n, instance, Some(at))
  {
  }

  lemma LoseThere(v: World, s: Store, n: string, at: nat)
    requires v.past != [] && n in v.nodes && v.nodes[n].phase == Stamped(at) && at < |v.past|
    requires v.past[at] == SnapOf(s) && ServesAmong(s, n, v.nodes[n].instance)
    ensures ReadyWith(Run(v, LoseAndReturn(n)), n, at) && Run(v, LoseAndReturn(n)).past == v.past
  {
    ServesThere(v, s, n, v.nodes[n].instance, at);
    OldViewServes(v, n, at);
  }

  lemma StoreThenLose(u: World, s: Store, more: seq<Step>, n: string, at: nat) returns (x: World)
    requires u.past != [] && n in u.nodes && u.nodes[n].phase == Stamped(at) && at < |u.past|
    requires u.past[at] == SnapOf(s) && ServesAmong(s, n, u.nodes[n].instance)
    ensures x == Run(u, EtcdSteps(more) + LoseAndReturn(n))
    ensures ReadyWith(x, n, at) && |x.past| == |u.past| + |more| && u.past <= x.past
    ensures Current(x) == Exec(Current(u), more)
  {
    EtcdRun(u, more);
    var v := Run(u, EtcdSteps(more));
    RunConcat(u, EtcdSteps(more), LoseAndReturn(n));
    LoseThere(v, s, n, at);
    x := Run(v, LoseAndReturn(n));
  }

  /** The node is ready with the view of snapshot `s`, while etcd has come to `t`. */
  ghost predicate ReadyWithOld(v: World, n: string, s: Store, t: Store) {
    exists at: nat :: at < |v.past| - 1 && ReadyWith(v, n, at) && v.past[at] == SnapOf(s) && Current(v) == t
  }

  ghost function LossRun(boot: seq<Step>, more: seq<Step>, n: string): seq<WStep> {
    (EtcdSteps(boot) + StoreBy(n)) + (EtcdSteps(more) + LoseAndReturn(n))
  }

  /** From an empty cluster, for every history of etcd after a snapshot in which the
      node serves: the node can come to be ready with the view of that snapshot after
      it has lost its lease and registered again. */
  lemma OldViewFromStart(w: World, boot: seq<Step>, more: seq<Step>, n: string)
    requires JustStarted(w) && n in w.nodes && boot != [] && more != []
    requires ServesAmong(Exec(Current(w), boot), n, w.nodes[n].instance)
    ensures
      ReadyWithOld(Run(w, LossRun(boot, more, n)), n, Exec(Current(w), boot), Exec(Exec(Current(w), boot), more))
  {
    var u := FirstStore(w, boot, n);
    var v := StoreThenLose(u, Exec(Current(w), boot), more, n, |boot|);
    RunConcat(w, EtcdSteps(boot) + StoreBy(n), EtcdSteps(more) + LoseAndReturn(n));
    assert v.past[|boot|] == u.past[|boot|];
  }

  lemma BootedServes()
    ensures ServesAmong(BOOTED, "c", 3)
  {
    Derived();
    assert |{"a", "b", "c"}| == 3;
  }

  /** It does occur: three nodes boot and c reads its view; c's lease lapses, c registers
      again, and is ready with a view that has its old record. */
  lemma OldViewOccurs()
    ensures exists run :: ReadyWithOld(Run(Cluster(), run), "c", BOOTED, RETURNED)
    ensures RETURNED.watched[MemberKey("c")] != BOOTED.watched[MemberKey("c")]
  {
    JustStartedCluster();
    Boots();
    Lapses();
    Returns();
    BootedServes();
    ExecConcat(BOOTED, LAPSE, RETURN);
    OldViewFromStart(Cluster(), BOOT, LAPSE + RETURN, "c");
  }
}
