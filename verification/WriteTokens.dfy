/** Who obtains a write token that the database accepts (writeFenceToken in
    cluster_membership.go): when a token pairs ring and epoch of one view, and when
    two accepted tokens for one topic name the same owner. */
module WriteTokens {
  import opened Wrappers
  import opened EtcdStore
  import opened StoreInvariants
  import opened Epochs
  import opened Fencing

  /** The ring was loaded from the view whose epoch the token carries. */
  ghost predicate Paired(t: Token) { t.ringAt == Some(t.epochAt) }

  lemma {:induction false} RunConcat(w: World, a: seq<WStep>, b: seq<WStep>)
    requires w.past != []
    ensures Run(w, a).past != [] && Run(w, a + b) == Run(Run(w, a), b)
    decreases |a|
  {
    if a == [] {
      assert a + b == b;
    } else {
      assert (a + b)[1..] == a[1..] + b;
      RunConcat(Move(w, a[0]), a[1..], b);
    }
  }

  lemma RunNext(w: World, run: seq<WStep>, k: nat)
    requires w.past != [] && k < |run|
    ensures Run(w, run[..k]).past != [] && Run(w, run[..k + 1]) == Move(Run(w, run[..k]), run[k])
  {
    assert run[..k + 1] == run[..k] + [run[k]];
    RunConcat(w, run[..k], [run[k]]);
    assert [run[k]][1..] == [];
    var u := Run(w, run[..k]);
    assert Run(Move(u, run[k]), []) == Move(u, run[k]);
  }

  // ---------- a node's ring and epoch ----------

  /** The view whose ring the node has stored last: while it is between storing ring
      and epoch, the one it is switching to; else the one of its epoch. */
  function RingView(x: Node): Option<nat> { if x.phase.Ringed? then Some(x.phase.at) else x.epochAt }

  ghost predicate Steady(w: World) { forall n | n in w.nodes :: w.nodes[n].ringAt == RingView(w.nodes[n]) }

  lemma ActKeepsSteady(w: World, act: Act, x: Node)
    requires w.past != [] && x.ringAt == RingView(x)
    ensures NodeStep(w, act, x).ringAt == RingView(NodeStep(w, act, x))
  {
  }

  lemma MoveKeepsSteady(w: World, s: WStep)
    requires w.past != [] && Steady(w)
    ensures Steady(Move(w, s)) && Move(w, s).nodes.Keys == w.nodes.Keys
  {
    forall n | n in w.nodes
      ensures n in Move(w, s).nodes && Move(w, s).nodes[n].ringAt == RingView(Move(w, s).nodes[n])
    {
      OnlyOwnActs(w, s, n);
      if s.Local? && s.n == n { ActKeepsSteady(w, s.act, w.nodes[n]); }
    }
  }

  lemma {:induction false} SteadyAlong(w: World, run: seq<WStep>)
    requires w.past != [] && Steady(w)
    ensures Steady(Run(w, run)) && Run(w, run).nodes.Keys == w.nodes.Keys
    decreases |run|
  {
    if run != [] {
      MoveKeepsSteady(w, run[0]);
      SteadyAlong(Move(w, run[0]), run[1..]);
    }
  }

  // ---------- the two loads of a token ----------

  /** Step `i` of the run loads the ring `ringAt` for a token of `n`, which is not
      restarted afterwards. */
  ghost predicate LoadsRing(w: World, run: seq<WStep>, i: nat, n: string, topic: string, ringAt: Option<nat>)
    requires w.past != []
  {
    && i < |run| && run[i] == AskNext(Ask(n, topic, Viewed))
    && n in Run(w, run[..i]).nodes && Run(w, run[..i]).nodes[n].ringAt == ringAt
    && (forall k | i < k < |run| :: !RestartsNode(run[k], n))
  }

  /** Step `i` loads the ring of token `t`, and step `j` its epoch. */
  ghost predicate Loads(w: World, run: seq<WStep>, i: nat, j: nat, t: Token)
    requires w.past != []
  {
    && i < j < |run| && LoadsRing(w, run[..j], i, t.owner, t.topic, t.ringAt)
    && run[j] == AskEpoch(Ask(t.owner, t.topic, Owned(t.ringAt)))
    && t.owner in Run(w, run[..j]).nodes && Run(w, run[..j]).nodes[t.owner].epochAt == Some(t.epochAt)
  }

  lemma {:induction false} NodesStand(w: World, run: seq<WStep>)
    requires w.past != []
    ensures Run(w, run).nodes.Keys == w.nodes.Keys
    decreases |run|
  {
    if run != [] { NodesStand(Move(w, run[0]), run[1..]); }
  }

  lemma {:induction false} AskHasLoad(w: World, run: seq<WStep>, a: Ask)
    requires w.past != [] && w.asks == {} && a in Run(w, run).asks && a.stage.Owned?
    ensures exists i: nat :: LoadsRing(w, run, i, a.node, a.topic, a.stage.ringAt)
    decreases |run|
  {
    if run != [] {
      var k := |run| - 1;
      RunNext(w, run, k);
      assert run[..k + 1] == run;
      var u := Run(w, run[..k]);
      if a in u.asks {
        AskHasLoad(w, run[..k], a);
        var i: nat :| LoadsRing(w, run[..k], i, a.node, a.topic, a.stage.ringAt);
        assert run[..k][..i] == run[..i];
        NodesStand(w, run[..i]);
        NodesStand(w, run[..k]);
        assert !RestartsNode(run[k], a.node);
        assert LoadsRing(w, run, i, a.node, a.topic, a.stage.ringAt);
      } else {
        assert LoadsRing(w, run, k, a.node, a.topic, a.stage.ringAt);
      }
    }
  }

  /** Every token of every run was formed by two such loads. */
  lemma {:induction false} TokenHasLoads(w: World, run: seq<WStep>, t: Token)
    requires w.past != [] && w.asks == {} && w.tokens == {} && t in Run(w, run).tokens
    ensures exists i: nat, j: nat :: Loads(w, run, i, j, t)
    decreases |run|
  {
    if run != [] {
      var k := |run| - 1;
      RunNext(w, run, k);
      assert run[..k + 1] == run;
      var u := Run(w, run[..k]);
      if t in u.tokens {
        TokenHasLoads(w, run[..k], t);
        var i: nat, j: nat :| Loads(w, run[..k], i, j, t);
        assert run[..k][..j] == run[..j];
        assert Loads(w, run, i, j, t);
      } else {
        var a := Ask(t.owner, t.topic, Owned(t.ringAt));
        AskHasLoad(w, run[..k], a);
        var i: nat :| LoadsRing(w, run[..k], i, a.node, a.topic, t.ringAt);
        assert Loads(w, run, i, k, t);
      }
    }
  }

  // ---------- how often a node stores an epoch ----------

  /** The step stores a new epoch at the node: the second store of an installation. */
  ghost predicate StoresEpoch(w: World, s: WStep, n: string) {
    s == Local(n, StoreEpoch) && n in w.nodes && w.nodes[n].phase.Ringed?
  }

  ghost function CountStores(w: World, run: seq<WStep>, n: string): nat
    requires w.past != []
    decreases |run|
  {
    if run == [] then 0
    else (if StoresEpoch(w, run[0], n) then 1 else 0) + CountStores(Move(w, run[0]), run[1..], n)
  }

  /** The node is between the two stores of an installation. */
  predicate Halfway(x: Node) { x.phase.Ringed? }

  /** Views are installed in the order in which they were read: a node on its way to a
      view has stored the epoch of an earlier one, which is the one it has published. */
  ghost predicate Forward(x: Node) {
    && (x.phase.Stamped? ==> x.epochAt == Some(x.phase.at))
    && (!x.phase.Stamped? ==> x.view == x.epochAt)
    && (x.epochAt.Some? && (x.phase.Loaded? || x.phase.Raised? || x.phase.Passed? || x.phase.Ringed?) ==>
          x.epochAt.value < x.phase.at)
  }

  ghost predicate Known(w: World, x: Node) { x.epochAt.Some? ==> x.epochAt.value < |w.past| }

  lemma ActKeepsForward(w: World, act: Act, x: Node)
    requires w.past != [] && Forward(x) && Known(w, x) && (!x.phase.Idle? ==> x.phase.at < |w.past|)
    ensures
      var y := NodeStep(w, act, x);
      Forward(y) && Known(w, y) && (!y.phase.Idle? ==> y.phase.at < |w.past|)
  {
  }

  ghost predicate Ordered(w: World, n: string) {
    && w.past != [] && n in w.nodes && Forward(w.nodes[n]) && Known(w, w.nodes[n])
    && (!w.nodes[n].phase.Idle? ==> w.nodes[n].phase.at < |w.past|)
  }

  lemma MoveKeepsOrdered(w: World, s: WStep, n: string)
    requires Ordered(w, n)
    ensures Ordered(Move(w, s), n)
  {
    OnlyOwnActs(w, s, n);
    if s.Local? && s.n == n { ActKeepsForward(w, s.act, w.nodes[n]); }
  }

  lemma {:induction false} OrderedAlong(w: World, run: seq<WStep>, n: string)
    requires Ordered(w, n)
    ensures Ordered(Run(w, run), n)
    decreases |run|
  {
    if run != [] {
      MoveKeepsOrdered(w, run[0], n);
      OrderedAlong(Move(w, run[0]), run[1..], n);
    }
  }

  function IndexOf(at: Option<nat>): int { if at.Some? then at.value else -1 }

  /** The stores that complete what the node has begun. */
  function Due(x: Node): nat { if Halfway(x) then 1 else 0 }

  /** After `stores` stores, the epoch stored last is the one of the ring that was in
      place at first if these are just the ones due; before, it is the epoch that was
      in place, and after that a newer one. */
  ghost predicate EpochAfter(x: Node, stores: nat, epochAt: Option<nat>) {
    && (stores < Due(x) ==> epochAt == x.epochAt)
    && (stores == Due(x) ==> epochAt == RingView(x))
    && (stores > Due(x) ==> IndexOf(epochAt) > IndexOf(RingView(x)))
  }

  lemma ActCounts(w: World, act: Act, x: Node, stores: nat, epochAt: Option<nat>)
    requires w.past != [] && Forward(x) && !act.Restart?
    requires EpochAfter(NodeStep(w, act, x), stores, epochAt)
    ensures EpochAfter(x, stores + (if act.StoreEpoch? && x.phase.Ringed? then 1 else 0), epochAt)
  {
  }

  lemma {:induction false} StoresDecide(w: World, run: seq<WStep>, n: string)
    requires Ordered(w, n) && forall k | 0 <= k < |run| :: !RestartsNode(run[k], n)
    ensures n in Run(w, run).nodes
    ensures EpochAfter(w.nodes[n], CountStores(w, run, n), Run(w, run).nodes[n].epochAt)
    decreases |run|
  {
    if run != [] {
      var v := Move(w, run[0]);
      MoveKeepsOrdered(w, run[0], n);
      StoresDecide(v, run[1..], n);
      OnlyOwnActs(w, run[0], n);
      if run[0].Local? && run[0].n == n {
        ActCounts(w, run[0].act, w.nodes[n], CountStores(v, run[1..], n), Run(w, run).nodes[n].epochAt);
      }
    }
  }

  /** Between steps `i` and `j` the node stores an epoch exactly as often as is due:
      not at all; or, if step `i` falls between the two stores of an installation,
      once, which completes it. */
  ghost predicate Undisturbed(w: World, run: seq<WStep>, i: nat, j: nat, n: string)
    requires w.past != [] && i <= j <= |run| && n in Run(w, run[..i]).nodes
  {
    RunConcat(w, run[..i], []);
    CountStores(Run(w, run[..i]), run[i..j], n) == Due(Run(w, run[..i]).nodes[n])
  }

  lemma NoRestartBetween(w: World, run: seq<WStep>, i: nat, j: nat, t: Token)
    requires w.past != [] && Loads(w, run, i, j, t)
    ensures forall k | 0 <= k < |run[i..j]| :: !RestartsNode(run[i..j][k], t.owner)
  {
    forall k | 0 <= k < |run[i..j]| ensures !RestartsNode(run[i..j][k], t.owner) {
      if k > 0 { assert run[i..j][k] == run[..j][i + k]; } else { assert run[i] == run[..j][i]; }
    }
  }

  /** Over every run: a token pairs ring and epoch of one view if and only if no view
      is installed between its two loads, but for the rest of an installation that the
      ring load has caught halfway, which must then be completed. */
  lemma TokenPairedIff(w: World, run: seq<WStep>, i: nat, j: nat, t: Token)
    requires ValidStart(w) && Loads(w, run, i, j, t)
    ensures t.owner in Run(w, run[..i]).nodes
    ensures Paired(t) <==> Undisturbed(w, run, i, j, t.owner)
  {
    assert run[..j][..i] == run[..i] && run[..i] + run[i..j] == run[..j];
    SteadyAlong(w, run[..i]);
    OrderedAlong(w, run[..i], t.owner);
    RunConcat(w, run[..i], run[i..j]);
    var u := Run(w, run[..i]);
    NoRestartBetween(w, run, i, j, t);
    StoresDecide(u, run[i..j], t.owner);
  }

  /** What a node is on its way to has another epoch than what it has published. */
  ghost predicate Differs(w: World, x: Node) {
    (x.phase.Loaded? || x.phase.Raised? || x.phase.Passed? || x.phase.Ringed?) && x.view.Some? ==>
      EpochAt(w, x.view.value) != EpochAt(w, x.phase.at)
  }

  lemma ActKeepsDiffers(w: World, act: Act, x: Node)
    requires w.past != [] && Differs(w, x)
    ensures Differs(w, NodeStep(w, act, x))
  {
  }

  lemma DiffersStands(w: World, v: World, x: Node)
    requires w.past <= v.past && NodeOk(w, x) && Differs(w, x)
    ensures Differs(v, x)
  {
  }

  lemma MoveKeepsDiffers(w: World, s: WStep, n: string)
    requires WInv(w) && n in w.nodes && Differs(w, w.nodes[n])
    ensures n in Move(w, s).nodes && Differs(Move(w, s), Move(w, s).nodes[n])
  {
    OnlyOwnActs(w, s, n);
    MoveKeepsInv(w, s);
    var v := Move(w, s);
    if s.Local? && s.n == n {
      ActKeepsDiffers(w, s.act, w.nodes[n]);
      assert forall i :: EpochAt(v, i) == EpochAt(w, i);
    } else {
      DiffersStands(w, v, w.nodes[n]);
    }
  }

  lemma {:induction false} DiffersAlong(w: World, run: seq<WStep>, n: string)
    requires WInv(w) && n in w.nodes && Differs(w, w.nodes[n])
    ensures n in Run(w, run).nodes && Differs(Run(w, run), Run(w, run).nodes[n])
    decreases |run|
  {
    if run != [] {
      MoveKeepsInv(w, run[0]);
      MoveKeepsDiffers(w, run[0], n);
      DiffersAlong(Move(w, run[0]), run[1..], n);
    }
  }

  /** A node halfway through an installation has raised the fence above the epoch it
      still carries, so the database refuses that epoch from then on. */
  lemma HalfwayIsRefused(w: World, run: seq<WStep>, more: seq<WStep>, n: string, t: Token)
    requires ValidStart(w) && Run(w, run).past != [] && n in Run(w, run).nodes && Halfway(Run(w, run).nodes[n])
    requires Run(w, run).nodes[n].epochAt == Some(t.epochAt)
    ensures !Accepts(Run(Run(w, run), more), t)
  {
    StartKeepsWInv(w);
    RunKeepsWInv(w, run);
    var u := Run(w, run);
    RunKeepsWInv(u, more);
    NodesStand(w, run);
    DiffersAlong(w, run, n);
    OrderedAlong(w, run, n);
    assert NodeOk(u, u.nodes[n]);
  }

  lemma UnfinishedIsRefused(w: World, run: seq<WStep>, i: nat, j: nat, t: Token)
    requires ValidStart(w) && Loads(w, run, i, j, t)
    requires
      var u := Run(w, run[..i]);
      u.past != [] && t.owner in u.nodes && CountStores(u, run[i..j], t.owner) < Due(u.nodes[t.owner])
    ensures !Accepts(Run(w, run), t)
  {
    var u := Run(w, run[..i]);
    NodesStand(w, run[..i]);
    OrderedAlong(w, run[..i], t.owner);
    NoRestartBetween(w, run, i, j, t);
    StoresDecide(u, run[i..j], t.owner);
    RunConcat(w, run[..i], run[i..j]);
    RunConcat(w, run[..i], run[i..]);
    assert run[..i] + run[i..] == run && run[..i] + run[i..j] == run[..j];
    HalfwayIsRefused(w, run[..i], run[i..], t.owner, t);
  }

  /** The node stores no epoch between steps `i` and `j` but, at most, the one due. */
  ghost predicate NotOvertaken(w: World, run: seq<WStep>, i: nat, j: nat, n: string)
    requires w.past != []
  {
    i <= j <= |run| &&
    (RunConcat(w, run[..i], []);
     && n in Run(w, run[..i]).nodes
     && CountStores(Run(w, run[..i]), run[i..j], n) <= Due(Run(w, run[..i]).nodes[n]))
  }

  /** A token that the database accepts is paired if and only if no view is installed
      between its loads beyond one that the ring load may have caught halfway. */
  lemma AcceptedIsPairedIff(w: World, run: seq<WStep>, i: nat, j: nat, t: Token)
    requires ValidStart(w) && Loads(w, run, i, j, t) && Accepts(Run(w, run), t)
    ensures Paired(t) <==> NotOvertaken(w, run, i, j, t.owner)
  {
    TokenPairedIff(w, run, i, j, t);
    RunConcat(w, run[..i], []);
    var u := Run(w, run[..i]);
    if CountStores(u, run[i..j], t.owner) < Due(u.nodes[t.owner]) { UnfinishedIsRefused(w, run, i, j, t); }
  }

  /** The remaining schedule does occur: when both loads fall between the two stores of
      one installation, the token pairs the new ring with the old epoch. */
  lemma HalfwayToken(w: World, n: string, topic: string, was: nat)
    requires w.past != [] && n in w.nodes && Halfway(w.nodes[n]) && Ask(n, topic, Viewed) in w.asks
    requires w.nodes[n].ringAt == Some(w.nodes[n].phase.at) && w.nodes[n].epochAt == Some(was)
    requires was != w.nodes[n].phase.at && EpochAt(w, was) > 0
    requires w.own(RingNames(w, w.nodes[n].ringAt), topic) == n
    ensures
      var t := Token(topic, n, w.nodes[n].ringAt, was);
      var u := Move(w, AskNext(Ask(n, topic, Viewed)));
      u.past != [] && t in Move(u, AskEpoch(Ask(n, topic, Owned(t.ringAt)))).tokens && !Paired(t)
  {
  }

  // ---------- two accepted tokens ----------

  /** The nodes whose ring the token's owner was computed from. */
  ghost function Ring(v: World, t: Token): set<string> { RingNames(v, t.ringAt) }

  /** No view was installed between the two loads of the token, beyond one that the
      ring load had caught halfway. */
  ghost predicate Clean(w: World, run: seq<WStep>, t: Token)
    requires w.past != []
  {
    exists i: nat, j: nat :: Loads(w, run, i, j, t) && NotOvertaken(w, run, i, j, t.owner)
  }

  lemma CleanIsPaired(w: World, run: seq<WStep>, t: Token)
    requires ValidStart(w) && t in Run(w, run).tokens && Accepts(Run(w, run), t)
    ensures Clean(w, run, t) <==> Paired(t)
  {
    TokenHasLoads(w, run, t);
    var i: nat, j: nat :| Loads(w, run, i, j, t);
    AcceptedIsPairedIff(w, run, i, j, t);
    if Clean(w, run, t) {
      var k: nat, l: nat :| Loads(w, run, k, l, t) && NotOvertaken(w, run, k, l, t.owner);
      AcceptedIsPairedIff(w, run, k, l, t);
    }
  }

  /** Two sets of names give every topic the same owner under every ring hash only
      if they are equal. */
  lemma HashesTellApart(a: set<string>, b: set<string>)
    ensures (forall h: RingHash, topic: string :: h(a, topic) == h(b, topic)) <==> a == b
  {
    if a != b {
      var h: RingHash := (names, topic) => if names == a then "a" else "b";
      assert h(a, "") != h(b, "");
    }
  }

  lemma PairedRings(w: World, run: seq<WStep>, a: Token, b: Token)
    requires ValidStart(w) && a in Run(w, run).tokens && b in Run(w, run).tokens && a.topic == b.topic
    requires Accepts(Run(w, run), a) && Accepts(Run(w, run), b) && Paired(a) && Paired(b) && a.epochAt <= b.epochAt
    ensures
      var v := Run(w, run);
      && a.epochAt <= b.epochAt < |v.past| && Inv(v.past[a.epochAt].store) && Inv(v.past[b.epochAt].store)
      && Later(v.past[a.epochAt].store, v.past[b.epochAt].store)
      && Epoch(v.past[a.epochAt].store) == Epoch(v.past[b.epochAt].store)
      && Ring(v, a) == Serving(v.past[a.epochAt].store.watched)
      && Ring(v, b) == Serving(v.past[b.epochAt].store.watched)
      && Ring(v, b) <= Ring(v, a) && (Ring(v, a) == Ring(v, b) ==> a.owner == b.owner)
  {
    StartKeepsWInv(w);
    RunKeepsWInv(w, run);
    var v := Run(w, run);
    assert TokenOk(v, a) && TokenOk(v, b);
    assert SnapInv(v.past[a.epochAt]) && SnapInv(v.past[b.epochAt]);
    StandingEpochOnlyLoses(v.past[a.epochAt].store, v.past[b.epochAt].store);
  }

  lemma OwnersAgreeIff(earlier: set<string>, later: set<string>)
    requires later <= earlier
    ensures (forall h: RingHash, topic: string :: h(earlier, topic) == h(later, topic)) <==> earlier <= later
  {
    HashesTellApart(earlier, later);
  }

  /** Single accepted writer, exactly. Let the database accept two tokens for one
      topic, with no view installed between the two loads of either beyond one caught
      halfway. The later view's ring never has a node the earlier one's lacks, and the
      owners agree, whatever the ring hash, if and only if it lacks none either: no
      serving node's lease has ended between the two snapshots. */
  lemma SingleAcceptedWriter(w: World, run: seq<WStep>, a: Token, b: Token)
    requires ValidStart(w) && a in Run(w, run).tokens && b in Run(w, run).tokens && a.topic == b.topic
    requires Accepts(Run(w, run), a) && Accepts(Run(w, run), b)
    requires Clean(w, run, a) && Clean(w, run, b) && a.epochAt <= b.epochAt
    ensures
      var v := Run(w, run);
      && Ring(v, b) <= Ring(v, a)
      && ((forall h: RingHash, topic: string :: h(Ring(v, a), topic) == h(Ring(v, b), topic))
          <==> Ring(v, a) <= Ring(v, b))
      && (Ring(v, a) <= Ring(v, b) ==> a.owner == b.owner)
  {
    CleanIsPaired(w, run, a);
    CleanIsPaired(w, run, b);
    PairedRings(w, run, a, b);
    OwnersAgreeIff(Ring(Run(w, run), a), Ring(Run(w, run), b));
  }

  /** In particular the owners agree when the later view was caught up with the
      changes of membership when it was read. */
  lemma CaughtUpWritersAgree(w: World, run: seq<WStep>, a: Token, b: Token)
    requires ValidStart(w) && a in Run(w, run).tokens && b in Run(w, run).tokens && a.topic == b.topic
    requires Accepts(Run(w, run), a) && Accepts(Run(w, run), b)
    requires Clean(w, run, a) && Clean(w, run, b) && a.epochAt <= b.epochAt
    requires b.epochAt < |Run(w, run).past| ==> CaughtUp(Run(w, run).past[b.epochAt].store)
    ensures a.owner == b.owner
  {
    CleanIsPaired(w, run, a);
    CleanIsPaired(w, run, b);
    PairedRings(w, run, a, b);
    FaithfulBetween(Run(w, run).past[a.epochAt].store, Run(w, run).past[b.epochAt].store);
  }
}
