/** The view refresh of ControlPlane, as code, is a run of Fencing's acts: whatever a
    call of it does to the node, the world reaches by Load, Raise, Check, StoreRing,
    StoreEpoch and Publish, or a beginning of these and Fail, with moves of others in
    between, the loss and the return of the node's own lease among them; and whatever
    else happens in Fencing, but for a restart of the node, is such a move. */
module ViewSteps {
  import opened Wrappers
  import opened EtcdStore
  import opened StoreInvariants
  import opened Epochs
  import opened Environment
  import opened Fencing
  import opened WriteConflicts
  import CP = ControlPlane

  // ---------- what others do ----------

  ghost predicate Follows(a: Snap, b: Snap) { exists step :: b == SnapOf(Apply(a.store, step)) }

  /** `q` continues the history `p` by steps of etcd. */
  ghost predicate Continues(p: seq<Snap>, q: seq<Snap>) {
    p <= q && forall i | |p| <= i < |q| && 0 < i :: Follows(q[i - 1], q[i])
  }

  /** The node's keep-alive loop may have acted: a lease that is gone takes readiness
      with it, and neither it nor its return touches anything else. */
  ghost predicate Kept(x: Node, y: Node) {
    && y == x.(leaseAlive := y.leaseAlive, applied := y.applied)
    && (y.applied ==> x.applied && (x.leaseAlive ==> y.leaseAlive))
  }

  /** These are exactly the outcomes of LeaseLost and LeaseBack, however often. */
  lemma KeptIff(w: World, x: Node, y: Node)
    requires w.past != []
    ensures
      var lost := NodeStep(w, LeaseLost, x);
      Kept(x, y) <==>
        || y == x || y == NodeStep(w, LeaseBack, x)
        || y == lost || y == NodeStep(w, LeaseBack, lost)
    ensures forall act | act in {LeaseLost, LeaseBack} && Kept(x, y) :: Kept(x, NodeStep(w, act, y))
  {
  }

  /** Others have moved: node `n` stands as it did but for what its keep-alive loop has
      done, etcd has served requests, the fence has only risen. */
  ghost predicate Others(w: World, v: World, n: string) {
    && Continues(w.past, v.past) && w.fence <= v.fence && v.own == w.own && v.configured == w.configured
    && n in w.nodes && n in v.nodes && Kept(w.nodes[n], v.nodes[n])
  }

  lemma OthersTransitive(w: World, u: World, v: World, n: string)
    requires Others(w, u, n) && Others(u, v, n)
    ensures Others(w, v, n)
  {
    forall i | |w.past| <= i < |v.past| && 0 < i
      ensures Follows(v.past[i - 1], v.past[i])
    {
      if i < |u.past| {
        assert v.past[i] == u.past[i] && v.past[i - 1] == u.past[i - 1];
      }
    }
  }

  /** Every step of the world except the acts of the node's refresh, and its restart, is
      a move of others. */
  lemma EveryOtherStep(w: World, s: WStep, n: string)
    requires w.past != [] && n in w.nodes && (s.Local? && s.n == n ==> s.act in {LeaseLost, LeaseBack})
    ensures Others(w, Move(w, s), n)
  {
    if s.Etcd? { assert Follows(w.past[|w.past| - 1], Move(w, s).past[|w.past|]); }
  }

  // ---------- the node's own acts ----------

  /** The world goes from `w` to `v` by these acts of node `n`, in this order, while
      others move before, between and after them. */
  ghost predicate Path(w: World, n: string, acts: seq<Act>, v: World)
    decreases |acts|
  {
    if acts == [] then Others(w, v, n)
    else exists u :: Others(w, u, n) && u.past != [] && Path(Move(u, Local(n, acts[0])), n, acts[1..], v)
  }

  lemma Then(w: World, u: World, n: string, act: Act, rest: seq<Act>, v: World)
    requires Others(w, u, n) && u.past != [] && Path(Move(u, Local(n, act)), n, rest, v)
    ensures Path(w, n, [act] + rest, v)
  {
    assert ([act] + rest)[1..] == rest;
  }

  const INSTALLING := [Load, Raise, Check, StoreRing, StoreEpoch, Publish]

  lemma {:induction false} EtcdSteps(w: World, steps: seq<Step>, n: string) returns (v: World)
    requires w.past != [] && w.past[|w.past| - 1] == SnapOf(Current(w)) && n in w.nodes
    ensures v == w.(past := v.past) && Others(w, v, n)
    ensures v.past[|v.past| - 1] == SnapOf(Exec(Current(w), steps))
    decreases |steps|
  {
    if steps == [] {
      v := w;
    } else {
      var u := Move(w, Etcd(steps[0]));
      EveryOtherStep(w, Etcd(steps[0]), n);
      v := EtcdSteps(u, steps[1..], n);
      OthersTransitive(w, u, v, n);
    }
  }

  /** Others bring etcd to a store it can reach, the fence to a higher value, and the
      node's flags to what its keep-alive loop can make of them. */
  lemma Reached(w: World, s: Store, fence: nat, n: string, y: Node) returns (v: World)
    requires w.past != [] && w.past[|w.past| - 1] == SnapOf(Current(w)) && n in w.nodes
    requires Reaches(Current(w), s) && w.fence <= fence && Kept(w.nodes[n], y)
    ensures v == At(w, n, y, fence).(past := v.past) && Others(w, v, n) && v.past[|v.past| - 1] == SnapOf(s)
  {
    var run: seq<Step> :| s == Exec(Current(w), run);
    var u := EtcdSteps(w, run, n);
    v := At(u, n, y, fence);
  }

  /** One act, with nobody moving just before it. */
  lemma Next(w: World, n: string, act: Act, x: Node, fence: nat, y: Node, after: nat, rest: seq<Act>, v: World)
    requires w.past != [] && !act.Restart? && n in w.nodes
    requires y == NodeStep(At(w, n, x, fence), act, x) && after == FenceAfter(At(w, n, x, fence), act, x)
    requires Path(At(w, n, y, after), n, rest, v)
    ensures Path(At(w, n, x, fence), n, [act] + rest, v)
  {
    ActMove(w, n, act, x, fence);
    Then(At(w, n, x, fence), At(w, n, x, fence), n, act, rest, v);
  }

  /** What a refresh makes of the node. */
  function Refreshed(x: Node, ok: bool, how: Option<Advance>, now: nat): Node {
    if how.None? then x
    else if ok then x.(applied := true, view := Some(now), ringAt := Some(now), epochAt := Some(now))
    else x.(applied := false)
  }

  /** From the newest snapshot on, which differs from the node's view. */
  ghost predicate Differs(w: World, n: string) {
    && w.past != [] && n in w.nodes && w.nodes[n].phase.Idle? && TopologyKey in Current(w).watched
    && (w.nodes[n].view.Some? ==> EpochAt(w, w.nodes[n].view.value) != EpochAt(w, |w.past| - 1))
  }

  lemma LoadPath(w: World, n: string, rest: seq<Act>, v: World)
    requires Differs(w, n)
    requires Path(At(w, n, w.nodes[n].(applied := false, phase := Loaded(|w.past| - 1)), w.fence), n, rest, v)
    ensures Path(w, n, [Load] + rest, v)
  {
    var x := w.nodes[n];
    assert At(w, n, x, w.fence) == w;
    Next(w, n, Load, x, w.fence, x.(applied := false, phase := Loaded(|w.past| - 1)), w.fence, rest, v);
  }

  lemma CheckPath(w: World, n: string, b: Node, at: nat, rest: seq<Act>, v: World)
    requires w.past != [] && n in w.nodes && b.phase == Raised(at)
    requires Path(At(w, n, b.(phase := Passed(at)), EpochAt(w, at)), n, rest, v)
    ensures Path(At(w, n, b, EpochAt(w, at)), n, [Check] + rest, v)
  {
    Next(w, n, Check, b, EpochAt(w, at), b.(phase := Passed(at)), EpochAt(w, at), rest, v);
  }

  /** What the three stores do to the node; none touches the fence. */
  lemma StoresAre(u: World, x: Node, at: nat)
    requires u.past != []
    ensures x.phase == Passed(at) ==> NodeStep(u, StoreRing, x) == x.(ringAt := Some(at), phase := Ringed(at))
    ensures x.phase == Ringed(at) ==> NodeStep(u, StoreEpoch, x) == x.(epochAt := Some(at), phase := Stamped(at))
    ensures x.phase == Stamped(at) ==>
              NodeStep(u, Publish, x) == x.(view := Some(at), applied := true, phase := Idle)
    ensures forall act | act in {StoreRing, StoreEpoch, Publish} :: FenceAfter(u, act, x) == u.fence
  {
  }

  lemma RingPath(w: World, n: string, c: Node, e: nat, at: nat, rest: seq<Act>, v: World)
    requires w.past != [] && n in w.nodes && c.phase == Passed(at)
    requires Path(At(w, n, c.(ringAt := Some(at), phase := Ringed(at)), e), n, rest, v)
    ensures Path(At(w, n, c, e), n, [StoreRing] + rest, v)
  {
    StoresAre(At(w, n, c, e), c, at);
    Next(w, n, StoreRing, c, e, c.(ringAt := Some(at), phase := Ringed(at)), e, rest, v);
  }

  lemma EpochPath(w: World, n: string, d: Node, e: nat, at: nat, rest: seq<Act>, v: World)
    requires w.past != [] && n in w.nodes && d.phase == Ringed(at)
    requires Path(At(w, n, d.(epochAt := Some(at), phase := Stamped(at)), e), n, rest, v)
    ensures Path(At(w, n, d, e), n, [StoreEpoch] + rest, v)
  {
    StoresAre(At(w, n, d, e), d, at);
    Next(w, n, StoreEpoch, d, e, d.(epochAt := Some(at), phase := Stamped(at)), e, rest, v);
  }

  lemma PublishPath(w: World, n: string, f: Node, e: nat, at: nat, rest: seq<Act>, v: World)
    requires w.past != [] && n in w.nodes && f.phase == Stamped(at)
    requires Path(At(w, n, f.(view := Some(at), applied := true, phase := Idle), e), n, rest, v)
    ensures Path(At(w, n, f, e), n, [Publish] + rest, v)
  {
    StoresAre(At(w, n, f, e), f, at);
    Next(w, n, Publish, f, e, f.(view := Some(at), applied := true, phase := Idle), e, rest, v);
  }

  /** StoreRing, StoreEpoch, Publish. */
  lemma StorePath(w: World, n: string, c: Node, e: nat, at: nat, v: World)
    requires w.past != [] && n in w.nodes && c.phase == Passed(at)
    requires Path(At(w, n, Refreshed(c, true, Some(Untouched), at).(phase := Idle), e), n, [], v)
    ensures Path(At(w, n, c, e), n, [StoreRing] + ([StoreEpoch] + ([Publish] + [])), v)
  {
    var d := c.(ringAt := Some(at), phase := Ringed(at));
    PublishPath(w, n, d.(epochAt := Some(at), phase := Stamped(at)), e, at, [], v);
    EpochPath(w, n, d, e, at, [Publish] + [], v);
    RingPath(w, n, c, e, at, [StoreEpoch] + ([Publish] + []), v);
  }

  function Greater(a: nat, b: nat): nat { if a > b then a else b }

  /** Raise, after which others may raise the fence further. */
  lemma RaisedPath(w: World, n: string, a: Node, at: nat, rest: seq<Act>, v: World)
    requires w.past != [] && n in w.nodes && a.phase == Loaded(at)
    requires Path(At(w, n, a.(phase := Raised(at)), Greater(EpochAt(w, at), w.fence)), n, rest, v)
    ensures Path(At(w, n, a, w.fence), n, [Raise] + rest, v)
  {
    Next(w, n, Raise, a, w.fence, a.(phase := Raised(at)), Greater(EpochAt(w, at), w.fence), rest, v);
  }

  /** Raise and Check, nobody raising the fence further. */
  lemma PassPath(w: World, n: string, a: Node, at: nat, rest: seq<Act>, v: World)
    requires w.past != [] && n in w.nodes && a.phase == Loaded(at) && w.fence <= EpochAt(w, at)
    requires Path(At(w, n, a.(phase := Passed(at)), EpochAt(w, at)), n, rest, v)
    ensures Path(At(w, n, a, w.fence), n, [Raise] + ([Check] + rest), v)
  {
    CheckPath(w, n, a.(phase := Raised(at)), at, rest, v);
    RaisedPath(w, n, a, at, [Check] + rest, v);
  }

  /** Load, Raise, Check, StoreRing, StoreEpoch, Publish. */
  lemma InstallPath(w: World, n: string, v: World)
    requires Differs(w, n) && w.fence <= EpochAt(w, |w.past| - 1)
    requires
      Path(At(w, n, Refreshed(w.nodes[n], true, Some(Untouched), |w.past| - 1), EpochAt(w, |w.past| - 1)), n, [], v)
    ensures Path(w, n, INSTALLING, v)
  {
    var at := |w.past| - 1;
    var a := w.nodes[n].(applied := false, phase := Loaded(at));
    var c := a.(phase := Passed(at));
    var rest := [StoreRing] + ([StoreEpoch] + ([Publish] + []));
    assert Refreshed(c, true, Some(Untouched), at).(phase := Idle) == Refreshed(w.nodes[n], true, Some(Untouched), at);
    StorePath(w, n, c, EpochAt(w, at), at, v);
    PassPath(w, n, a, at, rest, v);
    LoadPath(w, n, [Raise] + ([Check] + rest), v);
    InstallingIs();
  }

  lemma InstallingIs()
    ensures [Load] + ([Raise] + ([Check] + ([StoreRing] + ([StoreEpoch] + ([Publish] + []))))) == INSTALLING
  {
  }

  // ---------- failing ----------

  /** One act of a node that has raised the fence, others having brought it to `fence`. */
  lemma OverPath(w: World, n: string, b: Node, low: nat, fence: nat, act: Act, v: World)
    requires w.past != [] && n in w.nodes && low <= fence && !act.Restart?
    requires
      var u := At(w, n, b, fence);
      Path(At(w, n, NodeStep(u, act, b), FenceAfter(u, act, b)), n, [], v)
    ensures Path(At(w, n, b, low), n, [act] + [], v)
  {
    ActMove(w, n, act, b, fence);
    Then(At(w, n, b, low), At(w, n, b, fence), n, act, [], v);
  }

  /** A refresh that fails after its Load: the fence call did not get to its UPSERT,
      not to its read back, or read back another epoch. */
  lemma UntouchedPath(w: World, n: string, fence: nat, v: World)
    requires Differs(w, n) && w.fence <= fence
    requires Path(At(w, n, w.nodes[n].(applied := false), fence), n, [], v)
    ensures Path(w, n, [Load] + ([Fail] + []), v)
  {
    var a := w.nodes[n].(applied := false, phase := Loaded(|w.past| - 1));
    OverPath(w, n, a, w.fence, fence, Fail, v);
    LoadPath(w, n, [Fail] + [], v);
  }

  lemma EndedPath(w: World, n: string, fence: nat, act: Act, v: World)
    requires Differs(w, n) && w.fence <= fence && EpochAt(w, |w.past| - 1) <= fence
    requires act.Fail? || (act.Check? && EpochAt(w, |w.past| - 1) != fence)
    requires Path(At(w, n, w.nodes[n].(applied := false), fence), n, [], v)
    ensures Path(w, n, [Load] + ([Raise] + ([act] + [])), v)
  {
    var at := |w.past| - 1;
    var a := w.nodes[n].(applied := false, phase := Loaded(at));
    var b := a.(phase := Raised(at));
    OverPath(w, n, b, Greater(EpochAt(w, at), w.fence), fence, act, v);
    RaisedPath(w, n, a, at, [act] + [], v);
    LoadPath(w, n, [Raise] + ([act] + []), v);
  }

  lemma {:induction false} Earlier(w: World, u: World, n: string, acts: seq<Act>, v: World)
    requires Others(w, u, n) && Path(u, n, acts, v)
    ensures Path(w, n, acts, v)
  {
    if acts == [] {
      OthersTransitive(w, u, v, n);
    } else {
      var x :| Others(u, x, n) && x.past != [] && Path(Move(x, Local(n, acts[0])), n, acts[1..], v);
      OthersTransitive(w, u, x, n);
    }
  }

  /** The acts of one refresh, by its outcome and by what became of the fence. */
  function ActsOf(ok: bool, how: Option<Advance>): seq<Act> {
    if how.None? then (if ok then [Load] else [])
    else if ok then INSTALLING
    else
      match how.value
      case Untouched => [Load] + ([Fail] + [])
      case RaisedOnly => [Load] + ([Raise] + ([Fail] + []))
      case ReadBack(_) => [Load] + ([Raise] + ([Check] + []))
  }

  /** The snapshot read is the newest one of `u`, and does or does not differ. */
  ghost predicate Reads(u: World, n: string, ok: bool, how: Option<Advance>) {
    && u.past != [] && n in u.nodes && u.nodes[n].phase.Idle?
    && (how.Some? ==> Differs(u, n))
    && (how.None? && ok ==>
          u.nodes[n].view.Some? && EpochAt(u, u.nodes[n].view.value) == EpochAt(u, |u.past| - 1))
  }

  /** Where the node's last act leaves the fence, `fence` being its final value. */
  function LastFence(u: World, ok: bool, how: Option<Advance>, epoch: nat, fence: nat): nat {
    if how.None? then u.fence
    else if ok then epoch
    else if how.value.ReadBack? then how.value.seen else fence
  }

  lemma RefreshPath(u: World, n: string, ok: bool, how: Option<Advance>, fence: nat, v: World)
    requires Reads(u, n, ok, how)
    requires how.Some? ==> FenceMoved(u.fence, fence, EpochAt(u, |u.past| - 1), ok, how.value)
    requires u.fence <= fence
    requires
      var at := |u.past| - 1;
      Others(At(u, n, Refreshed(u.nodes[n], ok, how, at), LastFence(u, ok, how, EpochAt(u, at), fence)), v, n)
    ensures Path(u, n, ActsOf(ok, how), v)
  {
    var at := |u.past| - 1;
    var x := u.nodes[n];
    if how.None? {
      assert At(u, n, x, u.fence) == u;
      if ok {
        Next(u, n, Load, x, u.fence, x, u.fence, [], v);
        assert [Load] + [] == ActsOf(ok, how);
      }
    } else if ok {
      InstallPath(u, n, v);
    } else {
      match how.value
      case Untouched => UntouchedPath(u, n, fence, v);
      case RaisedOnly => EndedPath(u, n, fence, Fail, v);
      case ReadBack(seen) => EndedPath(u, n, seen, Check, v);
    }
  }

  /** The node as it stands may have read `at`, with that outcome. */
  ghost predicate Fits(w: World, n: string, at: Store, ok: bool, how: Option<Advance>) {
    && w.past != [] && w.past[|w.past| - 1] == SnapOf(Current(w)) && n in w.nodes
    && var x := w.nodes[n];
       && x.phase.Idle? && (x.view.Some? ==> x.view.value < |w.past|)
       && (how.Some? ==>
             TopologyKey in at.watched && (x.view.Some? ==> EpochAt(w, x.view.value) != Epoch(at)))
       && (how.None? && ok ==> x.view.Some? && EpochAt(w, x.view.value) == Epoch(at))
  }

  lemma FitsReads(w: World, u: World, n: string, at: Store, ok: bool, how: Option<Advance>)
    requires Fits(w, n, at, ok, how) && Others(w, u, n) && u.past != [] && u.past[|u.past| - 1] == SnapOf(at)
    ensures Reads(u, n, ok, how) && EpochAt(u, |u.past| - 1) == Epoch(at)
  {
  }

  /** The flags after a refresh beside which the keep-alive loop may have acted: after a
      publication the applied flag may be gone again, after a failure it is. */
  predicate Flags(x: Node, ok: bool, how: Option<Advance>, lease: bool, applied: bool) {
    if how.None? then applied ==> x.applied && (x.leaseAlive ==> lease)
    else ok || !applied
  }

  /** The node when it reads its snapshot: whatever becomes of the lease during a refresh
      that differs may as well have happened before it, the flag being withdrawn anyway. */
  function Begun(x: Node, how: Option<Advance>, lease: bool): Node {
    if how.None? || lease == x.leaseAlive then x else x.(leaseAlive := lease, applied := false)
  }

  function Flagged(x: Node, lease: bool, applied: bool): Node { x.(leaseAlive := lease, applied := applied) }

  lemma FlagsKept(x: Node, ok: bool, how: Option<Advance>, now: nat, lease: bool, applied: bool)
    requires Flags(x, ok, how, lease, applied)
    ensures Kept(x, Begun(x, how, lease))
    ensures Kept(Refreshed(Begun(x, how, lease), ok, how, now), Flagged(Refreshed(x, ok, how, now), lease, applied))
  {
  }

  /** From `w` on, others bring etcd to `at`, the node refreshes, and others bring etcd
      to `end` and the fence to `fence`. */
  lemma RefreshRun(w: World, n: string, at: Store, end: Store, fence: nat, ok: bool, how: Option<Advance>,
                   lease: bool, applied: bool)
    returns (v: World, now: nat)
    requires Fits(w, n, at, ok, how) && Reaches(Current(w), at) && Reaches(at, end) && w.fence <= fence
    requires how.Some? ==> FenceMoved(w.fence, fence, Epoch(at), ok, how.value)
    requires Flags(w.nodes[n], ok, how, lease, applied)
    ensures Path(w, n, ActsOf(ok, how), v)
    ensures now < |v.past| && v.past[now] == SnapOf(at) && v.past[|v.past| - 1] == SnapOf(end) && w.past <= v.past
    ensures v.fence == fence && v.configured == w.configured && n in v.nodes
    ensures v.nodes[n] == Flagged(Refreshed(w.nodes[n], ok, how, now), lease, applied)
  {
    var b := Begun(w.nodes[n], how, lease);
    FlagsKept(w.nodes[n], ok, how, 0, lease, applied);
    var u := Reached(w, at, w.fence, n, b);
    now := |u.past| - 1;
    FitsReads(w, u, n, at, ok, how);
    FlagsKept(w.nodes[n], ok, how, now, lease, applied);
    var x := At(u, n, Refreshed(b, ok, how, now), LastFence(u, ok, how, Epoch(at), fence));
    v := Reached(x, end, fence, n, Flagged(Refreshed(w.nodes[n], ok, how, now), lease, applied));
    RefreshPath(u, n, ok, how, fence, v);
    Earlier(w, u, n, ActsOf(ok, how), v);
  }

  // ---------- the object and the world ----------

  /** What the object's fields say: its flags, and the snapshot its view was read from. */
  datatype Fields = Fields(instance: int, leaseAlive: bool, applied: bool, readAt: Option<Store>)

  ghost function FieldsOf(c: CP.Node): Fields
    reads c
  {
    Fields(c.member.instance, c.leaseAlive, c.viewApplied, if c.view.Some? then Some(c.readAt) else None)
  }

  ghost predicate Has(past: seq<Snap>, x: Node, f: Fields) {
    && x.instance == f.instance && x.leaseAlive == f.leaseAlive && x.applied == f.applied
    && x.phase.Idle? && x.ringAt == x.view && x.epochAt == x.view && (x.view.Some? <==> f.readAt.Some?)
    && (x.view.Some? ==> x.view.value < |past| && past[x.view.value] == SnapOf(f.readAt.value))
  }

  lemma HasAfter(past: seq<Snap>, longer: seq<Snap>, x: Node, f: Fields, g: Fields, ok: bool, how: Option<Advance>,
                 now: nat)
    requires Has(past, x, f) && past <= longer && now < |longer| && g.instance == f.instance
    requires how.None? || !ok ==> g.readAt == f.readAt
    requires how.Some? && ok ==> g.readAt.Some? && longer[now] == SnapOf(g.readAt.value)
    ensures Has(longer, Flagged(Refreshed(x, ok, how, now), g.leaseAlive, g.applied), g)
  {
  }

  /** The node of the world has the object's state, and the world the same etcd and
      fence; views are named by the snapshot they were read from. */
  ghost predicate Stands(c: CP.Node, w: World)
    reads c, c.etcd, c.db
  {
    && w.past != [] && w.past[|w.past| - 1] == SnapOf(c.etcd.s) && w.fence == c.db.fence
    && w.configured == c.allowed.Keys && c.member.name in w.nodes
    && Has(w.past, w.nodes[c.member.name], FieldsOf(c))
  }

  lemma MemberRecords(c: CP.Node, n: string)
    requires c.Valid() && c.view.Some? && n in Serving(c.readAt.watched)
    ensures n in c.view.value.members && MemberKey(n) in c.readAt.watched
    ensures c.readAt.watched[MemberKey(n)].value == MemberValue(c.view.value.members[n].member)
  {
    assert MemberKey(n) in c.readAt.watched;
  }

  /** So ring and epoch are those of the world, and the object is ready exactly when the
      world lets its node pass all of Ready's loads and the last refresh is recent. */
  lemma StandsMeans(c: CP.Node, w: World, now: int)
    requires c.Valid() && Stands(c, w)
    ensures
      var x := w.nodes[c.member.name];
      && RingNames(w, x.ringAt) == c.ring
      && (x.epochAt.Some? ==> EpochAt(w, x.epochAt.value) == c.viewEpoch)
      && (c.Ready(now) <==>
            && x.leaseAlive && x.applied && ServesIn(w, c.member.name, x.instance, x.view)
            && now - c.lastViewRefresh <= c.leaseTTL)
  {
    if c.view.Some? {
      CP.ViewRing(c.view.value, c.readAt);
      if c.member.name in Serving(c.readAt.watched) { MemberRecords(c, c.member.name); }
    }
  }

  /** One call of RefreshView, in any world that has the node's state: the world it
      leaves the node in is reached by the node's acts, others moving in between - its
      own keep-alive loop among them, if that is free to act. */
  method Refresh(c: CP.Node, now: int, served: bool, beside: bool, ghost origin: Store, ghost w: World)
    returns (ok: bool, ghost how: Option<Advance>, ghost v: World)
    requires c.Valid() && Reaches(origin, c.etcd.s) && Stands(c, w)
    modifies c`leaseID, c`leaseAlive, c`view, c`viewApplied, c`lastViewRefresh, c`ring, c`viewEpoch, c`readAt
    modifies c.etcd, c.db
    ensures c.Valid() && Stands(c, v) && Path(w, c.member.name, ActsOf(ok, how), v)
  {
    StandsMeans(c, w, now);
    ghost var f, at, last, lost := FieldsOf(c), c.etcd.s, 0, false;
    ok, at, how, lost := c.RefreshView(now, served, beside, origin);
    v, last := RefreshRun(w, c.member.name, at, c.etcd.s, c.db.fence, ok, how, c.leaseAlive, c.viewApplied);
    HasAfter(w.past, v.past, w.nodes[c.member.name], f, FieldsOf(c), ok, how, last);
  }
}
