/** The shared etcd and database as one node sees them: between any two of its
    requests every other client may take any number of steps. */
module Environment {
  import opened Wrappers
  import opened EtcdStore
  import opened StoreInvariants
  import opened Epochs

  /** `b` results from `a` by some run. */
  ghost predicate Reaches(a: Store, b: Store) { exists run: seq<Step> :: b == Exec(a, run) }

  /** Some run of the cluster leads to `s`. */
  ghost predicate Reachable(s: Store) { exists start :: start == Start(s.allowed) && Reaches(start, s) }

  lemma ReachesSelf(a: Store)
    ensures Reaches(a, a)
  {
    assert a == Exec(a, []);
  }

  lemma ReachesStep(a: Store, step: Step)
    ensures Reaches(a, Apply(a, step))
  {
    assert [step][1..] == [];
    assert Apply(a, step) == Exec(a, [step]);
  }

  lemma ReachesTransitive(a: Store, b: Store, c: Store)
    requires Reaches(a, b) && Reaches(b, c)
    ensures Reaches(a, c)
  {
    var r1: seq<Step> :| b == Exec(a, r1);
    var r2: seq<Step> :| c == Exec(b, r2);
    ExecConcat(a, r1, r2);
  }

  lemma ReachableInv(s: Store)
    requires Reachable(s)
    ensures Inv(s)
  {
    StartInv(s.allowed);
    var r: seq<Step> :| s == Exec(Start(s.allowed), r);
    RunKeepsInv(Start(s.allowed), r);
  }

  lemma ReachesLater(a: Store, b: Store)
    requires Reachable(a) && Reaches(a, b)
    ensures Later(a, b) && Reachable(b)
  {
    ReachableInv(a);
    var r: seq<Step> :| b == Exec(a, r);
    RunKeepsInv(a, r);
    ReachesTransitive(Start(a.allowed), a, b);
  }

  lemma CountersGrow(a: Store, b: Store)
    requires Reachable(a) && Reaches(a, b)
    ensures a.allowed == b.allowed && a.rev <= b.rev && a.nextLease <= b.nextLease && a.now <= b.now
    ensures a.log <= b.log && a.successes <= b.successes
  {
    ReachesLater(a, b);
  }

  lemma MarkerGrows(a: Store, b: Store)
    requires Reachable(a) && Reaches(a, b)
    ensures MarkerValue(a) <= MarkerValue(b)
    ensures a.markers != b.markers ==> MarkerValue(a) < MarkerValue(b)
    ensures MarkerRead(a).Some? ==> MarkerRead(a).value in b.markers
  {
    ReachesLater(a, b);
    ReachableInv(b);
    if a.markers != [] { assert a.markers[|a.markers| - 1] == b.markers[|a.markers| - 1]; }
    assert |a.markers| == |b.markers| ==> a.markers == b.markers;
  }

  lemma LeaseStable(a: Store, b: Store, l: nat)
    requires Reachable(a) && Reaches(a, b) && l < a.nextLease && l in b.leases
    ensures l in a.leases && a.leases[l].(deadline := 0) == b.leases[l].(deadline := 0)
  {
    ReachesLater(a, b);
  }

  /** A request under a lease that only its holder knows. */
  predicate UsesLease(step: Step, l: nat) {
    match step
    case Claim(x, _, _) => x == l
    case Revoke(x) => x == l
    case _ => false
  }

  class Etcd {
    var s: Store

    ghost predicate Valid() reads this { Reachable(s) }

    constructor (allowed: map<string, string>)
      ensures Valid() && s == Start(allowed)
    {
      s := Start(allowed);
      ReachesSelf(Start(allowed));
    }

    /** One request of ours, served atomically. */
    method Txn(step: Step) returns (ok: bool)
      requires Valid() && Disciplined(s, step)
      modifies this
      ensures Valid() && ok == Compare(old(s), step) && s == Apply(old(s), step)
      ensures Reaches(old(s), s)
    {
      ok := Compare(s, step);
      ReachesStep(s, step);
      ReachesLater(s, Apply(s, step));
      s := Apply(s, step);
    }

    /** Everybody else: any steps, except requests under the lease `mine`. */
    method Others(mine: nat)
      requires Valid()
      modifies this
      ensures Valid() && Reaches(old(s), s)
      ensures forall c | c in s.successes && c.lease == mine :: c in old(s.successes)
    {
      var rounds: nat := *;
      ReachesSelf(s);
      while rounds > 0
        invariant Valid() && Reaches(old(s), s)
        invariant forall c | c in s.successes && c.lease == mine :: c in old(s.successes)
      {
        var step: Step := *;
        if !UsesLease(step, mine) {
          SuccessShape(s, step);
          ReachesStep(s, step);
          ReachesLater(s, Apply(s, step));
          ReachesTransitive(old(s), s, Apply(s, step));
          s := Apply(s, step);
        }
        rounds := rounds - 1;
      }
    }
  }

  /** How far an attempt to advance the fence came, and the fence it read back. */
  datatype Advance = Untouched | RaisedOnly | ReadBack(seen: nat)

  /** How the fence can stand before and after an attempt to advance it to `epoch`, while
      others raise it too: it succeeds exactly when `epoch` is what the call reads back. */
  predicate FenceMoved(before: nat, after: nat, epoch: nat, ok: bool, how: Advance) {
    && before <= after && (ok <==> how == ReadBack(epoch))
    && (how.RaisedOnly? ==> epoch <= after)
    && (how.ReadBack? ==> epoch <= how.seen && before <= how.seen <= after)
  }

  class Database {
    var fence: nat

    constructor ()
      ensures fence == 0
    {
      fence := 0;
    }

    /** Other nodes may raise the fence at any time. */
    method Others()
      modifies this
      ensures fence >= old(fence)
    {
      var other: nat := *;
      if other > fence { fence := other; }
    }

    /** ClusterFenceAdvance: an UPSERT that only raises the fence, then a read back.
        It succeeds exactly when what it reads back is the requested epoch: no request
        failed, the epoch is positive, and nobody has raised the fence further. If the
        requests are `served`, it does read the fence back. */
    method ClusterFenceAdvance(epoch: nat, served: bool) returns (ok: bool, ghost how: Advance)
      modifies this
      ensures FenceMoved(old(fence), fence, epoch, ok, how)
      ensures epoch == 0 ==> how.Untouched?
      ensures served && epoch > 0 ==> how.ReadBack?
    {
      if epoch == 0 { return false, Untouched; }
      Others();
      var failed: bool := *;
      if failed && !served { return false, Untouched; }
      if fence < epoch { fence := epoch; }
      Others();
      failed := *;
      if failed && !served { return false, RaisedOnly; }
      ok, how := fence == epoch, ReadBack(fence);
      Others();
    }
  }
}
