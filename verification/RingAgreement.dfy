/** How the followers' rings come to agree with the leader's. A health check carries
    the signature of the leader's ring and the leader's list of active nodes; a
    follower whose ring has another signature lets that pass once, and the next time
    builds its ring from the list (run and sendHealthChecks in cluster_leader.go).
    A ring is named by the set of nodes it was built from. */
module RingAgreement {
  datatype Check = Check(ring: set<string>, nodes: set<string>)
  datatype Peer = Peer(ring: set<string>, active: set<string>, skipped: bool)

  predicate Differs(p: Peer, c: Check) { c.ring != p.ring }

  predicate Rehashes(p: Peer, c: Check) { Differs(p, c) && p.skipped }

  /** The follower's answer to one health check of the present term. */
  function Hear(p: Peer, c: Check): Peer {
    if !Differs(p, c) then p
    else if p.skipped then p.(ring := c.nodes, skipped := false)
    else p.(skipped := true)
  }

  function HearAll(p: Peer, checks: seq<Check>): Peer
    decreases |checks|
  {
    if checks == [] then p else HearAll(Hear(p, checks[0]), checks[1..])
  }

  function CountRehashes(p: Peer, checks: seq<Check>): nat
    decreases |checks|
  {
    if checks == [] then 0
    else (if Rehashes(p, checks[0]) then 1 else 0) + CountRehashes(Hear(p, checks[0]), checks[1..])
  }

  function CountDiffering(p: Peer, checks: seq<Check>): nat
    decreases |checks|
  {
    if checks == [] then 0
    else (if Differs(p, checks[0]) then 1 else 0) + CountDiffering(Hear(p, checks[0]), checks[1..])
  }

  /** What the node sends when it leads. */
  function Sent(p: Peer): Check { Check(p.ring, p.active) }

  /** A rebuild by a leader: ring and active list change together. */
  function Rebuilt(p: Peer, alive: set<string>): Peer { p.(ring := alive, active := alive) }

  function Repeat(c: Check, n: nat): seq<Check> { if n == 0 then [] else [c] + Repeat(c, n - 1) }

  /** Of all differing checks, whatever they say and whoever sends them, every second
      one is acted on - not the second in a row, since agreement in between does not
      reset the flag. */
  lemma {:induction false} EverySecondRehashes(p: Peer, checks: seq<Check>)
    ensures CountRehashes(p, checks) == (CountDiffering(p, checks) + if p.skipped then 1 else 0) / 2
    decreases |checks|
  {
    if checks != [] { EverySecondRehashes(Hear(p, checks[0]), checks[1..]); }
  }

  /** A leader that keeps sending the same check: its follower agrees with it after `n`
      checks exactly if it did so before, or - after the second differing one - if the
      list it sends is what its own ring was built from. */
  lemma {:induction false} AgreesIff(p: Peer, c: Check, n: nat)
    ensures
      HearAll(p, Repeat(c, n)).ring == c.ring
      <==> p.ring == c.ring || (c.nodes == c.ring && n >= (if p.skipped then 1 else 2))
    decreases n
  {
    if n > 0 {
      assert Repeat(c, n)[1..] == Repeat(c, n - 1);
      AgreesIff(Hear(p, c), c, n - 1);
    }
  }

  /** Otherwise it goes on rehashing at every other check, for good. */
  lemma {:induction false} NeverSettles(p: Peer, c: Check, n: nat)
    requires c.nodes != c.ring && p.ring != c.ring
    ensures CountRehashes(p, Repeat(c, n)) == (n + if p.skipped then 1 else 0) / 2
    decreases n
  {
    if n > 0 {
      assert Repeat(c, n)[1..] == Repeat(c, n - 1);
      NeverSettles(Hear(p, c), c, n - 1);
    }
  }

  /** A leader's checks have one ring and list at the start and after each rebuild.
      A node that takes over sends its predecessor's ring with its own list: for all
      sets of nodes, if it has followed a leader that had given up some node and has
      not led itself, no check of its first term, before its first rebuild, makes a
      follower with another ring agree. After a rebuild two checks are enough. */
  lemma TakeoverSplits(all: set<string>, fewer: set<string>, follower: Peer, alive: set<string>, n: nat)
    requires fewer != all && follower.ring != fewer
    ensures
      var heir := HearAll(Peer(all, all, false), Repeat(Check(fewer, fewer), 2));
      && Sent(heir) == Check(fewer, all)
      && HearAll(follower, Repeat(Sent(heir), n)).ring != Sent(heir).ring
      && (n >= 2 ==> HearAll(follower, Repeat(Sent(Rebuilt(heir, alive)), n)).ring == alive)
  {
    var p := Peer(all, all, false);
    var c := Check(fewer, fewer);
    HearTwo(p, c);
    var heir := HearAll(p, Repeat(c, 2));
    AgreesIff(follower, Sent(heir), n);
    AgreesIff(follower, Sent(Rebuilt(heir, alive)), n);
  }

  lemma HearTwo(p: Peer, c: Check)
    ensures HearAll(p, Repeat(c, 2)) == Hear(Hear(p, c), c)
  {
    assert Repeat(c, 2)[1..] == Repeat(c, 1);
    assert Repeat(c, 1)[1..] == [];
    assert HearAll(Hear(Hear(p, c), c), []) == Hear(Hear(p, c), c);
  }
}
