/** The leader election of the failover mode: every node runs one loop that counts
    missed heartbeats, campaigns, votes and follows (cluster_leader.go). Calls
    between nodes may be lost or arrive late, and steps of different nodes
    interleave freely; a node that campaigns handles nothing else. */
module Election {
  import opened Wrappers
  import R = RingAgreement

  /** `leader` is "" while the node knows none. */
  datatype Node = Node(term: nat, leader: string, campaign: Option<Tally>)

  /** The vote loop: how many calls have come back, the votes counted so far, and -
      for the record - whose they are. */
  datatype Tally = Tally(heard: nat, count: nat, voters: set<string>)

  datatype Ask = Ask(candidate: string, term: nat, voter: string)
  datatype Ballot = Ballot(yes: bool, term: nat)
  datatype Vote = Vote(voter: string, term: nat, candidate: string)
  datatype Health = Health(leader: string, term: nat)
  datatype Win = Win(leader: string, term: nat, quorum: set<string>)

  datatype Sys = Sys(
    ids: set<string>,
    nodes: map<string, Node>,
    asks: set<Ask>,              // vote requests under way
    ballots: map<Ask, Ballot>,   // responses under way
    healths: set<Health>,        // health checks ever sent
    votes: set<Vote>,            // every vote ever given
    wins: set<Win>)              // every election ever won

  datatype Step =
    | Campaign(n: string)                 // enough heartbeats missed
    | Answer(ask: Ask)                    // the voter handles a request
    | Hear(ask: Ask)                      // the candidate reads a response
    | Fail(ask: Ask)                      // a call ends in an error
    | Conclude(n: string, timeout: bool)  // the vote loop ends
    | Beat(n: string)                     // a leader sends its health checks
    | Follow(n: string, health: Health)   // a health check is handled

  /** The votes needed, `others` being the number of other nodes. */
  function Needed(others: nat): nat { (others + 1) / 2 + 1 }

  // ---------- what one node does ----------

  function Campaigning(x: Node): Node {
    Node(x.term + 1, "", Some(Tally(0, 1, {})))
  }

  /** A vote request: yes exactly when it is for a later term. */
  function Voting(x: Node, term: nat): (Node, Ballot) {
    if x.term < term then (x.(term := term, leader := ""), Ballot(true, term)) else (x, Ballot(false, x.term))
  }

  function Counting(x: Node, voter: string, b: Ballot): Node
    requires x.campaign.Some?
  {
    var c := x.campaign.value;
    if b.yes then x.(campaign := Some(Tally(c.heard + 1, c.count + 1, c.voters + {voter})))
    else if x.term < b.term then x.(campaign := None)
    else x.(campaign := Some(c.(heard := c.heard + 1)))
  }

  function Concluding(x: Node, self: string, others: nat): Node
    requires x.campaign.Some?
  {
    if x.campaign.value.count >= Needed(others) then x.(leader := self, campaign := None) else x.(campaign := None)
  }

  function Following(x: Node, h: Health): Node {
    if h.term < x.term then x else x.(term := h.term, leader := h.leader)
  }

  // ---------- steps ----------

  ghost predicate Free(sys: Sys, n: string) { n in sys.nodes && sys.nodes[n].campaign.None? }

  function Others(sys: Sys): nat { if sys.ids == {} then 0 else |sys.ids| - 1 }

  ghost function Apply(sys: Sys, step: Step): Sys {
    match step
    case Campaign(n) =>
      if Free(sys, n) && sys.nodes[n].leader != n
      then
        var x := Campaigning(sys.nodes[n]);
        sys.(nodes := sys.nodes[n := x],
             asks := sys.asks + (set m | m in sys.ids && m != n :: Ask(n, x.term, m)),
             votes := sys.votes + {Vote(n, x.term, n)})
      else sys
    case Answer(a) =>
      if a in sys.asks && Free(sys, a.voter)
      then
        var (x, b) := Voting(sys.nodes[a.voter], a.term);
        sys.(nodes := sys.nodes[a.voter := x], asks := sys.asks - {a}, ballots := sys.ballots[a := b],
             votes := if b.yes then sys.votes + {Vote(a.voter, a.term, a.candidate)} else sys.votes)
      else sys
    case Hear(a) =>
      if a in sys.ballots && InCampaign(sys, a)
      then sys.(nodes := sys.nodes[a.candidate := Counting(sys.nodes[a.candidate], a.voter, sys.ballots[a])],
                ballots := sys.ballots - {a})
      else sys
    case Fail(a) =>
      if InCampaign(sys, a) && (a in sys.asks || a in sys.ballots)
      then
        var x := sys.nodes[a.candidate];
        sys.(nodes := sys.nodes[a.candidate :=
                                  x.(campaign := Some(x.campaign.value.(heard := x.campaign.value.heard + 1)))],
             ballots := sys.ballots - {a})
      else sys
    case Conclude(n, timeout) =>
      if n in sys.nodes && sys.nodes[n].campaign.Some? && Ends(sys, sys.nodes[n].campaign.value, timeout)
      then
        var x := sys.nodes[n];
        sys.(nodes := sys.nodes[n := Concluding(x, n, Others(sys))],
             wins := if x.campaign.value.count >= Needed(Others(sys))
                     then sys.wins + {Win(n, x.term, x.campaign.value.voters + {n})} else sys.wins)
      else sys
    case Beat(n) =>
      if Free(sys, n) && sys.nodes[n].leader == n
      then sys.(healths := sys.healths + {Health(n, sys.nodes[n].term)}) else sys
    case Follow(n, h) =>
      if Free(sys, n) && h in sys.healths && h.leader != n
      then sys.(nodes := sys.nodes[n := Following(sys.nodes[n], h)]) else sys
  }

  /** The ask belongs to the campaign its candidate is in. */
  ghost predicate InCampaign(sys: Sys, a: Ask) {
    a.candidate in sys.nodes && sys.nodes[a.candidate].campaign.Some? && sys.nodes[a.candidate].term == a.term
  }

  /** The vote loop ends with a majority, when all have responded, or by timeout. */
  predicate Ends(sys: Sys, c: Tally, timeout: bool) {
    timeout || c.count >= Needed(Others(sys)) || c.heard >= Others(sys)
  }

  ghost function Exec(sys: Sys, steps: seq<Step>): Sys
    decreases |steps|
  {
    if steps == [] then sys else Exec(Apply(sys, steps[0]), steps[1..])
  }

  predicate ValidStart(sys: Sys) {
    && "" !in sys.ids && sys.nodes.Keys == sys.ids
    && (forall n | n in sys.nodes :: sys.nodes[n] == Node(0, "", None))
    && sys.asks == {} && sys.ballots == map[] && sys.healths == {} && sys.votes == {} && sys.wins == {}
  }

  // ---------- invariants ----------

  /** Nobody votes ahead of its term, and nobody votes twice in one. */
  ghost predicate VoteInv(sys: Sys) {
    && (forall v | v in sys.votes :: v.voter in sys.nodes && v.term <= sys.nodes[v.voter].term)
    && (forall v, w | v in sys.votes && w in sys.votes && v.voter == w.voter && v.term == w.term :: v == w)
  }

  /** A call is either being asked, or answered, or counted, and belongs to a term
      its candidate has reached; a yes is a vote given. */
  ghost predicate CallInv(sys: Sys) {
    && (forall a | a in sys.asks || a in sys.ballots ::
          && a.candidate in sys.nodes && a.voter in sys.ids && a.voter != a.candidate
          && a.term <= sys.nodes[a.candidate].term
          && (InCampaign(sys, a) ==> a.voter !in sys.nodes[a.candidate].campaign.value.voters))
    && (forall a | a in sys.ballots :: a !in sys.asks)
    && (forall a | a in sys.ballots && sys.ballots[a].yes :: Vote(a.voter, a.term, a.candidate) in sys.votes)
  }

  ghost predicate BackedBy(sys: Sys, voters: set<string>, n: string, term: nat) {
    voters <= sys.ids && forall v | v in voters :: Vote(v, term, n) in sys.votes
  }

  ghost predicate CampaignInv(sys: Sys) {
    forall n | n in sys.nodes && sys.nodes[n].campaign.Some? ::
      var c := sys.nodes[n].campaign.value;
      n !in c.voters && c.count == |c.voters| + 1 && BackedBy(sys, c.voters + {n}, n, sys.nodes[n].term)
  }

  ghost predicate WinInv(sys: Sys) {
    forall w | w in sys.wins :: BackedBy(sys, w.quorum, w.leader, w.term) && 2 * |w.quorum| > |sys.ids|
  }

  ghost predicate Won(sys: Sys, n: string, term: nat) { exists w :: w in sys.wins && w.leader == n && w.term == term }

  ghost predicate LeaderInv(sys: Sys) {
    && "" !in sys.ids && sys.nodes.Keys == sys.ids
    && (forall n | n in sys.nodes && sys.nodes[n].leader != "" :: Won(sys, sys.nodes[n].leader, sys.nodes[n].term))
    && (forall h | h in sys.healths :: Won(sys, h.leader, h.term))
  }

  ghost predicate Inv(sys: Sys) {
    LeaderInv(sys) && VoteInv(sys) && CallInv(sys) && CampaignInv(sys) && WinInv(sys)
  }

  lemma WonStands(sys: Sys, v: Sys)
    requires sys.wins <= v.wins
    ensures forall n, term | Won(sys, n, term) :: Won(v, n, term)
  {
    forall n, term | Won(sys, n, term) ensures Won(v, n, term) {
      var w :| w in sys.wins && w.leader == n && w.term == term;
      assert w in v.wins;
    }
  }

  lemma QuorumMeets(ids: set<string>, a: set<string>, b: set<string>)
    requires a <= ids && b <= ids && 2 * |a| > |ids| && 2 * |b| > |ids|
    ensures exists v :: v in a && v in b
  {
    assert |a + b| + |a * b| == |a| + |b|;
    assert ids == (a + b) + (ids - (a + b));
    var v :| v in a * b;
  }

  lemma OneWinnerPerTerm(sys: Sys, w: Win, u: Win)
    requires VoteInv(sys) && WinInv(sys) && w in sys.wins && u in sys.wins && w.term == u.term
    ensures w.leader == u.leader
  {
    QuorumMeets(sys.ids, w.quorum, u.quorum);
    var v :| v in w.quorum && v in u.quorum;
    assert Vote(v, w.term, w.leader) in sys.votes && Vote(v, u.term, u.leader) in sys.votes;
  }

  lemma VotesKept(sys: Sys, step: Step)
    requires VoteInv(sys)
    ensures VoteInv(Apply(sys, step)) && sys.votes <= Apply(sys, step).votes
  {
  }

  ghost predicate Knows(sys: Sys, x: Node) { x.leader != "" ==> Won(sys, x.leader, x.term) }

  lemma ConcludedKnows(sys: Sys, step: Step)
    requires step.Conclude? && step.n in sys.nodes && Knows(sys, sys.nodes[step.n])
    ensures Knows(Apply(sys, step), Apply(sys, step).nodes[step.n])
  {
    var v := Apply(sys, step);
    var x := sys.nodes[step.n];
    WonStands(sys, v);
    if v.wins != sys.wins { assert Win(step.n, x.term, x.campaign.value.voters + {step.n}) in v.wins; }
  }

  lemma NodesKnow(sys: Sys, step: Step, n: string)
    requires LeaderInv(sys) && n in sys.nodes
    ensures n in Apply(sys, step).nodes && Knows(Apply(sys, step), Apply(sys, step).nodes[n])
  {
    WonStands(sys, Apply(sys, step));
    assert Knows(sys, sys.nodes[n]);
    if step.Conclude? && step.n == n { ConcludedKnows(sys, step); }
  }

  lemma HealthsKnow(sys: Sys, step: Step)
    requires LeaderInv(sys)
    ensures forall h | h in Apply(sys, step).healths :: Won(Apply(sys, step), h.leader, h.term)
    ensures Apply(sys, step).ids == sys.ids && Apply(sys, step).nodes.Keys == sys.nodes.Keys
    ensures sys.wins <= Apply(sys, step).wins
  {
    WonStands(sys, Apply(sys, step));
    if step.Beat? && Free(sys, step.n) { assert Knows(sys, sys.nodes[step.n]); }
  }

  lemma LeadersKept(sys: Sys, step: Step)
    requires LeaderInv(sys)
    ensures LeaderInv(Apply(sys, step))
  {
    HealthsKnow(sys, step);
    forall n | n in sys.nodes
      ensures n in Apply(sys, step).nodes && Knows(Apply(sys, step), Apply(sys, step).nodes[n])
    {
      NodesKnow(sys, step, n);
    }
  }

  lemma CallsKept(sys: Sys, step: Step)
    requires CallInv(sys) && sys.nodes.Keys == sys.ids
    ensures CallInv(Apply(sys, step))
  {
  }

  ghost predicate TallyOk(sys: Sys, n: string, x: Node) {
    x.campaign.Some? ==>
      var c := x.campaign.value;
      n !in c.voters && c.count == |c.voters| + 1 && BackedBy(sys, c.voters + {n}, n, x.term)
  }

  lemma TalliesStand(sys: Sys, v: Sys)
    requires sys.votes <= v.votes && v.ids == sys.ids
    ensures forall n, x | TallyOk(sys, n, x) :: TallyOk(v, n, x)
  {
  }

  lemma CountedOk(sys: Sys, a: Ask)
    requires CallInv(sys) && a in sys.ballots && InCampaign(sys, a) && TallyOk(sys, a.candidate, sys.nodes[a.candidate])
    ensures TallyOk(sys, a.candidate, Counting(sys.nodes[a.candidate], a.voter, sys.ballots[a]))
  {
    var c := sys.nodes[a.candidate].campaign.value;
    assert |c.voters + {a.voter}| == |c.voters| + 1;
    assert c.voters + {a.voter} + {a.candidate} == c.voters + {a.candidate} + {a.voter};
  }

  lemma CampaignKept(sys: Sys, step: Step, n: string)
    requires VoteInv(sys) && CallInv(sys) && sys.nodes.Keys == sys.ids
    requires n in sys.nodes && TallyOk(sys, n, sys.nodes[n])
    ensures n in Apply(sys, step).nodes && TallyOk(Apply(sys, step), n, Apply(sys, step).nodes[n])
  {
    VotesKept(sys, step);
    TalliesStand(sys, Apply(sys, step));
    if step.Hear? && step.ask in sys.ballots && InCampaign(sys, step.ask) && step.ask.candidate == n {
      CountedOk(sys, step.ask);
    }
  }

  lemma CampaignsKept(sys: Sys, step: Step)
    requires Inv(sys)
    ensures CampaignInv(Apply(sys, step))
  {
    HealthsKnow(sys, step);
    forall n | n in sys.nodes
      ensures n in Apply(sys, step).nodes && TallyOk(Apply(sys, step), n, Apply(sys, step).nodes[n])
    {
      assert TallyOk(sys, n, sys.nodes[n]);
      CampaignKept(sys, step, n);
    }
  }

  lemma WonByMajority(sys: Sys, n: string)
    requires n in sys.nodes && sys.nodes.Keys == sys.ids && TallyOk(sys, n, sys.nodes[n])
    requires sys.nodes[n].campaign.Some? && sys.nodes[n].campaign.value.count >= Needed(Others(sys))
    ensures 2 * |sys.nodes[n].campaign.value.voters + {n}| > |sys.ids|
  {
    assert sys.ids != {} by { assert n in sys.ids; }
  }

  lemma NewWin(sys: Sys, step: Step, w: Win)
    requires VoteInv(sys) && CampaignInv(sys) && sys.nodes.Keys == sys.ids
    requires w in Apply(sys, step).wins && w !in sys.wins
    ensures BackedBy(sys, w.quorum, w.leader, w.term) && 2 * |w.quorum| > |sys.ids|
  {
    assert TallyOk(sys, step.n, sys.nodes[step.n]);
    WonByMajority(sys, step.n);
  }

  lemma WinsKept(sys: Sys, step: Step)
    requires Inv(sys)
    ensures WinInv(Apply(sys, step))
  {
    VotesKept(sys, step);
    HealthsKnow(sys, step);
    forall w | w in Apply(sys, step).wins
      ensures BackedBy(sys, w.quorum, w.leader, w.term) && 2 * |w.quorum| > |sys.ids|
    {
      if w !in sys.wins { NewWin(sys, step, w); }
    }
  }

  lemma ApplyKeepsInv(sys: Sys, step: Step)
    requires Inv(sys)
    ensures Inv(Apply(sys, step))
  {
    LeadersKept(sys, step);
    VotesKept(sys, step);
    CallsKept(sys, step);
    CampaignsKept(sys, step);
    WinsKept(sys, step);
  }

  lemma {:induction false} ExecKeepsInv(sys: Sys, steps: seq<Step>)
    requires Inv(sys)
    ensures Inv(Exec(sys, steps))
    decreases |steps|
  {
    if steps != [] {
      ApplyKeepsInv(sys, steps[0]);
      ExecKeepsInv(Apply(sys, steps[0]), steps[1..]);
    }
  }

  lemma StartInv(sys: Sys)
    requires ValidStart(sys)
    ensures Inv(sys)
  {
  }

  // ---------- election safety ----------

  /** In every run, a node gives at most one vote in a term ... */
  lemma OneVotePerTerm(start: Sys, run: seq<Step>, v: Vote, w: Vote)
    requires ValidStart(start) && v in Exec(start, run).votes && w in Exec(start, run).votes
    requires v.voter == w.voter && v.term == w.term
    ensures v.candidate == w.candidate
  {
    StartInv(start);
    ExecKeepsInv(start, run);
  }

  /** ... at most one node ever wins a term ... */
  lemma OneLeaderPerTerm(start: Sys, run: seq<Step>, w: Win, u: Win)
    requires ValidStart(start) && w in Exec(start, run).wins && u in Exec(start, run).wins && w.term == u.term
    ensures w.leader == u.leader
  {
    StartInv(start);
    ExecKeepsInv(start, run);
    OneWinnerPerTerm(Exec(start, run), w, u);
  }

  /** ... a node that names a leader names the winner of its term, so two nodes in
      one term never name different leaders ... */
  lemma LeadersAgree(start: Sys, run: seq<Step>, n: string, m: string)
    requires ValidStart(start) && n in Exec(start, run).nodes && m in Exec(start, run).nodes
    requires
      var sys := Exec(start, run);
      sys.nodes[n].term == sys.nodes[m].term && sys.nodes[n].leader != "" && sys.nodes[m].leader != ""
    ensures
      var sys := Exec(start, run);
      sys.nodes[n].leader == sys.nodes[m].leader && Won(sys, sys.nodes[n].leader, sys.nodes[n].term)
  {
    StartInv(start);
    ExecKeepsInv(start, run);
    var sys := Exec(start, run);
    WinnersAgree(sys, sys.nodes[n].leader, sys.nodes[m].leader, sys.nodes[n].term);
  }

  lemma WinnersAgree(sys: Sys, n: string, m: string, term: nat)
    requires Inv(sys) && Won(sys, n, term) && Won(sys, m, term)
    ensures n == m
  {
    var w :| w in sys.wins && w.leader == n && w.term == term;
    var u :| u in sys.wins && u.leader == m && u.term == term;
    OneWinnerPerTerm(sys, w, u);
  }

  /** ... and so the branch that meets a wrong leader in its own term is never
      taken: a health check of the node's term comes from the leader it knows, if
      it knows any. */
  lemma WrongLeaderUnreachable(start: Sys, run: seq<Step>, n: string, h: Health)
    requires ValidStart(start) && n in Exec(start, run).nodes && h in Exec(start, run).healths
    requires
      var x := Exec(start, run).nodes[n];
      h.term == x.term && x.leader != ""
    ensures h.leader == Exec(start, run).nodes[n].leader
  {
    StartInv(start);
    ExecKeepsInv(start, run);
    WinnersAgree(Exec(start, run), h.leader, Exec(start, run).nodes[n].leader, h.term);
  }

  // ---------- when an election is won ----------

  /** Over every run: when a candidate's vote loop ends, an election is added to those won
      if and only if the candidate and those who have said yes are more than half of all
      nodes. */
  lemma ConcludesIff(start: Sys, run: seq<Step>, n: string, timeout: bool)
    requires ValidStart(start) && n in Exec(start, run).nodes && Exec(start, run).nodes[n].campaign.Some?
    ensures
      var sys := Exec(start, run);
      var x := sys.nodes[n];
      var quorum := x.campaign.value.voters + {n};
      Apply(sys, Conclude(n, timeout)).wins
      == if 2 * |quorum| > |sys.ids| then sys.wins + {Win(n, x.term, quorum)} else sys.wins
  {
    StartInv(start);
    ExecKeepsInv(start, run);
    var sys := Exec(start, run);
    assert TallyOk(sys, n, sys.nodes[n]);
    ConcludesAt(sys, n, timeout);
  }

  lemma ConcludesAt(sys: Sys, n: string, timeout: bool)
    requires n in sys.nodes && sys.nodes.Keys == sys.ids && sys.nodes[n].campaign.Some?
    requires TallyOk(sys, n, sys.nodes[n])
    ensures
      var x := sys.nodes[n];
      var quorum := x.campaign.value.voters + {n};
      Apply(sys, Conclude(n, timeout)).wins
      == if 2 * |quorum| > |sys.ids| then sys.wins + {Win(n, x.term, quorum)} else sys.wins
  {
    var c := sys.nodes[n].campaign.value;
    assert |c.voters + {n}| == |c.voters| + 1;
    assert n in sys.ids;
  }

  /** A campaign counts exactly the responses of its own term that say yes, and is given
      up at a refusal from a later term. */
  lemma HearCounts(sys: Sys, a: Ask)
    requires a in sys.ballots && InCampaign(sys, a)
    ensures
      var x := sys.nodes[a.candidate];
      var y := Apply(sys, Hear(a)).nodes[a.candidate];
      && y.term == x.term
      && (sys.ballots[a].yes ==>
            y.campaign.Some? && y.campaign.value.voters == x.campaign.value.voters + {a.voter})
      && (!sys.ballots[a].yes && sys.ballots[a].term > x.term ==> y.campaign.None?)
      && (!sys.ballots[a].yes && sys.ballots[a].term <= x.term ==>
            y.campaign.Some? && y.campaign.value.voters == x.campaign.value.voters)
  {
  }

  // ---------- the loop of one node ----------

  /** What the vote loop waits for: a response, a failed call, or the timer. */
  datatype Event = Response(ballot: Ballot) | CallFailed | TimedOut

  function YesCount(events: seq<Event>): nat {
    if events == [] then 0
    else
      YesCount(events[..|events| - 1])
      + if events[|events| - 1].Response? && events[|events| - 1].ballot.yes then 1 else 0
  }

  /** The event ends the campaign without a majority: the timer, or a refusal from
      a node that is ahead. */
  predicate Aborts(e: Event, term: nat) {
    e.TimedOut? || (e.Response? && !e.ballot.yes && term < e.ballot.term)
  }

  /** A majority has said yes within the first `others` events, and nothing ended
      the campaign before. */
  ghost predicate Carried(events: seq<Event>, term: nat, others: nat) {
    exists k ::
      && 0 <= k <= |events| && k <= others
      && 1 + YesCount(events[..k]) >= Needed(others)
      && forall j | 0 <= j < k :: !Aborts(events[j], term)
  }

  /** The loop after `i` events that did not end the campaign. */
  ghost predicate Counted(events: seq<Event>, term: nat, others: nat, i: int, votes: nat) {
    && 0 <= i <= |events| && i <= others && votes == 1 + YesCount(events[..i])
    && (forall j | 0 <= j < i :: !Aborts(events[j], term) && 1 + YesCount(events[..j]) < Needed(others))
  }

  lemma CountedStep(events: seq<Event>, term: nat, others: nat, i: nat, votes: nat)
    requires Counted(events, term, others, i, votes) && votes < Needed(others) && i < others
    requires |events| >= others || (events != [] && events[|events| - 1].TimedOut?)
    ensures i < |events|
    ensures Aborts(events[i], term) ==> !Carried(events, term, others)
    ensures !Aborts(events[i], term) ==>
              Counted(events, term, others, i + 1,
                      votes + if events[i].Response? && events[i].ballot.yes then 1 else 0)
  {
    assert i < |events|;
    assert events[..i + 1][..i] == events[..i];
  }

  lemma CountedEnd(events: seq<Event>, term: nat, others: nat, i: nat, votes: nat)
    requires Counted(events, term, others, i, votes) && (i == others || votes >= Needed(others))
    ensures Carried(events, term, others) <==> votes >= Needed(others)
  {
  }

  /** The calls before the k-th that came back with a yes. */
  function Yes(events: seq<Event>, k: nat): set<nat>
    requires k <= |events|
  {
    set j: nat | j < k && events[j].Response? && events[j].ballot.yes
  }

  lemma {:induction false} YesCountIs(events: seq<Event>, k: nat)
    requires k <= |events|
    ensures YesCount(events[..k]) == |Yes(events, k)|
  {
    if k == 0 {
      assert Yes(events, 0) == {};
    } else {
      YesCountIs(events, k - 1);
      assert events[..k][..k - 1] == events[..k - 1];
      if events[k - 1].Response? && events[k - 1].ballot.yes {
        assert Yes(events, k) == Yes(events, k - 1) + {k - 1};
      } else {
        assert Yes(events, k) == Yes(events, k - 1);
      }
    }
  }

  /** After `k` calls, none of which ended the campaign, the candidate and those who said
      yes are more than half of all nodes. */
  ghost predicate MajorityAt(events: seq<Event>, term: nat, others: nat, k: nat) {
    && k <= |events| && k <= others && 2 * (1 + |Yes(events, k)|) > others + 1
    && (forall j | 0 <= j < k ::
          && !events[j].TimedOut?
          && !(events[j].Response? && !events[j].ballot.yes && events[j].ballot.term > term))
  }

  lemma CarriedIff(events: seq<Event>, term: nat, others: nat)
    ensures Carried(events, term, others) <==> exists k: nat :: MajorityAt(events, term, others, k)
  {
    if Carried(events, term, others) {
      var k :| 0 <= k <= |events| && k <= others && 1 + YesCount(events[..k]) >= Needed(others) &&
               forall j | 0 <= j < k :: !Aborts(events[j], term);
      YesCountIs(events, k);
      assert MajorityAt(events, term, others, k);
    }
    if k: nat :| MajorityAt(events, term, others, k) { YesCountIs(events, k); }
  }

  class Member {
    const self: string
    const others: nat          // how many other nodes there are
    const voteTimeout: nat
    var term: nat
    var leader: string
    var missed: nat
    var ring: set<string>            // the nodes the present ring was built from
    var activeNodes: set<string>
    var rehashSkipped: bool

    function Peer(): R.Peer
      reads this
    {
      R.Peer(ring, activeNodes, rehashSkipped)
    }

    ghost function State(): Node
      reads this
    {
      Node(term, leader, None)
    }

    constructor (self: string, others: nat, voteTimeout: nat, names: set<string>)
      ensures State() == Node(0, "", None) && Peer() == R.Peer(names, names, false)
    {
      this.self, this.others, this.voteTimeout := self, others, voteTimeout;
      term, leader, missed := 0, "", 0;
      ring, activeNodes, rehashSkipped := names, names, false;
    }

    /** electLeader: `events` is what the loop will meet, as many as there are calls
        unless the timer fires. The node leads afterwards exactly when a majority
        was gathered before anything ended the campaign. */
    method ElectLeader(events: seq<Event>)
      requires |events| >= others || (events != [] && events[|events| - 1].TimedOut?)
      modifies this`term, this`leader
      ensures term == old(term) + 1
      ensures leader == if Carried(events, term, others) then self else ""
      ensures leader == if exists k: nat :: MajorityAt(events, term, others, k) then self else ""
    {
      term := term + 1;
      leader := "";
      CarriedIff(events, term, others);
      var expectVotes := (others + 1) / 2 + 1;
      var voteCount := 1;
      var i := 0;
      ghost var aborted := false;
      while i < others && voteCount < expectVotes
        invariant term == old(term) + 1 && leader == ""
        invariant aborted ==> i >= others && voteCount < expectVotes && !Carried(events, term, others)
        invariant !aborted ==> Counted(events, term, others, i, voteCount)
      {
        CountedStep(events, term, others, i, voteCount);
        var event := events[i];
        aborted := Aborts(event, term);
        if event.TimedOut? {
          i := others;
        } else {
          if event.Response? {
            if event.ballot.yes {
              voteCount := voteCount + 1;
            } else if term < event.ballot.term {
              i := others;
              voteCount := 0;
            }
          }
          i := i + 1;
        }
      }
      if !aborted { CountedEnd(events, term, others, i, voteCount); }
      if voteCount >= expectVotes {
        leader := self;
      }
    }

    /** A vote request, handled by the loop. */
    method OnVote(candidateTerm: nat) returns (ballot: Ballot)
      modifies this`term, this`leader
      ensures (State(), ballot) == Voting(old(State()), candidateTerm)
      ensures ballot.yes <==> old(term) < candidateTerm
      ensures ballot.term == term == (if ballot.yes then candidateTerm else old(term))
      ensures leader == if ballot.yes then "" else old(leader)
    {
      if term < candidateTerm {
        term := candidateTerm;
        leader := "";
        ballot := Ballot(true, term);
      } else {
        ballot := Ballot(false, term);
      }
    }

    /** A health check, handled by the loop; `wrong` reports the branch that logs a
        wrong leader, `rehash` that the ring was built anew from the leader's list. */
    method OnHealth(health: Health, check: R.Check) returns (wrong: bool, rehash: bool)
      modifies this`term, this`leader, this`missed, this`ring, this`rehashSkipped
      ensures State() == Following(old(State()), health)
      ensures wrong <==> health.term == old(term) && old(leader) != "" && health.leader != old(leader)
      ensures missed == if health.term < old(term) then old(missed) else 0
      ensures Peer() == if health.term < old(term) then old(Peer()) else R.Hear(old(Peer()), check)
      ensures rehash <==> health.term >= old(term) && R.Rehashes(old(Peer()), check)
      ensures health.term < old(term) ==> term == old(term) && leader == old(leader) && !rehash
      ensures health.term >= old(term) ==> term == health.term && leader == health.leader
      ensures health.term >= old(term) ==> (rehash <==> check.ring != old(ring) && old(rehashSkipped))
      ensures ring == if rehash then check.nodes else old(ring)
    {
      wrong, rehash := false, false;
      if health.term < term {
        return;
      }
      if health.term > term {
        term := health.term;
        leader := health.leader;
      } else if health.leader != leader {
        wrong := leader != "";
        leader := health.leader;
      }
      missed := 0;
      if check.ring != ring {
        if rehashSkipped {
          ring, rehashSkipped, rehash := check.nodes, false, true;
        } else {
          rehashSkipped := true;
        }
      }
    }

    /** A tick of a node that does not lead: it campaigns after voteTimeout misses. */
    method OnTick(events: seq<Event>)
      requires leader != self
      requires |events| >= others || (events != [] && events[|events| - 1].TimedOut?)
      modifies this`term, this`leader, this`missed
      ensures old(missed) + 1 < voteTimeout ==> State() == old(State()) && missed == old(missed) + 1
      ensures old(missed) + 1 >= voteTimeout ==>
                && missed == 0 && term == old(term) + 1
                && leader == if Carried(events, term, others) then self else ""
    {
      missed := missed + 1;
      if missed >= voteTimeout {
        missed := 0;
        ElectLeader(events);
      }
    }
  }
}
