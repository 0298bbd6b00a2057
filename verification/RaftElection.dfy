/** Votes: one per node and term, and so one majority per term. */
module RaftElection {
  import opened Options
  import opened RaftStorage
  import opened RaftProtocol

  // ----- one node, whatever messages it gets -----

  /** What can happen to a node: any message at all, a timer, or winning an election. The
      repository never makes a node leader, so that step is left to the environment. */
  datatype Input =
    | Asked(vote: RequestVoteArgs)
    | Appends(append: AppendEntriesArgs)
    | Installs(install: InstallSnapshotArgs)
    | Timer
    | Wins

  /** A node, and all votes it has given. */
  datatype Voter = Voter(node: NodeState, given: set<Grant>)

  function Reacts(v: Voter, id: NodeId, x: Input): Voter {
    match x
    case Asked(args) =>
      var a := OnRequestVote(v.node, args);
      Voter(a.node, if a.reply.voteGranted then v.given + {Grant(id, args.term, args.candidateId)} else v.given)
    case Appends(args) => v.(node := OnAppendEntries(v.node, args).node)
    case Installs(args) => v.(node := OnInstallSnapshot(v.node, args).node)
    case Timer =>
      var n := Counted(v.node);
      if Due(v.node) && v.node.role != Leader
      then Voter(Standing(n, id), v.given + {Grant(id, n.Term() + 1, id)})
      else v.(node := n)
    case Wins => if v.node.role == Candidate then v.(node := v.node.(role := Leader)) else v
  }

  ghost predicate OneVote(given: set<Grant>) {
    forall g, h :: g in given && h in given && g.voter == h.voter && g.term == h.term ==> g.candidate == h.candidate
  }

  /** The node remembers its vote of the current term, and has given none of a later term. */
  ghost predicate Remembers(n: NodeState, id: NodeId, given: set<Grant>) {
    forall g :: g in given && g.voter == id ==>
      g.term <= n.Term() && (g.term == n.Term() ==> n.storage.votedFor == Some(g.candidate))
  }

  /** A candidate has voted in its term. */
  predicate CandidateVoted(n: NodeState, id: NodeId, given: set<Grant>) {
    n.role == Candidate ==> n.storage.votedFor.Some? && Grant(id, n.Term(), n.storage.votedFor.value) in given
  }

  ghost predicate Faithful(v: Voter, id: NodeId) {
    Remembers(v.node, id, v.given) && CandidateVoted(v.node, id, v.given) && OneVote(v.given)
  }

  /** An AppendEntries of the candidate's own term makes it forget its vote. */
  predicate Forgets(n: NodeState, x: Input) {
    x.Appends? && x.append.term == n.Term() && n.role == Candidate
  }

  lemma TermNeverDecreases(v: Voter, id: NodeId, x: Input)
    ensures Reacts(v, id, x).node.Term() >= v.node.Term()
  {
  }

  lemma AskedStaysFaithful(v: Voter, id: NodeId, args: RequestVoteArgs)
    requires Faithful(v, id)
    ensures Faithful(Reacts(v, id, Asked(args)), id)
  {
  }

  /** A faithful node stays faithful if and only if the message does not make it forget. */
  lemma FaithfulUnlessForgotten(v: Voter, id: NodeId, x: Input)
    requires Faithful(v, id)
    ensures Faithful(Reacts(v, id, x), id) <==> !Forgets(v.node, x)
  {
    match x
    case Asked(args) => AskedStaysFaithful(v, id, args);
    case Appends(args) =>
    case Installs(args) =>
    case Timer =>
    case Wins =>
  }

  lemma OneVoteNext(v: Voter, id: NodeId, x: Input)
    requires Faithful(v, id)
    ensures OneVote(Reacts(v, id, x).given)
  {
    if x.Appends? {
    } else {
      FaithfulUnlessForgotten(v, id, x);
    }
  }

  /** A forgotten vote can be given again, to anyone else. */
  lemma ForgottenVoteIsGivenAgain(v: Voter, id: NodeId, x: Input, other: NodeId)
    requires Faithful(v, id) && Forgets(v.node, x) && v.node.storage.votedFor != Some(other)
    ensures var w := Reacts(v, id, x);
            var ask := Asked(RequestVoteArgs(w.node.Term(), other, LastIndex(w.node.storage), LastTerm(w.node.storage), false));
            !OneVote(Reacts(w, id, ask).given)
  {
    var w := Reacts(v, id, x);
    var ask := RequestVoteArgs(w.node.Term(), other, LastIndex(w.node.storage), LastTerm(w.node.storage), false);
    var first, second := Grant(id, v.node.Term(), v.node.storage.votedFor.value), Grant(id, ask.term, other);
    assert first in Reacts(w, id, Asked(ask)).given && second in Reacts(w, id, Asked(ask)).given;
  }

  lemma {:induction false} TimersCount(id: NodeId, peers: seq<NodeId>, j: nat)
    requires j < ELECTION_TIMEOUT
    ensures ReactsToAll(Voter(Idle(peers), {}), id, seq(j, _ => Timer)) == Voter(Idle(peers).(electionElapsed := j), {})
  {
    if j > 0 {
      var xs := seq(j, _ => Timer);
      assert xs[..|xs| - 1] == seq(j - 1, _ => Timer);
      TimersCount(id, peers, j - 1);
    }
  }

  lemma ReactsToOneMore(v: Voter, id: NodeId, xs: seq<Input>, x: Input)
    ensures ReactsToAll(v, id, xs + [x]) == Reacts(ReactsToAll(v, id, xs), id, x)
  {
    assert (xs + [x])[..|xs|] == xs;
  }

  /** A new node stands for election, hears from a leader of its own term, and votes again in that term. */
  lemma NewNodeVotesTwice(id: NodeId, peers: seq<NodeId>, other: NodeId)
    requires other != id
    ensures var timers := seq(ELECTION_TIMEOUT - 1, _ => Timer);
            var xs := timers + [Timer] + [Appends(AppendEntriesArgs(1, other, 0, 0, [], 0))] + [Asked(RequestVoteArgs(1, other, 0, 0, false))];
            ReactsToAll(Voter(Idle(peers), {}), id, xs).given == {Grant(id, 1, id), Grant(id, 1, other)}
  {
    var v, timers := Voter(Idle(peers), {}), seq(ELECTION_TIMEOUT - 1, _ => Timer);
    var append, ask := Appends(AppendEntriesArgs(1, other, 0, 0, [], 0)), Asked(RequestVoteArgs(1, other, 0, 0, false));
    TimersCount(id, peers, ELECTION_TIMEOUT - 1);
    ReactsToOneMore(v, id, timers, Timer);
    ReactsToOneMore(v, id, timers + [Timer], append);
    ReactsToOneMore(v, id, timers + [Timer] + [append], ask);
    var w := ReactsToAll(v, id, timers + [Timer]);
    assert w.node.role == Candidate && w.node.Term() == 1 && w.given == {Grant(id, 1, id)};
    assert Reacts(w, id, append).node.storage.votedFor == None;
  }

  /** So no message can be followed by a second vote if and only if it is not one that forgets. */
  lemma SecondVoteIffForgotten(v: Voter, id: NodeId, x: Input)
    requires Faithful(v, id)
    ensures (forall y: Input :: OneVote(Reacts(Reacts(v, id, x), id, y).given)) <==> !Forgets(v.node, x)
  {
    FaithfulUnlessForgotten(v, id, x);
    if Forgets(v.node, x) {
      var other := if v.node.storage.votedFor == Some(0) then 1 else 0;
      ForgottenVoteIsGivenAgain(v, id, x, other);
    } else {
      forall y: Input ensures OneVote(Reacts(Reacts(v, id, x), id, y).given) {
        OneVoteNext(Reacts(v, id, x), id, y);
      }
    }
  }

  function ReactsToAll(v: Voter, id: NodeId, xs: seq<Input>): Voter {
    if xs == [] then v else Reacts(ReactsToAll(v, id, xs[..|xs| - 1]), id, xs[|xs| - 1])
  }

  predicate NeverForgets(v: Voter, id: NodeId, xs: seq<Input>) {
    xs == [] || (NeverForgets(v, id, xs[..|xs| - 1]) && !Forgets(ReactsToAll(v, id, xs[..|xs| - 1]).node, xs[|xs| - 1]))
  }

  /** A new node that is never made to forget gives one vote in each term, for any messages in any order. */
  lemma {:induction false} OneVotePerTerm(id: NodeId, peers: seq<NodeId>, xs: seq<Input>)
    requires NeverForgets(Voter(Idle(peers), {}), id, xs)
    ensures Faithful(ReactsToAll(Voter(Idle(peers), {}), id, xs), id)
  {
    if xs != [] {
      OneVotePerTerm(id, peers, xs[..|xs| - 1]);
      FaithfulUnlessForgotten(ReactsToAll(Voter(Idle(peers), {}), id, xs[..|xs| - 1]), id, xs[|xs| - 1]);
    }
  }

  // ----- the cluster -----

  /** In a cluster that only ticks no node is leader, and all keep their votes. */
  ghost predicate VotesKept(o: Outcome) {
    && OneVote(o.grants)
    && (forall g :: g in o.grants ==> g.voter in o.cluster.nodes)
    && forall id :: id in o.cluster.nodes ==>
         o.cluster.nodes[id].role != Leader && Remembers(o.cluster.nodes[id], id, o.grants)
  }

  ghost predicate TermsGrow(c: ClusterState, d: ClusterState) {
    c.nodes.Keys == d.nodes.Keys && forall id :: id in c.nodes ==> c.nodes[id].Term() <= d.nodes[id].Term()
  }

  /** The outcome of more steps, seen from before the earlier ones. */
  function Onto(o: Outcome, s: Outcome): Outcome {
    Outcome(s.cluster, o.grants + s.grants)
  }

  ghost predicate Kept(o: Outcome, s: Outcome) {
    VotesKept(Onto(o, s)) && TermsGrow(o.cluster, s.cluster)
  }

  lemma KeptTwice(o: Outcome, first: Outcome, rest: Outcome)
    requires Kept(o, first) && Kept(Onto(o, first), rest)
    ensures Kept(o, Onto(first, rest))
  {
    assert Onto(Onto(o, first), rest) == Onto(o, Onto(first, rest));
  }

  /** One node moves on, with votes of its own at most. */
  lemma NodeMovesOn(o: Outcome, id: NodeId, n: NodeState, votes: set<Grant>)
    requires VotesKept(o) && id in o.cluster.nodes
    requires n.role != Leader && n.Term() >= o.cluster.nodes[id].Term() && forall g :: g in votes ==> g.voter == id
    requires Remembers(n, id, o.grants + votes) && OneVote(o.grants + votes)
    ensures Kept(o, Outcome(WithNode(o.cluster, id, n), votes))
  {
    var c := WithNode(o.cluster, id, n);
    forall i | i in c.nodes ensures c.nodes[i].role != Leader && Remembers(c.nodes[i], i, o.grants + votes) {
    }
  }

  lemma VoteAskedKeeps(o: Outcome, from: NodeId, to: NodeId, args: RequestVoteArgs)
    requires VotesKept(o)
    ensures Kept(o, SentRequestVote(o.cluster, from, to, args))
  {
    if Reaches(o.cluster, from, to) {
      var a := OnRequestVote(o.cluster.nodes[to], args);
      var votes := if a.reply.voteGranted then {Grant(to, args.term, args.candidateId)} else {};
      NodeMovesOn(o, to, a.node, votes);
    } else {
      assert o.grants + {} == o.grants;
    }
  }

  lemma {:induction false} VotesAskedKeeps(o: Outcome, from: NodeId, peers: seq<NodeId>, args: RequestVoteArgs)
    requires VotesKept(o)
    ensures Kept(o, VotesAsked(o.cluster, from, peers, args))
    decreases |peers|
  {
    if peers == [] {
      assert o.grants + {} == o.grants;
    } else {
      var first := SentRequestVote(o.cluster, from, peers[0], args);
      VoteAskedKeeps(o, from, peers[0], args);
      VotesAskedKeeps(Onto(o, first), from, peers[1..], args);
      KeptTwice(o, first, VotesAsked(first.cluster, from, peers[1..], args));
    }
  }

  lemma StandingKeeps(o: Outcome, id: NodeId, n: NodeState)
    requires VotesKept(o) && id in o.cluster.nodes
    requires n.storage == o.cluster.nodes[id].storage && n.role != Leader
    ensures Kept(o, Outcome(WithNode(o.cluster, id, Standing(n, id)), {Grant(id, n.Term() + 1, id)}))
  {
    NodeMovesOn(o, id, Standing(n, id), {Grant(id, n.Term() + 1, id)});
  }

  lemma ElectionKeeps(o: Outcome, id: NodeId, n: NodeState)
    requires VotesKept(o) && id in o.cluster.nodes
    requires n.storage == o.cluster.nodes[id].storage && n.role != Leader
    ensures Kept(o, ElectionStarted(WithNode(o.cluster, id, n), id))
  {
    var m := Standing(n, id);
    var stood := Outcome(WithNode(o.cluster, id, m), {Grant(id, m.Term(), id)});
    StandingKeeps(o, id, n);
    assert WithNode(WithNode(o.cluster, id, n), id, m) == stood.cluster;
    VotesAskedKeeps(Onto(o, stood), id, m.peers, VoteRequest(m, id));
    KeptTwice(o, stood, VotesAsked(stood.cluster, id, m.peers, VoteRequest(m, id)));
  }

  lemma TickKeeps(o: Outcome, id: NodeId)
    requires VotesKept(o) && id in o.cluster.nodes
    ensures Kept(o, Ticked(o.cluster, id))
  {
    var n := Counted(o.cluster.nodes[id]);
    if Due(o.cluster.nodes[id]) {
      ElectionKeeps(o, id, n);
    } else {
      assert o.grants + {} == o.grants;
      NodeMovesOn(o, id, n, {});
    }
  }

  lemma {:induction false} TicksKeep(o: Outcome, order: seq<NodeId>)
    requires VotesKept(o) && forall id :: id in order ==> id in o.cluster.nodes
    ensures Kept(o, TickedInOrder(o.cluster, order))
    decreases |order|
  {
    if order == [] {
      assert o.grants + {} == o.grants;
    } else {
      var first := Ticked(o.cluster, order[0]);
      TickKeeps(o, order[0]);
      TicksKeep(Onto(o, first), order[1..]);
      KeptTwice(o, first, TickedInOrder(first.cluster, order[1..]));
    }
  }

  /** What drives a cluster from outside. */
  datatype Event =
    | TickAll(order: seq<NodeId>)
    | SetPartition(groupA: set<NodeId>, groupB: set<NodeId>)
    | ClearPartitions
    | AddNode(id: NodeId, peers: seq<NodeId>, storage: StorageState)

  /** Only nodes of the cluster tick, and an id is added only once. A node starts with the storage it is given. */
  function Happens(o: Outcome, e: Event): Outcome {
    match e
    case TickAll(order) =>
      if forall id :: id in order ==> id in o.cluster.nodes
      then Onto(o, TickedInOrder(o.cluster, order))
      else o
    case SetPartition(a, b) => o.(cluster := Partitioned(o.cluster, a, b))
    case ClearPartitions => o.(cluster := o.cluster.(blocked := {}))
    case AddNode(id, peers, storage) =>
      if id in o.cluster.nodes then o else o.(cluster := WithNode(o.cluster, id, Idle(peers).(storage := storage)))
  }

  const NoCluster := Outcome(ClusterState(map[], {}), {})

  function Run(events: seq<Event>): Outcome {
    if events == [] then NoCluster else Happens(Run(events[..|events| - 1]), events[|events| - 1])
  }

  lemma EventKeeps(o: Outcome, e: Event)
    requires VotesKept(o)
    ensures VotesKept(Happens(o, e))
    ensures forall id :: id in o.cluster.nodes ==>
              id in Happens(o, e).cluster.nodes && o.cluster.nodes[id].Term() <= Happens(o, e).cluster.nodes[id].Term()
  {
    if e.TickAll? && forall id :: id in e.order ==> id in o.cluster.nodes {
      TicksKeep(o, e.order);
    }
  }

  lemma {:induction false} RunKeepsVotes(events: seq<Event>)
    ensures VotesKept(Run(events))
  {
    if events != [] {
      RunKeepsVotes(events[..|events| - 1]);
      EventKeeps(Run(events[..|events| - 1]), events[|events| - 1]);
    }
  }

  lemma RunOneMore(events: seq<Event>, e: Event)
    ensures Run(events + [e]) == Happens(Run(events), e)
  {
    assert (events + [e])[..|events|] == events;
  }

  /** In every run, under any partitions, terms never decrease. */
  lemma {:induction false} TermsNeverDecrease(events: seq<Event>, more: seq<Event>, id: NodeId)
    requires id in Run(events).cluster.nodes
    ensures id in Run(events + more).cluster.nodes
    ensures Run(events).cluster.nodes[id].Term() <= Run(events + more).cluster.nodes[id].Term()
    decreases |more|
  {
    if more == [] {
      assert events + more == events;
    } else {
      var n := |more| - 1;
      var before := events + more[..n];
      TermsNeverDecrease(events, more[..n], id);
      assert events + more == before + [more[n]];
      RunOneMore(before, more[n]);
      RunKeepsVotes(before);
      EventKeeps(Run(before), more[n]);
    }
  }

  ghost function Supporters(o: Outcome, term: nat, candidate: NodeId): set<NodeId> {
    set v | v in o.cluster.nodes && Grant(v, term, candidate) in o.grants
  }

  ghost predicate Majority(o: Outcome, term: nat, candidate: NodeId) {
    2 * |Supporters(o, term, candidate)| > |o.cluster.nodes.Keys|
  }

  lemma {:induction false} SubsetSize<T>(a: set<T>, b: set<T>)
    requires a <= b
    ensures |a| <= |b|
  {
    if a != {} {
      var x :| x in a;
      SubsetSize(a - {x}, b - {x});
    }
  }

  lemma MajoritiesMeet<T>(a: set<T>, b: set<T>, all: set<T>) returns (x: T)
    requires a <= all && b <= all && 2 * |a| > |all| && 2 * |b| > |all|
    ensures x in a && x in b
  {
    SubsetSize(a + b, all);
    assert |a + b| + |a * b| == |a| + |b|;
    x :| x in a * b;
  }

  /** In every run no two candidates both get a majority of the votes of one term. */
  lemma OneMajorityPerTerm(events: seq<Event>, term: nat, a: NodeId, b: NodeId)
    requires Majority(Run(events), term, a) && Majority(Run(events), term, b)
    ensures a == b
  {
    var o := Run(events);
    RunKeepsVotes(events);
    var voter := MajoritiesMeet(Supporters(o, term, a), Supporters(o, term, b), o.cluster.nodes.Keys);
    assert Grant(voter, term, a) in o.grants && Grant(voter, term, b) in o.grants;
  }
}
