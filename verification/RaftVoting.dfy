/** Who gets whose vote in an election, and what that says of the winner's log. */
module RaftVoting {
  import opened Options
  import opened RaftStorage
  import opened RaftProtocol
  import opened RaftAnswers
  import opened RaftElection

  // ----- one round of requests -----

  /** Asking again gets the same answer. */
  lemma AskedAgain(n: NodeState, args: RequestVoteArgs)
    ensures Deserves(OnRequestVote(n, args).node, args) <==> Deserves(n, args)
  {
  }

  lemma OneAsked(c: ClusterState, from: NodeId, to: NodeId, args: RequestVoteArgs, v: NodeId)
    ensures var o := SentRequestVote(c, from, to, args);
            && (Grant(v, args.term, args.candidateId) in o.grants <==> v == to && Reaches(c, from, v) && Deserves(c.nodes[v], args))
            && (Reaches(o.cluster, from, v) <==> Reaches(c, from, v))
            && (Reaches(c, from, v) ==> (Deserves(o.cluster.nodes[v], args) <==> Deserves(c.nodes[v], args)))
            && forall g :: g in o.grants ==> g == Grant(to, args.term, args.candidateId)
  {
    if Reaches(c, from, to) {
      VoteIffDeserved(c.nodes[to], args);
      AskedAgain(c.nodes[to], args);
    }
  }

  /** A round of requests gets the votes of exactly those peers that it reaches and whose vote it deserves. */
  lemma {:induction false} VotesOfTheDeserved(c: ClusterState, from: NodeId, peers: seq<NodeId>, args: RequestVoteArgs, v: NodeId)
    ensures var o := VotesAsked(c, from, peers, args);
            && (Grant(v, args.term, args.candidateId) in o.grants <==> v in peers && Reaches(c, from, v) && Deserves(c.nodes[v], args))
            && forall g :: g in o.grants ==> g.term == args.term && g.candidate == args.candidateId
    decreases |peers|
  {
    if peers != [] {
      var first := SentRequestVote(c, from, peers[0], args);
      OneAsked(c, from, peers[0], args, v);
      VotesOfTheDeserved(first.cluster, from, peers[1..], args, v);
      assert v in peers <==> v == peers[0] || v in peers[1..];
    }
  }

  /** An election gives its candidate its own vote and those of exactly the peers that it reaches and whose vote it
      deserves with the log it has. */
  lemma ElectionVotes(c: ClusterState, id: NodeId, v: NodeId)
    requires id in c.nodes && id !in c.nodes[id].peers
    ensures var n, o := c.nodes[id], ElectionStarted(c, id);
            var args := RequestVoteArgs(n.Term() + 1, id, LastIndex(n.storage), LastTerm(n.storage), false);
            && (Grant(v, n.Term() + 1, id) in o.grants <==>
                  v == id || (v in n.peers && v in c.nodes && (id, v) !in c.blocked && Deserves(c.nodes[v], args)))
            && forall g :: g in o.grants ==> g.term == n.Term() + 1 && g.candidate == id
  {
    var n := Standing(c.nodes[id], id);
    VotesOfTheDeserved(WithNode(c, id, n), id, n.peers, VoteRequest(n, id), v);
  }

  lemma {:induction false} OthersNotAsked(c: ClusterState, from: NodeId, peers: seq<NodeId>, args: RequestVoteArgs, v: NodeId)
    requires v !in peers && v in c.nodes
    ensures v in VotesAsked(c, from, peers, args).cluster.nodes && VotesAsked(c, from, peers, args).cluster.nodes[v] == c.nodes[v]
    decreases |peers|
  {
    if peers != [] {
      OthersNotAsked(SentRequestVote(c, from, peers[0], args).cluster, from, peers[1..], args, v);
    }
  }

  /** The candidate itself is in the next term, has voted for itself and counts that vote; nodes that are no peers of it
      are as before. */
  lemma CandidateStands(c: ClusterState, id: NodeId, v: NodeId)
    requires id in c.nodes && id !in c.nodes[id].peers && v in c.nodes && v !in c.nodes[id].peers
    ensures var n, d := c.nodes[id], ElectionStarted(c, id).cluster;
            && v in d.nodes
            && d.nodes[v] == if v == id
                             then n.(storage := n.storage.(currentTerm := n.storage.currentTerm + 1, votedFor := Some(id)),
                                     role := Candidate, votesGranted := {id})
                             else c.nodes[v]
  {
    var n := Standing(c.nodes[id], id);
    OthersNotAsked(WithNode(c, id, n), id, n.peers, VoteRequest(n, id), v);
  }

  // ----- heartbeats -----

  /** A round of messages changes exactly the peers that it reaches, each as its handler says. */
  lemma {:induction false} AppendsReach(c: ClusterState, from: NodeId, peers: seq<NodeId>, args: AppendEntriesArgs, v: NodeId)
    requires forall i, j :: 0 <= i < j < |peers| ==> peers[i] != peers[j]
    ensures var d := AppendsSent(c, from, peers, args);
            && d.blocked == c.blocked && (v in d.nodes <==> v in c.nodes)
            && (v in c.nodes ==> d.nodes[v] == if v in peers && (from, v) !in c.blocked then OnAppendEntries(c.nodes[v], args).node else c.nodes[v])
    decreases |peers|
  {
    if peers != [] {
      assert v in peers <==> v == peers[0] || v in peers[1..];
      assert v == peers[0] ==> v !in peers[1..];
      AppendsReach(SentAppendEntries(c, from, peers[0], args), from, peers[1..], args, v);
    }
  }

  /** A proposal puts the leader's entry at the next index of its own log, and its heartbeat carries no entries. */
  lemma ProposalIsLogged(c: ClusterState, id: NodeId, data: string)
    requires id in c.nodes && c.nodes[id].role == Leader && id !in c.nodes[id].peers
    requires forall i, j :: 0 <= i < j < |c.nodes[id].peers| ==> c.nodes[id].peers[i] != c.nodes[id].peers[j]
    ensures var n, d := c.nodes[id], Proposed(c, id, data);
            var index := LastIndex(n.storage) + 1;
            && id in d.nodes && d.nodes[id].storage.log == n.storage.log + [LogEntry(n.Term(), index, Normal, data)]
            && d.nodes[id].matchIndex == n.matchIndex[id := index]
            && forall v :: v in c.nodes && v != id && v in n.peers && (id, v) !in c.blocked ==>
                 v in d.nodes && d.nodes[v] == OnAppendEntries(c.nodes[v], AppendEntriesArgs(n.Term(), id, index, n.Term(), [], n.commitIndex)).node
  {
    var n := WithProposal(c.nodes[id], id, data);
    var d := WithNode(c, id, n);
    AppendsReach(d, id, n.peers, Heartbeat(n, id), id);
    forall v | v in c.nodes && v != id && v in n.peers && (id, v) !in c.blocked
      ensures v in Proposed(c, id, data).nodes && Proposed(c, id, data).nodes[v]
              == OnAppendEntries(c.nodes[v], AppendEntriesArgs(n.Term(), id, LastIndex(n.storage), n.Term(), [], n.commitIndex)).node
    {
      AppendsReach(d, id, n.peers, Heartbeat(n, id), v);
    }
  }

  // ----- logs in runs of elections -----

  /** Elections change terms and votes only. */
  predicate SameLog(s: StorageState, t: StorageState) {
    t == s.(currentTerm := t.currentTerm, votedFor := t.votedFor)
  }

  ghost predicate LogsStay(c: ClusterState, d: ClusterState) {
    c.nodes.Keys == d.nodes.Keys && forall id :: id in c.nodes ==> SameLog(c.nodes[id].storage, d.nodes[id].storage)
  }

  /** The log of one node is at least as up to date as that of another. */
  predicate NodeNotBehind(c: ClusterState, a: NodeId, b: NodeId) {
    a in c.nodes && b in c.nodes
    && NotBehind(LastTerm(c.nodes[a].storage), LastIndex(c.nodes[a].storage), LastTerm(c.nodes[b].storage), LastIndex(c.nodes[b].storage))
  }

  ghost predicate CandidatesNotBehind(c: ClusterState, grants: set<Grant>) {
    forall g :: g in grants ==> NodeNotBehind(c, g.candidate, g.voter)
  }

  lemma LogsStayTwice(c: ClusterState, d: ClusterState, e: ClusterState)
    requires LogsStay(c, d) && LogsStay(d, e)
    ensures LogsStay(c, e)
  {
  }

  lemma NotBehindStays(c: ClusterState, d: ClusterState, grants: set<Grant>)
    requires LogsStay(c, d) && CandidatesNotBehind(c, grants)
    ensures CandidatesNotBehind(d, grants)
  {
    forall g | g in grants ensures NodeNotBehind(d, g.candidate, g.voter) {
      assert NodeNotBehind(c, g.candidate, g.voter);
    }
  }

  /** The request is that of a candidate with the log it has. */
  predicate Truthful(c: ClusterState, args: RequestVoteArgs) {
    args.candidateId in c.nodes && args.lastLogTerm == LastTerm(c.nodes[args.candidateId].storage)
    && args.lastLogIndex == LastIndex(c.nodes[args.candidateId].storage)
  }

  lemma AskedOnce(c: ClusterState, from: NodeId, to: NodeId, args: RequestVoteArgs)
    requires Truthful(c, args)
    ensures var o := SentRequestVote(c, from, to, args);
            LogsStay(c, o.cluster) && CandidatesNotBehind(c, o.grants) && Truthful(o.cluster, args)
  {
    if Reaches(c, from, to) {
      VoteIffDeserved(c.nodes[to], args);
    }
  }

  lemma {:induction false} AskedAll(c: ClusterState, from: NodeId, peers: seq<NodeId>, args: RequestVoteArgs)
    requires Truthful(c, args)
    ensures var o := VotesAsked(c, from, peers, args); LogsStay(c, o.cluster) && CandidatesNotBehind(c, o.grants)
    decreases |peers|
  {
    if peers != [] {
      var first := SentRequestVote(c, from, peers[0], args);
      var rest := VotesAsked(first.cluster, from, peers[1..], args);
      AskedOnce(c, from, peers[0], args);
      AskedAll(first.cluster, from, peers[1..], args);
      LogsStayTwice(c, first.cluster, rest.cluster);
      BackwardNotBehind(c, first.cluster, rest.grants);
    }
  }

  lemma BackwardNotBehind(c: ClusterState, d: ClusterState, grants: set<Grant>)
    requires LogsStay(c, d) && CandidatesNotBehind(d, grants)
    ensures CandidatesNotBehind(c, grants)
  {
    forall g | g in grants ensures NodeNotBehind(c, g.candidate, g.voter) {
      assert NodeNotBehind(d, g.candidate, g.voter);
    }
  }

  lemma WithNodeLogsStay(c: ClusterState, id: NodeId, n: NodeState)
    requires id in c.nodes && SameLog(c.nodes[id].storage, n.storage)
    ensures LogsStay(c, WithNode(c, id, n))
  {
  }

  lemma ElectionLogs(c: ClusterState, id: NodeId)
    requires id in c.nodes
    ensures var o := ElectionStarted(c, id); LogsStay(c, o.cluster) && CandidatesNotBehind(c, o.grants)
  {
    var n := Standing(c.nodes[id], id);
    var d := WithNode(c, id, n);
    WithNodeLogsStay(c, id, n);
    AskedAll(d, id, n.peers, VoteRequest(n, id));
    var asked := VotesAsked(d, id, n.peers, VoteRequest(n, id));
    LogsStayTwice(c, d, asked.cluster);
    BackwardNotBehind(c, d, asked.grants);
    assert NodeNotBehind(c, id, id);
  }

  lemma TickLogs(c: ClusterState, id: NodeId)
    requires id in c.nodes && c.nodes[id].role != Leader
    ensures var o := Ticked(c, id); LogsStay(c, o.cluster) && CandidatesNotBehind(c, o.grants)
  {
    var d := WithNode(c, id, Counted(c.nodes[id]));
    WithNodeLogsStay(c, id, Counted(c.nodes[id]));
    if Due(c.nodes[id]) {
      ElectionLogs(d, id);
      LogsStayTwice(c, d, Ticked(c, id).cluster);
      BackwardNotBehind(c, d, Ticked(c, id).grants);
    }
  }

  lemma {:induction false} TicksLogs(o: Outcome, order: seq<NodeId>)
    requires VotesKept(o) && forall id :: id in order ==> id in o.cluster.nodes
    ensures var s := TickedInOrder(o.cluster, order); LogsStay(o.cluster, s.cluster) && CandidatesNotBehind(o.cluster, s.grants)
    decreases |order|
  {
    if order != [] {
      var first := Ticked(o.cluster, order[0]);
      TickLogs(o.cluster, order[0]);
      TickKeeps(o, order[0]);
      TickKeepsNodes(o.cluster, order[0]);
      TicksLogs(Onto(o, first), order[1..]);
      var rest := TickedInOrder(first.cluster, order[1..]);
      LogsStayTwice(o.cluster, first.cluster, rest.cluster);
      BackwardNotBehind(o.cluster, first.cluster, rest.grants);
    }
  }

  lemma EventLogs(o: Outcome, e: Event)
    requires VotesKept(o) && CandidatesNotBehind(o.cluster, o.grants)
    ensures CandidatesNotBehind(Happens(o, e).cluster, Happens(o, e).grants)
  {
    var after := Happens(o, e);
    if e.TickAll? && forall id :: id in e.order ==> id in o.cluster.nodes {
      TicksLogs(o, e.order);
      NotBehindStays(o.cluster, after.cluster, o.grants + TickedInOrder(o.cluster, e.order).grants);
    } else {
      forall g | g in after.grants ensures NodeNotBehind(after.cluster, g.candidate, g.voter) {
        assert NodeNotBehind(o.cluster, g.candidate, g.voter);
      }
    }
  }

  lemma {:induction false} RunLogs(events: seq<Event>)
    ensures CandidatesNotBehind(Run(events).cluster, Run(events).grants)
  {
    if events != [] {
      RunLogs(events[..|events| - 1]);
      RunKeepsVotes(events[..|events| - 1]);
      EventLogs(Run(events[..|events| - 1]), events[|events| - 1]);
    }
  }

  /** In every run of elections, among nodes that start with any logs at all, a candidate's log is at least as up to
      date as that of each of its supporters. */
  lemma SupportersAreNotAhead(events: seq<Event>, term: nat, candidate: NodeId, v: NodeId)
    requires v in Supporters(Run(events), term, candidate)
    ensures NodeNotBehind(Run(events).cluster, candidate, v)
  {
    RunLogs(events);
    assert Grant(v, term, candidate) in Run(events).grants;
  }

  /** Every entry at its index, and terms that do not decrease. */
  predicate Ordered(s: StorageState) {
    Aligned(s) && forall i, j :: 0 <= i <= j < |s.log| ==> s.log[i].term <= s.log[j].term
  }

  lemma HeldIsNotAhead(s: StorageState, index: nat)
    requires Ordered(s) && index in Entries(s)
    ensures NotBehind(LastTerm(s), LastIndex(s), Entries(s)[index].term, index)
  {
    LogIsMap(s, index);
    assert Entries(s)[index] == s.log[index - s.snapshotIndex];
  }

  /** The node's log is in order and holds an entry of this term at this index. */
  predicate HoldsEntry(c: ClusterState, v: NodeId, index: nat, entryTerm: nat) {
    v in c.nodes && Ordered(c.nodes[v].storage) && index in Entries(c.nodes[v].storage)
    && Entries(c.nodes[v].storage)[index].term == entryTerm
  }

  /** The election restriction: the log of a candidate with a majority of votes never ends before an entry that a majority holds. */
  lemma WinnerIsNotBehind(events: seq<Event>, term: nat, candidate: NodeId, holders: set<NodeId>, index: nat, entryTerm: nat)
    requires var o := Run(events);
             && Majority(o, term, candidate)
             && holders <= o.cluster.nodes.Keys && 2 * |holders| > |o.cluster.nodes.Keys|
             && forall v :: v in holders ==> HoldsEntry(o.cluster, v, index, entryTerm)
    ensures var nodes := Run(events).cluster.nodes;
            candidate in nodes && NotBehind(LastTerm(nodes[candidate].storage), LastIndex(nodes[candidate].storage), entryTerm, index)
  {
    var o := Run(events);
    var voter := MajoritiesMeet(Supporters(o, term, candidate), holders, o.cluster.nodes.Keys);
    assert HoldsEntry(o.cluster, voter, index, entryTerm);
    SupportersAreNotAhead(events, term, candidate, voter);
    HeldIsNotAhead(o.cluster.nodes[voter].storage, index);
  }
}
