/** What Raft nodes do with messages and ticks, as functions of their state. */
module RaftProtocol {
  import opened Options
  import opened RaftStorage

  datatype Role = Follower | PreCandidate | Candidate | Leader

  const ELECTION_TIMEOUT := 15
  const HEARTBEAT_TIMEOUT := 5

  datatype NodeState = NodeState(peers: seq<NodeId>, storage: StorageState, role: Role, commitIndex: nat, lastApplied: nat,
                                 electionElapsed: nat, heartbeatElapsed: nat, votesGranted: set<NodeId>, matchIndex: map<NodeId, nat>)
  {
    function Term(): nat {
      storage.currentTerm
    }
  }

  function Idle(peers: seq<NodeId>): NodeState {
    NodeState(peers, Empty, Follower, 0, 0, 0, 0, {}, map[])
  }

  datatype RequestVoteArgs = RequestVoteArgs(term: nat, candidateId: NodeId, lastLogIndex: nat, lastLogTerm: nat, isPreVote: bool)
  datatype RequestVoteReply = RequestVoteReply(term: nat, voteGranted: bool)

  datatype AppendEntriesArgs = AppendEntriesArgs(term: nat, leaderId: NodeId, prevLogIndex: nat, prevLogTerm: nat,
                                                 entries: seq<LogEntry>, leaderCommit: nat)
  datatype AppendEntriesReply = AppendEntriesReply(term: nat, success: bool, matchIndex: nat)

  datatype InstallSnapshotArgs = InstallSnapshotArgs(term: nat, leaderId: NodeId, lastIncludedIndex: nat,
                                                     lastIncludedTerm: nat, data: string)

  datatype Answer<+R> = Answer(node: NodeState, reply: R)

  // ----- what a node does with one message -----

  function SteppedDown(n: NodeState, term: nat): NodeState {
    n.(storage := n.storage.(currentTerm := term, votedFor := None), role := Follower, electionElapsed := 0)
  }

  predicate LogUpToDate(s: StorageState, args: RequestVoteArgs) {
    args.lastLogTerm > LastTerm(s) || (args.lastLogTerm == LastTerm(s) && args.lastLogIndex >= LastIndex(s))
  }

  predicate CanVote(s: StorageState, args: RequestVoteArgs) {
    (s.votedFor.None? || s.votedFor.value == args.candidateId) && LogUpToDate(s, args)
  }

  function OnRequestVote(n: NodeState, args: RequestVoteArgs): Answer<RequestVoteReply> {
    if args.term < n.Term() then Answer(n, RequestVoteReply(n.Term(), false))
    else
      var m := if args.term > n.Term() then SteppedDown(n, args.term) else n;
      if CanVote(m.storage, args) then
        Answer(m.(storage := m.storage.(currentTerm := args.term, votedFor := Some(args.candidateId)), electionElapsed := 0),
               RequestVoteReply(args.term, true))
      else Answer(m, RequestVoteReply(m.Term(), false))
  }

  function Min(a: nat, b: nat): nat {
    if a <= b then a else b
  }

  predicate PrevMatches(s: StorageState, args: AppendEntriesArgs) {
    args.prevLogIndex <= LastIndex(s) && TermAt(s, args.prevLogIndex) == args.prevLogTerm
  }

  function Stored(s: StorageState, args: AppendEntriesArgs): StorageState {
    if args.entries == [] then s else Appended(Truncated(s, args.prevLogIndex + 1), args.entries)
  }

  /** The node once it has taken the sender's term. */
  function Listening(n: NodeState, args: AppendEntriesArgs): NodeState {
    (if args.term > n.Term() || n.role == Candidate then SteppedDown(n, args.term) else n).(electionElapsed := 0)
  }

  /** The replies carry the term from before the message. */
  function OnAppendEntries(n: NodeState, args: AppendEntriesArgs): Answer<AppendEntriesReply> {
    if args.term < n.Term() then Answer(n, AppendEntriesReply(n.Term(), false, 0))
    else
      var m := Listening(n, args);
      if !PrevMatches(m.storage, args) then Answer(m, AppendEntriesReply(n.Term(), false, 0))
      else
        var s := Stored(m.storage, args);
        var commit := if args.leaderCommit > m.commitIndex then Min(args.leaderCommit, LastIndex(s)) else m.commitIndex;
        Answer(m.(storage := s, commitIndex := commit), AppendEntriesReply(n.Term(), true, LastIndex(s)))
  }

  function Max(a: nat, b: nat): nat {
    if a >= b then a else b
  }

  function OnInstallSnapshot(n: NodeState, args: InstallSnapshotArgs): Answer<nat> {
    if args.term < n.Term() then Answer(n, n.Term())
    else
      var m := if args.term > n.Term() then SteppedDown(n, args.term) else n;
      Answer(m.(storage := Snapshotted(m.storage, args.lastIncludedIndex, args.lastIncludedTerm, args.data),
                electionElapsed := 0,
                commitIndex := Max(m.commitIndex, args.lastIncludedIndex),
                lastApplied := Max(m.lastApplied, args.lastIncludedIndex)),
             n.Term())
  }

  // ----- what the cluster does with one tick -----

  datatype ClusterState = ClusterState(nodes: map<NodeId, NodeState>, blocked: set<(NodeId, NodeId)>)

  /** `voter` gave its vote of `term` to `candidate`. */
  datatype Grant = Grant(voter: NodeId, term: nat, candidate: NodeId)

  /** The cluster afterwards, and the votes given on the way. */
  datatype Outcome = Outcome(cluster: ClusterState, grants: set<Grant>)

  predicate Reaches(c: ClusterState, from: NodeId, to: NodeId) {
    (from, to) !in c.blocked && to in c.nodes
  }

  function WithNode(c: ClusterState, id: NodeId, n: NodeState): ClusterState {
    c.(nodes := c.nodes[id := n])
  }

  function SentRequestVote(c: ClusterState, from: NodeId, to: NodeId, args: RequestVoteArgs): Outcome {
    if Reaches(c, from, to) then
      var a := OnRequestVote(c.nodes[to], args);
      Outcome(WithNode(c, to, a.node), if a.reply.voteGranted then {Grant(to, args.term, args.candidateId)} else {})
    else Outcome(c, {})
  }

  function VotesAsked(c: ClusterState, from: NodeId, peers: seq<NodeId>, args: RequestVoteArgs): Outcome
    decreases |peers|
  {
    if peers == [] then Outcome(c, {})
    else
      var first := SentRequestVote(c, from, peers[0], args);
      var rest := VotesAsked(first.cluster, from, peers[1..], args);
      Outcome(rest.cluster, first.grants + rest.grants)
  }

  function Standing(n: NodeState, id: NodeId): NodeState {
    n.(storage := n.storage.(currentTerm := n.Term() + 1, votedFor := Some(id)), role := Candidate, votesGranted := {id})
  }

  function VoteRequest(n: NodeState, id: NodeId): RequestVoteArgs {
    RequestVoteArgs(n.Term(), id, LastIndex(n.storage), LastTerm(n.storage), false)
  }

  function ElectionStarted(c: ClusterState, id: NodeId): Outcome
    requires id in c.nodes
  {
    var n := Standing(c.nodes[id], id);
    var asked := VotesAsked(WithNode(c, id, n), id, n.peers, VoteRequest(n, id));
    Outcome(asked.cluster, {Grant(id, n.Term(), id)} + asked.grants)
  }

  function SentAppendEntries(c: ClusterState, from: NodeId, to: NodeId, args: AppendEntriesArgs): ClusterState {
    if Reaches(c, from, to) then WithNode(c, to, OnAppendEntries(c.nodes[to], args).node) else c
  }

  function AppendsSent(c: ClusterState, from: NodeId, peers: seq<NodeId>, args: AppendEntriesArgs): ClusterState
    decreases |peers|
  {
    if peers == [] then c else AppendsSent(SentAppendEntries(c, from, peers[0], args), from, peers[1..], args)
  }

  function Heartbeat(n: NodeState, id: NodeId): AppendEntriesArgs {
    AppendEntriesArgs(n.Term(), id, LastIndex(n.storage), LastTerm(n.storage), [], n.commitIndex)
  }

  function Broadcast(c: ClusterState, id: NodeId): ClusterState
    requires id in c.nodes
  {
    AppendsSent(c, id, c.nodes[id].peers, Heartbeat(c.nodes[id], id))
  }

  /** Whether the node's timer goes off with this tick. */
  predicate Due(n: NodeState) {
    if n.role == Leader then n.heartbeatElapsed + 1 >= HEARTBEAT_TIMEOUT else n.electionElapsed + 1 >= ELECTION_TIMEOUT
  }

  function Counted(n: NodeState): NodeState {
    if n.role == Leader then n.(heartbeatElapsed := if Due(n) then 0 else n.heartbeatElapsed + 1)
    else n.(electionElapsed := if Due(n) then 0 else n.electionElapsed + 1)
  }

  function Ticked(c: ClusterState, id: NodeId): Outcome
    requires id in c.nodes
  {
    var d := WithNode(c, id, Counted(c.nodes[id]));
    if !Due(c.nodes[id]) then Outcome(d, {})
    else if c.nodes[id].role == Leader then Outcome(Broadcast(d, id), {})
    else ElectionStarted(d, id)
  }

  lemma {:induction false} AskingKeepsNodes(c: ClusterState, from: NodeId, peers: seq<NodeId>, args: RequestVoteArgs)
    ensures VotesAsked(c, from, peers, args).cluster.nodes.Keys == c.nodes.Keys
    decreases |peers|
  {
    if peers != [] {
      AskingKeepsNodes(SentRequestVote(c, from, peers[0], args).cluster, from, peers[1..], args);
    }
  }

  lemma {:induction false} AppendingKeepsNodes(c: ClusterState, from: NodeId, peers: seq<NodeId>, args: AppendEntriesArgs)
    ensures AppendsSent(c, from, peers, args).nodes.Keys == c.nodes.Keys
    decreases |peers|
  {
    if peers != [] {
      AppendingKeepsNodes(SentAppendEntries(c, from, peers[0], args), from, peers[1..], args);
    }
  }

  lemma TickKeepsNodes(c: ClusterState, id: NodeId)
    requires id in c.nodes
    ensures Ticked(c, id).cluster.nodes.Keys == c.nodes.Keys
  {
    var n := Counted(c.nodes[id]);
    var d := WithNode(c, id, n);
    AppendingKeepsNodes(d, id, n.peers, Heartbeat(n, id));
    var m := Standing(n, id);
    AskingKeepsNodes(WithNode(d, id, m), id, m.peers, VoteRequest(m, id));
  }

  /** All nodes tick in turn. */
  function TickedInOrder(c: ClusterState, order: seq<NodeId>): Outcome
    requires forall id :: id in order ==> id in c.nodes
    decreases |order|
  {
    if order == [] then Outcome(c, {})
    else
      TickKeepsNodes(c, order[0]);
      var first := Ticked(c, order[0]);
      var rest := TickedInOrder(first.cluster, order[1..]);
      Outcome(rest.cluster, first.grants + rest.grants)
  }

  function WithProposal(n: NodeState, id: NodeId, data: string): NodeState {
    var e := LogEntry(n.Term(), LastIndex(n.storage) + 1, Normal, data);
    n.(storage := Appended(n.storage, [e]), matchIndex := n.matchIndex[id := e.index])
  }

  function Proposed(c: ClusterState, id: NodeId, data: string): ClusterState
    requires id in c.nodes
  {
    if c.nodes[id].role == Leader then Broadcast(WithNode(c, id, WithProposal(c.nodes[id], id, data)), id) else c
  }

  /** The links between two groups, both ways. */
  function Links(groupA: set<NodeId>, groupB: set<NodeId>): set<(NodeId, NodeId)> {
    (set a, b | a in groupA && b in groupB :: (a, b)) + (set a, b | a in groupA && b in groupB :: (b, a))
  }

  function Partitioned(c: ClusterState, groupA: set<NodeId>, groupB: set<NodeId>): ClusterState {
    c.(blocked := c.blocked + Links(groupA, groupB))
  }
}
