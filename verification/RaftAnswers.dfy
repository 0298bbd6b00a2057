/** What a node answers to each message and what becomes of its term, vote, log and commit index, in plain comparisons. */
module RaftAnswers {
  import opened Options
  import opened RaftStorage
  import opened RaftProtocol

  // ----- votes -----

  /** A log that ends in this term at this index is at least as up to date as one that ends in that term at that index. */
  predicate NotBehind(term: nat, index: nat, thatTerm: nat, thatIndex: nat) {
    term > thatTerm || (term == thatTerm && index >= thatIndex)
  }

  /** The candidate's term is current, no other vote of that term stands, and its log is not behind the voter's. */
  predicate Deserves(n: NodeState, args: RequestVoteArgs) {
    && args.term >= n.Term()
    && (args.term > n.Term() || n.storage.votedFor == None || n.storage.votedFor == Some(args.candidateId))
    && NotBehind(args.lastLogTerm, args.lastLogIndex, LastTerm(n.storage), LastIndex(n.storage))
  }

  /** A vote is given exactly then. The log is never touched, and a later term always clears the vote and the role. */
  lemma VoteIffDeserved(n: NodeState, args: RequestVoteArgs)
    ensures var a := OnRequestVote(n, args);
            && (a.reply.voteGranted <==> Deserves(n, args))
            && a.reply.term == a.node.Term() == Max(n.Term(), args.term)
            && a.node.storage.votedFor == (if Deserves(n, args) then Some(args.candidateId)
                                           else if args.term > n.Term() then None else n.storage.votedFor)
            && a.node.role == (if args.term > n.Term() then Follower else n.role)
            && a.node.electionElapsed == (if Deserves(n, args) || args.term > n.Term() then 0 else n.electionElapsed)
            && a.node.storage == n.storage.(currentTerm := a.node.Term(), votedFor := a.node.storage.votedFor)
            && a.node.commitIndex == n.commitIndex && a.node.lastApplied == n.lastApplied
  {
  }

  // ----- new entries -----

  /** The message is of the current term or a later one, and its previous entry is in the log. */
  predicate Accepts(n: NodeState, args: AppendEntriesArgs) {
    && args.term >= n.Term()
    && args.prevLogIndex <= LastIndex(n.storage) && TermAt(n.storage, args.prevLogIndex) == args.prevLogTerm
  }

  /** Success means acceptance; replies carry the term from before, and the new last index if they are positive. */
  lemma AppendIffAccepted(n: NodeState, args: AppendEntriesArgs)
    ensures var a := OnAppendEntries(n, args);
            && (a.reply.success <==> Accepts(n, args))
            && a.reply.term == n.Term()
            && a.reply.matchIndex == (if Accepts(n, args) then LastIndex(a.node.storage) else 0)
            && a.node.Term() == Max(n.Term(), args.term)
            && a.node.role == (if args.term > n.Term() || (args.term == n.Term() && n.role == Candidate) then Follower else n.role)
            && a.node.storage.votedFor == (if args.term > n.Term() || (args.term == n.Term() && n.role == Candidate) then None
                                           else n.storage.votedFor)
            && a.node.electionElapsed == (if args.term >= n.Term() then 0 else n.electionElapsed)
            && (!Accepts(n, args) || args.entries == [] ==> a.node.storage.log == n.storage.log)
            && (!Accepts(n, args) ==> a.node.commitIndex == n.commitIndex)
            && a.node.storage.snapshotIndex == n.storage.snapshotIndex && a.node.storage.snapshotTerm == n.storage.snapshotTerm
            && a.node.lastApplied == n.lastApplied
  {
  }

  lemma StoredLog(s: StorageState, args: AppendEntriesArgs)
    requires Aligned(s) && args.entries != [] && s.snapshotIndex <= args.prevLogIndex <= LastIndex(s)
    ensures LastIndex(s) == s.snapshotIndex + |s.log| - 1
    ensures Stored(s, args).log == s.log[..args.prevLogIndex - s.snapshotIndex + 1] + args.entries
  {
    if args.prevLogIndex == LastIndex(s) {
      assert s.log[..|s.log|] == s.log;
    }
  }

  lemma JoinedIsAligned(s: StorageState, kept: nat, entries: seq<LogEntry>)
    requires Aligned(s) && 0 < kept <= |s.log| && Contiguous(entries, s.snapshotIndex + kept) && entries != []
    ensures var t := s.(log := s.log[..kept] + entries); Aligned(t) && LastIndex(t) == s.snapshotIndex + kept + |entries| - 1
  {
  }

  /** An accepted message at or above the snapshot leaves the entries up to its previous one, and then exactly its own. */
  lemma AcceptedEntries(n: NodeState, args: AppendEntriesArgs)
    requires Aligned(n.storage) && Accepts(n, args) && args.entries != []
    requires args.prevLogIndex >= n.storage.snapshotIndex && Contiguous(args.entries, args.prevLogIndex + 1)
    ensures var s, t := n.storage, OnAppendEntries(n, args).node.storage;
            && |s.log| > args.prevLogIndex - s.snapshotIndex
            && t.log == s.log[..args.prevLogIndex - s.snapshotIndex + 1] + args.entries
            && Aligned(t) && LastIndex(t) == args.prevLogIndex + |args.entries|
  {
    var s := Listening(n, args).storage;
    StoredLog(s, args);
    JoinedIsAligned(s, args.prevLogIndex - s.snapshotIndex + 1, args.entries);
    assert OnAppendEntries(n, args).node.storage == Stored(s, args);
  }

  // ----- the commit index -----

  /** After an accepted message the commit index is what the leader says, as far as the log reaches, if that is news. */
  lemma CommitAfterAppend(n: NodeState, args: AppendEntriesArgs)
    requires Accepts(n, args)
    ensures var m := OnAppendEntries(n, args).node;
            m.commitIndex == if args.leaderCommit <= n.commitIndex then n.commitIndex
                             else if args.leaderCommit <= LastIndex(m.storage) then args.leaderCommit
                             else LastIndex(m.storage)
  {
  }

  /** Where an accepted message leaves the log to end. */
  function EndAfter(s: StorageState, args: AppendEntriesArgs): nat {
    if args.entries == [] then LastIndex(s) else args.entries[|args.entries| - 1].index
  }

  /** The commit index decreases if and only if an accepted message with a higher leader commit cuts the log below it. */
  lemma CommitDecreasesIff(n: NodeState, args: AppendEntriesArgs)
    ensures OnAppendEntries(n, args).node.commitIndex < n.commitIndex <==>
            Accepts(n, args) && args.leaderCommit > n.commitIndex > EndAfter(n.storage, args)
  {
  }

  /** After an accepted message the commit index lies beyond the log if and only if it was not raised and lay beyond
      the new end before. */
  lemma CommitBeyondLogIff(n: NodeState, args: AppendEntriesArgs)
    requires Accepts(n, args)
    ensures var m := OnAppendEntries(n, args).node;
            m.commitIndex > LastIndex(m.storage) <==>
            args.leaderCommit <= n.commitIndex && n.commitIndex > EndAfter(n.storage, args)
  {
  }

  /** Five entries are committed; a message of a later term replaces them by one, and announces six: one is left committed. */
  lemma CommitCanDecrease(peers: seq<NodeId>, data: string)
    ensures var log := [Dummy(0, 0)] + seq(5, k requires k >= 0 => LogEntry(1, k + 1, Normal, data));
            var n := Idle(peers).(storage := Empty.(currentTerm := 1, log := log), commitIndex := 5);
            var args := AppendEntriesArgs(2, 1, 0, 0, [LogEntry(2, 1, Normal, data)], 6);
            Aligned(n.storage) && OnAppendEntries(n, args).reply.success && OnAppendEntries(n, args).node.commitIndex == 1
  {
  }

  // ----- snapshots -----

  /** A current snapshot replaces the log, whatever the log held, and commits what it stands for; a stale one is ignored. */
  lemma SnapshotIffCurrent(n: NodeState, args: InstallSnapshotArgs)
    ensures var a := OnInstallSnapshot(n, args);
            && a.reply == n.Term()
            && (args.term < n.Term() ==> a.node == n)
            && (args.term >= n.Term() ==>
                  && a.node.storage.log == [Dummy(args.lastIncludedIndex, args.lastIncludedTerm)]
                  && Aligned(a.node.storage) && LastIndex(a.node.storage) == a.node.storage.snapshotIndex == args.lastIncludedIndex
                  && LastTerm(a.node.storage) == a.node.storage.snapshotTerm == args.lastIncludedTerm
                  && Entries(a.node.storage) == map[] && a.node.storage.snapshotData == args.data
                  && a.node.commitIndex == Max(n.commitIndex, args.lastIncludedIndex)
                  && a.node.lastApplied == Max(n.lastApplied, args.lastIncludedIndex)
                  && a.node.Term() == args.term && a.node.electionElapsed == 0
                  && a.node.storage.votedFor == (if args.term > n.Term() then None else n.storage.votedFor)
                  && a.node.role == (if args.term > n.Term() then Follower else n.role))
  {
  }

  // ----- timers -----

  /** A follower or candidate stands for election with its fifteenth tick in a row, and a leader sends heartbeats with
      its fifth; other ticks are only counted. */
  lemma TickIff(c: ClusterState, id: NodeId)
    requires id in c.nodes
    ensures var n, o := c.nodes[id], Ticked(c, id);
            var due := if n.role == Leader then n.heartbeatElapsed >= 4 else n.electionElapsed >= 14;
            && (!due ==> o.grants == {}
                         && o.cluster == WithNode(c, id, if n.role == Leader then n.(heartbeatElapsed := n.heartbeatElapsed + 1)
                                                         else n.(electionElapsed := n.electionElapsed + 1)))
            && (due && n.role != Leader ==>
                  Grant(id, n.Term() + 1, id) in o.grants && o.cluster.nodes.Keys == c.nodes.Keys)
            && (due && n.role == Leader ==> o.grants == {} && o.cluster == Broadcast(WithNode(c, id, n.(heartbeatElapsed := 0)), id))
  {
    TickKeepsNodes(c, id);
  }

  // ----- partitions -----

  /** Once two groups are parted, a message from a node of one to a node of the other changes nothing. */
  lemma PartedIsSilent(c: ClusterState, a: set<NodeId>, b: set<NodeId>, from: NodeId, to: NodeId,
                       vote: RequestVoteArgs, append: AppendEntriesArgs)
    requires (from in a && to in b) || (from in b && to in a)
    ensures var d := Partitioned(c, a, b);
            SentRequestVote(d, from, to, vote) == Outcome(d, {}) && SentAppendEntries(d, from, to, append) == d
  {
  }

  /** All other links are as they were. */
  lemma OthersStillReach(c: ClusterState, a: set<NodeId>, b: set<NodeId>, from: NodeId, to: NodeId)
    requires !((from in a && to in b) || (from in b && to in a))
    ensures Reaches(Partitioned(c, a, b), from, to) <==> Reaches(c, from, to)
  {
  }
}
