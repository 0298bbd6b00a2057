/** Raft nodes and the cluster that carries their messages, as objects. */
module RaftCluster {
  import opened Options
  import opened RaftStorage
  import opened RaftProtocol

  class RaftNode {
    const id: NodeId
    const peers: seq<NodeId>
    const storage: MemoryStorage
    const cluster: RaftCluster

    var role: Role
    var commitIndex: nat
    var lastApplied: nat
    var electionElapsed: nat
    var heartbeatElapsed: nat
    var votesGranted: set<NodeId>
    var matchIndex: map<NodeId, nat>

    ghost function View(): NodeState
      reads this, storage
    {
      NodeState(peers, storage.View(), role, commitIndex, lastApplied, electionElapsed, heartbeatElapsed, votesGranted, matchIndex)
    }

    constructor (id: NodeId, peers: seq<NodeId>, storage: MemoryStorage, cluster: RaftCluster)
      ensures this.id == id && this.peers == peers && this.storage == storage && this.cluster == cluster
      ensures View() == Idle(peers).(storage := storage.View())
    {
      this.id, this.peers, this.storage, this.cluster := id, peers, storage, cluster;
      role, commitIndex, lastApplied, electionElapsed, heartbeatElapsed := Follower, 0, 0, 0, 0;
      votesGranted, matchIndex := {}, map[];
    }

    method StepDown(newTerm: nat)
      modifies this, storage
      ensures View() == SteppedDown(old(View()), newTerm)
    {
      storage.SaveHardState(newTerm, None);
      role := Follower;
      electionElapsed := 0;
    }

    method HandleRequestVote(args: RequestVoteArgs) returns (reply: RequestVoteReply)
      modifies this, storage
      ensures View() == OnRequestVote(old(View()), args).node && reply == OnRequestVote(old(View()), args).reply
    {
      var curTerm := storage.currentTerm;
      if args.term < curTerm {
        return RequestVoteReply(curTerm, false);
      }
      if args.term > curTerm {
        StepDown(args.term);
      }
      var votedFor := storage.votedFor;
      var canVote := votedFor.None? || votedFor.value == args.candidateId;
      var last := storage.log[|storage.log| - 1];
      var logOk := args.lastLogTerm > last.term || (args.lastLogTerm == last.term && args.lastLogIndex >= last.index);
      var granted := canVote && logOk;
      if granted {
        storage.SaveHardState(args.term, Some(args.candidateId));
        electionElapsed := 0;
      }
      reply := RequestVoteReply(storage.currentTerm, granted);
    }

    method Store(args: AppendEntriesArgs)
      modifies storage
      ensures storage.View() == Stored(old(storage.View()), args)
    {
      if args.entries != [] {
        storage.Truncate(args.prevLogIndex + 1);
        storage.Append(args.entries);
      }
    }

    /** HandleAppendEntries up to the check of the previous entry; an answer if it is refused. */
    method Refuse(args: AppendEntriesArgs) returns (refusal: Option<AppendEntriesReply>)
      modifies this, storage
      ensures View() == if args.term < old(View()).Term() then old(View()) else Listening(old(View()), args)
      ensures refusal == if args.term < old(View()).Term() || !PrevMatches(View().storage, args)
                         then Some(AppendEntriesReply(old(View()).Term(), false, 0)) else None
    {
      var curTerm := storage.currentTerm;
      if args.term < curTerm {
        return Some(AppendEntriesReply(curTerm, false, 0));
      }
      if args.term > curTerm || role == Candidate {
        StepDown(args.term);
      }
      electionElapsed := 0;
      var prevTerm := storage.GetTerm(args.prevLogIndex);
      if args.prevLogIndex > storage.log[|storage.log| - 1].index || prevTerm != args.prevLogTerm {
        return Some(AppendEntriesReply(curTerm, false, 0));
      }
      return None;
    }

    method HandleAppendEntries(args: AppendEntriesArgs) returns (reply: AppendEntriesReply)
      modifies this, storage
      ensures View() == OnAppendEntries(old(View()), args).node && reply == OnAppendEntries(old(View()), args).reply
    {
      var curTerm := storage.currentTerm;
      var refusal := Refuse(args);
      if refusal.Some? {
        return refusal.value;
      }
      Store(args);
      var last := storage.log[|storage.log| - 1].index;
      if args.leaderCommit > commitIndex {
        commitIndex := if args.leaderCommit <= last then args.leaderCommit else last;
      }
      reply := AppendEntriesReply(curTerm, true, last);
    }

    method HandleInstallSnapshot(args: InstallSnapshotArgs) returns (term: nat)
      modifies this, storage
      ensures View() == OnInstallSnapshot(old(View()), args).node && term == OnInstallSnapshot(old(View()), args).reply
    {
      var curTerm := storage.currentTerm;
      if args.term < curTerm {
        return curTerm;
      }
      if args.term > curTerm {
        StepDown(args.term);
      }
      electionElapsed := 0;
      storage.ApplySnapshot(args.lastIncludedIndex, args.lastIncludedTerm, args.data);
      commitIndex := if commitIndex >= args.lastIncludedIndex then commitIndex else args.lastIncludedIndex;
      lastApplied := if lastApplied >= args.lastIncludedIndex then lastApplied else args.lastIncludedIndex;
      term := curTerm;
    }

    /** A node is wired up once its cluster knows it; it does not send to itself. */
    ghost predicate Wired()
      reads cluster
    {
      cluster.Valid() && id in cluster.nodes && cluster.nodes[id] == this
    }

    /** The node's own part of StartElection: a new term, its own vote, and what it will ask. */
    method Stand() returns (args: RequestVoteArgs)
      modifies this, storage
      ensures View() == Standing(old(View()), id) && args == VoteRequest(View(), id)
    {
      var term := storage.currentTerm + 1;
      storage.SaveHardState(term, Some(id));
      role := Candidate;
      votesGranted := {id};
      var last := storage.log[|storage.log| - 1];
      args := RequestVoteArgs(term, id, last.index, last.term, false);
    }

    method AskPeers(args: RequestVoteArgs)
      requires Wired()
      modifies cluster.repr
      ensures cluster.View() == VotesAsked(old(cluster.View()), id, peers, args).cluster
    {
      ghost var before := cluster.View();
      for i := 0 to |peers|
        invariant VotesAsked(before, id, peers, args).cluster == VotesAsked(cluster.View(), id, peers[i..], args).cluster
      {
        cluster.SendRequestVote(id, peers[i], args);
        assert peers[i..][1..] == peers[i + 1..];
      }
    }

    method StartElection()
      requires Wired()
      modifies cluster.repr
      ensures cluster.View() == ElectionStarted(old(cluster.View()), id).cluster
    {
      ghost var before := cluster.View();
      assert before.nodes[id] == View();
      var args := Stand();
      cluster.OnlyChanged(before, id);
      AskPeers(args);
    }

    method BroadcastHeartbeats()
      requires Wired()
      modifies cluster.repr
      ensures cluster.View() == Broadcast(old(cluster.View()), id)
    {
      ghost var before := cluster.View();
      var last := storage.log[|storage.log| - 1];
      var args := AppendEntriesArgs(storage.currentTerm, id, last.index, last.term, [], commitIndex);
      assert args == Heartbeat(before.nodes[id], id);
      for i := 0 to |peers|
        invariant AppendsSent(before, id, peers, args) == AppendsSent(cluster.View(), id, peers[i..], args)
      {
        cluster.SendAppendEntries(id, peers[i], args);
        assert peers[i..][1..] == peers[i + 1..];
      }
    }

    /** HandleTick's timers. */
    method CountTick() returns (due: bool)
      modifies this
      ensures due == Due(old(View())) && View() == Counted(old(View()))
    {
      due := false;
      if role == Leader {
        heartbeatElapsed := heartbeatElapsed + 1;
        if heartbeatElapsed >= HEARTBEAT_TIMEOUT {
          heartbeatElapsed := 0;
          due := true;
        }
      } else {
        electionElapsed := electionElapsed + 1;
        if electionElapsed >= ELECTION_TIMEOUT {
          electionElapsed := 0;
          due := true;
        }
      }
    }

    method HandleTick()
      requires Wired()
      modifies cluster.repr
      ensures cluster.View() == Ticked(old(cluster.View()), id).cluster
    {
      ghost var before := cluster.View();
      assert before.nodes[id] == View();
      var due := CountTick();
      cluster.OnlyChanged(before, id);
      if due {
        if role == Leader {
          BroadcastHeartbeats();
        } else {
          StartElection();
        }
      }
    }

    /** The leader's own log takes the new entry first. */
    method AppendOwn(data: string)
      modifies this, storage
      ensures View() == WithProposal(old(View()), id, data)
    {
      var entry := LogEntry(storage.currentTerm, storage.log[|storage.log| - 1].index + 1, Normal, data);
      storage.Append([entry]);
      matchIndex := matchIndex[id := entry.index];
    }

    method Propose(data: string) returns (accepted: bool)
      requires Wired()
      modifies cluster.repr
      ensures accepted == (old(role) == Leader)
      ensures cluster.View() == Proposed(old(cluster.View()), id, data)
    {
      ghost var before := cluster.View();
      assert before.nodes[id] == View();
      if role != Leader {
        return false;
      }
      AppendOwn(data);
      cluster.OnlyChanged(before, id);
      BroadcastHeartbeats();
      return true;
    }
  }

  class RaftCluster {
    var nodes: map<NodeId, RaftNode>
    var blocked: set<(NodeId, NodeId)>
    ghost var repr: set<object>

    /** Every node is registered under its own id and has a storage of its own. */
    ghost predicate Valid()
      reads this
    {
      && this !in repr
      && (forall id :: id in nodes ==> nodes[id] in repr && nodes[id].storage in repr)
      && (forall id :: id in nodes ==> nodes[id].id == id && nodes[id].cluster == this && id !in nodes[id].peers)
      && (forall a, b :: a in nodes && b in nodes && a != b ==> nodes[a].storage != nodes[b].storage)
    }

    ghost function View(): ClusterState
      requires Valid()
      reads this, repr
    {
      ClusterState(map id | id in nodes :: nodes[id].View(), blocked)
    }

    constructor ()
      ensures Valid() && View() == ClusterState(map[], {})
    {
      nodes, blocked, repr := map[], {}, {};
    }

    lemma OnlyChanged(before: ClusterState, id: NodeId)
      requires Valid() && id in nodes && before.blocked == blocked && nodes.Keys == before.nodes.Keys + {id}
      requires forall a :: a in nodes && a != id ==> nodes[a].View() == before.nodes[a]
      ensures View() == WithNode(before, id, nodes[id].View())
    {
    }

    /** The node is known under its id from then on, also if another one was before. */
    method AddNode(node: RaftNode)
      requires Valid() && node.cluster == this && node.id !in node.peers
      requires forall id :: id in nodes && id != node.id ==> nodes[id].storage != node.storage
      modifies this`nodes, this`repr
      ensures Valid() && View() == WithNode(old(View()), node.id, node.View())
    {
      ghost var before := View();
      repr := repr + {node, node.storage};
      nodes := nodes[node.id := node];
      OnlyChanged(before, node.id);
    }

    /** The inner loop of SetPartition. */
    method Block(a: NodeId, group: set<NodeId>)
      modifies this`blocked
      ensures blocked == old(blocked) + Links({a}, group)
    {
      var rights := group;
      while rights != {}
        invariant rights <= group && blocked == old(blocked) + Links({a}, group - rights)
        decreases |rights|
      {
        var b :| b in rights;
        blocked := blocked + {(a, b), (b, a)};
        rights := rights - {b};
      }
    }

    method SetPartition(groupA: set<NodeId>, groupB: set<NodeId>)
      modifies this`blocked
      ensures blocked == old(blocked) + Links(groupA, groupB)
    {
      var lefts := groupA;
      ghost var was, done := blocked, {};
      while lefts != {}
        invariant done + lefts == groupA && blocked == was + Links(done, groupB)
        decreases |lefts|
      {
        var a :| a in lefts;
        Block(a, groupB);
        OneMoreLeft(was, done, a, groupB);
        done, lefts := done + {a}, lefts - {a};
      }
      assert done == groupA;
    }

    method ClearPartitions()
      modifies this`blocked
      ensures blocked == {}
    {
      blocked := {};
    }

    method SendRequestVote(from: NodeId, to: NodeId, args: RequestVoteArgs)
      requires Valid()
      modifies repr
      ensures View() == SentRequestVote(old(View()), from, to, args).cluster
    {
      ghost var before := View();
      if (from, to) in blocked {
        return;
      }
      if to in nodes {
        var target := nodes[to];
        var reply := target.HandleRequestVote(args);
        OnlyChanged(before, to);
      }
    }

    method SendAppendEntries(from: NodeId, to: NodeId, args: AppendEntriesArgs)
      requires Valid()
      modifies repr
      ensures View() == SentAppendEntries(old(View()), from, to, args)
    {
      ghost var before := View();
      if (from, to) in blocked {
        return;
      }
      if to in nodes {
        var target := nodes[to];
        var reply := target.HandleAppendEntries(args);
        OnlyChanged(before, to);
      }
    }

    method SendInstallSnapshot(from: NodeId, to: NodeId, args: InstallSnapshotArgs)
      requires Valid()
      modifies repr
      ensures View() == if Reaches(old(View()), from, to)
                        then WithNode(old(View()), to, OnInstallSnapshot(old(View()).nodes[to], args).node)
                        else old(View())
    {
      ghost var before := View();
      if (from, to) in blocked {
        return;
      }
      if to in nodes {
        var target := nodes[to];
        var term := target.HandleInstallSnapshot(args);
        OnlyChanged(before, to);
      }
    }

    method TickOne(id: NodeId)
      requires Valid() && id in nodes
      modifies repr
      ensures View() == Ticked(old(View()), id).cluster
    {
      nodes[id].HandleTick();
    }

    /** All nodes, in the order their container happens to hold them. */
    method CurrentNodes() returns (order: seq<NodeId>)
      ensures (forall id :: id in order <==> id in nodes) && |order| == |nodes.Keys|
    {
      order := [];
      var waiting := nodes.Keys;
      while waiting != {}
        invariant waiting <= nodes.Keys
        invariant forall id :: id in order <==> id in nodes && id !in waiting
        invariant |order| + |waiting| == |nodes.Keys|
        decreases |waiting|
      {
        var id :| id in waiting;
        order := order + [id];
        waiting := waiting - {id};
      }
    }

    method TickEach(order: seq<NodeId>)
      requires Valid() && forall id :: id in order ==> id in nodes
      modifies repr
      ensures View() == TickedInOrder(old(View()), order).cluster
    {
      ghost var before := View();
      for i := 0 to |order|
        invariant TickedInOrder(before, order).cluster == TickedInOrder(View(), order[i..]).cluster
      {
        TickOne(order[i]);
        assert order[i..][1..] == order[i + 1..];
      }
    }

    method TickAll() returns (ghost order: seq<NodeId>)
      requires Valid()
      modifies repr
      ensures (forall id :: id in order <==> id in nodes) && |order| == |nodes.Keys|
      ensures View() == TickedInOrder(old(View()), order).cluster
    {
      var current := CurrentNodes();
      order := current;
      TickEach(current);
    }
  }

  lemma OneMoreLeft(was: set<(NodeId, NodeId)>, done: set<NodeId>, a: NodeId, group: set<NodeId>)
    ensures (was + Links(done, group)) + Links({a}, group) == was + Links(done + {a}, group)
  {
  }
}
