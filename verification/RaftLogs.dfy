/** Log Matching, section 5.3 of the Raft paper, over whole runs. */
module RaftLogs {
  import opened RaftStorage
  import opened RaftProtocol

  type Entry = LogEntry

  // ----- one delivery -----

  /** An accepted message leaves the log aligned if and only if it brings no entries
      or starts at or above the snapshot. */
  lemma StoredAligned(s: StorageState, args: AppendEntriesArgs)
    requires Aligned(s) && PrevMatches(s, args) && Contiguous(args.entries, args.prevLogIndex + 1)
    ensures Aligned(Stored(s, args)) <==> args.entries == [] || args.prevLogIndex >= s.snapshotIndex
  {
    if args.entries != [] {
      var t := Truncated(s, args.prevLogIndex + 1);
      AppendAligned(t, args.entries);
      if args.prevLogIndex < s.snapshotIndex {
        assert args.entries[0].index == args.prevLogIndex + 1;
      }
    }
  }

  /** Below the snapshot every term reads as zero, so a message from the start of the log is accepted there. */
  lemma BelowSnapshotIsAccepted(s: StorageState, args: AppendEntriesArgs)
    requires Aligned(s) && args.prevLogIndex < s.snapshotIndex
    ensures PrevMatches(s, args) <==> args.prevLogTerm == 0
  {
  }

  /** A follower that has a snapshot takes the leader's first entry and loses track of its indices. */
  lemma FirstEntryAfterSnapshot(data: string)
    ensures var s := Snapshotted(Empty, 5, 2, data);
            var args := AppendEntriesArgs(2, 1, 0, 0, [LogEntry(1, 1, Normal, data)], 0);
            && Aligned(s) && PrevMatches(s, args) && !Aligned(Stored(s, args))
            && LastIndex(s) == 5 && LastIndex(Stored(s, args)) == 1
  {
    var s := Snapshotted(Empty, 5, 2, data);
    var args := AppendEntriesArgs(2, 1, 0, 0, [LogEntry(1, 1, Normal, data)], 0);
    StoredAligned(s, args);
  }

  // ----- whole logs -----

  /** The term of the entry at `i` of a log that starts at index 1. */
  function TermOf(full: seq<Entry>, i: nat): nat
    requires i <= |full|
  {
    if i == 0 then 0 else full[i - 1].term
  }

  /** The storage keeps the part of the log above its snapshot. */
  ghost predicate Holds(s: StorageState, full: seq<Entry>) {
    && Aligned(s) && LastIndex(s) == |full|
    && Contiguous(full, 1)
    && s.log[1..] == full[s.snapshotIndex..]
    && s.snapshotTerm == TermOf(full, s.snapshotIndex)
  }

  lemma TermIsHeld(s: StorageState, full: seq<Entry>, i: nat)
    requires Holds(s, full) && s.snapshotIndex <= i <= |full|
    ensures TermAt(s, i) == TermOf(full, i)
  {
    if i > s.snapshotIndex {
      assert s.log[i - s.snapshotIndex] == s.log[1..][i - s.snapshotIndex - 1] == full[s.snapshotIndex..][i - s.snapshotIndex - 1];
    }
  }

  lemma SliceIsHeld(s: StorageState, full: seq<Entry>, prev: nat, count: nat)
    requires Holds(s, full) && s.snapshotIndex <= prev <= |full|
    ensures var r := Slice(s, prev + 1, count);
            prev + |r| <= |full| && r == full[prev..prev + |r|]
  {
    var r := Slice(s, prev + 1, count);
    if r != [] {
      forall j | 0 <= j < |r| ensures r[j] == full[prev + j] {
        assert r[j] == s.log[1..][prev - s.snapshotIndex + j] == full[s.snapshotIndex..][prev - s.snapshotIndex + j];
      }
    }
  }

  lemma TruncatedHolds(s: StorageState, full: seq<Entry>, prev: nat)
    requires Holds(s, full) && s.snapshotIndex <= prev <= |full|
    ensures Holds(Truncated(s, prev + 1), full[..prev])
  {
    var t, snap := Truncated(s, prev + 1), s.snapshotIndex;
    assert t.log == s.log[..prev + 1 - snap];
    assert t.log[1..] == s.log[1..][..prev - snap];
    assert full[..prev][snap..] == full[snap..][..prev - snap];
  }

  lemma AppendedHolds(s: StorageState, full: seq<Entry>, entries: seq<Entry>)
    requires Holds(s, full) && Contiguous(entries, |full| + 1)
    ensures Holds(Appended(s, entries), full + entries)
  {
    AppendAligned(s, entries);
    assert Appended(s, entries).log[1..] == s.log[1..] + entries;
    assert (full + entries)[s.snapshotIndex..] == full[s.snapshotIndex..] + entries;
  }

  lemma StoredHolds(s: StorageState, full: seq<Entry>, args: AppendEntriesArgs)
    requires Holds(s, full) && s.snapshotIndex <= args.prevLogIndex <= |full| && args.entries != []
    requires Contiguous(args.entries, args.prevLogIndex + 1)
    ensures Holds(Stored(s, args), full[..args.prevLogIndex] + args.entries)
  {
    TruncatedHolds(s, full, args.prevLogIndex);
    AppendedHolds(Truncated(s, args.prevLogIndex + 1), full[..args.prevLogIndex], args.entries);
  }

  // ----- the system -----

  /** A node and its log from index 1 on, with the part its snapshot stands for. */
  datatype Member = Member(node: NodeState, full: seq<Entry>)

  /** A message and the sender's whole log when it was sent. */
  datatype Message =
    | Append(sender: NodeId, args: AppendEntriesArgs, source: seq<Entry>)
    | Install(sender: NodeId, snapshot: InstallSnapshotArgs, source: seq<Entry>)

  /** All nodes, all messages ever sent, who proposes in each term, and every log any node ever had. */
  datatype System = System(members: map<NodeId, Member>, sent: set<Message>, proposer: map<nat, NodeId>, logs: set<seq<Entry>>)

  datatype Action =
    | Ask(id: NodeId, vote: RequestVoteArgs)
    | Time(id: NodeId)
    | Win(id: NodeId)
    | Propose(id: NodeId, data: string)
    | SendAppend(id: NodeId, prev: nat, count: nat)
    | SendSnapshot(id: NodeId, at: nat, image: string)
    | Deliver(id: NodeId, message: Message)

  /** The message lies below the receiver's snapshot and is accepted nevertheless. */
  predicate Corrupts(n: NodeState, m: Message) {
    m.Append? && m.args.prevLogIndex < n.storage.snapshotIndex && m.args.entries != [] && PrevMatches(n.storage, m.args)
  }

  /** One proposer per term; leaders send from what they hold; messages may be lost,
      repeated and reordered, and reach any node but their sender. */
  ghost predicate Enabled(s: System, a: Action) {
    && a.id in s.members
    && var n := s.members[a.id].node;
       match a
       case Ask(_, _) => true
       case Time(_) => true
       case Win(_) => n.role == Candidate && n.Term() !in s.proposer
       case Propose(_, _) => n.role == Leader
       case SendAppend(_, prev, _) => n.role == Leader && n.storage.snapshotIndex <= prev <= LastIndex(n.storage)
       case SendSnapshot(_, at, _) => n.role == Leader && n.storage.snapshotIndex <= at <= LastIndex(n.storage)
       case Deliver(id, m) => m in s.sent && m.sender != id && !Corrupts(n, m)
  }

  function WithMember(s: System, id: NodeId, m: Member): System {
    s.(members := s.members[id := m], logs := s.logs + {m.full})
  }

  function Timed(n: NodeState, id: NodeId): NodeState {
    if Due(n) && n.role != Leader then Standing(Counted(n), id) else Counted(n)
  }

  function AppendMessage(m: Member, id: NodeId, prev: nat, count: nat): Message {
    var n := m.node;
    Append(id, AppendEntriesArgs(n.Term(), id, prev, TermAt(n.storage, prev), Slice(n.storage, prev + 1, count), n.commitIndex), m.full)
  }

  function SnapshotMessage(m: Member, id: NodeId, at: nat, image: string): Message {
    Install(id, InstallSnapshotArgs(m.node.Term(), id, at, TermAt(m.node.storage, at), image), m.full)
  }

  predicate Accepts(n: NodeState, args: AppendEntriesArgs) {
    args.term >= n.Term() && PrevMatches(n.storage, args)
  }

  /** What a delivery makes of the receiver and its whole log. */
  function Received(m: Member, msg: Message): Member {
    match msg
    case Append(_, args, _) =>
      Member(OnAppendEntries(m.node, args).node,
             if Accepts(m.node, args) && args.entries != [] && args.prevLogIndex <= |m.full|
             then m.full[..args.prevLogIndex] + args.entries else m.full)
    case Install(_, args, source) =>
      Member(OnInstallSnapshot(m.node, args).node,
             if args.term >= m.node.Term() && args.lastIncludedIndex <= |source| then source[..args.lastIncludedIndex] else m.full)
  }

  ghost function Apply(s: System, a: Action): System
    requires Enabled(s, a)
  {
    var m := s.members[a.id];
    match a
    case Ask(id, vote) => WithMember(s, id, m.(node := OnRequestVote(m.node, vote).node))
    case Time(id) => WithMember(s, id, m.(node := Timed(m.node, id)))
    case Win(id) => WithMember(s, id, m.(node := m.node.(role := Leader))).(proposer := s.proposer[m.node.Term() := id])
    case Propose(id, data) =>
      WithMember(s, id, Member(WithProposal(m.node, id, data), m.full + [LogEntry(m.node.Term(), |m.full| + 1, Normal, data)]))
    case SendAppend(id, prev, count) => s.(sent := s.sent + {AppendMessage(m, id, prev, count)})
    case SendSnapshot(id, at, image) => s.(sent := s.sent + {SnapshotMessage(m, id, at, image)})
    case Deliver(id, msg) => WithMember(s, id, Received(m, msg))
  }

  function Initial(peers: map<NodeId, seq<NodeId>>): System {
    System(map id | id in peers :: Member(Idle(peers[id]), []), {}, map[], {[]})
  }

  /** A run; actions that are not enabled do nothing. */
  ghost function Run(peers: map<NodeId, seq<NodeId>>, actions: seq<Action>): System {
    if actions == [] then Initial(peers)
    else
      var s, a := Run(peers, actions[..|actions| - 1]), actions[|actions| - 1];
      if Enabled(s, a) then Apply(s, a) else s
  }

  // ----- the invariant -----

  ghost predicate MessageFits(msg: Message) {
    match msg
    case Append(_, args, source) =>
      && args.prevLogIndex + |args.entries| <= |source|
      && args.entries == source[args.prevLogIndex..args.prevLogIndex + |args.entries|]
      && args.prevLogTerm == TermOf(source, args.prevLogIndex)
    case Install(_, args, source) =>
      args.lastIncludedIndex <= |source| && args.lastIncludedTerm == TermOf(source, args.lastIncludedIndex)
  }

  function TermSent(msg: Message): nat {
    match msg
    case Append(_, args, _) => args.term
    case Install(_, args, _) => args.term
  }

  ghost predicate SentRightly(s: System, msg: Message) {
    && MessageFits(msg) && msg.source in s.logs
    && TermSent(msg) in s.proposer && s.proposer[TermSent(msg)] == msg.sender
  }

  /** Same index and term, same log up to there. */
  ghost predicate Match(a: seq<Entry>, b: seq<Entry>) {
    forall i: nat :: 0 < i <= |a| && i <= |b| && TermOf(a, i) == TermOf(b, i) ==> a[..i] == b[..i]
  }

  /** Every entry of the term is in the log, at its place. */
  ghost predicate Leads(full: seq<Entry>, term: nat, l: seq<Entry>) {
    forall i: nat :: 0 < i <= |l| && TermOf(l, i) == term ==> i <= |full| && l[..i] == full[..i]
  }

  ghost predicate TermsProposed(l: seq<Entry>, proposer: map<nat, NodeId>) {
    forall i: nat :: 0 < i <= |l| ==> TermOf(l, i) in proposer
  }

  ghost predicate MemberOk(s: System, id: NodeId, m: Member) {
    && Holds(m.node.storage, m.full) && m.full in s.logs
    && (m.node.role == Leader ==>
          && m.node.Term() in s.proposer && s.proposer[m.node.Term()] == id
          && forall l :: l in s.logs ==> Leads(m.full, m.node.Term(), l))
  }

  ghost predicate LogsOk(s: System) {
    && (forall a, b :: a in s.logs && b in s.logs ==> Match(a, b))
    && (forall l :: l in s.logs ==> Contiguous(l, 1) && TermsProposed(l, s.proposer))
  }

  ghost predicate Inv(s: System) {
    && LogsOk(s)
    && (forall id :: id in s.members ==> MemberOk(s, id, s.members[id]))
    && (forall msg :: msg in s.sent ==> SentRightly(s, msg))
  }

  // ----- logs that are prefixes of known ones -----

  lemma PrefixMatches(l: seq<Entry>, k: nat, other: seq<Entry>)
    requires k <= |l| && Match(l, other)
    ensures Match(l[..k], other) && Match(other, l[..k])
  {
    forall i: nat | 0 < i <= k && i <= |other| && TermOf(l[..k], i) == TermOf(other, i) ensures l[..k][..i] == other[..i] {
      assert TermOf(l, i) == TermOf(other, i);
      assert l[..k][..i] == l[..i];
    }
  }

  lemma PrefixIsLed(full: seq<Entry>, term: nat, l: seq<Entry>, k: nat)
    requires k <= |l| && Leads(full, term, l)
    ensures Leads(full, term, l[..k])
  {
    forall i: nat | 0 < i <= k && TermOf(l[..k], i) == term ensures i <= |full| && l[..k][..i] == full[..i] {
      assert TermOf(l, i) == term;
      assert l[..k][..i] == l[..i];
    }
  }

  lemma AddPrefix(s: System, l: seq<Entry>, k: nat)
    requires LogsOk(s) && l in s.logs && k <= |l|
    ensures LogsOk(s.(logs := s.logs + {l[..k]}))
  {
    var p := l[..k];
    PrefixMatches(l, k, l);
    PrefixMatches(l, k, p);
    forall a | a in s.logs ensures Match(p, a) && Match(a, p) {
      PrefixMatches(l, k, a);
    }
    forall i: nat | 0 < i <= k ensures TermOf(p, i) in s.proposer {
      assert TermOf(p, i) == TermOf(l, i);
    }
  }

  /** A node that is not leader takes a prefix of a known log. */
  lemma MemberTakes(s: System, id: NodeId, n: NodeState, l: seq<Entry>, k: nat)
    requires Inv(s) && id in s.members && n.role != Leader
    requires l in s.logs && k <= |l| && Holds(n.storage, l[..k])
    ensures Inv(WithMember(s, id, Member(n, l[..k])))
  {
    var t := WithMember(s, id, Member(n, l[..k]));
    AddPrefix(s, l, k);
    forall i | i in t.members ensures MemberOk(t, i, t.members[i]) {
      if i != id {
        assert MemberOk(s, i, s.members[i]);
        if t.members[i].node.role == Leader {
          PrefixIsLed(t.members[i].full, t.members[i].node.Term(), l, k);
        }
      }
    }
    forall msg | msg in t.sent ensures SentRightly(t, msg) {
      assert SentRightly(s, msg);
    }
  }

  predicate SameLog(s: StorageState, t: StorageState) {
    s.log == t.log && s.snapshotIndex == t.snapshotIndex && s.snapshotTerm == t.snapshotTerm
  }

  /** A node changes in anything but its log, without becoming leader or changing its term as one. */
  lemma MemberChanges(s: System, id: NodeId, n: NodeState)
    requires Inv(s) && id in s.members && SameLog(n.storage, s.members[id].node.storage)
    requires n.role == Leader ==> s.members[id].node.role == Leader && n.Term() == s.members[id].node.Term()
    ensures Inv(WithMember(s, id, Member(n, s.members[id].full)))
  {
    var t := WithMember(s, id, Member(n, s.members[id].full));
    assert MemberOk(s, id, s.members[id]);
    assert t.logs == s.logs;
    forall i | i in t.members ensures MemberOk(t, i, t.members[i]) {
      if i != id {
        assert MemberOk(s, i, s.members[i]);
      }
    }
    forall msg | msg in t.sent ensures SentRightly(t, msg) {
      assert SentRightly(s, msg);
    }
  }

  // ----- every action keeps the invariant -----

  /** A term without a proposer has no entries anywhere, so its first leader leads all logs. */
  lemma WinKeeps(s: System, id: NodeId)
    requires Inv(s) && Enabled(s, Win(id))
    ensures Inv(Apply(s, Win(id)))
  {
    var t := Apply(s, Win(id));
    var m := s.members[id];
    assert MemberOk(s, id, m);
    assert t.logs == s.logs;
    forall l | l in t.logs ensures Contiguous(l, 1) && TermsProposed(l, t.proposer) && Leads(m.full, m.node.Term(), l) {
      assert TermsProposed(l, s.proposer);
    }
    forall i | i in t.members ensures MemberOk(t, i, t.members[i]) {
      assert MemberOk(s, i, s.members[i]);
    }
    forall msg | msg in t.sent ensures SentRightly(t, msg) {
      assert SentRightly(s, msg);
    }
  }

  lemma NewEntryMatches(full: seq<Entry>, e: Entry, other: seq<Entry>)
    requires Match(full, other) && Leads(full, e.term, other)
    ensures Match(full + [e], other) && Match(other, full + [e])
  {
    var l := full + [e];
    forall i: nat | 0 < i <= |l| && i <= |other| && TermOf(l, i) == TermOf(other, i) ensures l[..i] == other[..i] {
      if i <= |full| {
        assert TermOf(full, i) == TermOf(l, i);
        assert l[..i] == full[..i];
      }
    }
  }

  lemma NewEntryLeads(full: seq<Entry>, e: Entry, term: nat, other: seq<Entry>)
    requires Leads(full, term, other)
    ensures Leads(full + [e], term, other)
  {
    forall i: nat | 0 < i <= |other| && TermOf(other, i) == term ensures other[..i] == (full + [e])[..i] {
      assert (full + [e])[..i] == full[..i];
    }
  }

  lemma NewEntryIsLed(full: seq<Entry>, e: Entry, leader: seq<Entry>, term: nat)
    requires Leads(leader, term, full) && e.term != term
    ensures Leads(leader, term, full + [e])
  {
    forall i: nat | 0 < i <= |full| + 1 && TermOf(full + [e], i) == term
      ensures i <= |leader| && (full + [e])[..i] == leader[..i]
    {
      assert TermOf(full, i) == term;
      assert (full + [e])[..i] == full[..i];
    }
  }

  lemma ProposedLogsOk(s: System, full: seq<Entry>, e: Entry)
    requires LogsOk(s) && full in s.logs && e.index == |full| + 1 && e.term in s.proposer
    requires forall l :: l in s.logs ==> Leads(full, e.term, l)
    ensures LogsOk(s.(logs := s.logs + {full + [e]}))
  {
    forall l | l in s.logs ensures Match(full + [e], l) && Match(l, full + [e]) {
      NewEntryMatches(full, e, l);
    }
    forall i: nat | 0 < i <= |full| + 1 ensures TermOf(full + [e], i) in s.proposer {
      if i <= |full| {
        assert TermOf(full + [e], i) == TermOf(full, i);
      }
    }
  }

  /** What the new entry means for the leader itself ... */
  lemma ProposerOk(s: System, t: System, id: NodeId, n: NodeState, full: seq<Entry>, e: Entry)
    requires full in s.logs && Holds(n.storage, full) && e.term == n.Term() && e.index == |full| + 1
    requires e.term in s.proposer && s.proposer[e.term] == id && forall l :: l in s.logs ==> Leads(full, e.term, l)
    requires t.logs == s.logs + {full + [e]} && t.proposer == s.proposer
    ensures MemberOk(t, id, Member(n.(storage := Appended(n.storage, [e])), full + [e]))
  {
    AppendedHolds(n.storage, full, [e]);
    forall l | l in t.logs ensures Leads(full + [e], e.term, l) {
      if l in s.logs {
        NewEntryLeads(full, e, e.term, l);
      }
    }
  }

  /** ... and for every other node. */
  lemma BystanderOk(s: System, t: System, id: NodeId, m: Member, full: seq<Entry>, e: Entry)
    requires MemberOk(s, id, m) && full in s.logs && e.term in s.proposer && s.proposer[e.term] != id
    requires t.logs == s.logs + {full + [e]} && t.proposer == s.proposer
    ensures MemberOk(t, id, m)
  {
    if m.node.role == Leader {
      NewEntryIsLed(full, e, m.full, m.node.Term());
    }
  }

  /** The proposer's log holds every entry of its term, so a new one cannot clash. */
  lemma ProposeKeeps(s: System, id: NodeId, data: string)
    requires Inv(s) && Enabled(s, Propose(id, data))
    ensures Inv(Apply(s, Propose(id, data)))
  {
    var t := Apply(s, Propose(id, data));
    var m := s.members[id];
    var e := LogEntry(m.node.Term(), |m.full| + 1, Normal, data);
    assert MemberOk(s, id, m);
    ProposedLogsOk(s, m.full, e);
    ProposerOk(s, t, id, m.node, m.full, e);
    forall i | i in t.members ensures MemberOk(t, i, t.members[i]) {
      if i != id {
        assert MemberOk(s, i, s.members[i]);
        BystanderOk(s, t, i, s.members[i], m.full, e);
      }
    }
    forall msg | msg in t.sent ensures SentRightly(t, msg) {
      assert SentRightly(s, msg);
    }
  }

  lemma SendKeeps(s: System, msg: Message)
    requires Inv(s) && SentRightly(s, msg)
    ensures Inv(s.(sent := s.sent + {msg}))
  {
    var t := s.(sent := s.sent + {msg});
    forall i | i in t.members ensures MemberOk(t, i, t.members[i]) {
      assert MemberOk(s, i, s.members[i]);
    }
    forall m | m in t.sent ensures SentRightly(t, m) {
      assert SentRightly(s, m);
    }
  }

  lemma SendAppendKeeps(s: System, id: NodeId, prev: nat, count: nat)
    requires Inv(s) && Enabled(s, SendAppend(id, prev, count))
    ensures Inv(Apply(s, SendAppend(id, prev, count)))
  {
    var m := s.members[id];
    assert MemberOk(s, id, m);
    TermIsHeld(m.node.storage, m.full, prev);
    SliceIsHeld(m.node.storage, m.full, prev, count);
    SendKeeps(s, AppendMessage(m, id, prev, count));
  }

  lemma SendSnapshotKeeps(s: System, id: NodeId, at: nat, image: string)
    requires Inv(s) && Enabled(s, SendSnapshot(id, at, image))
    ensures Inv(Apply(s, SendSnapshot(id, at, image)))
  {
    var m := s.members[id];
    assert MemberOk(s, id, m);
    TermIsHeld(m.node.storage, m.full, at);
    SendKeeps(s, SnapshotMessage(m, id, at, image));
  }

  /** The receiver of a message of its own or a later term is not leader afterwards. */
  lemma ReceiverNotLeader(s: System, id: NodeId, msg: Message)
    requires Inv(s) && Enabled(s, Deliver(id, msg)) && TermSent(msg) >= s.members[id].node.Term()
    ensures Received(s.members[id], msg).node.role != Leader
  {
    assert MemberOk(s, id, s.members[id]) && SentRightly(s, msg);
  }

  /** The sender's log up to the previous entry is the receiver's, so the receiver ends up with a prefix of it. */
  lemma AcceptedIsPrefix(s: System, id: NodeId, msg: Message)
    requires Inv(s) && Enabled(s, Deliver(id, msg)) && msg.Append?
    requires Accepts(s.members[id].node, msg.args) && msg.args.entries != []
    ensures var m, k := s.members[id], msg.args.prevLogIndex + |msg.args.entries|;
            && m.node.storage.snapshotIndex <= msg.args.prevLogIndex <= |m.full| && k <= |msg.source|
            && m.full[..msg.args.prevLogIndex] + msg.args.entries == msg.source[..k]
            && Contiguous(msg.args.entries, msg.args.prevLogIndex + 1)
  {
    var m, prev, n := s.members[id], msg.args.prevLogIndex, |msg.args.entries|;
    assert MemberOk(s, id, m) && SentRightly(s, msg);
    TermIsHeld(m.node.storage, m.full, prev);
    assert Match(m.full, msg.source);
    assert m.full[..prev] == msg.source[..prev];
    assert msg.source[..prev] + msg.source[prev..prev + n] == msg.source[..prev + n];
    assert Contiguous(msg.source, 1);
  }

  lemma AcceptKeeps(s: System, id: NodeId, msg: Message)
    requires Inv(s) && Enabled(s, Deliver(id, msg)) && msg.Append?
    requires Accepts(s.members[id].node, msg.args) && msg.args.entries != []
    ensures Inv(Apply(s, Deliver(id, msg)))
  {
    var m, args := s.members[id], msg.args;
    ReceiverNotLeader(s, id, msg);
    AcceptedIsPrefix(s, id, msg);
    AcceptedHolds(m.node, m.full, args) by {
      assert MemberOk(s, id, m);
    }
    var n, k := OnAppendEntries(m.node, args).node, args.prevLogIndex + |args.entries|;
    assert msg.source in s.logs by {
      assert SentRightly(s, msg);
    }
    MemberTakes(s, id, n, msg.source, k);
    assert Received(m, msg) == Member(n, msg.source[..k]);
    assert Apply(s, Deliver(id, msg)) == WithMember(s, id, Member(n, msg.source[..k]));
  }

  lemma AcceptedHolds(n: NodeState, full: seq<Entry>, args: AppendEntriesArgs)
    requires Holds(n.storage, full) && Accepts(n, args) && args.entries != []
    requires n.storage.snapshotIndex <= args.prevLogIndex <= |full| && Contiguous(args.entries, args.prevLogIndex + 1)
    ensures Holds(OnAppendEntries(n, args).node.storage, full[..args.prevLogIndex] + args.entries)
  {
    StoredHolds(n.storage, full, args);
    TermDoesNotMatter(Listening(n, args).storage, n.storage, args);
  }

  lemma RefusedKeepsLog(n: NodeState, args: AppendEntriesArgs)
    requires !Accepts(n, args) || args.entries == []
    ensures SameLog(OnAppendEntries(n, args).node.storage, n.storage)
  {
  }

  lemma DeliverAppendKeeps(s: System, id: NodeId, msg: Message)
    requires Inv(s) && Enabled(s, Deliver(id, msg)) && msg.Append?
    ensures Inv(Apply(s, Deliver(id, msg)))
  {
    var m, args := s.members[id], msg.args;
    if Accepts(m.node, args) && args.entries != [] {
      AcceptKeeps(s, id, msg);
    } else {
      if args.term >= m.node.Term() {
        ReceiverNotLeader(s, id, msg);
      }
      RefusedKeepsLog(m.node, args);
      MemberChanges(s, id, Received(m, msg).node);
    }
  }

  /** Only the log decides what is stored. */
  lemma TermDoesNotMatter(s: StorageState, t: StorageState, args: AppendEntriesArgs)
    requires SameLog(s, t)
    ensures SameLog(Stored(s, args), Stored(t, args)) && (PrevMatches(s, args) <==> PrevMatches(t, args))
  {
  }

  lemma SnapshotHolds(s: StorageState, at: nat, term: nat, image: string, l: seq<Entry>)
    requires at <= |l| && term == TermOf(l, at) && Contiguous(l, 1)
    ensures Holds(Snapshotted(s, at, term, image), l[..at])
  {
  }

  lemma DeliverSnapshotKeeps(s: System, id: NodeId, msg: Message)
    requires Inv(s) && Enabled(s, Deliver(id, msg)) && msg.Install?
    ensures Inv(Apply(s, Deliver(id, msg)))
  {
    var m, args := s.members[id], msg.snapshot;
    assert MemberOk(s, id, m) && SentRightly(s, msg);
    if args.term >= m.node.Term() {
      ReceiverNotLeader(s, id, msg);
      var n := if args.term > m.node.Term() then SteppedDown(m.node, args.term) else m.node;
      SnapshotHolds(n.storage, args.lastIncludedIndex, args.lastIncludedTerm, args.data, msg.source);
      MemberTakes(s, id, Received(m, msg).node, msg.source, args.lastIncludedIndex);
    } else {
      MemberChanges(s, id, m.node);
    }
  }

  lemma AskKeeps(s: System, id: NodeId, vote: RequestVoteArgs)
    requires Inv(s) && id in s.members
    ensures Inv(Apply(s, Ask(id, vote)))
  {
    MemberChanges(s, id, OnRequestVote(s.members[id].node, vote).node);
  }

  lemma TimeKeeps(s: System, id: NodeId)
    requires Inv(s) && id in s.members
    ensures Inv(Apply(s, Time(id)))
  {
    MemberChanges(s, id, Timed(s.members[id].node, id));
  }

  lemma ActionKeepsInv(s: System, a: Action)
    requires Inv(s) && Enabled(s, a)
    ensures Inv(Apply(s, a))
  {
    match a
    case Ask(id, vote) => AskKeeps(s, id, vote);
    case Time(id) => TimeKeeps(s, id);
    case Win(id) => WinKeeps(s, id);
    case Propose(id, data) => ProposeKeeps(s, id, data);
    case SendAppend(id, prev, count) => SendAppendKeeps(s, id, prev, count);
    case SendSnapshot(id, at, image) => SendSnapshotKeeps(s, id, at, image);
    case Deliver(id, msg) =>
      if msg.Append? {
        DeliverAppendKeeps(s, id, msg);
      } else {
        DeliverSnapshotKeeps(s, id, msg);
      }
  }

  lemma {:induction false} RunKeepsInv(peers: map<NodeId, seq<NodeId>>, actions: seq<Action>)
    ensures Inv(Run(peers, actions))
  {
    if actions != [] {
      RunKeepsInv(peers, actions[..|actions| - 1]);
      var s, a := Run(peers, actions[..|actions| - 1]), actions[|actions| - 1];
      if Enabled(s, a) {
        ActionKeepsInv(s, a);
      }
    }
  }

  lemma EntryIsHeld(s: StorageState, full: seq<Entry>, i: nat)
    requires Holds(s, full)
    ensures i in Entries(s) <==> s.snapshotIndex < i <= |full|
    ensures i in Entries(s) ==> Entries(s)[i] == full[i - 1]
  {
    if s.snapshotIndex < i <= |full| {
      assert Entries(s)[i] == s.log[1..][i - s.snapshotIndex - 1] == full[s.snapshotIndex..][i - s.snapshotIndex - 1];
    }
  }

  lemma StoredLogsMatch(x: StorageState, xFull: seq<Entry>, y: StorageState, yFull: seq<Entry>, i: nat, j: nat)
    requires Holds(x, xFull) && Holds(y, yFull) && Match(xFull, yFull) && j <= i
    requires i in Entries(x) && i in Entries(y) && Entries(x)[i].term == Entries(y)[i].term
    ensures j in Entries(x) && j in Entries(y) ==> Entries(x)[j] == Entries(y)[j]
    ensures j == x.snapshotIndex && j in Entries(y) ==> x.snapshotTerm == Entries(y)[j].term
  {
    EntryIsHeld(x, xFull, i);
    EntryIsHeld(y, yFull, i);
    assert TermOf(xFull, i) == TermOf(yFull, i);
    assert xFull[..i] == yFull[..i];
    EntryIsHeld(x, xFull, j);
    EntryIsHeld(y, yFull, j);
    if 0 < j {
      assert xFull[j - 1] == xFull[..i][j - 1] == yFull[..i][j - 1] == yFull[j - 1];
    }
  }

  /** Log Matching: when two stored logs have an entry of the same index and term, they
      agree on every entry before it that both hold, and with each other's snapshots. */
  lemma LogMatching(peers: map<NodeId, seq<NodeId>>, actions: seq<Action>, a: NodeId, b: NodeId, i: nat, j: nat)
    requires a in Run(peers, actions).members && b in Run(peers, actions).members && j <= i
    requires var x, y := StorageOf(peers, actions, a), StorageOf(peers, actions, b);
             i in Entries(x) && i in Entries(y) && Entries(x)[i].term == Entries(y)[i].term
    ensures var x, y := StorageOf(peers, actions, a), StorageOf(peers, actions, b);
            && (j in Entries(x) && j in Entries(y) ==> Entries(x)[j] == Entries(y)[j])
            && (j == x.snapshotIndex && j in Entries(y) ==> x.snapshotTerm == Entries(y)[j].term)
  {
    RunKeepsInv(peers, actions);
    var s := Run(peers, actions);
    var m, n := s.members[a], s.members[b];
    assert MemberOk(s, a, m) && MemberOk(s, b, n);
    StoredLogsMatch(m.node.storage, m.full, n.node.storage, n.full, i, j);
  }

  ghost function StorageOf(peers: map<NodeId, seq<NodeId>>, actions: seq<Action>, id: NodeId): StorageState
    requires id in Run(peers, actions).members
  {
    Run(peers, actions).members[id].node.storage
  }
}
