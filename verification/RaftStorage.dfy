/** The in-memory Raft log: a vector that starts at the snapshot, offset by its index. */
module RaftStorage {
  import opened Options

  type NodeId = nat

  datatype EntryType = Normal | ConfChange | JointConfChange | SnapshotEntry

  datatype LogEntry = LogEntry(term: nat, index: nat, kind: EntryType, data: string)

  /** The log vector; its first entry stands for the snapshot. */
  type Log = l: seq<LogEntry> | l != [] witness [Dummy(0, 0)]

  datatype StorageState = StorageState(currentTerm: nat, votedFor: Option<NodeId>, log: Log,
                                       snapshotIndex: nat, snapshotTerm: nat, snapshotData: string)

  function Dummy(index: nat, term: nat): LogEntry {
    LogEntry(term, index, Normal, "")
  }

  const Empty := StorageState(0, None, [Dummy(0, 0)], 0, 0, "")

  function LastIndex(s: StorageState): nat
  {
    s.log[|s.log| - 1].index
  }

  function LastTerm(s: StorageState): nat
  {
    s.log[|s.log| - 1].term
  }

  function TermAt(s: StorageState, i: nat): nat
  {
    if i == s.snapshotIndex then s.snapshotTerm
    else if i < s.snapshotIndex || i > LastIndex(s) then 0
    else if i - s.snapshotIndex < |s.log| then s.log[i - s.snapshotIndex].term
    else 0
  }

  function Appended(s: StorageState, entries: seq<LogEntry>): StorageState {
    s.(log := s.log + entries)
  }

  function Truncated(s: StorageState, from: nat): StorageState {
    if from <= s.snapshotIndex || from - s.snapshotIndex >= |s.log| then s
    else s.(log := s.log[..from - s.snapshotIndex])
  }

  function Slice(s: StorageState, start: nat, max: nat): seq<LogEntry> {
    if start <= s.snapshotIndex || start - s.snapshotIndex >= |s.log| then []
    else
      var rest := s.log[start - s.snapshotIndex..];
      if |rest| <= max then rest else rest[..max]
  }

  function Snapshotted(s: StorageState, index: nat, term: nat, data: string): StorageState {
    s.(snapshotIndex := index, snapshotTerm := term, snapshotData := data, log := [Dummy(index, term)])
  }

  // ----- the log as a map from index to entry -----

  /** Every entry sits at its own index, counted from the snapshot. */
  predicate Aligned(s: StorageState) {
    && s.log[0].term == s.snapshotTerm
    && forall k :: 0 <= k < |s.log| ==> s.log[k].index == s.snapshotIndex + k
  }

  function Numbered(entries: seq<LogEntry>, first: nat, i: nat): LogEntry
    requires first <= i < first + |entries|
  {
    entries[i - first]
  }

  /** Entries by index, the first of them at `first`. */
  function Placed(entries: seq<LogEntry>, first: nat): map<nat, LogEntry> {
    map i | first <= i < first + |entries| :: Numbered(entries, first, i)
  }

  /** What the log holds above its snapshot. */
  function Entries(s: StorageState): map<nat, LogEntry>
  {
    Placed(s.log[1..], s.snapshotIndex + 1)
  }

  predicate Contiguous(entries: seq<LogEntry>, first: nat) {
    forall k :: 0 <= k < |entries| ==> entries[k].index == first + k
  }

  /** The last index and every term agree with the map. */
  lemma LogIsMap(s: StorageState, i: nat)
    requires Aligned(s)
    ensures LastIndex(s) == s.snapshotIndex + |s.log| - 1
    ensures i in Entries(s) <==> s.snapshotIndex < i <= LastIndex(s)
    ensures i in Entries(s) ==> Entries(s)[i].index == i && TermAt(s, i) == Entries(s)[i].term
    ensures i !in Entries(s) ==> TermAt(s, i) == if i == s.snapshotIndex then s.snapshotTerm else 0
    ensures LastTerm(s) == TermAt(s, LastIndex(s))
  {
  }

  /** Appending is right if and only if the entries go on from the last index ... */
  lemma AppendAligned(s: StorageState, entries: seq<LogEntry>)
    requires Aligned(s)
    ensures Aligned(Appended(s, entries)) <==> Contiguous(entries, LastIndex(s) + 1)
  {
    var t := Appended(s, entries);
    forall k | 0 <= k < |entries| ensures t.log[|s.log| + k] == entries[k] {
    }
    if Aligned(t) {
      forall k | 0 <= k < |entries| ensures entries[k].index == LastIndex(s) + 1 + k {
        assert t.log[|s.log| + k].index == s.snapshotIndex + |s.log| + k;
      }
    }
  }

  /** ... and it adds exactly them. */
  lemma AppendExtendsMap(s: StorageState, entries: seq<LogEntry>)
    requires Aligned(s) && Contiguous(entries, LastIndex(s) + 1)
    ensures Entries(Appended(s, entries)) == Entries(s) + Placed(entries, LastIndex(s) + 1)
  {
    var t := Appended(s, entries);
    assert t.log[1..] == s.log[1..] + entries;
  }

  /** Truncating removes the entries from `from` on, but never the snapshot. */
  lemma TruncateCutsMap(s: StorageState, from: nat)
    requires Aligned(s)
    ensures Aligned(Truncated(s, from))
    ensures Entries(Truncated(s, from)) == map i | i in Entries(s) && (i < from || from <= s.snapshotIndex) :: Entries(s)[i]
  {
  }

  /** A slice is the run of entries from `start` on, cut to the size asked for. */
  lemma SliceReadsMap(s: StorageState, start: nat, max: nat)
    requires Aligned(s)
    ensures var r := Slice(s, start, max);
            && (start <= s.snapshotIndex ==> r == [])
            && (start > s.snapshotIndex ==>
                  && (forall j :: 0 <= j < |r| ==> start + j in Entries(s) && r[j] == Entries(s)[start + j])
                  && |r| <= max && (|r| < max ==> start + |r| !in Entries(s)))
  {
    LogIsMap(s, start);
  }

  // ----- the object -----

  class MemoryStorage {
    var currentTerm: nat
    var votedFor: Option<NodeId>
    var log: Log
    var snapshotIndex: nat
    var snapshotTerm: nat
    var snapshotData: string

    ghost function View(): StorageState
      reads this
    {
      StorageState(currentTerm, votedFor, log, snapshotIndex, snapshotTerm, snapshotData)
    }

    constructor ()
      ensures View() == Empty
    {
      currentTerm, votedFor, log := 0, None, [Dummy(0, 0)];
      snapshotIndex, snapshotTerm, snapshotData := 0, 0, "";
    }

    method SaveHardState(term: nat, vote: Option<NodeId>)
      modifies this
      ensures View() == old(View()).(currentTerm := term, votedFor := vote)
    {
      currentTerm := term;
      votedFor := vote;
    }

    method GetTerm(index: nat) returns (term: nat)
      ensures term == TermAt(View(), index)
    {
      if index == snapshotIndex {
        return snapshotTerm;
      }
      if index < snapshotIndex || index > log[|log| - 1].index {
        return 0;
      }
      var offset := index - snapshotIndex;
      if offset < |log| {
        return log[offset].term;
      }
      return 0;
    }

    method Append(entries: seq<LogEntry>)
      modifies this
      ensures View() == Appended(old(View()), entries)
    {
      for i := 0 to |entries|
        invariant View() == Appended(old(View()), entries[..i])
      {
        assert entries[..i + 1] == entries[..i] + [entries[i]];
        log := log + [entries[i]];
      }
      assert entries[..|entries|] == entries;
    }

    method Truncate(from: nat)
      modifies this
      ensures View() == Truncated(old(View()), from)
    {
      if from <= snapshotIndex {
        return;
      }
      var offset := from - snapshotIndex;
      if offset < |log| {
        log := log[..offset];
      }
    }

    method GetEntries(start: nat, max: nat) returns (result: seq<LogEntry>)
      ensures result == Slice(View(), start, max)
    {
      result := [];
      if start <= snapshotIndex {
        return;
      }
      var offset := start - snapshotIndex;
      var i := offset;
      while i < |log| && |result| < max
        invariant offset <= i && (i <= |log| || i == offset)
        invariant |result| <= max && |result| == i - offset
        invariant offset <= |log| ==> result == log[offset..i]
      {
        result := result + [log[i]];
        i := i + 1;
      }
    }

    method ApplySnapshot(index: nat, term: nat, data: string)
      modifies this
      ensures View() == Snapshotted(old(View()), index, term, data)
    {
      snapshotIndex := index;
      snapshotTerm := term;
      snapshotData := data;
      log := [Dummy(index, term)];
    }
  }
}
