/** What readers get, in terms of the writes alone, and exactly what a vacuum removes. */
module MvccSnapshots {
  import opened Options
  import opened MvccChains

  // ----- one write -----

  /** Whether a transaction's writes show to a reader: its own always, those of others once they were stamped with a
      commit timestamp, from that timestamp on. */
  predicate Shows(w: Txn, t: Txn) {
    w.id == t.id || 0 < w.commitTs <= t.readTs
  }

  /** A write made without a commit timestamp changes no other transaction's lookup, of that key or any other. */
  lemma UncommittedIsUnseen(m: Chains, key: int, w: Txn, value: Option<string>, t: Txn, k: int)
    requires w.commitTs == 0 && w.id != t.id && t.readTs < 0xFFFF_FFFF_FFFF_FFFF
    ensures Lookup(WrittenAt(m, key, w, value), k, t) == Lookup(m, k, t)
  {
    WriteIsSeen(ChainOf(m, key), w, value, t);
  }

  /** And changes no other transaction's scan. */
  lemma UncommittedIsNotScanned(m: Chains, key: int, w: Txn, value: Option<string>, t: Txn, first: int, last: int,
                                r: seq<(int, string)>, s: seq<(int, string)>)
    requires w.commitTs == 0 && w.id != t.id && t.readTs < 0xFFFF_FFFF_FFFF_FFFF
    requires IsScan(r, WrittenAt(m, key, w, value), t, first, last) && IsScan(s, m, t, first, last)
    ensures r == s
  {
    forall k ensures Lookup(WrittenAt(m, key, w, value), k, t) == Lookup(m, k, t) {
      UncommittedIsUnseen(m, key, w, value, t, k);
    }
    SameScan(r, s, WrittenAt(m, key, w, value), m, t, first, last);
  }

  /** A write decides what a reader finds at its key if it shows to the reader, and otherwise changes nothing.
      No transaction begins at the largest timestamp. */
  lemma WriteDecidesIffShown(m: Chains, key: int, w: Txn, value: Option<string>, t: Txn)
    requires t.readTs < 0xFFFF_FFFF_FFFF_FFFF
    ensures Lookup(WrittenAt(m, key, w, value), key, t) == if Shows(w, t) then value else Lookup(m, key, t)
  {
    WriteIsSeen(ChainOf(m, key), w, value, t);
  }

  /** A transaction finds another one's write, which no earlier lookup could have given, if and only if the write was
      stamped with a commit timestamp that it reads at or after. */
  lemma SeenIffCommitted(m: Chains, key: int, w: Txn, value: string, t: Txn)
    requires w.id != t.id && t.readTs < 0xFFFF_FFFF_FFFF_FFFF && Lookup(m, key, t) != Some(value)
    ensures Lookup(WrittenAt(m, key, w, Some(value)), key, t) == Some(value) <==> w.commitTs != 0 && w.commitTs <= t.readTs
  {
    WriteDecidesIffShown(m, key, w, Some(value), t);
  }

  // ----- whole runs -----

  /** The value of the last write at a key that shows to the reader; nothing if that is a deletion or there is none. */
  function LastShown(events: seq<Event>, key: int, t: Txn): Option<string> {
    if events == [] then None
    else
      var e := events[|events| - 1];
      if e.Write? && e.key == key && Shows(e.txn, t) then e.value else LastShown(events[..|events| - 1], key, t)
  }

  /** In any run of writes and vacuums a reader at the horizon or just below finds the last write that shows to it. */
  lemma {:induction false} ReadsLastShown(horizon: nat, events: seq<Event>, key: int, t: Txn)
    requires horizon <= t.readTs + 1 && t.readTs < 0xFFFF_FFFF_FFFF_FFFF
    ensures Lookup(Run(horizon, events), key, t) == LastShown(events, key, t)
  {
    if events != [] {
      var n := |events| - 1;
      var before := Run(horizon, events[..n]);
      ReadsLastShown(horizon, events[..n], key, t);
      match events[n]
      case Write(w, k, value) =>
        if k == key {
          WriteDecidesIffShown(before, key, w, value, t);
        }
      case Vacuum =>
        VacuumKeepsVisible(ChainOf(before, key), horizon, t);
    }
  }

  /** The events without the writes that other transactions made before they were stamped. */
  function WithoutUncommitted(events: seq<Event>, t: Txn): seq<Event> {
    if events == [] then []
    else
      var before, e := WithoutUncommitted(events[..|events| - 1], t), events[|events| - 1];
      if e.Write? && e.txn.commitTs == 0 && e.txn.id != t.id then before else before + [e]
  }

  lemma {:induction false} SameLastShown(events: seq<Event>, key: int, t: Txn)
    ensures LastShown(WithoutUncommitted(events, t), key, t) == LastShown(events, key, t)
  {
    if events != [] {
      var n := |events| - 1;
      SameLastShown(events[..n], key, t);
      var before := WithoutUncommitted(events[..n], t);
      assert (before + [events[n]])[..|before|] == before;
    }
  }

  /** Other transactions' unstamped writes leave no trace in what a reader finds, whatever the vacuums in between. */
  lemma UncommittedLeavesNoTrace(horizon: nat, events: seq<Event>, key: int, t: Txn)
    requires horizon <= t.readTs + 1 && t.readTs < 0xFFFF_FFFF_FFFF_FFFF
    ensures Lookup(Run(horizon, events), key, t) == Lookup(Run(horizon, WithoutUncommitted(events, t)), key, t)
  {
    ReadsLastShown(horizon, events, key, t);
    ReadsLastShown(horizon, WithoutUncommitted(events, t), key, t);
    SameLastShown(events, key, t);
  }

  /** Nor in its scans. */
  lemma UncommittedLeavesScans(horizon: nat, events: seq<Event>, t: Txn, first: int, last: int,
                               r: seq<(int, string)>, s: seq<(int, string)>)
    requires horizon <= t.readTs + 1 && t.readTs < 0xFFFF_FFFF_FFFF_FFFF
    requires IsScan(r, Run(horizon, events), t, first, last) && IsScan(s, Run(horizon, WithoutUncommitted(events, t)), t, first, last)
    ensures r == s
  {
    forall k ensures Lookup(Run(horizon, events), k, t) == Lookup(Run(horizon, WithoutUncommitted(events, t)), k, t) {
      UncommittedLeavesNoTrace(horizon, events, k, t);
    }
    SameScan(r, s, Run(horizon, events), Run(horizon, WithoutUncommitted(events, t)), t, first, last);
  }

  // ----- what a vacuum removes -----

  /** The version at `j` is below the horizon and has an older one behind it. */
  predicate Superseding(c: Chain, horizon: nat, j: nat)
    requires j < |c|
  {
    c[j].commitTs < horizon && j + 1 < |c|
  }

  /** The version at `i` comes after a superseding one, or is a superseding deletion itself. */
  predicate RemovedBy(c: Chain, horizon: nat, i: nat, j: nat)
    requires i < |c|
  {
    j <= i && Superseding(c, horizon, j) && (j < i || c[i].isDeleted)
  }

  lemma RemovedByOlder(c: Chain, d: Chain, horizon: nat, i: nat, k: nat)
    requires i < |c| && i == k + 1 && d == c[1..] && c[0].commitTs >= horizon
    ensures (exists j: nat :: RemovedBy(c, horizon, i, j)) <==> (exists j: nat :: RemovedBy(d, horizon, k, j))
  {
    if exists j: nat :: RemovedBy(d, horizon, k, j) {
      var j: nat :| RemovedBy(d, horizon, k, j);
      assert RemovedBy(c, horizon, i, j + 1);
    }
    if exists j: nat :: RemovedBy(c, horizon, i, j) {
      var j: nat :| RemovedBy(c, horizon, i, j);
      assert RemovedBy(d, horizon, k, j - 1);
    }
  }

  /** A vacuum leaves a prefix, and a version is not in it if and only if it comes after a superseding one, or is a
      superseding deletion. */
  lemma {:induction false} VacuumRemovesExactly(c: Chain, horizon: nat, i: nat)
    requires i < |c|
    ensures Vacuumed(c, horizon) <= c
    ensures i >= |Vacuumed(c, horizon)| <==> exists j: nat :: RemovedBy(c, horizon, i, j)
  {
    VacuumedIsPrefix(c, horizon);
    if |c| >= 2 {
      if c[0].commitTs < horizon {
        assert RemovedBy(c, horizon, i, 0) <==> i > 0 || c[0].isDeleted;
      } else if i > 0 {
        VacuumRemovesExactly(c[1..], horizon, i - 1);
        RemovedByOlder(c, c[1..], horizon, i, i - 1);
      }
    }
  }

  /** After a vacuum only the oldest version of a chain can be below the horizon. */
  lemma VacuumLeavesOneOld(c: Chain, horizon: nat, i: nat)
    requires i + 1 < |Vacuumed(c, horizon)|
    ensures Vacuumed(c, horizon)[i].commitTs >= horizon
  {
    VacuumedIsPrefix(c, horizon);
    VacuumRemovesExactly(c, horizon, i + 1);
    assert RemovedBy(c, horizon, i + 1, i) <==> c[i].commitTs < horizon;
  }
}
