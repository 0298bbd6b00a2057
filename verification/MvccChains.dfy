/** Version chains: what a transaction sees, and what a vacuum may remove. */
module MvccChains {
  import opened Options

  const UINT64_MAX := 0xFFFF_FFFF_FFFF_FFFF

  datatype Version = Version(commitTs: nat, txnId: nat, isDeleted: bool, value: string)

  /** A transaction as the engine sees it; a commit timestamp of zero means not committed. */
  datatype Txn = Txn(id: nat, readTs: nat, commitTs: nat)

  /** Newest version first. */
  type Chain = seq<Version>

  predicate Sees(t: Txn, v: Version) {
    v.txnId == t.id || v.commitTs <= t.readTs
  }

  /** The first version the transaction sees decides. */
  function Visible(c: Chain, t: Txn): Option<string> {
    if c == [] then None
    else if Sees(t, c[0]) then if c[0].isDeleted then None else Some(c[0].value)
    else Visible(c[1..], t)
  }

  /** A chain is cut at its first version below the horizon that has an older one: the older
      ones go, and so does that version itself if it is a deletion. */
  function Vacuumed(c: Chain, horizon: nat): Chain {
    if |c| < 2 then c
    else if c[0].commitTs < horizon then if c[0].isDeleted then [] else [c[0]]
    else [c[0]] + Vacuumed(c[1..], horizon)
  }

  function Stamp(t: Txn): nat {
    if t.commitTs != 0 then t.commitTs else UINT64_MAX
  }

  /** A write puts a version in front; no value means a deletion. */
  function Written(c: Chain, t: Txn, value: Option<string>): Chain {
    [Version(Stamp(t), t.id, value.None?, if value.Some? then value.value else "")] + c
  }

  // ----- one chain -----

  lemma {:induction false} VacuumKeepsVisible(c: Chain, horizon: nat, t: Txn)
    requires t.readTs + 1 >= horizon
    ensures Visible(Vacuumed(c, horizon), t) == Visible(c, t)
  {
    if |c| >= 2 && !(c[0].commitTs < horizon) {
      VacuumKeepsVisible(c[1..], horizon, t);
      assert ([c[0]] + Vacuumed(c[1..], horizon))[1..] == Vacuumed(c[1..], horizon);
    }
  }

  lemma VisibleFirst(v: Version, rest: Chain, t: Txn)
    ensures Visible([v] + rest, t) == if Sees(t, v) then if v.isDeleted then None else Some(v.value) else Visible(rest, t)
  {
    assert ([v] + rest)[1..] == rest;
  }

  /** Two versions by others, one just below the horizon and one that the transaction can see. */
  lemma VacuumHides(horizon: nat, t: Txn) returns (c: Chain)
    requires t.readTs + 1 < horizon
    ensures Visible(c, t) == Some("old") && Visible(Vacuumed(c, horizon), t) == None
  {
    var newer := Version(horizon - 1, t.id + 1, false, "new");
    var older := Version(t.readTs, t.id + 1, false, "old");
    c := [newer] + ([older] + []);
    VisibleFirst(newer, [older] + [], t);
    VisibleFirst(older, [], t);
    assert Vacuumed(c, horizon) == [newer] + [];
    VisibleFirst(newer, [], t);
  }

  /** Nothing a transaction sees is vacuumed away, in any chain, if and only if it reads at the horizon or just below. */
  lemma VacuumIsSafeIff(horizon: nat, t: Txn)
    ensures (forall c: Chain :: Visible(Vacuumed(c, horizon), t) == Visible(c, t)) <==> t.readTs + 1 >= horizon
  {
    if t.readTs + 1 >= horizon {
      forall c: Chain ensures Visible(Vacuumed(c, horizon), t) == Visible(c, t) {
        VacuumKeepsVisible(c, horizon, t);
      }
    } else {
      var c := VacuumHides(horizon, t);
    }
  }

  /** A vacuum leaves a prefix of the chain. */
  lemma {:induction false} VacuumedIsPrefix(c: Chain, horizon: nat)
    ensures Vacuumed(c, horizon) <= c
  {
    if |c| >= 2 && !(c[0].commitTs < horizon) {
      VacuumedIsPrefix(c[1..], horizon);
      assert c == [c[0]] + c[1..];
    }
  }

  /** A second vacuum at the same horizon finds nothing more. */
  lemma {:induction false} VacuumTwice(c: Chain, horizon: nat)
    ensures Vacuumed(Vacuumed(c, horizon), horizon) == Vacuumed(c, horizon)
  {
    if |c| >= 2 && !(c[0].commitTs < horizon) {
      VacuumTwice(c[1..], horizon);
      var rest := Vacuumed(c[1..], horizon);
      assert ([c[0]] + rest)[1..] == rest;
    }
  }

  // ----- all chains -----

  type Chains = map<int, Chain>

  function ChainOf(m: Chains, key: int): Chain {
    if key in m then m[key] else []
  }

  function Lookup(m: Chains, key: int, t: Txn): Option<string> {
    Visible(ChainOf(m, key), t)
  }

  function WrittenAt(m: Chains, key: int, t: Txn, value: Option<string>): Chains {
    m[key := Written(ChainOf(m, key), t, value)]
  }

  function AllVacuumed(m: Chains, horizon: nat): Chains {
    map k | k in m :: Vacuumed(m[k], horizon)
  }

  /** The keys in range for which a lookup finds a value, in their order, with these values. */
  ghost predicate IsScan(r: seq<(int, string)>, m: Chains, t: Txn, first: int, last: int) {
    && (forall i, j :: 0 <= i < j < |r| ==> r[i].0 < r[j].0)
    && (forall i :: 0 <= i < |r| ==> first <= r[i].0 <= last && Lookup(m, r[i].0, t) == Some(r[i].1))
    && (forall k :: first <= k <= last && Lookup(m, k, t).Some? ==> Lists(r, k))
  }

  ghost predicate Lists(r: seq<(int, string)>, k: int) {
    exists i :: 0 <= i < |r| && r[i].0 == k
  }

  /** Two strictly increasing key lists with the same keys are the same. */
  lemma SameFirst(r: seq<(int, string)>, s: seq<(int, string)>, m: Chains, n: Chains, t: Txn, first: int, last: int)
    requires IsScan(r, m, t, first, last) && IsScan(s, n, t, first, last) && r != []
    requires forall k :: Lookup(m, k, t) == Lookup(n, k, t)
    ensures s != [] && s[0] == r[0]
  {
    MustList(s, n, t, first, last, r[0].0);
    MustList(r, m, t, first, last, s[0].0);
  }

  lemma {:induction false} SameScan(r: seq<(int, string)>, s: seq<(int, string)>, m: Chains, n: Chains, t: Txn, first: int, last: int)
    requires IsScan(r, m, t, first, last) && IsScan(s, n, t, first, last)
    requires forall k :: Lookup(m, k, t) == Lookup(n, k, t)
    ensures r == s
    decreases |r|
  {
    if r == [] {
      if s != [] {
        MustList(r, m, t, first, last, s[0].0);
      }
    } else {
      SameFirst(r, s, m, n, t, first, last);
      ScanTail(r, m, t, first, last);
      ScanTail(s, n, t, first, last);
      SameScan(r[1..], s[1..], m, n, t, r[0].0 + 1, last);
      assert r == [r[0]] + r[1..] && s == [s[0]] + s[1..];
    }
  }

  lemma MustList(r: seq<(int, string)>, m: Chains, t: Txn, first: int, last: int, k: int)
    requires IsScan(r, m, t, first, last) && first <= k <= last && Lookup(m, k, t).Some?
    ensures Lists(r, k)
  {
  }

  lemma ScanTail(r: seq<(int, string)>, m: Chains, t: Txn, first: int, last: int)
    requires IsScan(r, m, t, first, last) && r != []
    ensures IsScan(r[1..], m, t, r[0].0 + 1, last)
  {
    forall k | r[0].0 + 1 <= k <= last && Lookup(m, k, t).Some? ensures Lists(r[1..], k) {
      assert Lists(r, k);
      var i :| 0 <= i < |r| && r[i].0 == k;
      assert r[1..][i - 1].0 == k;
    }
  }

  // ----- runs -----

  datatype Event = Write(txn: Txn, key: int, value: Option<string>) | Vacuum

  function Run(horizon: nat, events: seq<Event>): Chains {
    if events == [] then map[]
    else
      var before := Run(horizon, events[..|events| - 1]);
      match events[|events| - 1]
      case Write(t, key, value) => WrittenAt(before, key, t, value)
      case Vacuum => AllVacuumed(before, horizon)
  }

  function WithoutVacuums(events: seq<Event>): seq<Event> {
    if events == [] then []
    else
      var before, e := WithoutVacuums(events[..|events| - 1]), events[|events| - 1];
      if e.Vacuum? then before else before + [e]
  }

  /** Vacuums can be left out of any run of writes: no transaction that reads at the horizon or just below can tell. */
  lemma {:induction false} VacuumsAreInvisible(horizon: nat, events: seq<Event>, t: Txn, key: int)
    requires t.readTs + 1 >= horizon
    ensures Lookup(Run(horizon, events), key, t) == Lookup(Run(horizon, WithoutVacuums(events)), key, t)
  {
    if events != [] {
      var n := |events| - 1;
      var before, plain := Run(horizon, events[..n]), WithoutVacuums(events[..n]);
      VacuumsAreInvisible(horizon, events[..n], t, key);
      match events[n]
      case Write(w, k, value) =>
        assert (plain + [events[n]])[..|plain|] == plain;
        if k == key {
          WriteIsSeen(ChainOf(before, key), w, value, t);
          WriteIsSeen(ChainOf(Run(horizon, plain), key), w, value, t);
        }
      case Vacuum =>
        VacuumKeepsVisible(ChainOf(before, key), horizon, t);
    }
  }

  /** A write shows to its own transaction, and to those that read at or after its stamp. */
  lemma WriteIsSeen(c: Chain, w: Txn, value: Option<string>, t: Txn)
    ensures Visible(Written(c, w, value), t) == if w.id == t.id || Stamp(w) <= t.readTs then value else Visible(c, t)
  {
    assert Written(c, w, value)[1..] == c;
  }

  /** The same for range reads. */
  lemma VacuumsDoNotChangeScans(horizon: nat, events: seq<Event>, t: Txn, first: int, last: int,
                                r: seq<(int, string)>, s: seq<(int, string)>)
    requires t.readTs + 1 >= horizon
    requires IsScan(r, Run(horizon, events), t, first, last) && IsScan(s, Run(horizon, WithoutVacuums(events)), t, first, last)
    ensures r == s
  {
    forall k ensures Lookup(Run(horizon, events), k, t) == Lookup(Run(horizon, WithoutVacuums(events)), k, t) {
      VacuumsAreInvisible(horizon, events, t, k);
    }
    SameScan(r, s, Run(horizon, events), Run(horizon, WithoutVacuums(events)), t, first, last);
  }
}
