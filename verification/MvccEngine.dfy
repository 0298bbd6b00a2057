/** The storage engine: an ordered index of linked version records. */
module MvccEngine {
  import opened Finite
  import opened Options
  import opened MvccChains

  /** Only the link to the older version ever changes. A record belongs to the chain of
      one key, and ranks above the older records there. */
  class VersionRecord {
    const version: Version
    var prev: VersionRecord?
    ghost const key: int
    ghost const rank: int

    constructor (version: Version, prev: VersionRecord?, ghost key: int, ghost rank: int)
      ensures this.version == version && this.prev == prev && this.key == key && this.rank == rank
    {
      this.version, this.prev, this.key, this.rank := version, prev, key, rank;
    }
  }

  type Links = map<VersionRecord, VersionRecord?>

  function Contents(records: seq<VersionRecord>): Chain {
    seq(|records|, i requires 0 <= i < |records| => records[i].version)
  }

  function AllContents(chains: map<int, seq<VersionRecord>>): Chains {
    map k | k in chains :: Contents(chains[k])
  }

  /** The record that a record of a list links to. */
  function Older(records: seq<VersionRecord>, i: nat): VersionRecord? {
    if i + 1 < |records| then records[i + 1] else null
  }

  /** `head` starts the linked list of exactly these records, all of one key. */
  ghost predicate Chained(key: int, head: VersionRecord?, records: seq<VersionRecord>, links: Links) {
    && head == (if |records| == 0 then null else records[0])
    && (forall i :: 0 <= i < |records| ==> records[i] in links && links[records[i]] == Older(records, i))
    && (forall i :: 0 <= i < |records| ==> records[i].key == key && records[i].rank == records[0].rank - i)
  }

  // ----- changing a chain -----

  lemma FrontChained(key: int, head: VersionRecord?, records: seq<VersionRecord>, links: Links, rec: VersionRecord)
    requires Chained(key, head, records, links) && rec !in links
    requires rec.key == key && rec.rank == if |records| == 0 then 0 else records[0].rank + 1
    ensures Chained(key, rec, [rec] + records, links[rec := head])
  {
    var all, after := [rec] + records, links[rec := head];
    forall i | 0 <= i < |all|
      ensures all[i] in after && after[all[i]] == Older(all, i) && all[i].key == key && all[i].rank == all[0].rank - i
    {
      if i > 0 {
        assert all[i] == records[i - 1] && Older(all, i) == Older(records, i - 1);
      }
    }
  }

  lemma CutChained(key: int, head: VersionRecord?, records: seq<VersionRecord>, links: Links, i: nat)
    requires Chained(key, head, records, links) && i < |records|
    ensures Chained(key, head, records[..i + 1], links[records[i] := null])
  {
    var kept, after := records[..i + 1], links[records[i] := null];
    forall j | 0 <= j < |kept|
      ensures kept[j] in after && after[kept[j]] == Older(kept, j) && kept[j].key == key && kept[j].rank == kept[0].rank - j
    {
      assert kept[j] == records[j];
      if j < i {
        assert records[j].rank != records[i].rank;
        assert Older(kept, j) == Older(records, j);
      }
    }
  }

  /** A record of another key is not part of the chain. */
  lemma StaysChained(key: int, head: VersionRecord?, records: seq<VersionRecord>, links: Links,
                     changed: VersionRecord, link: VersionRecord?)
    requires Chained(key, head, records, links) && changed.key != key
    ensures Chained(key, head, records, links[changed := link])
  {
  }

  lemma TailContents(records: seq<VersionRecord>)
    requires |records| > 0
    ensures Contents(records)[1..] == Contents(records[1..])
  {
  }

  lemma OneChainChanges(chains: map<int, seq<VersionRecord>>, key: int, records: seq<VersionRecord>)
    ensures AllContents(chains[key := records]) == AllContents(chains)[key := Contents(records)]
  {
  }

  lemma FrontContents(rec: VersionRecord, records: seq<VersionRecord>)
    ensures Contents([rec] + records) == [rec.version] + Contents(records)
  {
  }

  lemma PrefixContents(records: seq<VersionRecord>, n: nat)
    requires n <= |records|
    ensures Contents(records[..n]) == Contents(records)[..n]
  {
  }

  class StorageEngine {
    var globalTs: nat
    var nextTxnId: nat
    var index: map<int, VersionRecord?>
    ghost var chains: map<int, seq<VersionRecord>>
    ghost var links: Links

    ghost predicate Valid()
      reads this, links.Keys
    {
      && index.Keys == chains.Keys
      && (forall r :: r in links ==> r.prev == links[r])
      && (forall k :: k in chains ==> Chained(k, index[k], chains[k], links))
    }

    ghost function View(): Chains
      reads this
    {
      AllContents(chains)
    }

    constructor ()
      ensures Valid() && links == map[] && View() == map[] && globalTs == 1 && nextTxnId == 1
    {
      globalTs, nextTxnId, index, chains, links := 1, 1, map[], map[], map[];
    }

    method BeginTransaction() returns (t: Txn)
      requires Valid()
      modifies this`nextTxnId
      ensures Valid() && t == Txn(old(nextTxnId), globalTs, 0) && nextTxnId == old(nextTxnId) + 1
    {
      t := Txn(nextTxnId, globalTs, 0);
      nextTxnId := nextTxnId + 1;
    }

    /** What Put and Delete share: a new record in front of the key's chain. */
    method Push(key: int, version: Version)
      requires Valid()
      modifies this`index, this`chains, this`links
      ensures Valid() && fresh(links.Keys - old(links.Keys))
      ensures View() == old(View())[key := [version] + ChainOf(old(View()), key)]
    {
      var head := if key in index then index[key] else null;
      ghost var records := if key in chains then chains[key] else [];
      var rec := new VersionRecord(version, head, key, if |records| == 0 then 0 else records[0].rank + 1);
      FrontContents(rec, records);
      OneChainChanges(chains, key, [rec] + records);
      FrontChained(key, head, records, links, rec);
      forall k | k in chains && k != key ensures Chained(k, index[k], chains[k], links[rec := head]) {
        StaysChained(k, index[k], chains[k], links, rec, head);
      }
      index := index[key := rec];
      chains := chains[key := [rec] + records];
      links := links[rec := head];
    }

    method Put(t: Txn, key: int, value: string) returns (ok: bool)
      requires Valid()
      modifies this`index, this`chains, this`links
      ensures Valid() && fresh(links.Keys - old(links.Keys)) && ok && View() == WrittenAt(old(View()), key, t, Some(value))
    {
      Push(key, Version(if t.commitTs != 0 then t.commitTs else UINT64_MAX, t.id, false, value));
      return true;
    }

    method Delete(t: Txn, key: int) returns (ok: bool)
      requires Valid()
      modifies this`index, this`chains, this`links
      ensures Valid() && fresh(links.Keys - old(links.Keys)) && ok && View() == WrittenAt(old(View()), key, t, None)
    {
      Push(key, Version(if t.commitTs != 0 then t.commitTs else UINT64_MAX, t.id, true, ""));
      return true;
    }

    /** Cuts the key's chain after one of its records. */
    method CutAfter(key: int, last: VersionRecord, ghost i: nat)
      requires Valid() && key in chains && i < |chains[key]| && chains[key][i] == last
      modifies last`prev, this`chains, this`links
      ensures Valid() && links.Keys == old(links.Keys)
      ensures View() == old(View())[key := old(View())[key][..i + 1]]
    {
      ghost var records := chains[key];
      PrefixContents(records, i + 1);
      OneChainChanges(chains, key, records[..i + 1]);
      CutChained(key, index[key], records, links, i);
      forall k | k in chains && k != key ensures Chained(k, index[k], chains[k], links[last := null]) {
        StaysChained(k, index[k], chains[k], links, last, null);
      }
      last.prev := null;
      chains := chains[key := records[..i + 1]];
      links := links[last := null];
    }

    /** Removes the key's whole chain; the key stays. */
    method CutAll(key: int)
      requires Valid() && key in chains
      modifies this`index, this`chains
      ensures Valid() && index.Keys == old(index.Keys) && View() == old(View())[key := []]
    {
      OneChainChanges(chains, key, []);
      assert Contents([]) == [];
      index := index[key := null];
      chains := chains[key := []];
    }

    /** The walk along a chain that Get and Scan share. */
    method Walk(t: Txn, key: int) returns (value: Option<string>)
      requires Valid() && key in index
      ensures value == Lookup(View(), key, t)
    {
      var curr := index[key];
      ghost var i := 0;
      ghost var records := chains[key];
      while curr != null
        invariant i <= |records| && curr == (if i < |records| then records[i] else null)
        invariant Lookup(View(), key, t) == Visible(Contents(records[i..]), t)
        decreases |records| - i
      {
        var v := curr.version;
        TailContents(records[i..]);
        if v.txnId == t.id || v.commitTs <= t.readTs {
          if v.isDeleted {
            return None;
          }
          return Some(v.value);
        }
        assert records[i..][1..] == records[i + 1..];
        assert links[curr] == Older(records, i);
        curr, i := curr.prev, i + 1;
      }
      return None;
    }

    method Get(t: Txn, key: int) returns (value: Option<string>)
      requires Valid()
      ensures value == Lookup(View(), key, t)
    {
      if key !in index {
        return None;
      }
      value := Walk(t, key);
    }

    method Scan(t: Txn, first: int, last: int) returns (results: seq<(int, string)>)
      requires Valid()
      ensures IsScan(results, View(), t, first, last)
    {
      results := [];
      var keys := set k | k in index && first <= k <= last;
      ghost var m := View();
      while keys != {}
        invariant keys <= index.Keys && ScannedTo(results, keys, m, t, first, last)
        decreases |keys|
      {
        LeastExists(keys);
        var k :| k in keys && forall l :: l in keys ==> k <= l;
        var value := Walk(t, k);
        ScanOneMore(results, keys, k, m, t, first, last);
        if value.Some? {
          results := results + [(k, value.value)];
        }
        keys := keys - {k};
      }
    }

    /** The walk of Vacuum's loop along a chain: to the record at which it is cut, if any, and the one before. */
    method SeekCut(key: int, horizon: nat) returns (curr: VersionRecord?, prev: VersionRecord?, ghost i: nat)
      requires Valid() && key in index
      ensures var records, c := chains[key], View()[key];
              && (curr == null ==> Vacuumed(c, horizon) == c)
              && (curr != null ==>
                    && i < |records| && records[i] == curr && prev == (if i == 0 then null else records[i - 1])
                    && Vacuumed(c, horizon) == if curr.version.isDeleted then c[..i] else c[..i + 1])
    {
      curr, prev, i := index[key], null, 0;
      ghost var records, c := chains[key], View()[key];
      while curr != null
        invariant i <= |records| && curr == (if i < |records| then records[i] else null)
        invariant prev == if i == 0 then null else records[i - 1]
        invariant Vacuumed(c, horizon) == c[..i] + Vacuumed(c[i..], horizon)
        decreases |records| - i
      {
        assert links[curr] == Older(records, i);
        VacuumStep(c, i, horizon);
        if curr.version.commitTs < horizon && curr.prev != null {
          return;
        }
        prev := curr;
        curr, i := curr.prev, i + 1;
      }
      assert c[..i] == c && c[i..] == [] && c + [] == c;
    }

    /** Unlinks the record at `i` and all older ones; without a newer record the chain is gone. */
    method CutBefore(key: int, prev: VersionRecord?, ghost i: nat)
      requires Valid() && key in chains && i <= |chains[key]| && prev == if i == 0 then null else chains[key][i - 1]
      modifies this`index, this`chains, this`links, links.Keys
      ensures Valid() && links.Keys == old(links.Keys) && index.Keys == old(index.Keys)
      ensures View() == old(View())[key := old(View())[key][..i]]
    {
      ghost var c := View()[key];
      if prev != null {
        CutAfter(key, prev, i - 1);
      } else {
        assert c[..0] == [];
        CutAll(key);
      }
    }

    /** The body of Vacuum's loop over the keys. */
    method VacuumChain(key: int, horizon: nat)
      requires Valid() && key in index
      modifies this`index, this`chains, this`links, links.Keys
      ensures Valid() && links.Keys == old(links.Keys) && index.Keys == old(index.Keys)
      ensures View() == old(View())[key := Vacuumed(old(View())[key], horizon)]
    {
      ghost var before := View();
      var curr, prev, i := SeekCut(key, horizon);
      if curr == null {
        assert before[key := before[key]] == before;
      } else if curr.version.isDeleted {
        CutBefore(key, prev, i);
      } else {
        CutAfter(key, curr, i);
      }
    }

    method Vacuum()
      requires Valid()
      modifies this`index, this`chains, this`links, links.Keys
      ensures Valid() && links.Keys == old(links.Keys)
      ensures View() == AllVacuumed(old(View()), globalTs)
    {
      var minActiveTs := globalTs;
      var todo := index.Keys;
      ghost var before := View();
      PartlyEnds(before, minActiveTs);
      while todo != {}
        invariant Valid() && links.Keys == old(links.Keys) && todo <= index.Keys && index.Keys == before.Keys
        invariant View() == Partly(before, todo, minActiveTs)
        decreases |todo|
      {
        ghost var any := Pick(todo);
        var k :| k in todo;
        PartlyNext(before, todo, k, minActiveTs);
        VacuumChain(k, minActiveTs);
        todo := todo - {k};
      }
    }
  }

  /** All chains vacuumed but those still to come. */
  function Partly(m: Chains, todo: set<int>, horizon: nat): Chains {
    map k | k in m :: if k in todo then m[k] else Vacuumed(m[k], horizon)
  }

  lemma PartlyEnds(m: Chains, horizon: nat)
    ensures Partly(m, m.Keys, horizon) == m && Partly(m, {}, horizon) == AllVacuumed(m, horizon)
  {
  }

  lemma PartlyNext(m: Chains, todo: set<int>, k: int, horizon: nat)
    requires k in todo && k in m
    ensures Partly(m, todo, horizon)[k := Vacuumed(Partly(m, todo, horizon)[k], horizon)] == Partly(m, todo - {k}, horizon)
  {
  }

  /** The scan of all keys in range but those still to come, which are larger than all before. */
  ghost predicate ScannedTo(r: seq<(int, string)>, keys: set<int>, m: Chains, t: Txn, first: int, last: int) {
    && (forall k :: k in keys ==> first <= k <= last)
    && (forall i, j :: 0 <= i < j < |r| ==> r[i].0 < r[j].0)
    && (forall i, k :: 0 <= i < |r| && k in keys ==> r[i].0 < k)
    && (forall i :: 0 <= i < |r| ==> first <= r[i].0 <= last && Lookup(m, r[i].0, t) == Some(r[i].1))
    && (forall k :: first <= k <= last && Lookup(m, k, t).Some? && k !in keys ==> Lists(r, k))
  }

  lemma ScanOneMore(r: seq<(int, string)>, keys: set<int>, k: int, m: Chains, t: Txn, first: int, last: int)
    requires ScannedTo(r, keys, m, t, first, last) && k in keys && forall l :: l in keys ==> k <= l
    ensures Lookup(m, k, t).Some? ==> ScannedTo(r + [(k, Lookup(m, k, t).value)], keys - {k}, m, t, first, last)
    ensures Lookup(m, k, t).None? ==> ScannedTo(r, keys - {k}, m, t, first, last)
  {
    if Lookup(m, k, t).Some? {
      ScanAppends(r, keys, k, Lookup(m, k, t).value, m, t, first, last);
    }
  }

  lemma ListsMore(r: seq<(int, string)>, x: (int, string))
    ensures Lists(r + [x], x.0)
    ensures forall l :: Lists(r, l) ==> Lists(r + [x], l)
  {
    assert (r + [x])[|r|].0 == x.0;
    forall l | Lists(r, l) ensures Lists(r + [x], l) {
      var i :| 0 <= i < |r| && r[i].0 == l;
      assert (r + [x])[i].0 == l;
    }
  }

  lemma ScanAppends(r: seq<(int, string)>, keys: set<int>, k: int, v: string, m: Chains, t: Txn, first: int, last: int)
    requires ScannedTo(r, keys, m, t, first, last) && k in keys && forall l :: l in keys ==> k <= l
    requires Lookup(m, k, t) == Some(v)
    ensures ScannedTo(r + [(k, v)], keys - {k}, m, t, first, last)
  {
    var s := r + [(k, v)];
    ListsMore(r, (k, v));
    forall i | 0 <= i < |s| ensures s[i] == if i < |r| then r[i] else (k, v) {
    }
  }

  lemma VacuumFirst(c: Chain, horizon: nat)
    requires c != []
    ensures c[0].commitTs < horizon && 1 < |c| ==> Vacuumed(c, horizon) == if c[0].isDeleted then [] else [c[0]]
    ensures !(c[0].commitTs < horizon && 1 < |c|) ==> Vacuumed(c, horizon) == [c[0]] + Vacuumed(c[1..], horizon)
  {
    if |c| == 1 {
      assert c == [c[0]] + [] && c[1..] == [];
    }
  }

  lemma Regroup(c: Chain, i: nat, rest: Chain)
    requires i < |c|
    ensures c[..i] + ([c[i]] + rest) == c[..i + 1] + rest && c[..i] + [c[i]] == c[..i + 1] && c[..i] + [] == c[..i]
    ensures c[i..] != [] && c[i..][0] == c[i] && c[i..][1..] == c[i + 1..]
  {
  }

  /** The chain up to `i` stays; the version at `i` decides whether the rest is cut there. */
  lemma VacuumStep(c: Chain, i: nat, horizon: nat)
    requires i < |c| && Vacuumed(c, horizon) == c[..i] + Vacuumed(c[i..], horizon)
    ensures c[i].commitTs < horizon && i + 1 < |c| ==> Vacuumed(c, horizon) == if c[i].isDeleted then c[..i] else c[..i + 1]
    ensures !(c[i].commitTs < horizon && i + 1 < |c|) ==> Vacuumed(c, horizon) == c[..i + 1] + Vacuumed(c[i + 1..], horizon)
  {
    Regroup(c, i, Vacuumed(c[i + 1..], horizon));
    VacuumFirst(c[i..], horizon);
  }
}
