/** The hazard pointer domain as an object, for calls that no other thread interrupts. */
module HazardDomain {
  import opened Options
  import opened HazardMachine
  import opened HazardPointers
  import opened HazardScan

  const MAX_HAZARD_POINTERS := 128

  datatype Slot = Slot(pointer: Ptr, active: bool)

  function SlotsOf(records: seq<Record>): seq<Slot> {
    seq(|records|, i requires 0 <= i < |records| => Slot(records[i].pointer, records[i].active))
  }

  predicate Hazardous(slots: seq<Slot>, p: Ptr) {
    exists i :: 0 <= i < |slots| && slots[i] == Slot(p, true)
  }

  /** The pointers of a list that are hazardous, or those that are not, in order. */
  function Select(slots: seq<Slot>, l: seq<Ptr>, hazardous: bool): seq<Ptr> {
    if l == [] then []
    else
      var rest := Select(slots, l[..|l| - 1], hazardous);
      if Hazardous(slots, l[|l| - 1]) == hazardous then rest + [l[|l| - 1]] else rest
  }

  /** Reclaim splits the list: every pointer is either kept or freed, as often as it was retired. */
  lemma {:induction false} SelectSplits(slots: seq<Slot>, l: seq<Ptr>)
    ensures multiset(Select(slots, l, true)) + multiset(Select(slots, l, false)) == multiset(l)
    ensures forall p :: p in Select(slots, l, true) ==> Hazardous(slots, p)
    ensures forall p :: p in Select(slots, l, false) ==> !Hazardous(slots, p)
  {
    if l != [] {
      SelectSplits(slots, l[..|l| - 1]);
      assert l == l[..|l| - 1] + [l[|l| - 1]];
    }
  }

  class HazardPointerDomain {
    const records: array<Slot>
    var retired: seq<Ptr>
    /** What has been handed to `free`, in order. */
    var freed: seq<Ptr>

    constructor ()
      ensures fresh(records) && records.Length == MAX_HAZARD_POINTERS && retired == [] && freed == []
      ensures forall i :: 0 <= i < records.Length ==> records[i] == Slot(NULL, false)
    {
      records := new Slot[MAX_HAZARD_POINTERS](_ => Slot(NULL, false));
      retired, freed := [], [];
    }

    /** The first inactive record, which becomes active; none if all are in use. */
    method Acquire() returns (record: Option<nat>)
      modifies records
      ensures record.None? ==> records[..] == old(records[..]) && forall i :: 0 <= i < records.Length ==> records[i].active
      ensures record.Some? ==>
                && record.value < records.Length && !old(records[..])[record.value].active
                && (forall i :: 0 <= i < record.value ==> old(records[..])[i].active)
                && records[..] == old(records[..])[record.value := Slot(old(records[..])[record.value].pointer, true)]
    {
      for i := 0 to records.Length
        invariant records[..] == old(records[..])
        invariant forall j :: 0 <= j < i ==> records[j].active
      {
        if !records[i].active {
          records[i] := Slot(records[i].pointer, true);
          return Some(i);
        }
      }
      return None;
    }

    method Release(record: Option<nat>)
      requires record.Some? ==> record.value < records.Length
      modifies records
      ensures records[..] == if record.Some? then old(records[..])[record.value := Slot(NULL, false)] else old(records[..])
    {
      if record.Some? {
        var r := record.value;
        records[r] := Slot(NULL, records[r].active);
        records[r] := Slot(records[r].pointer, false);
      }
    }

    method Scan(p: Ptr) returns (hazardous: bool)
      ensures hazardous == Hazardous(records[..], p)
    {
      for i := 0 to records.Length
        invariant forall j :: 0 <= j < i ==> records[j] != Slot(p, true)
      {
        if records[i].active && records[i].pointer == p {
          assert records[..][i] == Slot(p, true);
          return true;
        }
      }
      return false;
    }

    method Reclaim()
      modifies this
      ensures retired == Select(records[..], old(retired), true)
      ensures freed == old(freed) + Select(records[..], old(retired), false)
    {
      var stillRetired := [];
      for i := 0 to |retired|
        invariant retired == old(retired)
        invariant stillRetired == Select(records[..], retired[..i], true)
        invariant freed == old(freed) + Select(records[..], retired[..i], false)
      {
        var p := retired[i];
        var isHazardous := Scan(p);
        assert retired[..i + 1][..i] == retired[..i];
        if !isHazardous {
          freed := freed + [p];
        } else {
          stillRetired := stillRetired + [p];
        }
      }
      assert retired[..|retired|] == retired;
      retired := stillRetired;
    }

    method Retire(p: Ptr)
      modifies this
      ensures var l := old(retired) + [p];
              if |l| >= 32
              then retired == Select(records[..], l, true) && freed == old(freed) + Select(records[..], l, false)
              else retired == l && freed == old(freed)
    {
      retired := retired + [p];
      if |retired| >= RETIRE_LIMIT {
        Reclaim();
      }
    }
  }

  // ----- the object does what a thread does alone -----

  function Pointers(l: seq<Retired>): seq<Ptr> {
    seq(|l|, i requires 0 <= i < |l| => l[i].ptr)
  }

  lemma {:induction false} SelectFront(slots: seq<Slot>, p: Ptr, rest: seq<Ptr>, h: bool)
    ensures Select(slots, [p] + rest, h) == (if Hazardous(slots, p) == h then [p] else []) + Select(slots, rest, h)
  {
    var l := [p] + rest;
    if rest == [] {
      assert l == [p] && l[..0] == [];
    } else {
      SelectFront(slots, p, rest[..|rest| - 1], h);
      assert l[..|l| - 1] == [p] + rest[..|rest| - 1];
    }
  }

  /** A thread's Reclaim run to its end without interruption. */
  ghost function Alone(s: State, tid: Tid): State
    requires InReclaim(s, tid)
    decreases StepsLeft(s.threads[tid], |s.records|)
  {
    StepsLeftDecrease(s, tid, Step(tid));
    var t := Apply(s, Step(tid));
    if t.threads[tid].pc == Idle then t else Alone(t, tid)
  }

  /** The records before `at` do not hold the pointer under scan. */
  ghost predicate PassedOver(th: Thread, records: seq<Record>) {
    th.pc.Reclaiming? && th.pc.done < |th.retired| ==>
      && (forall r :: 0 <= r < th.pc.at && r < |records| ==> !HoldsPointer(records[r], th.retired[th.pc.done].ptr))
      && (th.pc.sawActive ==> th.pc.at < |records| && records[th.pc.at].active)
  }

  /** What is left for the thread to keep, or to free. */
  ghost function Rest(s: State, tid: Tid, h: bool): seq<Ptr>
    requires InReclaim(s, tid)
  {
    Select(SlotsOf(s.records), Pointers(s.threads[tid].retired[s.threads[tid].pc.done..]), h)
  }

  /** After its last step the thread has kept and freed all that was left. */
  ghost predicate AloneSplits(s: State, tid: Tid, t: State)
    requires InReclaim(s, tid)
  {
    && tid in t.threads && t.records == s.records
    && Pointers(t.threads[tid].retired) == Pointers(s.threads[tid].pc.kept) + Rest(s, tid, true)
    && Pointers(t.freed) == Pointers(s.freed) + Rest(s, tid, false)
  }

  lemma HazardousIsHeld(records: seq<Record>, p: Ptr)
    ensures Hazardous(SlotsOf(records), p) <==> exists r :: 0 <= r < |records| && HoldsPointer(records[r], p)
  {
    var slots := SlotsOf(records);
    if Hazardous(slots, p) {
      var i :| 0 <= i < |slots| && slots[i] == Slot(p, true);
      assert HoldsPointer(records[i], p);
    }
    if exists r :: 0 <= r < |records| && HoldsPointer(records[r], p) {
      var r :| 0 <= r < |records| && HoldsPointer(records[r], p);
      assert slots[r] == Slot(p, true);
    }
  }

  /** Deciding the entry under scan moves it from what is left to what is kept or freed. */
  lemma DecideEntry(slots: seq<Slot>, l: seq<Retired>, k: nat, h: bool)
    requires k < |l|
    ensures Select(slots, Pointers(l[k..]), h) ==
            (if Hazardous(slots, l[k].ptr) == h then [l[k].ptr] else []) + Select(slots, Pointers(l[k + 1..]), h)
  {
    SelectFront(slots, l[k].ptr, Pointers(l[k + 1..]), h);
    assert Pointers(l[k..]) == [l[k].ptr] + Pointers(l[k + 1..]);
  }

  lemma Shift(a: seq<Ptr>, p: Ptr, rest: seq<Ptr>)
    ensures (a + [p]) + rest == a + ([p] + rest)
    ensures a + ([] + rest) == a + rest
  {
  }

  lemma PointersMore(l: seq<Retired>, e: Retired)
    ensures Pointers(l + [e]) == Pointers(l) + [e.ptr]
  {
  }

  /** The entry under scan is freed, as no record holds it. */
  lemma FreeSplits(s: State, tid: Tid, u: State)
    requires InReclaim(s, tid) && PassedOver(s.threads[tid], s.records)
    requires var th := s.threads[tid]; th.pc.done < |th.retired| && th.pc.at == |s.records| && th.retired[th.pc.done].ticket < |s.history|
    requires InReclaim(Apply(s, Step(tid)), tid) && AloneSplits(Apply(s, Step(tid)), tid, u)
    ensures AloneSplits(s, tid, u)
  {
    var th := s.threads[tid];
    var done := th.pc.done;
    var slots, e := SlotsOf(s.records), th.retired[done];
    HazardousIsHeld(s.records, e.ptr);
    DecideEntry(slots, th.retired, done, true);
    DecideEntry(slots, th.retired, done, false);
    PointersMore(s.freed, e);
    Shift(Pointers(s.freed), e.ptr, Select(slots, Pointers(th.retired[done + 1..]), false));
  }

  /** The entry under scan is kept, as the record holds it. */
  lemma KeepSplits(s: State, tid: Tid, u: State)
    requires InReclaim(s, tid) && PassedOver(s.threads[tid], s.records)
    requires var th := s.threads[tid];
             && th.pc.done < |th.retired| && th.pc.at < |s.records| && th.pc.sawActive
             && s.records[th.pc.at].pointer == th.retired[th.pc.done].ptr
    requires InReclaim(Apply(s, Step(tid)), tid) && AloneSplits(Apply(s, Step(tid)), tid, u)
    ensures AloneSplits(s, tid, u)
  {
    var th := s.threads[tid];
    var done := th.pc.done;
    var slots, e := SlotsOf(s.records), th.retired[done];
    assert HoldsPointer(s.records[th.pc.at], e.ptr);
    HazardousIsHeld(s.records, e.ptr);
    DecideEntry(slots, th.retired, done, true);
    DecideEntry(slots, th.retired, done, false);
    PointersMore(th.pc.kept, e);
    Shift(Pointers(th.pc.kept), e.ptr, Select(slots, Pointers(th.retired[done + 1..]), true));
  }

  lemma PassedOverNext(s: State, tid: Tid)
    requires InReclaim(s, tid) && PassedOver(s.threads[tid], s.records)
    ensures var t := Apply(s, Step(tid)); t.records == s.records && PassedOver(t.threads[tid], t.records)
  {
  }

  lemma {:induction false} AloneSplitsAll(s: State, tid: Tid)
    requires Inv(s) && InReclaim(s, tid) && PassedOver(s.threads[tid], s.records)
    ensures AloneSplits(s, tid, Alone(s, tid))
    decreases StepsLeft(s.threads[tid], |s.records|)
  {
    var th := s.threads[tid];
    var t := Apply(s, Step(tid));
    StepsLeftDecrease(s, tid, Step(tid));
    if th.pc.done == |th.retired| {
      assert Pointers(th.retired[th.pc.done..]) == [];
    } else {
      assert ThreadOk(tid, th, s.records, s.history);
      assert ListOf(th)[|th.pc.kept|] == th.retired[th.pc.done];
      StepKeepsInv(s, Step(tid));
      PassedOverNext(s, tid);
      AloneSplitsAll(t, tid);
      if th.pc.at == |s.records| {
        FreeSplits(s, tid, Alone(t, tid));
      } else if th.pc.sawActive && s.records[th.pc.at].pointer == th.retired[th.pc.done].ptr {
        KeepSplits(s, tid, Alone(t, tid));
      }
    }
  }

  lemma AloneFromStart(s: State, tid: Tid)
    requires Inv(s) && tid in s.threads && s.threads[tid].pc == StartOfReclaim
    ensures InReclaim(s, tid) && AloneSplits(s, tid, Alone(s, tid))
    ensures forall h :: Rest(s, tid, h) == Select(SlotsOf(s.records), Pointers(s.threads[tid].retired), h)
    ensures Pointers(s.threads[tid].pc.kept) == []
  {
    AloneSplitsAll(s, tid);
    assert s.threads[tid].retired[0..] == s.threads[tid].retired;
  }

  /** A thread that is not interrupted ends its Reclaim with the lists that the object's method computes. */
  lemma AloneIsReclaim(n: nat, tids: set<Tid>, actions: seq<Action>, tid: Tid)
    requires tid in Run(n, tids, actions).threads && Run(n, tids, actions).threads[tid].pc == StartOfReclaim
    ensures var s := Run(n, tids, actions);
            && InReclaim(s, tid)
            && var t, l := Alone(s, tid), Pointers(s.threads[tid].retired);
               && tid in t.threads
               && Pointers(t.threads[tid].retired) == Select(SlotsOf(s.records), l, true)
               && Pointers(t.freed) == Pointers(s.freed) + Select(SlotsOf(s.records), l, false)
  {
    RunKeepsInv(n, tids, actions);
    AloneFromStart(Run(n, tids, actions), tid);
  }
}
