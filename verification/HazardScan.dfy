/** Exactly which hazard pointers keep a retired pointer from being freed. */
module HazardScan {
  import opened HazardMachine

  predicate HoldsPointer(rec: Record, p: Ptr) {
    rec.active && rec.pointer == p
  }

  // ----- records that the scan has not passed -----

  /** The thread is looking for the entry in the records. */
  predicate Scans(th: Thread, e: Retired) {
    th.pc.Reclaiming? && th.pc.done < |th.retired| && th.retired[th.pc.done] == e
  }

  /** Nobody who scans the entry is beyond the record. */
  ghost predicate NotPassed(s: State, e: Retired, r: nat) {
    forall tid :: tid in s.threads && Scans(s.threads[tid], e) ==> s.threads[tid].pc.at <= r
  }

  lemma ScanStops(th: Thread, records: seq<Record>, e: Retired, r: nat)
    requires th.pc.Reclaiming? && (th.pc.done >= |th.retired| || th.pc.at < |records|)
    requires r < |records| && HoldsPointer(records[r], e.ptr) && (Scans(th, e) ==> th.pc.at <= r)
    ensures Scans(Scanned(th, records), e) ==> Scanned(th, records).pc.at <= r
  {
  }

  lemma ReclaimStepIsSafe(s: State, tid: Tid, e: Retired, r: nat)
    requires Enabled(s, Step(tid)) && s.threads[tid].pc.Reclaiming? && NotPassed(s, e, r)
    requires r < |s.records| && HoldsPointer(s.records[r], e.ptr)
    ensures var t := ReclaimStep(s, tid, s.threads[tid]);
            (e !in s.freed ==> e !in t.freed) && (Scans(t.threads[tid], e) ==> t.threads[tid].pc.at <= r)
  {
    var th := s.threads[tid];
    if th.pc.done >= |th.retired| || th.pc.at < |s.records| {
      ScanStops(th, s.records, e, r);
    } else {
      assert !Scans(th, e);
    }
  }

  /** While a record holds the pointer and has not been passed, no step frees the entry and no step passes the record. */
  lemma HeldIsSafe(s: State, a: Action, e: Retired, r: nat)
    requires Enabled(s, a) && r < |s.records| && HoldsPointer(s.records[r], e.ptr) && NotPassed(s, e, r)
    ensures var t := Apply(s, a);
            NotPassed(t, e, r) && (e !in s.freed ==> e !in t.freed)
  {
    var t := Apply(s, a);
    if a.Step? && s.threads[a.tid].pc.Reclaiming? {
      ReclaimStepIsSafe(s, a.tid, e, r);
    }
    forall tid | tid in t.threads && Scans(t.threads[tid], e) ensures t.threads[tid].pc.at <= r {
    }
  }

  /** Since the moment `k` the record holds the pointer, up to the last action. */
  ghost predicate HeldSince(n: nat, tids: set<Tid>, actions: seq<Action>, k: nat, r: nat, p: Ptr) {
    forall j :: k <= j < |actions| ==>
      r < |Run(n, tids, actions[..j]).records| && HoldsPointer(Run(n, tids, actions[..j]).records[r], p)
  }

  lemma {:induction false} StaysUnpassed(n: nat, tids: set<Tid>, actions: seq<Action>, k: nat, e: Retired, r: nat)
    requires k <= |actions| && HeldSince(n, tids, actions, k, r, e.ptr)
    requires NotPassed(Run(n, tids, actions[..k]), e, r) && e !in Run(n, tids, actions[..k]).freed
    ensures NotPassed(Run(n, tids, actions), e, r) && e !in Run(n, tids, actions).freed
    decreases |actions|
  {
    if k == |actions| {
      assert actions[..k] == actions;
    } else {
      var m := |actions| - 1;
      var before := actions[..m];
      assert before[..k] == actions[..k];
      forall j | k <= j < m ensures before[..j] == actions[..j] {
      }
      StaysUnpassed(n, tids, before, k, e, r);
      if Enabled(Run(n, tids, before), actions[m]) {
        HeldIsSafe(Run(n, tids, before), actions[m], e, r);
      }
    }
  }

  /** A pointer that a record has held since any moment at which no scan for the entry had passed the record is not freed. */
  lemma NeverFreedIfTakenInTime(n: nat, tids: set<Tid>, actions: seq<Action>, k: nat, e: Retired, r: nat)
    requires k <= |actions| && HeldSince(n, tids, actions, k, r, e.ptr)
    requires NotPassed(Run(n, tids, actions[..k]), e, r) && e !in Run(n, tids, actions[..k]).freed
    ensures e !in Run(n, tids, actions).freed
  {
    StaysUnpassed(n, tids, actions, k, e, r);
  }

  // ----- the rest of a scan -----

  predicate AtEntry(s: State, tid: Tid, done: nat) {
    tid in s.threads && s.threads[tid].pc.Reclaiming? && s.threads[tid].pc.done == done < |s.threads[tid].retired|
  }

  function ScanLeft(s: State, tid: Tid, done: nat): nat {
    if !AtEntry(s, tid, done) then 0
    else
      var pc := s.threads[tid].pc;
      if pc.at >= |s.records| then 1 else 2 * (|s.records| - pc.at) + (if pc.sawActive then 1 else 2)
  }

  /** The owner goes on alone until it is through with its entry number `done`. */
  function RestOfScan(s: State, tid: Tid, done: nat): State
    decreases ScanLeft(s, tid, done)
  {
    if AtEntry(s, tid, done) then RestOfScan(Apply(s, Step(tid)), tid, done) else s
  }

  /** What the scan will find at a record: the flag may have been read already, the pointer has not. */
  predicate WillBeFound(s: State, pc: Pc, p: Ptr, r: nat)
    requires pc.Reclaiming?
  {
    pc.at <= r < |s.records| && s.records[r].pointer == p && (s.records[r].active || (r == pc.at && pc.sawActive))
  }

  /** One step of the scan: it goes on, keeping what it will find, or has found the pointer, or frees the entry. */
  lemma ScanStep(s: State, tid: Tid, e: Retired)
    requires tid in s.threads && Scans(s.threads[tid], e) && e.ticket < |s.history|
    ensures var pc, t := s.threads[tid].pc, Apply(s, Step(tid));
            && t.records == s.records && |t.history| == |s.history| && tid in t.threads
            && (AtEntry(t, tid, pc.done) ==>
                  && Scans(t.threads[tid], e) && t.freed == s.freed
                  && forall r: nat :: WillBeFound(s, pc, e.ptr, r) <==> WillBeFound(t, t.threads[tid].pc, e.ptr, r))
            && (!AtEntry(t, tid, pc.done) && pc.at < |s.records| ==> t.freed == s.freed && WillBeFound(s, pc, e.ptr, pc.at))
            && (pc.at >= |s.records| ==> t.freed == s.freed + [e] && !AtEntry(t, tid, pc.done))
  {
  }

  lemma {:induction false} ScanFinds(s: State, tid: Tid, e: Retired)
    requires tid in s.threads && Scans(s.threads[tid], e) && e.ticket < |s.history|
    ensures var pc := s.threads[tid].pc;
            RestOfScan(s, tid, pc.done).freed == if exists r: nat :: WillBeFound(s, pc, e.ptr, r) then s.freed else s.freed + [e]
    decreases ScanLeft(s, tid, s.threads[tid].pc.done)
  {
    var done, t := s.threads[tid].pc.done, Apply(s, Step(tid));
    ScanStep(s, tid, e);
    assert RestOfScan(s, tid, done) == RestOfScan(t, tid, done);
    if AtEntry(t, tid, done) {
      ScanFinds(t, tid, e);
    } else {
      assert RestOfScan(t, tid, done) == t;
    }
  }

  // ----- records are released empty -----

  /** A record that is free, or about to be, holds no pointer. */
  ghost predicate ReleasedEmpty(s: State) {
    && (forall r :: 0 <= r < |s.records| && !s.records[r].active ==> s.records[r].pointer == NULL)
    && (forall tid :: tid in s.threads && s.threads[tid].pc.Releasing? && s.threads[tid].pc.cleared ==>
          s.threads[tid].pc.record < |s.records| ==> s.records[s.threads[tid].pc.record].pointer == NULL)
  }

  /** Writing a record, by the thread that has it or takes it. */
  lemma WriteReleasesEmpty(s: State, tid: Tid, th: Thread, r: nat, ptr: Ptr, active: bool)
    requires Inv(s) && ReleasedEmpty(s) && tid in s.threads && r < |s.records|
    requires forall b :: b in s.threads && b != tid ==> r !in s.threads[b].held
    requires !active ==> ptr == NULL
    requires th.pc == Idle || (th.pc == Releasing(r, true) && ptr == NULL)
    ensures ReleasedEmpty(Set(Store(s, r, ptr, active), tid, th))
  {
    var t := Set(Store(s, r, ptr, active), tid, th);
    forall b | b in t.threads && t.threads[b].pc.Releasing? && t.threads[b].pc.cleared && t.threads[b].pc.record < |t.records|
      ensures t.records[t.threads[b].pc.record].pointer == NULL
    {
      if b != tid {
        assert ThreadOk(b, s.threads[b], s.records, s.history);
      }
    }
  }

  lemma AcquireReleasesEmpty(s: State, tid: Tid, i: nat)
    requires Inv(s) && ReleasedEmpty(s) && tid in s.threads && s.threads[tid].pc == Acquiring(i)
    ensures ReleasedEmpty(TryRecord(s, tid, s.threads[tid], i))
  {
    if i < |s.records| && !s.records[i].active {
      InactiveIsFree(s, i);
      WriteReleasesEmpty(s, tid, s.threads[tid].(pc := Idle, held := s.threads[tid].held + {i}), i, s.records[i].pointer, true);
    }
  }

  lemma ReleaseReleasesEmpty(s: State, tid: Tid, r: nat, cleared: bool)
    requires Inv(s) && ReleasedEmpty(s) && tid in s.threads && s.threads[tid].pc == Releasing(r, cleared)
    ensures ReleasedEmpty(ReleaseStep(s, tid, s.threads[tid], r, cleared))
  {
    var th := s.threads[tid];
    assert ThreadOk(tid, th, s.records, s.history);
    HolderIsAlone(s, tid, r);
    if cleared {
      WriteReleasesEmpty(s, tid, th.(pc := Idle, held := th.held - {r}), r, s.records[r].pointer, false);
    } else {
      WriteReleasesEmpty(s, tid, th.(pc := Releasing(r, true)), r, NULL, s.records[r].active);
    }
  }

  lemma ReclaimReleasesEmpty(s: State, tid: Tid)
    requires ReleasedEmpty(s) && tid in s.threads && s.threads[tid].pc.Reclaiming?
    ensures ReleasedEmpty(ReclaimStep(s, tid, s.threads[tid]))
  {
  }

  lemma OwnStepReleasesEmpty(s: State, tid: Tid)
    requires Inv(s) && ReleasedEmpty(s) && Enabled(s, Step(tid))
    ensures ReleasedEmpty(Apply(s, Step(tid)))
  {
    match s.threads[tid].pc
    case Acquiring(i) => AcquireReleasesEmpty(s, tid, i);
    case Releasing(r, cleared) => ReleaseReleasesEmpty(s, tid, r, cleared);
    case Reclaiming(_, _, _, _) => ReclaimReleasesEmpty(s, tid);
  }

  lemma StepReleasesEmpty(s: State, a: Action)
    requires Inv(s) && ReleasedEmpty(s) && Enabled(s, a)
    ensures ReleasedEmpty(Apply(s, a))
  {
    if a.Step? {
      OwnStepReleasesEmpty(s, a.tid);
    } else if a.Protect? {
      HolderIsAlone(s, a.tid, a.record);
      WriteReleasesEmpty(s, a.tid, s.threads[a.tid], a.record, a.ptr, s.records[a.record].active);
      assert s.threads[a.tid := s.threads[a.tid]] == s.threads;
    }
  }

  lemma {:induction false} RunReleasesEmpty(n: nat, tids: set<Tid>, actions: seq<Action>)
    ensures ReleasedEmpty(Run(n, tids, actions))
  {
    if actions != [] {
      var before, a := actions[..|actions| - 1], actions[|actions| - 1];
      RunReleasesEmpty(n, tids, before);
      RunKeepsInv(n, tids, before);
      if Enabled(Run(n, tids, before), a) {
        StepReleasesEmpty(Run(n, tids, before), a);
      }
    }
  }

  lemma ScannedIsListed(s: State, tid: Tid, e: Retired)
    requires Inv(s) && tid in s.threads && Scans(s.threads[tid], e)
    ensures e.ticket < |s.history| && s.history[e.ticket] == Retirement(e.ptr, Listed(tid))
  {
    var th := s.threads[tid];
    assert ThreadOk(tid, th, s.records, s.history);
    assert ListOf(th)[|th.pc.kept|] == e;
  }

  /** Of a pointer other than null, what the scan will find is what is held. */
  lemma FoundIfHeld(s: State, pc: Pc, p: Ptr)
    requires ReleasedEmpty(s) && pc.Reclaiming? && p != NULL
    ensures (exists r: nat :: WillBeFound(s, pc, p, r)) <==> (exists r: nat :: pc.at <= r < |s.records| && HoldsPointer(s.records[r], p))
  {
    forall r: nat ensures WillBeFound(s, pc, p, r) <==> pc.at <= r < |s.records| && HoldsPointer(s.records[r], p) {
    }
  }

  /** At any moment of any run: left alone, the scan for an entry frees it if and only if none of the records
      it has still to look at holds the pointer. Those it has passed make no difference. */
  lemma FreedIffNoneLeftHolds(n: nat, tids: set<Tid>, actions: seq<Action>, tid: Tid, e: Retired)
    requires tid in Run(n, tids, actions).threads && Scans(Run(n, tids, actions).threads[tid], e) && e.ptr != NULL
    ensures var s := Run(n, tids, actions);
            var pc := s.threads[tid].pc;
            RestOfScan(s, tid, pc.done).freed ==
            if exists r: nat :: pc.at <= r < |s.records| && HoldsPointer(s.records[r], e.ptr) then s.freed else s.freed + [e]
  {
    var s := Run(n, tids, actions);
    var th := s.threads[tid];
    RunKeepsInv(n, tids, actions);
    RunReleasesEmpty(n, tids, actions);
    ScannedIsListed(s, tid, e);
    ScanFinds(s, tid, e);
    FoundIfHeld(s, th.pc, e.ptr);
  }
}
