/** What hazard pointers guarantee in every interleaving. */
module HazardPointers {
  import opened HazardMachine
  import opened HazardScan

  // ----- records have one owner -----

  /** No two threads own the same record, and an owned record is active. */
  lemma OwnersAreExclusive(n: nat, tids: set<Tid>, actions: seq<Action>, a: Tid, b: Tid, r: nat)
    requires var s := Run(n, tids, actions);
             a in s.threads && b in s.threads && r in s.threads[a].held && r in s.threads[b].held
    ensures a == b && |Run(n, tids, actions).records| == n && r < n && Run(n, tids, actions).records[r].active
  {
    RunKeepsInv(n, tids, actions);
    HolderIsAlone(Run(n, tids, actions), a, r);
  }

  // ----- held since before its retirement -----

  lemma StepAges(s: State, a: Action, r: nat)
    requires Enabled(s, a) && r < |s.records|
    ensures var t := Apply(s, a);
            && |t.records| == |s.records| && |s.history| <= |t.history| <= |s.history| + 1
            && (t.records[r] == s.records[r]
                || (t.records[r].since == |s.history| == |t.history|
                    && !(t.records[r].pointer == s.records[r].pointer && t.records[r].active == s.records[r].active)))
  {
  }

  lemma RunStep(n: nat, tids: set<Tid>, actions: seq<Action>, j: nat)
    requires j < |actions|
    ensures var s, a := Run(n, tids, actions[..j]), actions[j];
            Run(n, tids, actions[..j + 1]) == if Enabled(s, a) then Apply(s, a) else s
  {
    assert actions[..j + 1][..j] == actions[..j];
  }

  /** One action leaves a record's contents alone, or makes them young. */
  lemma RunAges(n: nat, tids: set<Tid>, actions: seq<Action>, j: nat, r: nat)
    requires j < |actions| && r < n
    ensures var s, t := Run(n, tids, actions[..j]), Run(n, tids, actions[..j + 1]);
            && |t.records| == |s.records| == n && |s.history| <= |t.history| <= |s.history| + 1
            && (t.records[r] == s.records[r]
                || (t.records[r].since == |s.history| == |t.history|
                    && !(t.records[r].pointer == s.records[r].pointer && t.records[r].active == s.records[r].active)))
  {
    RunKeepsInv(n, tids, actions[..j]);
    RunStep(n, tids, actions, j);
    if Enabled(Run(n, tids, actions[..j]), actions[j]) {
      StepAges(Run(n, tids, actions[..j]), actions[j], r);
    }
  }

  /** A record's age is how long it has held its contents: never changed since, changed just before. */
  lemma {:induction false} AgeIsSteady(n: nat, tids: set<Tid>, actions: seq<Action>, j: nat, r: nat)
    requires j <= |actions| && r < n
    ensures var s, now := Run(n, tids, actions[..j]), Run(n, tids, actions);
            && |s.records| == |now.records| == n && |s.history| <= |now.history|
            && (now.records[r].since < |s.history| ==> now.records[r] == s.records[r])
    decreases |actions| - j
  {
    if j == |actions| {
      assert actions[..j] == actions;
      RunKeepsInv(n, tids, actions);
    } else {
      AgeIsSteady(n, tids, actions, j + 1, r);
      RunAges(n, tids, actions, j, r);
    }
  }

  lemma {:induction false} SteadyIsOld(n: nat, tids: set<Tid>, actions: seq<Action>, k: nat, p: Ptr, r: nat)
    requires k <= |actions| && r < n
    requires forall j :: k <= j <= |actions| ==> |Run(n, tids, actions[..j]).records| == n
    requires forall j :: k <= j <= |actions| ==> HoldsPointer(Run(n, tids, actions[..j]).records[r], p)
    ensures |Run(n, tids, actions).records| == n
    ensures Run(n, tids, actions).records[r] == Run(n, tids, actions[..k]).records[r]
    decreases |actions|
  {
    if k == |actions| {
      assert actions[..k] == actions;
    } else {
      var m := |actions| - 1;
      var before := actions[..m];
      forall j | k <= j <= m ensures before[..j] == actions[..j] {
      }
      assert actions[..m + 1] == actions;
      SteadyIsOld(n, tids, before, k, p, r);
      assert before[..k] == actions[..k];
      assert HoldsPointer(Run(n, tids, actions[..m]).records[r], p) && HoldsPointer(Run(n, tids, actions[..m + 1]).records[r], p);
      RunAges(n, tids, actions, m, r);
    }
  }

  /** The retirement with ticket |history| is the action at `k`. */
  predicate RetiredAt(n: nat, tids: set<Tid>, actions: seq<Action>, k: nat, e: Retired) {
    && k < |actions| && actions[k].CallRetire? && actions[k].ptr == e.ptr
    && Enabled(Run(n, tids, actions[..k]), actions[k]) && |Run(n, tids, actions[..k]).history| == e.ticket
  }

  /** A record guards a retired pointer if and only if it has held it at every moment since before the retirement. */
  lemma GuardsIfHeldThroughout(n: nat, tids: set<Tid>, actions: seq<Action>, k: nat, e: Retired, r: nat)
    requires RetiredAt(n, tids, actions, k, e) && r < n
    ensures forall j :: k <= j <= |actions| ==> |Run(n, tids, actions[..j]).records| == n
    ensures |Run(n, tids, actions).records| == n
    ensures Guards(Run(n, tids, actions).records[r], e) <==>
            forall j :: k <= j <= |actions| ==> HoldsPointer(Run(n, tids, actions[..j]).records[r], e.ptr)
  {
    forall j | k <= j <= |actions| ensures |Run(n, tids, actions[..j]).records| == n {
      RunKeepsInv(n, tids, actions[..j]);
    }
    RunKeepsInv(n, tids, actions);
    var now := Run(n, tids, actions);
    if Guards(now.records[r], e) {
      forall j | k <= j <= |actions| ensures HoldsPointer(Run(n, tids, actions[..j]).records[r], e.ptr) {
        HeldAt(n, tids, actions, k, e, r, j);
      }
    }
    if forall j :: k <= j <= |actions| ==> HoldsPointer(Run(n, tids, actions[..j]).records[r], e.ptr) {
      SteadyIsOld(n, tids, actions, k, e.ptr, r);
      assert actions[..|actions|] == actions;
      RunKeepsInv(n, tids, actions[..k]);
    }
  }

  lemma HeldAt(n: nat, tids: set<Tid>, actions: seq<Action>, k: nat, e: Retired, r: nat, j: nat)
    requires RetiredAt(n, tids, actions, k, e) && r < n && k <= j <= |actions|
    requires |Run(n, tids, actions).records| == n && Guards(Run(n, tids, actions).records[r], e)
    ensures |Run(n, tids, actions[..j]).records| == n && HoldsPointer(Run(n, tids, actions[..j]).records[r], e.ptr)
  {
    RunStep(n, tids, actions, k);
    if j > k {
      AgeIsSteady(n, tids, actions[..j], k + 1, r);
      assert actions[..j][..k + 1] == actions[..k + 1];
      AgeIsSteady(n, tids, actions, j, r);
    } else {
      AgeIsSteady(n, tids, actions, k + 1, r);
      RunAges(n, tids, actions, k, r);
    }
  }

  // ----- freeing -----

  lemma FreeHasNoGuards(s: State, a: Action)
    requires Inv(s) && Enabled(s, a) && Apply(s, a).freed != s.freed
    ensures var t := Apply(s, a);
            && |t.freed| == |s.freed| + 1 && t.freed[..|s.freed|] == s.freed && t.records == s.records
            && forall r :: 0 <= r < |s.records| ==> !Guards(s.records[r], t.freed[|s.freed|])
  {
    var th := s.threads[a.tid];
    assert ThreadOk(a.tid, th, s.records, s.history);
    if th.pc.Reclaiming? && th.pc.done < |th.retired| {
      assert ListOf(th)[|th.pc.kept|] == th.retired[th.pc.done];
    }
  }

  lemma NotYetScanned(s: State, tid: Tid, e: Retired)
    requires Inv(s) && e.ticket == |s.history| && tid in s.threads
    ensures !Scans(s.threads[tid], e)
  {
    if Scans(s.threads[tid], e) {
      ScannedIsListed(s, tid, e);
    }
  }

  /** Before its retirement an entry is nowhere. */
  lemma NotYetListed(s: State, e: Retired, r: nat)
    requires Inv(s) && e.ticket == |s.history|
    ensures NotPassed(s, e, r) && e !in s.freed
  {
    forall tid | tid in s.threads ensures !Scans(s.threads[tid], e) {
      NotYetScanned(s, tid, e);
    }
  }

  /** A pointer that some record has held since before it was retired is not freed. */
  lemma NeverFreedWhileHeld(n: nat, tids: set<Tid>, actions: seq<Action>, k: nat, e: Retired, r: nat)
    requires RetiredAt(n, tids, actions, k, e) && HeldSince(n, tids, actions, k, r, e.ptr)
    ensures e !in Run(n, tids, actions).freed
  {
    RunKeepsInv(n, tids, actions[..k]);
    NotYetListed(Run(n, tids, actions[..k]), e, r);
    NeverFreedIfTakenInTime(n, tids, actions, k, e, r);
  }

  /** Where an entry with the ticket is: at a position of one thread's list, or of the freed ones. */
  datatype Spot = OnList(tid: Tid, at: nat) | InFreed(at: nat)

  predicate IsAt(s: State, ticket: nat, spot: Spot) {
    match spot
    case OnList(tid, i) => tid in s.threads && i < |ListOf(s.threads[tid])| && ListOf(s.threads[tid])[i].ticket == ticket
    case InFreed(i) => i < |s.freed| && s.freed[i].ticket == ticket
  }

  /** Each retirement is at every moment in exactly one place: once on one thread's list, or freed once. */
  lemma ExactlyOnePlace(n: nat, tids: set<Tid>, actions: seq<Action>, ticket: nat) returns (spot: Spot)
    requires ticket < |Run(n, tids, actions).history|
    ensures IsAt(Run(n, tids, actions), ticket, spot)
    ensures forall other: Spot :: IsAt(Run(n, tids, actions), ticket, other) ==> other == spot
  {
    RunKeepsInv(n, tids, actions);
    var s := Run(n, tids, actions);
    assert Found(s, ticket);
    if s.history[ticket].place == Freed {
      var i: nat :| i < |s.freed| && s.freed[i].ticket == ticket;
      spot := InFreed(i);
    } else {
      var tid := s.history[ticket].place.tid;
      var i: nat :| i < |ListOf(s.threads[tid])| && ListOf(s.threads[tid])[i].ticket == ticket;
      spot := OnList(tid, i);
    }
    forall other: Spot | IsAt(s, ticket, other) ensures other == spot {
      if other.OnList? {
        assert ThreadOk(other.tid, s.threads[other.tid], s.records, s.history);
      }
    }
  }

  // ----- a pointer protected too late -----

  /** Two threads and one record: thread 0 reclaims `p`, at `at` of its scan; the record is as given. */
  function Scene(p: Ptr, pc: Pc, other: Thread, rec: Record): State {
    State([rec], map[0 := Thread(pc, {}, [Retired(p, 0)]), 1 := other], [Retirement(p, Listed(0))], [])
  }

  lemma SceneOpens(p: Ptr)
    ensures var start := Fresh(1, {0, 1});
            && Enabled(start, CallRetire(0, p))
            && Apply(start, CallRetire(0, p)) == Scene(p, Idle, Thread(Idle, {}, []), Record(NULL, false, 0))
  {
    var start := Fresh(1, {0, 1});
    assert start.records == [Record(NULL, false, 0)];
    assert start.threads == map[0 := Thread(Idle, {}, []), 1 := Thread(Idle, {}, [])];
    assert [] + [Retired(p, 0)] == [Retired(p, 0)];
  }

  lemma SceneGoesOn(p: Ptr)
    ensures var idle, passed, none := Thread(Idle, {}, []), Reclaiming(0, [], 1, false), Record(NULL, false, 0);
            && Apply(Scene(p, Idle, idle, none), CallReclaim(0)) == Scene(p, StartOfReclaim, idle, none)
            && Apply(Scene(p, StartOfReclaim, idle, none), Step(0)) == Scene(p, passed, idle, none)
            && Apply(Scene(p, passed, idle, none), CallAcquire(1)) == Scene(p, passed, Thread(Acquiring(0), {}, []), none)
            && Apply(Scene(p, passed, Thread(Acquiring(0), {}, []), none), Step(1))
               == Scene(p, passed, Thread(Idle, {0}, []), Record(NULL, true, 1))
  {
    assert {} + {0} == {0};
  }

  lemma RunOneMore(n: nat, tids: set<Tid>, actions: seq<Action>, a: Action)
    requires Enabled(Run(n, tids, actions), a)
    ensures Run(n, tids, actions + [a]) == Apply(Run(n, tids, actions), a)
  {
    assert (actions + [a])[..|actions|] == actions;
  }

  /** Protecting a pointer after its retirement comes too late once the scan has passed the record. */
  lemma ProtectedTooLate(p: Ptr)
    requires p != NULL
    ensures var run := [CallRetire(0, p)] + [CallReclaim(0)] + [Step(0)] + [CallAcquire(1)] + [Step(1)] + [Protect(1, 0, p)] + [Step(0)];
            var s := Run(1, {0, 1}, run);
            s.freed == [Retired(p, 0)] && |s.records| == 1 && HoldsPointer(s.records[0], p) && 1 in s.threads && 0 in s.threads[1].held
  {
    var tids := {0, 1};
    SceneOpens(p);
    SceneGoesOn(p);
    var r1 := [CallRetire(0, p)];
    assert [] + r1 == r1;
    RunOneMore(1, tids, [], CallRetire(0, p));
    RunOneMore(1, tids, r1, CallReclaim(0));
    var r3 := r1 + [CallReclaim(0)] + [Step(0)];
    RunOneMore(1, tids, r1 + [CallReclaim(0)], Step(0));
    RunOneMore(1, tids, r3, CallAcquire(1));
    RunOneMore(1, tids, r3 + [CallAcquire(1)], Step(1));
    var r5 := r3 + [CallAcquire(1)] + [Step(1)];
    RunOneMore(1, tids, r5, Protect(1, 0, p));
    RunOneMore(1, tids, r5 + [Protect(1, 0, p)], Step(0));
  }

  // ----- Reclaim ends by itself -----

  /** The most own steps that `left` entries can take with `n` records. */
  function Budget(left: nat, n: nat): nat {
    if left == 0 then 1 else Budget(left - 1, n) + 2 * n + 1
  }

  /** The own steps that a Reclaim still has to take, at most. */
  function StepsLeft(th: Thread, n: nat): nat
    requires th.pc.Reclaiming? && th.pc.done <= |th.retired| && th.pc.at <= n
  {
    var left := |th.retired| - th.pc.done;
    if left == 0 then 1
    else if th.pc.at == n then Budget(left - 1, n) + 1
    else Budget(left - 1, n) + 2 * (n - th.pc.at) + 1 - (if th.pc.sawActive then 1 else 0)
  }

  predicate InReclaim(s: State, tid: Tid) {
    tid in s.threads && s.threads[tid].pc.Reclaiming? && s.threads[tid].pc.done <= |s.threads[tid].retired|
    && s.threads[tid].pc.at <= |s.records|
  }

  lemma BudgetStarts(th: Thread, n: nat)
    requires th.pc == StartOfReclaim
    ensures StepsLeft(th, n) == Budget(|th.retired|, n)
  {
  }

  /** The thread's own steps bring its Reclaim closer to its end, and no other thread's step takes it away from it. */
  lemma StepsLeftDecrease(s: State, tid: Tid, a: Action)
    requires InReclaim(s, tid) && Enabled(s, a)
    ensures var t := Apply(s, a);
            && |t.records| == |s.records|
            && (a.tid != tid ==> InReclaim(t, tid) && t.threads[tid] == s.threads[tid])
            && (a.tid == tid ==> t.threads[tid].pc == Idle
                                 || (InReclaim(t, tid) && StepsLeft(t.threads[tid], |s.records|) < StepsLeft(s.threads[tid], |s.records|)))
  {
  }

  /** A run that goes on from a state. */
  function GoOn(s: State, actions: seq<Action>): State {
    if actions == [] then s
    else
      var t, a := GoOn(s, actions[..|actions| - 1]), actions[|actions| - 1];
      if Enabled(t, a) then Apply(t, a) else t
  }

  /** How often a thread is given a step. */
  function StepsOf(actions: seq<Action>, tid: Tid): nat {
    if actions == [] then 0
    else StepsOf(actions[..|actions| - 1], tid) + if actions[|actions| - 1] == Step(tid) then 1 else 0
  }

  /** The thread is through with the Reclaim it was in. */
  predicate Through(s: State, tid: Tid) {
    tid in s.threads && s.threads[tid].pc == Idle
  }

  lemma StepIsCounted(s: State, tid: Tid, a: Action)
    requires InReclaim(s, tid)
    requires !Through(if Enabled(s, a) then Apply(s, a) else s, tid)
    ensures var t := if Enabled(s, a) then Apply(s, a) else s;
            && |t.records| == |s.records| && InReclaim(t, tid)
            && StepsLeft(t.threads[tid], |s.records|) + (if a == Step(tid) then 1 else 0) <= StepsLeft(s.threads[tid], |s.records|)
  {
    if Enabled(s, a) {
      StepsLeftDecrease(s, tid, a);
    }
  }

  lemma {:induction false} StepsAreCounted(s: State, tid: Tid, actions: seq<Action>)
    requires InReclaim(s, tid)
    requires forall j: nat :: j <= |actions| ==> !Through(GoOn(s, actions[..j]), tid)
    ensures var t := GoOn(s, actions);
            && |t.records| == |s.records| && InReclaim(t, tid)
            && StepsOf(actions, tid) + StepsLeft(t.threads[tid], |s.records|) <= StepsLeft(s.threads[tid], |s.records|)
  {
    if actions != [] {
      var m, before := |actions| - 1, actions[..|actions| - 1];
      forall j: nat | j <= m ensures before[..j] == actions[..j] && !Through(GoOn(s, before[..j]), tid) {
        assert before[..j] == actions[..j];
      }
      StepsAreCounted(s, tid, before);
      assert actions[..m + 1] == actions && !Through(GoOn(s, actions[..m + 1]), tid);
      StepIsCounted(GoOn(s, before), tid, actions[m]);
    }
  }

  lemma {:induction false} StepsOfPrefix(actions: seq<Action>, tid: Tid, j: nat)
    requires j <= |actions|
    ensures StepsOf(actions[..j], tid) <= StepsOf(actions, tid)
  {
    if j < |actions| {
      StepsOfPrefix(actions[..|actions| - 1], tid, j);
      assert actions[..|actions| - 1][..j] == actions[..j];
    } else {
      assert actions[..j] == actions;
    }
  }

  lemma {:induction false} PrefixWithSteps(actions: seq<Action>, tid: Tid, count: nat) returns (j: nat)
    requires count <= StepsOf(actions, tid)
    ensures j <= |actions| && StepsOf(actions[..j], tid) == count
  {
    if count == StepsOf(actions, tid) {
      j := |actions|;
      assert actions[..j] == actions;
    } else {
      j := PrefixWithSteps(actions[..|actions| - 1], tid, count);
      assert actions[..|actions| - 1][..j] == actions[..j];
    }
  }

  /** Reclaim is wait-free: whatever all other threads do, it ends before its own thread has been given more steps
      than a bound that is fixed when it starts. */
  lemma ReclaimIsWaitFree(s: State, tid: Tid, actions: seq<Action>) returns (j: nat)
    requires tid in s.threads && s.threads[tid].pc == StartOfReclaim
    requires StepsOf(actions, tid) >= Budget(|s.threads[tid].retired|, |s.records|)
    ensures j <= |actions| && Through(GoOn(s, actions[..j]), tid)
    ensures StepsOf(actions[..j], tid) <= Budget(|s.threads[tid].retired|, |s.records|)
  {
    var budget := Budget(|s.threads[tid].retired|, |s.records|);
    BudgetStarts(s.threads[tid], |s.records|);
    var m := PrefixWithSteps(actions, tid, budget);
    if forall i: nat :: i <= m ==> !Through(GoOn(s, actions[..m][..i]), tid) {
      StepsAreCounted(s, tid, actions[..m]);
      assert false;
    }
    j :| j <= m && Through(GoOn(s, actions[..m][..j]), tid);
    assert actions[..m][..j] == actions[..j];
    StepsOfPrefix(actions[..m], tid, j);
  }

  /** The bound in closed form. */
  lemma {:induction false} BudgetIs(left: nat, n: nat)
    ensures Budget(left, n) == left * (2 * n + 1) + 1
  {
    if left > 0 {
      BudgetIs(left - 1, n);
      assert left * (2 * n + 1) == (left - 1) * (2 * n + 1) + (2 * n + 1);
    }
  }
}
