/** What a pass of the loops does step by step, what a pause holds back, and what the journal says. */
module SagaPause {
  import opened SagaGraph
  import opened SagaMachine
  import opened SagaRuns

  // ----- one pass, by the statuses of the steps -----

  ghost predicate Some(s: State, st: StepStatus) {
    exists id :: id in s.status && s.status[id] == st
  }

  lemma NoneIsEmpty(s: State, st: StepStatus)
    ensures Some(s, st) <==> With(s, st) != {}
  {
    if Some(s, st) {
      var id :| id in s.status && s.status[id] == st;
      assert id in With(s, st);
    }
    if With(s, st) != {} {
      var id :| id in With(s, st);
    }
  }

  lemma PausedTickSleeps(p: Plan, s: State)
    requires Typed(p, s) && s.control.Scheduling? && s.saga == Paused
    ensures Apply(p, s, Tick) == s
  {
  }

  /** An unpaused pass after a failure starts the compensation, and changes no step. */
  lemma TickAfterFailure(p: Plan, s: State)
    requires Typed(p, s) && s.control.Scheduling? && s.saga != Paused && Some(s, Failed)
    ensures var t := Apply(p, s, Tick);
            && t.control == Unwinding && t.saga == RollingBack && t.status == s.status
            && t.journal == s.journal + [Changed(s.saga, RollingBack)]
  {
    NoneIsEmpty(s, Failed);
  }

  /** An unpaused pass with every step completed ends the saga. */
  lemma TickWhenDone(p: Plan, s: State)
    requires Typed(p, s) && s.control.Scheduling? && s.saga != Paused
    requires forall id :: id in s.status ==> s.status[id] == Completed
    ensures var t := Apply(p, s, Tick);
            && t.control == Ended(Succeeded) && t.saga == Succeeded && t.status == s.status
            && t.journal == s.journal + [Changed(s.saga, Succeeded)]
  {
    NoneIsEmpty(s, Failed);
    NoneIsEmpty(s, Pending);
    NoneIsEmpty(s, Executing);
  }

  /** The step is pending and all its dependencies are completed. */
  ghost predicate Startable(p: Plan, s: State, id: StepId)
    requires Typed(p, s) && id in s.status
  {
    s.status[id] == Pending && forall d :: d in p.graph[id] ==> d in s.status && s.status[d] == Completed
  }

  /** Exactly the startable steps are started, at their first attempt. */
  ghost predicate Started(p: Plan, s: State, t: State)
    requires Typed(p, s)
  {
    && t.control.Dispatching? && t.control.attempts.Keys != {} && t.saga == s.saga && t.journal == s.journal
    && forall id :: id in s.status ==>
         && id in t.status && t.status[id] == (if Startable(p, s, id) then Executing else s.status[id])
         && (id in t.control.attempts <==> Startable(p, s, id)) && (Startable(p, s, id) ==> t.control.attempts[id] == 0)
  }

  lemma DispatchStartsTheReady(p: Plan, s: State)
    requires Typed(p, s) && BranchOf(p, s) == Dispatch
    ensures Started(p, s, TickState(p, s))
  {
    var t := TickState(p, s);
    var r :| r in Ready(p, s);
    assert r in t.control.attempts;
    forall id | id in s.status ensures id in Ready(p, s) <==> Startable(p, s, id) {
    }
  }

  /** A pass that neither sleeps nor leaves the loop starts exactly the pending steps whose dependencies are
      all completed, all of them at once and at their first attempt. */
  lemma TickStartsTheReady(p: Plan, s: State)
    requires WellFormed(p) && Inv(p, s) && s.control.Scheduling? && s.saga != Paused && !Some(s, Failed) && Some(s, Pending)
    ensures Started(p, s, Apply(p, s, Tick))
  {
    NoneIsEmpty(s, Failed);
    NoneIsEmpty(s, Pending);
    NeverStuckForward(p, s);
    DispatchStartsTheReady(p, s);
  }

  /** In every reachable state the forward loop sleeps if and only if the saga is paused. */
  lemma SleepsIffPaused(p: Plan, s: State)
    requires WellFormed(p) && Inv(p, s) && s.control.Scheduling?
    ensures Apply(p, s, Tick) == s <==> s.saga == Paused
  {
    if s.saga != Paused {
      if Some(s, Failed) {
        TickAfterFailure(p, s);
      } else if Some(s, Pending) {
        TickStartsTheReady(p, s);
      } else {
        forall id | id in s.status ensures s.status[id] == Completed {
          assert Fits(p, s.control, id, s.status[id]);
        }
        TickWhenDone(p, s);
      }
    }
  }

  /** A pass of the compensation starts undoing exactly the completed steps on which no completed or
      compensating step depends; with none left it ends the saga. Pauses make no difference. */
  lemma UnwindStartsTheLeaves(p: Plan, s: State)
    requires WellFormed(p) && Inv(p, s) && s.control.Unwinding?
    ensures var t := Apply(p, s, Unwind);
            && (!Some(s, Completed) ==>
                  t.control == Ended(RolledBack) && t.saga == RolledBack && t.status == s.status
                  && t.journal == s.journal + [Changed(RollingBack, RolledBack)])
            && (Some(s, Completed) ==>
                  && t.control.Undoing? && t.control.inFlight != {} && t.saga == s.saga && t.journal == s.journal
                  && forall id :: id in s.status ==>
                       var starts := s.status[id] == Completed
                                     && forall o :: o in p.graph && (s.status[o] == Completed || s.status[o] == Compensating) ==> id !in p.graph[o];
                       && id in t.status && t.status[id] == (if starts then Compensating else s.status[id])
                       && (id in t.control.inFlight <==> starts))
  {
    NoneIsEmpty(s, Completed);
    LeafAlwaysFound(p, s);
  }

  // ----- what a pause holds back -----

  /** Steps in flight have left `pending`; this needs no assumption on retry limits. */
  ghost predicate FlightsLeftPending(s: State) {
    && (s.control.Dispatching? ==> forall id :: id in s.control.attempts ==> id in s.status && s.status[id] == Executing)
    && (s.control.Undoing? ==> forall id :: id in s.control.inFlight ==> id in s.status && s.status[id] == Compensating)
  }

  lemma FlightsStep(p: Plan, s: State, a: Action)
    requires Typed(p, s) && Enabled(p, s, a) && FlightsLeftPending(s)
    ensures FlightsLeftPending(Apply(p, s, a))
  {
    if a.Post? {
      LeaveControl(s.control.attempts, a.step);
    }
  }

  lemma {:induction false} FlightsAlways(p: Plan, run: seq<Action>)
    requires WellFormed(p) && Execute(p, run).At?
    ensures FlightsLeftPending(Execute(p, run).state)
  {
    if run != [] {
      FlightsAlways(p, run[..|run| - 1]);
      FlightsStep(p, Execute(p, run[..|run| - 1]).state, run[|run| - 1]);
    }
  }

  /** Only an unpaused pass of the forward loop takes a step out of `pending`. */
  lemma PendingStays(p: Plan, s: State, a: Action)
    requires Typed(p, s) && Enabled(p, s, a) && FlightsLeftPending(s) && (a == Tick ==> s.saga == Paused)
    ensures forall id :: id in s.status ==> (s.status[id] == Pending <==> Apply(p, s, a).status[id] == Pending)
  {
  }

  /** Between a pause and the next resume, a saga in its forward phase stays there, paused. */
  lemma PauseStays(p: Plan, s: State, a: Action)
    requires Typed(p, s) && Enabled(p, s, a) && s.saga == Paused && Forward(s.control) && a != Resume
    ensures Apply(p, s, a).saga == Paused && Forward(Apply(p, s, a).control)
  {
  }

  /** The action at `k` is a pause, and no resume follows. */
  predicate PausedFrom(run: seq<Action>, k: nat) {
    k < |run| && run[k] == Pause && forall j :: k < j < |run| ==> run[j] != Resume
  }

  lemma {:induction false} ExecutePrefix(p: Plan, run: seq<Action>, k: nat)
    requires WellFormed(p) && Execute(p, run).At? && k <= |run|
    ensures Execute(p, run[..k]).At?
  {
    if k < |run| {
      ExecutePrefix(p, run[..|run| - 1], k);
      assert run[..|run| - 1][..k] == run[..k];
    } else {
      assert run[..k] == run;
    }
  }

  /** What pausing in the forward phase holds back: no further step starts, and the saga does not end. */
  lemma {:induction false} PauseHolds(p: Plan, run: seq<Action>, k: nat)
    requires WellFormed(p) && Execute(p, run).At? && PausedFrom(run, k)
    ensures Execute(p, run[..k]).At?
    ensures var before, now := Execute(p, run[..k]).state, Execute(p, run).state;
            Forward(before.control) ==>
              && Forward(now.control) && now.saga == Paused
              && forall id :: id in before.status ==> id in now.status && (now.status[id] == Pending <==> before.status[id] == Pending)
    decreases |run|
  {
    var prefix, a := run[..|run| - 1], run[|run| - 1];
    ExecutePrefix(p, run, k);
    FlightsAlways(p, prefix);
    if k == |run| - 1 {
      PendingStays(p, Execute(p, prefix).state, a);
    } else {
      assert prefix[..k] == run[..k];
      PauseHolds(p, prefix, k);
      if Forward(Execute(p, run[..k]).state.control) {
        PauseStays(p, Execute(p, prefix).state, a);
        PendingStays(p, Execute(p, prefix).state, a);
      }
    }
  }

  /** A step that is pending was pending before, and was not posted now. */
  lemma StillPending(p: Plan, s: State, a: Action, id: StepId)
    requires Typed(p, s) && Enabled(p, s, a) && FlightsLeftPending(s)
    requires id in s.status && Apply(p, s, a).status[id] == Pending
    ensures s.status[id] == Pending && !(a.Post? && a.step == id)
  {
  }

  /** What has not left `pending` has never been posted. */
  lemma {:induction false} PendingIsUnposted(p: Plan, run: seq<Action>, id: StepId)
    requires WellFormed(p) && Execute(p, run).At? && id in p.graph && Execute(p, run).state.status[id] == Pending
    ensures Posts(run, id) == 0
  {
    if run != [] {
      var prefix := run[..|run| - 1];
      FlightsAlways(p, prefix);
      StillPending(p, Execute(p, prefix).state, run[|run| - 1], id);
      PendingIsUnposted(p, prefix, id);
    }
  }

  /** A step that is pending when its saga is paused is not posted before the saga is resumed. */
  lemma PausedIsNotPosted(p: Plan, run: seq<Action>, k: nat, id: StepId)
    requires WellFormed(p) && Execute(p, run).At? && PausedFrom(run, k) && id in p.graph
    requires Execute(p, run[..k]).At? && Forward(Execute(p, run[..k]).state.control) && Execute(p, run[..k]).state.status[id] == Pending
    ensures Posts(run, id) == 0
  {
    PauseHolds(p, run, k);
    PendingIsUnposted(p, run, id);
  }

  // ----- the journal -----

  function To(e: Entry): SagaStatus {
    match e
    case Opened(to) => to
    case Changed(_, to) => to
  }

  ghost predicate JournalOk(s: State) {
    && s.journal != [] && s.journal[0] == Opened(Running)
    && (forall i :: 0 < i < |s.journal| ==> s.journal[i].Changed?)
    && To(s.journal[|s.journal| - 1]) == s.saga
  }

  /** An action adds at most one row, which ends in the new status. */
  lemma RowsAdded(p: Plan, s: State, a: Action)
    requires Typed(p, s) && Enabled(p, s, a)
    ensures var t := Apply(p, s, a);
            (t.journal == s.journal && t.saga == s.saga)
            || (t.journal == s.journal + [t.journal[|s.journal|]] && t.journal[|s.journal|].Changed? && t.journal[|s.journal|].to == t.saga)
  {
  }

  lemma JournalStep(p: Plan, s: State, a: Action)
    requires Typed(p, s) && Enabled(p, s, a) && JournalOk(s)
    ensures JournalOk(Apply(p, s, a))
  {
    RowsAdded(p, s, a);
  }

  /** The journal begins with the running saga and ends with its present status. */
  lemma {:induction false} JournalEndsInStatus(p: Plan, run: seq<Action>)
    requires WellFormed(p) && Execute(p, run).At?
    ensures JournalOk(Execute(p, run).state)
  {
    if run != [] {
      JournalEndsInStatus(p, run[..|run| - 1]);
      JournalStep(p, Execute(p, run[..|run| - 1]).state, run[|run| - 1]);
    }
  }

  /** Each row starts where the one before it ended. */
  predicate Chained(journal: seq<Entry>) {
    forall i :: 0 < i < |journal| && journal[i].Changed? ==> journal[i].from == To(journal[i - 1])
  }

  lemma ChainGrows(journal: seq<Entry>, e: Entry)
    requires journal != [] && e.Changed?
    ensures Chained(journal + [e]) <==> Chained(journal) && e.from == To(journal[|journal| - 1])
  {
    var l := journal + [e];
    assert l[|journal|] == e && l[|journal| - 1] == journal[|journal| - 1];
    if Chained(l) {
      forall i | 0 < i < |journal| && journal[i].Changed? ensures journal[i].from == To(journal[i - 1]) {
        assert l[i] == journal[i] && l[i - 1] == journal[i - 1];
      }
    }
  }

  /** A pause of a saga that is not running, or a resume of one that is not paused; both write the row they would otherwise. */
  predicate Misreported(s: State, a: Action) {
    (a == Pause && s.saga != Running) || (a == Resume && s.saga != Paused)
  }

  predicate RollsBack(c: Control) {
    c.Unwinding? || c.Undoing?
  }

  lemma ChainedStep(p: Plan, s: State, a: Action)
    requires Typed(p, s) && Enabled(p, s, a) && JournalOk(s) && (Chained(s.journal) && RollsBack(s.control) ==> s.saga == RollingBack)
    ensures Chained(Apply(p, s, a).journal) <==> Chained(s.journal) && !Misreported(s, a)
    ensures var t := Apply(p, s, a); Chained(t.journal) && RollsBack(t.control) ==> t.saga == RollingBack
  {
    var t := Apply(p, s, a);
    RowsAdded(p, s, a);
    match a
    case Pause => ChainGrows(s.journal, Changed(Running, Paused));
    case Resume => ChainGrows(s.journal, Changed(Paused, Running));
    case Tick => if t.saga != s.saga || t.journal != s.journal { ChainGrows(s.journal, t.journal[|s.journal|]); }
    case Unwind => ChainGrows(s.journal, Changed(RollingBack, RolledBack));
    case _ =>
  }

  ghost predicate NeverMisreported(p: Plan, run: seq<Action>)
    requires WellFormed(p)
  {
    forall j: nat :: j < |run| && Execute(p, run[..j]).At? ==> !Misreported(Execute(p, run[..j]).state, run[j])
  }

  lemma MisreportedLast(p: Plan, run: seq<Action>)
    requires WellFormed(p) && run != [] && Execute(p, run[..|run| - 1]).At?
    ensures NeverMisreported(p, run) <==>
            NeverMisreported(p, run[..|run| - 1]) && !Misreported(Execute(p, run[..|run| - 1]).state, run[|run| - 1])
  {
    var n := |run| - 1;
    forall j: nat | j < n ensures run[..n][..j] == run[..j] && run[..n][j] == run[j] {
    }
  }

  /** The journal of a run is a chain of statuses if and only if only running sagas were paused and only paused ones were resumed. */
  lemma {:induction false} JournalChainedIff(p: Plan, run: seq<Action>)
    requires WellFormed(p) && Execute(p, run).At?
    ensures Chained(Execute(p, run).state.journal) <==> NeverMisreported(p, run)
    ensures var s := Execute(p, run).state; Chained(s.journal) && RollsBack(s.control) ==> s.saga == RollingBack
  {
    if run != [] {
      var prefix := run[..|run| - 1];
      JournalChainedIff(p, prefix);
      JournalEndsInStatus(p, prefix);
      ChainedStep(p, Execute(p, prefix).state, run[|run| - 1]);
      MisreportedLast(p, run);
    }
  }
}
