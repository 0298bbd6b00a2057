/** What holds over whole runs of the saga orchestrator, under every pattern of
    step replies and every interleaving of pauses and resumes. */
module SagaRuns {
  import opened SagaGraph
  import opened SagaMachine

  /** How often the execute URL of `id` has been posted. */
  ghost function Posts(run: seq<Action>, id: StepId): nat {
    if run == [] then 0
    else
      var a := run[|run| - 1];
      Posts(run[..|run| - 1], id) + if a.Post? && a.step == id then 1 else 0
  }

  /** How often the compensation of `id` has finished. */
  ghost function Undos(run: seq<Action>, id: StepId): nat {
    if run == [] then 0
    else Undos(run[..|run| - 1], id) + if run[|run| - 1] == Undo(id) then 1 else 0
  }

  ghost predicate Succeeds(run: seq<Action>, id: StepId) {
    Post(id, true) in run
  }

  /** What a step's status says about the POSTs made for it. */
  ghost predicate Recorded(limit: int, control: Control, id: StepId, st: StepStatus, posts: nat, undos: nat, succeeded: bool) {
    && (succeeded <==> st.Completed? || st.Compensating? || st.Compensated?)
    && undos == (if st.Compensated? then 1 else 0)
    && (match st
        case Pending => posts == 0
        case Executing => control.Dispatching? && id in control.attempts && posts == control.attempts[id]
        case Failed => posts == limit + 1
        case _ => 1 <= posts <= limit + 1)
  }

  ghost predicate StepInv(p: Plan, run: seq<Action>, s: State, id: StepId)
    requires id in p.maxRetries && id in s.status
  {
    Recorded(p.maxRetries[id], s.control, id, s.status[id], Posts(run, id), Undos(run, id), Succeeds(run, id))
  }

  /** Compensation runs only because some step failed. */
  ghost predicate FailureBehind(s: State) {
    s.control.Unwinding? || s.control.Undoing? || s.control == Ended(RolledBack) ==> With(s, Failed) != {}
  }

  ghost predicate RunInv(p: Plan, run: seq<Action>, s: State) {
    && Inv(p, s)
    && (forall id :: id in s.status ==> StepInv(p, run, s, id))
    && FailureBehind(s)
  }

  lemma LastAction(run: seq<Action>, a: Action, id: StepId)
    ensures Posts(run + [a], id) == Posts(run, id) + if a.Post? && a.step == id then 1 else 0
    ensures Undos(run + [a], id) == Undos(run, id) + if a == Undo(id) then 1 else 0
    ensures Succeeds(run + [a], id) <==> Succeeds(run, id) || a == Post(id, true)
  {
    assert (run + [a])[..|run|] == run;
  }

  lemma PostRecorded(p: Plan, s: State, x: StepId, ok: bool, id: StepId, posts: nat, undos: nat, succeeded: bool)
    requires RetriesAllowed(p) && Inv(p, s) && Enabled(p, s, Post(x, ok)) && id in s.status
    requires Recorded(p.maxRetries[id], s.control, id, s.status[id], posts, undos, succeeded)
    ensures var t := PostState(p, s, x, ok);
            id in t.status &&
            Recorded(p.maxRetries[id], t.control, id, t.status[id], posts + (if x == id then 1 else 0), undos,
                     succeeded || (x == id && ok))
  {
    assert Fits(p, s.control, id, s.status[id]);
    assert Fits(p, s.control, x, s.status[x]);
    LeaveControl(s.control.attempts, x);
  }

  /** The effect of one action on what is recorded of one step. */
  lemma StepRecorded(p: Plan, s: State, a: Action, id: StepId, posts: nat, undos: nat, succeeded: bool)
    requires RetriesAllowed(p) && Inv(p, s) && Enabled(p, s, a) && id in s.status
    requires Recorded(p.maxRetries[id], s.control, id, s.status[id], posts, undos, succeeded)
    ensures var t := Apply(p, s, a);
            id in t.status &&
            Recorded(p.maxRetries[id], t.control, id, t.status[id], posts + (if a.Post? && a.step == id then 1 else 0),
                     undos + (if a == Undo(id) then 1 else 0), succeeded || a == Post(id, true))
  {
    if a.Post? {
      PostRecorded(p, s, a.step, a.ok, id, posts, undos, succeeded);
    } else {
      assert Fits(p, s.control, id, s.status[id]);
    }
  }

  lemma FailureStays(p: Plan, s: State, a: Action)
    requires RetriesAllowed(p) && Inv(p, s) && Enabled(p, s, a) && FailureBehind(s)
    ensures FailureBehind(Apply(p, s, a))
  {
    var t := Apply(p, s, a);
    if With(s, Failed) != {} {
      var f :| f in With(s, Failed);
      assert Fits(p, s.control, f, s.status[f]);
      assert f in With(t, Failed);
    } else if a.Post? {
      LeaveControl(s.control.attempts, a.step);
    }
  }

  lemma RunInvStep(p: Plan, run: seq<Action>, s: State, a: Action)
    requires RetriesAllowed(p) && RunInv(p, run, s) && Enabled(p, s, a)
    ensures RunInv(p, run + [a], Apply(p, s, a))
  {
    var t := Apply(p, s, a);
    StepKeepsInv(p, s, a);
    FailureStays(p, s, a);
    forall id | id in t.status ensures id in p.maxRetries && StepInv(p, run + [a], t, id) {
      assert StepInv(p, run, s, id);
      StepRecorded(p, s, a, id, Posts(run, id), Undos(run, id), Succeeds(run, id));
      LastAction(run, a, id);
    }
  }

  lemma {:induction false} ReachableRunInv(p: Plan, run: seq<Action>)
    requires WellFormed(p) && RetriesAllowed(p) && Execute(p, run).At?
    ensures RunInv(p, run, Execute(p, run).state)
  {
    ReachableInv(p, run);
    if run != [] {
      var prefix, a := run[..|run| - 1], run[|run| - 1];
      ReachableRunInv(p, prefix);
      assert run == prefix + [a];
      RunInvStep(p, prefix, Execute(p, prefix).state, a);
    }
  }

  // ----- the theorems -----

  /** No step is posted more than max_retries + 1 times. */
  lemma PostsBounded(p: Plan, run: seq<Action>, id: StepId)
    requires WellFormed(p) && RetriesAllowed(p) && Execute(p, run).At? && id in p.graph
    ensures Posts(run, id) <= p.maxRetries[id] + 1
  {
    ReachableRunInv(p, run);
    var s := Execute(p, run).state;
    assert StepInv(p, run, s, id);
    assert Fits(p, s.control, id, s.status[id]);
  }

  /** When a step is posted, all its dependencies have succeeded. */
  lemma PostedHasDeps(p: Plan, run: seq<Action>, id: StepId, d: StepId, ok: bool)
    requires WellFormed(p) && RetriesAllowed(p) && Execute(p, run).At? && Enabled(p, Execute(p, run).state, Post(id, ok))
    requires id in p.graph && d in p.graph[id]
    ensures Succeeds(run, d)
  {
    ReachableRunInv(p, run);
    var s := Execute(p, run).state;
    assert Fits(p, s.control, id, s.status[id]);
    assert AllCompleted(s, p.graph[id]);
    assert StepInv(p, run, s, d);
  }

  /** A step is posted only after every one of its dependencies has succeeded. */
  lemma {:induction false} DependenciesSucceedFirst(p: Plan, run: seq<Action>, id: StepId, d: StepId)
    requires WellFormed(p) && RetriesAllowed(p) && Execute(p, run).At?
    requires id in p.graph && d in p.graph[id] && Posts(run, id) > 0
    ensures Succeeds(run, d)
  {
    var prefix, a := run[..|run| - 1], run[|run| - 1];
    if a.Post? && a.step == id {
      PostedHasDeps(p, prefix, id, d, a.ok);
    } else {
      DependenciesSucceedFirst(p, prefix, id, d);
    }
  }

  /** When the undo of a step has been started, every dependent of it that
      ever succeeded has been undone already. */
  lemma DependentsUndoneFirst(p: Plan, run: seq<Action>, id: StepId, dependent: StepId)
    requires WellFormed(p) && RetriesAllowed(p) && Execute(p, run).At?
    requires dependent in p.graph && id in p.graph[dependent] && id in p.graph
    requires Execute(p, run).state.status[id].Compensating? || Execute(p, run).state.status[id].Compensated?
    ensures Succeeds(run, dependent) ==> Undos(run, dependent) == 1
  {
    ReachableRunInv(p, run);
    var s := Execute(p, run).state;
    assert StepInv(p, run, s, dependent);
    assert Holding(s.status[dependent]) ==> AllCompleted(s, p.graph[dependent]);
  }

  /** How a run can end: with every step done and nothing undone, or with some
      step out of retries and exactly the steps that succeeded undone, once each. */
  lemma Outcomes(p: Plan, run: seq<Action>)
    requires WellFormed(p) && RetriesAllowed(p) && Execute(p, run).At?
    ensures Execute(p, run).state.control == Ended(Succeeded) ==>
              forall id :: id in p.graph ==> Succeeds(run, id) && Undos(run, id) == 0
    ensures Execute(p, run).state.control == Ended(RolledBack) ==>
              && (exists id :: id in p.graph && !Succeeds(run, id) && Posts(run, id) == p.maxRetries[id] + 1)
              && (forall id :: id in p.graph ==> Undos(run, id) == if Succeeds(run, id) then 1 else 0)
  {
    ReachableRunInv(p, run);
    var s := Execute(p, run).state;
    forall id | id in s.status ensures Fits(p, s.control, id, s.status[id]) && StepInv(p, run, s, id) {}
    if s.control == Ended(RolledBack) {
      var f :| f in With(s, Failed);
      assert f in p.graph && !Succeeds(run, f) && Posts(run, f) == p.maxRetries[f] + 1;
    }
  }

  // ----- the forward loop needs at most one dispatch per step -----

  /** The passes of the forward loop in `run` that took a branch satisfying `dispatching`. */
  ghost function Rounds(p: Plan, run: seq<Action>, dispatchOnly: bool): nat
    requires WellFormed(p)
  {
    if run == [] then 0
    else
      var prefix := run[..|run| - 1];
      var b := Execute(p, prefix);
      var counts := run[|run| - 1] == Tick && b.At? && b.state.control.Scheduling?
                    && BranchOf(p, b.state) != Sleep && (dispatchOnly ==> BranchOf(p, b.state) == Dispatch);
      Rounds(p, prefix, dispatchOnly) + if counts then 1 else 0
  }

  predicate Forward(c: Control) {
    c.Scheduling? || c.Dispatching?
  }

  lemma PendingShrinks(p: Plan, s: State, a: Action)
    requires RetriesAllowed(p) && Inv(p, s) && Enabled(p, s, a)
    ensures |With(Apply(p, s, a), Pending)| <= |With(s, Pending)|
    ensures a == Tick && BranchOf(p, s) == Dispatch ==> |With(Apply(p, s, a), Pending)| < |With(s, Pending)|
  {
    var t := Apply(p, s, a);
    assert With(t, Pending) <= With(s, Pending) by {
      if a.Post? {
        assert Fits(p, s.control, a.step, s.status[a.step]);
      }
    }
    Subset(With(t, Pending), With(s, Pending));
    if a == Tick && BranchOf(p, s) == Dispatch {
      var r :| r in Ready(p, s);
      assert r in With(s, Pending) && r !in With(t, Pending);
    }
  }

  lemma {:induction false} Subset(a: set<StepId>, b: set<StepId>)
    requires a <= b
    ensures |a| <= |b| && (|a| == |b| ==> a == b)
  {
    if a != {} {
      var x :| x in a;
      Subset(a - {x}, b - {x});
      assert a == (a - {x}) + {x} && b == (b - {x}) + {x};
    }
  }

  /** A forward pass that is not slept through dispatches, or ends the forward phase. */
  lemma ForwardLeft(p: Plan, s: State, a: Action)
    requires WellFormed(p) && RetriesAllowed(p) && Inv(p, s) && Enabled(p, s, a)
    ensures Forward(s.control) && !Forward(Apply(p, s, a).control) <==>
            a == Tick && BranchOf(p, s) != Sleep && BranchOf(p, s) != Dispatch
    ensures !Forward(s.control) ==> !Forward(Apply(p, s, a).control)
  {
    if a == Tick {
      NeverStuckForward(p, s);
    } else if a.Post? {
      LeaveControl(s.control.attempts, a.step);
    }
  }

  /** In a run with any pauses in it, each unpaused pass but the last dispatches
      some step, so there are at most n dispatches and n + 1 unpaused passes,
      and after n + 1 of them the forward phase is over. */
  lemma {:induction false} ForwardRounds(p: Plan, run: seq<Action>)
    requires WellFormed(p) && RetriesAllowed(p) && Execute(p, run).At?
    ensures var s := Execute(p, run).state;
            && Rounds(p, run, true) + |With(s, Pending)| <= |p.graph.Keys|
            && Rounds(p, run, false) == Rounds(p, run, true) + if Forward(s.control) then 0 else 1
  {
    if run == [] {
      assert With(Init(p), Pending) == p.graph.Keys;
    } else {
      var prefix, a := run[..|run| - 1], run[|run| - 1];
      var s := Execute(p, prefix).state;
      ForwardRounds(p, prefix);
      ReachableInv(p, prefix);
      PendingShrinks(p, s, a);
      ForwardLeft(p, s, a);
    }
  }

  // ----- termination of the whole orchestrator -----

  function Weight(limit: int, control: Control, id: StepId, st: StepStatus): nat {
    match st
    case Pending => (if limit < 0 then 0 else limit) + 5
    case Executing =>
      if control.Dispatching? && id in control.attempts && control.attempts[id] <= limit
      then limit + 4 - control.attempts[id] else 4
    case Completed => 3
    case Compensating => 2
    case Compensated => 1
    case Failed => 0
  }

  ghost function StepWeight(p: Plan, s: State, id: StepId): nat {
    if id in s.status && id in p.maxRetries then Weight(p.maxRetries[id], s.control, id, s.status[id]) else 0
  }

  ghost function Total(p: Plan, s: State, rows: seq<StepId>): nat {
    if rows == [] then 0 else StepWeight(p, s, rows[0]) + Total(p, s, rows[1..])
  }

  ghost function Measure(p: Plan, s: State): nat {
    4 * Total(p, s, p.rows) + (if Forward(s.control) then 2 else if s.control.Ended? then 0 else 1)
  }

  lemma {:induction false} TotalDrops(p: Plan, s: State, t: State, rows: seq<StepId>)
    requires forall id :: id in rows ==> StepWeight(p, t, id) <= StepWeight(p, s, id)
    ensures Total(p, t, rows) <= Total(p, s, rows)
    ensures (exists id :: id in rows && StepWeight(p, t, id) < StepWeight(p, s, id)) ==> Total(p, t, rows) < Total(p, s, rows)
  {
    if rows != [] {
      TotalDrops(p, s, t, rows[1..]);
      if id :| id in rows && StepWeight(p, t, id) < StepWeight(p, s, id) {
        assert id == rows[0] || id in rows[1..];
      }
    }
  }

  /** Everything except a pause, a resume and a pass slept through. */
  ghost predicate Works(p: Plan, s: State, a: Action)
    requires Typed(p, s)
  {
    !a.Pause? && !a.Resume? && !(a.Tick? && BranchOf(p, s) == Sleep)
  }

  lemma PostLowersWeight(p: Plan, s: State, a: Action, id: StepId)
    requires RetriesAllowed(p) && Inv(p, s) && Enabled(p, s, a) && id in p.graph && a.Post?
    ensures StepWeight(p, Apply(p, s, a), id) <= StepWeight(p, s, id)
    ensures a.step == id ==> StepWeight(p, Apply(p, s, a), id) < StepWeight(p, s, id)
  {
    assert Fits(p, s.control, id, s.status[id]);
    assert Fits(p, s.control, a.step, s.status[a.step]);
    LeaveControl(s.control.attempts, a.step);
  }

  lemma NoWeightGrows(p: Plan, s: State, a: Action, id: StepId)
    requires RetriesAllowed(p) && Inv(p, s) && Enabled(p, s, a) && id in p.graph
    ensures StepWeight(p, Apply(p, s, a), id) <= StepWeight(p, s, id)
    ensures (a.Post? && a.step == id) || a == Undo(id) ==> StepWeight(p, Apply(p, s, a), id) < StepWeight(p, s, id)
    ensures a.Tick? && BranchOf(p, s) == Dispatch && id in Ready(p, s) ==> StepWeight(p, Apply(p, s, a), id) < StepWeight(p, s, id)
    ensures a.Unwind? && With(s, Completed) != {} && id in Leaves(p, s) ==> StepWeight(p, Apply(p, s, a), id) < StepWeight(p, s, id)
  {
    if a.Post? {
      PostLowersWeight(p, s, a, id);
    } else {
      assert Fits(p, s.control, id, s.status[id]);
    }
  }

  lemma NoTotalGrows(p: Plan, s: State, a: Action)
    requires Elements(p.rows) == p.graph.Keys && RetriesAllowed(p) && Inv(p, s) && Enabled(p, s, a)
    ensures Total(p, Apply(p, s, a), p.rows) <= Total(p, s, p.rows)
    ensures Forward(Apply(p, s, a).control) ==> Forward(s.control)
    ensures s.control.Ended? ==> Apply(p, s, a).control == s.control
  {
    forall id | id in p.rows ensures StepWeight(p, Apply(p, s, a), id) <= StepWeight(p, s, id) {
      assert id in Elements(p.rows);
      NoWeightGrows(p, s, a, id);
    }
    TotalDrops(p, s, Apply(p, s, a), p.rows);
    if a.Post? {
      LeaveControl(s.control.attempts, a.step);
    }
  }

  /** An action that moves the step `id` on lowers the total. */
  lemma TotalFalls(p: Plan, s: State, a: Action, id: StepId)
    requires Elements(p.rows) == p.graph.Keys && RetriesAllowed(p) && Inv(p, s) && Enabled(p, s, a) && id in p.graph
    requires || (a.Post? && a.step == id) || a == Undo(id)
             || (a.Tick? && BranchOf(p, s) == Dispatch && id in Ready(p, s))
             || (a.Unwind? && With(s, Completed) != {} && id in Leaves(p, s))
    ensures Total(p, Apply(p, s, a), p.rows) < Total(p, s, p.rows)
  {
    forall x | x in p.rows ensures StepWeight(p, Apply(p, s, a), x) <= StepWeight(p, s, x) {
      assert x in Elements(p.rows);
      NoWeightGrows(p, s, a, x);
    }
    assert id in Elements(p.rows);
    NoWeightGrows(p, s, a, id);
    TotalDrops(p, s, Apply(p, s, a), p.rows);
  }

  lemma TickLowersMeasure(p: Plan, s: State)
    requires WellFormed(p) && RetriesAllowed(p) && Inv(p, s) && Enabled(p, s, Tick)
    ensures Works(p, s, Tick) ==> Measure(p, Apply(p, s, Tick)) < Measure(p, s)
  {
    NoTotalGrows(p, s, Tick);
    NeverStuckForward(p, s);
    if BranchOf(p, s) == Dispatch {
      var r :| r in Ready(p, s);
      TotalFalls(p, s, Tick, r);
    }
  }

  lemma UnwindLowersMeasure(p: Plan, s: State)
    requires WellFormed(p) && RetriesAllowed(p) && Inv(p, s) && Enabled(p, s, Unwind)
    ensures Works(p, s, Unwind) ==> Measure(p, Apply(p, s, Unwind)) < Measure(p, s)
  {
    NoTotalGrows(p, s, Unwind);
    LeafAlwaysFound(p, s);
    if With(s, Completed) != {} {
      var c :| c in Leaves(p, s);
      TotalFalls(p, s, Unwind, c);
    }
  }

  /** Every working action brings the orchestrator strictly closer to its end. */
  lemma WorkLowersMeasure(p: Plan, s: State, a: Action)
    requires WellFormed(p) && RetriesAllowed(p) && Inv(p, s) && Enabled(p, s, a)
    ensures Measure(p, Apply(p, s, a)) <= Measure(p, s)
    ensures Works(p, s, a) ==> Measure(p, Apply(p, s, a)) < Measure(p, s)
  {
    NoTotalGrows(p, s, a);
    match a
    case Tick => TickLowersMeasure(p, s);
    case Post(id, _) => TotalFalls(p, s, a, id);
    case Unwind => UnwindLowersMeasure(p, s);
    case Undo(id) => TotalFalls(p, s, a, id);
    case Pause =>
    case Resume =>
  }

  ghost function WorkIn(p: Plan, run: seq<Action>): nat
    requires WellFormed(p)
  {
    if run == [] then 0
    else
      var before := Execute(p, run[..|run| - 1]);
      WorkIn(p, run[..|run| - 1]) + if before.At? && Works(p, before.state, run[|run| - 1]) then 1 else 0
  }

  /** However replies and pauses fall, the orchestrator does only boundedly much work ... */
  lemma {:induction false} WorkIsBounded(p: Plan, run: seq<Action>)
    requires WellFormed(p) && RetriesAllowed(p) && Execute(p, run).At?
    ensures WorkIn(p, run) + Measure(p, Execute(p, run).state) <= Measure(p, Init(p))
  {
    if run != [] {
      var prefix := run[..|run| - 1];
      WorkIsBounded(p, prefix);
      ReachableInv(p, prefix);
      WorkLowersMeasure(p, Execute(p, prefix).state, run[|run| - 1]);
    }
  }

  /** ... and until it has ended there is always work it can do, unless it is paused. */
  lemma WorkIsAvailable(p: Plan, s: State) returns (a: Action)
    requires WellFormed(p) && Inv(p, s) && !s.control.Ended?
    ensures Enabled(p, s, a) && (Works(p, s, a) || (s.saga == Paused && s.control.Scheduling?))
    ensures a.Post? ==> a.ok
  {
    match s.control
    case Scheduling => a := Tick;
    case Dispatching(attempts) =>
      var id :| id in attempts.Keys;
      a := Post(id, true);
    case Unwinding => a := Unwind;
    case Undoing(inFlight) =>
      var id :| id in inFlight;
      a := Undo(id);
  }

  // ----- negative retry limits -----

  ghost predicate Hanging(s: State, id: StepId) {
    && id in s.status && (s.status[id].Pending? || s.status[id].Executing?)
    && (s.control.Undoing? ==> id !in s.control.inFlight)
    && s.control != Ended(Succeeded)
  }

  lemma HangingStays(p: Plan, s: State, a: Action, id: StepId)
    requires Typed(p, s) && Enabled(p, s, a) && id in p.graph && p.maxRetries[id] < 0 && Hanging(s, id)
    ensures Hanging(Apply(p, s, a), id)
  {
    if a.Tick? {
      assert id in With(s, Pending) || id in With(s, Executing);
    } else if a.Post? {
      LeaveControl(s.control.attempts, a.step);
    }
  }

  /** A step with a negative limit never leaves `pending` or `executing`. */
  lemma {:induction false} NegativeLimitHangs(p: Plan, run: seq<Action>, id: StepId)
    requires WellFormed(p) && Execute(p, run).At? && id in p.graph && p.maxRetries[id] < 0
    ensures Hanging(Execute(p, run).state, id)
  {
    if run != [] {
      NegativeLimitHangs(p, run[..|run| - 1], id);
      HangingStays(p, Execute(p, run[..|run| - 1]).state, run[|run| - 1], id);
    }
  }

  /** Without failures so far, in the forward phase or completed. */
  ghost predicate OnCourse(s: State) {
    With(s, Failed) == {} && (Forward(s.control) || s.control == Ended(Succeeded))
  }

  /** Such a state stays on course when a pause is lifted and when every POST succeeds. */
  lemma StayOnCourse(p: Plan, s: State) returns (a: Action)
    requires WellFormed(p) && RetriesAllowed(p) && Inv(p, s) && OnCourse(s) && !s.control.Ended?
    ensures Enabled(p, s, a) && OnCourse(Apply(p, s, a))
    ensures s.saga == Paused ==> a == Resume
    ensures s.saga != Paused ==> Works(p, s, a)
  {
    if s.saga == Paused {
      a := Resume;
    } else {
      a := WorkIsAvailable(p, s);
      if a.Tick? {
        NeverStuckForward(p, s);
      } else {
        LeaveControl(s.control.attempts, a.step);
      }
    }
    forall id | id in Apply(p, s, a).status ensures Apply(p, s, a).status[id] != Failed {
      assert id !in With(s, Failed);
    }
    assert With(Apply(p, s, a), Failed) == {};
  }

  /** From a state without failures, resuming and answering every POST with success completes the saga. */
  lemma {:induction false} SuccessReachable(p: Plan, run: seq<Action>) returns (full: seq<Action>)
    requires WellFormed(p) && RetriesAllowed(p) && Execute(p, run).At? && OnCourse(Execute(p, run).state)
    ensures Execute(p, full).At? && Execute(p, full).state.control == Ended(Succeeded)
    decreases Measure(p, Execute(p, run).state), if Execute(p, run).state.saga == Paused then 1 else 0
  {
    var s := Execute(p, run).state;
    if s.control.Ended? {
      return run;
    }
    ReachableInv(p, run);
    var a := StayOnCourse(p, s);
    WorkLowersMeasure(p, s, a);
    assert (run + [a])[..|run|] == run;
    assert Execute(p, run + [a]) == At(Apply(p, s, a));
    full := SuccessReachable(p, run + [a]);
  }

  /** A stored saga can complete if and only if none of its steps has a negative max_retries. */
  lemma CompletableIffRetriesAllowed(p: Plan)
    requires WellFormed(p)
    ensures RetriesAllowed(p) <==>
            exists run :: Execute(p, run).At? && Execute(p, run).state.control == Ended(Succeeded)
  {
    if RetriesAllowed(p) {
      assert With(Init(p), Failed) == {};
      var run := SuccessReachable(p, []);
    } else {
      var id :| id in p.maxRetries && p.maxRetries[id] < 0;
      assert id in p.maxRetries.Keys && id in p.graph;
      forall run | Execute(p, run).At? ensures Execute(p, run).state.control != Ended(Succeeded) {
        NegativeLimitHangs(p, run, id);
      }
    }
  }
}
