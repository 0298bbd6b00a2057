/** The saga orchestrator as a state machine. Each `BEGIN IMMEDIATE`..`COMMIT`
    block, each reply to a POST and each pause or resume is one atomic action. */
module SagaMachine {
  import opened SagaGraph

  datatype StepStatus = Pending | Executing | Completed | Failed | Compensating | Compensated

  /** The status column of the saga's own row. */
  datatype SagaStatus = Running | Paused | Succeeded | RollingBack | RolledBack

  /** One journal row; the first has no `from`. */
  datatype Entry = Opened(to: SagaStatus) | Changed(from: SagaStatus, to: SagaStatus)

  /** What create_saga stores: the steps in row order, their dependencies and retry limits. */
  datatype Plan = Plan(rows: seq<StepId>, graph: Graph, maxRetries: map<StepId, int>)

  /** Where the background task stands. `attempts` holds the local variable
      `attempt` of every exec_step still running. */
  datatype Control =
    | Scheduling
    | Dispatching(attempts: map<StepId, nat>)
    | Unwinding
    | Undoing(inFlight: set<StepId>)
    | Ended(outcome: SagaStatus)

  datatype State = State(status: map<StepId, StepStatus>, saga: SagaStatus, control: Control, journal: seq<Entry>)

  datatype Action =
    | Tick                              // one pass of the forward loop's block
    | Post(step: StepId, ok: bool)      // one turn of exec_step's retry loop
    | Unwind                            // one pass of the compensation loop's block
    | Undo(undone: StepId)              // comp_step finishes, whatever the reply was
    | Pause
    | Resume

  ghost predicate WellFormed(p: Plan) {
    && Distinct(p.rows) && Elements(p.rows) == p.graph.Keys == p.maxRetries.Keys
    && Nodes(p.graph) == p.graph.Keys
    && Acyclic(p.graph)
  }

  ghost predicate RetriesAllowed(p: Plan) {
    forall id :: id in p.maxRetries ==> p.maxRetries[id] >= 0
  }

  ghost predicate Typed(p: Plan, s: State) {
    && s.status.Keys == p.graph.Keys == p.maxRetries.Keys
    && (s.control.Dispatching? ==> s.control.attempts.Keys <= p.graph.Keys)
    && (s.control.Undoing? ==> s.control.inFlight <= p.graph.Keys)
  }

  ghost function With(s: State, st: StepStatus): set<StepId> {
    set id | id in s.status.Keys && s.status[id] == st
  }

  ghost function Log(s: State, from: SagaStatus, to: SagaStatus): State {
    s.(saga := to, journal := s.journal + [Changed(from, to)])
  }

  ghost function SetAll(status: map<StepId, StepStatus>, ids: set<StepId>, st: StepStatus): map<StepId, StepStatus> {
    map id | id in status.Keys :: if id in ids then st else status[id]
  }

  ghost function Init(p: Plan): State {
    State(map id | id in p.graph.Keys :: Pending, Running, Scheduling, [Opened(Running)])
  }

  // ----- the forward block -----

  datatype Branch = Sleep | Fail | Finish | AwaitExecuting | NothingReady | Dispatch

  /** The pending steps all of whose dependencies are completed. */
  ghost function Ready(p: Plan, s: State): set<StepId>
    requires Typed(p, s)
  {
    set id | id in p.graph.Keys && s.status[id] == Pending
             && AllCompleted(s, p.graph[id])
  }

  ghost function BranchOf(p: Plan, s: State): Branch
    requires Typed(p, s)
  {
    if s.saga == Paused then Sleep
    else if With(s, Failed) != {} then Fail
    else if With(s, Pending) == {} then
      if With(s, Executing) == {} then Finish else AwaitExecuting
    else if Ready(p, s) == {} then NothingReady
    else Dispatch
  }

  ghost function TickState(p: Plan, s: State): State
    requires Typed(p, s)
  {
    match BranchOf(p, s)
    case Fail => Log(s, s.saga, RollingBack).(control := Unwinding)
    case Finish => Log(s, s.saga, Succeeded).(control := Ended(Succeeded))
    case Dispatch =>
      s.(status := SetAll(s.status, Ready(p, s), Executing),
         control := Dispatching(map id | id in Ready(p, s) :: 0))
    case _ => s
  }

  // ----- exec_step -----

  /** `id` leaves the gather; when it was the last one the forward loop goes on. */
  ghost function Leave(attempts: map<StepId, nat>, id: StepId): Control {
    if attempts.Keys == {id} then Scheduling else Dispatching(attempts - {id})
  }

  ghost function PostState(p: Plan, s: State, id: StepId, ok: bool): State
    requires s.control.Dispatching? && id in s.control.attempts && id in p.maxRetries
  {
    var a, limit := s.control.attempts[id], p.maxRetries[id];
    if a > limit then
      s.(control := Leave(s.control.attempts, id))  // the loop body never runs
    else if ok then
      s.(status := s.status[id := Completed], control := Leave(s.control.attempts, id))
    else if a + 1 <= limit then
      s.(control := Dispatching(s.control.attempts[id := a + 1]))
    else
      s.(status := s.status[id := Failed], control := Leave(s.control.attempts, id))
  }

  // ----- compensation -----

  ghost predicate Needed(p: Plan, s: State, c: StepId)
    requires Typed(p, s)
  {
    exists o :: o in p.graph.Keys && (s.status[o] == Completed || s.status[o] == Compensating) && c in p.graph[o]
  }

  /** The completed steps no completed or compensating step depends on. */
  ghost function Leaves(p: Plan, s: State): set<StepId>
    requires Typed(p, s)
  {
    set c | c in p.graph.Keys && s.status[c] == Completed
            && !Needed(p, s, c)
  }

  ghost function UnwindState(p: Plan, s: State): State
    requires Typed(p, s)
  {
    if With(s, Completed) == {} then
      Log(s, RollingBack, RolledBack).(control := Ended(RolledBack))
    else if Leaves(p, s) == {} then
      s
    else
      s.(status := SetAll(s.status, Leaves(p, s), Compensating), control := Undoing(Leaves(p, s)))
  }

  ghost function UndoState(s: State, id: StepId): State
    requires s.control.Undoing?
  {
    var rest := s.control.inFlight - {id};
    s.(status := s.status[id := Compensated], control := if rest == {} then Unwinding else Undoing(rest))
  }

  // ----- runs -----

  ghost predicate Enabled(p: Plan, s: State, a: Action) {
    match a
    case Tick => s.control.Scheduling?
    case Post(id, _) => s.control.Dispatching? && id in s.control.attempts
    case Unwind => s.control.Unwinding?
    case Undo(id) => s.control.Undoing? && id in s.control.inFlight
    case Pause => true
    case Resume => true
  }

  ghost function Apply(p: Plan, s: State, a: Action): State
    requires Typed(p, s) && Enabled(p, s, a)
  {
    match a
    case Tick => TickState(p, s)
    case Post(id, ok) => PostState(p, s, id, ok)
    case Unwind => UnwindState(p, s)
    case Undo(id) => UndoState(s, id)
    case Pause => Log(s, Running, Paused)
    case Resume => Log(s, Paused, Running)
  }

  lemma LeaveControl(attempts: map<StepId, nat>, id: StepId)
    requires id in attempts
    ensures Leave(attempts, id).Scheduling? ==> forall x :: x in attempts ==> x == id
    ensures Leave(attempts, id).Dispatching? ==>
              Leave(attempts, id).attempts == attempts - {id} && Leave(attempts, id).attempts.Keys != {}
  {
    assert id in attempts.Keys;
    if attempts.Keys == {id} {
      assert forall x :: x in attempts ==> x in attempts.Keys;
    } else {
      var x :| x in attempts.Keys && x != id;
      assert x in (attempts - {id}).Keys;
    }
  }

  lemma ApplyTyped(p: Plan, s: State, a: Action)
    requires Typed(p, s) && Enabled(p, s, a)
    ensures Typed(p, Apply(p, s, a))
  {
    match a
    case Post(id, _) => LeaveControl(s.control.attempts, id);
    case _ =>
  }

  datatype Outcome = Stopped | At(state: State)

  /** The state after `run`, or Stopped if some action of it was not enabled. */
  ghost function Execute(p: Plan, run: seq<Action>): (r: Outcome)
    requires WellFormed(p)
    ensures r.At? ==> Typed(p, r.state)
  {
    if run == [] then At(Init(p))
    else
      var before := Execute(p, run[..|run| - 1]);
      var a := run[|run| - 1];
      if before.At? && Enabled(p, before.state, a) then
        ApplyTyped(p, before.state, a);
        At(Apply(p, before.state, a))
      else
        Stopped
  }

  // ----- the invariant of every reachable state -----

  /** What the control point says about a single step's status. */
  ghost predicate Fits(p: Plan, control: Control, id: StepId, st: StepStatus) {
    match control
    case Scheduling => st.Pending? || st.Completed? || st.Failed?
    case Dispatching(attempts) =>
      if id in attempts then st.Executing? && id in p.maxRetries && attempts[id] <= p.maxRetries[id]
      else st.Pending? || st.Completed? || st.Failed?
    case Unwinding => st.Pending? || st.Completed? || st.Failed? || st.Compensated?
    case Undoing(inFlight) =>
      if id in inFlight then st.Compensating?
      else st.Pending? || st.Completed? || st.Failed? || st.Compensated?
    case Ended(outcome) =>
      if outcome == Succeeded then st.Completed?
      else outcome == RolledBack && (st.Pending? || st.Failed? || st.Compensated?)
  }

  ghost predicate ControlInv(p: Plan, s: State) {
    && (s.control.Dispatching? ==> s.control.attempts.Keys != {})
    && (s.control.Undoing? ==> s.control.inFlight != {})
    && (s.control.Ended? ==> s.control.outcome == Succeeded || s.control.outcome == RolledBack)
    && forall id :: id in s.status ==> Fits(p, s.control, id, s.status[id])
  }

  predicate Holding(st: StepStatus) {
    st.Executing? || st.Completed? || st.Compensating?
  }

  ghost predicate AllCompleted(s: State, ids: seq<StepId>) {
    forall d :: d in ids ==> d in s.status && s.status[d] == Completed
  }

  /** Every step being executed, completed or being undone has all its dependencies completed. */
  ghost predicate DepsCompleted(p: Plan, s: State)
    requires Typed(p, s)
  {
    forall id :: id in s.status && Holding(s.status[id]) ==> AllCompleted(s, p.graph[id])
  }

  ghost predicate Inv(p: Plan, s: State) {
    && Typed(p, s)
    && ControlInv(p, s)
    && DepsCompleted(p, s)
    && s.journal != [] && s.journal[|s.journal| - 1].to == s.saga
  }

  lemma FinishKeepsInv(p: Plan, s: State)
    requires RetriesAllowed(p) && Inv(p, s) && s.control.Scheduling? && BranchOf(p, s) == Finish
    ensures Inv(p, TickState(p, s))
  {
    forall id | id in s.status ensures s.status[id] == Completed {
      assert id !in With(s, Failed) && id !in With(s, Pending);
    }
  }

  lemma DispatchKeepsInv(p: Plan, s: State)
    requires RetriesAllowed(p) && Inv(p, s) && s.control.Scheduling? && BranchOf(p, s) == Dispatch
    ensures Inv(p, TickState(p, s))
  {
    var t := TickState(p, s);
    var r :| r in Ready(p, s);
    assert r in t.control.attempts.Keys;
    assert forall id :: id in s.status && s.status[id] == Completed ==> t.status[id] == Completed;
  }

  lemma TickKeepsInv(p: Plan, s: State)
    requires RetriesAllowed(p) && Inv(p, s) && s.control.Scheduling?
    ensures Inv(p, TickState(p, s))
  {
    if BranchOf(p, s) == Finish {
      FinishKeepsInv(p, s);
    } else if BranchOf(p, s) == Dispatch {
      DispatchKeepsInv(p, s);
    }
  }

  lemma PostFits(p: Plan, s: State, id: StepId, ok: bool, x: StepId)
    requires RetriesAllowed(p) && Inv(p, s) && Enabled(p, s, Post(id, ok)) && x in s.status
    ensures var t := PostState(p, s, id, ok); x in t.status && Fits(p, t.control, x, t.status[x])
  {
    assert Fits(p, s.control, id, s.status[id]);
    assert Fits(p, s.control, x, s.status[x]);
    LeaveControl(s.control.attempts, id);
  }

  lemma PostControl(p: Plan, s: State, id: StepId, ok: bool)
    requires RetriesAllowed(p) && Inv(p, s) && Enabled(p, s, Post(id, ok))
    requires Typed(p, PostState(p, s, id, ok))
    ensures ControlInv(p, PostState(p, s, id, ok))
  {
    LeaveControl(s.control.attempts, id);
    var t := PostState(p, s, id, ok);
    assert t.control.Dispatching? ==> t.control.attempts.Keys != {};
    forall x | x in t.status ensures Fits(p, t.control, x, t.status[x]) {
      assert x in s.status;
      PostFits(p, s, id, ok, x);
    }
  }

  /** Completed steps stay completed and no step starts to hold its dependencies. */
  lemma KeepsDeps(p: Plan, s: State, t: State)
    requires Typed(p, s) && Typed(p, t) && DepsCompleted(p, s)
    requires forall x :: x in s.status && s.status[x] == Completed ==> t.status[x] == Completed
    requires forall x :: x in t.status && Holding(t.status[x]) ==> Holding(s.status[x])
    ensures DepsCompleted(p, t)
  {
    forall x | x in t.status && Holding(t.status[x]) ensures AllCompleted(t, p.graph[x]) {
      assert AllCompleted(s, p.graph[x]);
    }
  }

  lemma PostDeps(p: Plan, s: State, id: StepId, ok: bool)
    requires RetriesAllowed(p) && Inv(p, s) && Enabled(p, s, Post(id, ok))
    requires Typed(p, PostState(p, s, id, ok))
    ensures DepsCompleted(p, PostState(p, s, id, ok))
  {
    assert Fits(p, s.control, id, s.status[id]);
    KeepsDeps(p, s, PostState(p, s, id, ok));
  }

  lemma PostKeepsInv(p: Plan, s: State, id: StepId, ok: bool)
    requires RetriesAllowed(p) && Inv(p, s) && Enabled(p, s, Post(id, ok))
    ensures Inv(p, PostState(p, s, id, ok))
  {
    ApplyTyped(p, s, Post(id, ok));
    PostControl(p, s, id, ok);
    PostDeps(p, s, id, ok);
  }

  lemma UnwindKeepsInv(p: Plan, s: State)
    requires Inv(p, s) && s.control.Unwinding?
    ensures Inv(p, UnwindState(p, s))
  {
    var t := UnwindState(p, s);
    if With(s, Completed) == {} {
      forall id | id in s.status ensures s.status[id] != Completed {
        assert id !in With(s, Completed);
      }
    } else if Leaves(p, s) != {} {
      forall id | id in t.status && Holding(t.status[id]) ensures AllCompleted(t, p.graph[id]) {
        assert AllCompleted(s, p.graph[id]);
        assert forall d :: d in p.graph[id] ==> d !in Leaves(p, s);
      }
    }
  }

  lemma UndoKeepsInv(p: Plan, s: State, id: StepId)
    requires Inv(p, s) && Enabled(p, s, Undo(id))
    ensures Inv(p, UndoState(s, id))
  {
    var t := UndoState(s, id);
    forall x | x in t.status ensures Fits(p, t.control, x, t.status[x]) {
      assert Fits(p, s.control, x, s.status[x]);
      if t.control.Unwinding? && x != id {
        assert x !in s.control.inFlight - {id};
      }
    }
    assert Fits(p, s.control, id, s.status[id]);
    assert forall x :: x in s.status && s.status[x] == Completed ==> t.status[x] == Completed;
  }

  /** One action of any kind, pause and resume included, keeps the invariant. */
  lemma StepKeepsInv(p: Plan, s: State, a: Action)
    requires RetriesAllowed(p) && Inv(p, s) && Enabled(p, s, a)
    ensures Inv(p, Apply(p, s, a))
  {
    match a
    case Tick => TickKeepsInv(p, s);
    case Post(id, ok) => PostKeepsInv(p, s, id, ok);
    case Unwind => UnwindKeepsInv(p, s);
    case Undo(id) => UndoKeepsInv(p, s, id);
    case Pause =>
    case Resume =>
  }

  lemma {:induction false} ReachableInv(p: Plan, run: seq<Action>)
    requires WellFormed(p) && RetriesAllowed(p) && Execute(p, run).At?
    ensures Inv(p, Execute(p, run).state)
  {
    if run != [] {
      ReachableInv(p, run[..|run| - 1]);
      StepKeepsInv(p, Execute(p, run[..|run| - 1]).state, run[|run| - 1]);
    }
  }

  // ----- progress -----

  /** The forward loop never waits for work that cannot come: in a reachable
      state it is paused, or it dispatches, or it leaves the loop. */
  lemma NeverStuckForward(p: Plan, s: State)
    requires WellFormed(p) && Inv(p, s) && s.control.Scheduling?
    ensures BranchOf(p, s) in {Sleep, Fail, Finish, Dispatch}
  {
    if s.saga != Paused && With(s, Failed) == {} {
      if With(s, Pending) == {} {
        assert With(s, Executing) == {};
      } else {
        SourceExists(p.graph, With(s, Pending));
        var n :| n in With(s, Pending) && !DependsInto(p.graph, n, With(s, Pending));
        forall d | d in p.graph[n] ensures d in s.status && s.status[d] == Completed {
          DepIsNode(p.graph, n, d);
          assert Fits(p, s.control, d, s.status[d]);
          assert d !in With(s, Failed) && d !in With(s, Pending);
        }
        assert n in Ready(p, s);
      }
    }
  }

  /** While anything is left to undo, some completed step is a leaf. */
  lemma LeafAlwaysFound(p: Plan, s: State)
    requires WellFormed(p) && Inv(p, s) && s.control.Unwinding?
    ensures With(s, Completed) != {} ==> Leaves(p, s) != {}
  {
    if With(s, Completed) != {} {
      SinkExists(p.graph, With(s, Completed));
      var c :| c in With(s, Completed) && !NeededFrom(p.graph, c, With(s, Completed));
      forall o | o in p.graph.Keys && (s.status[o] == Completed || s.status[o] == Compensating) ensures c !in p.graph[o] {
        assert Fits(p, s.control, o, s.status[o]);
        assert o in With(s, Completed);
      }
      assert c in Leaves(p, s);
    }
  }
}
