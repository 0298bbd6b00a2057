/** The orchestrator's own code: request validation, and the background task as
    an object over the saga's rows. Every method is one atomic action of SagaMachine. */
module SagaOrchestrator {
  import opened SagaGraph
  import opened SagaMachine

  /** One step of a request; `maxRetries` is 0 when no retry policy is given. */
  datatype StepSpec = StepSpec(id: StepId, dependencies: seq<StepId>, maxRetries: int)

  datatype Created = InvalidDependency | CyclicDependency | DuplicateStep | Stored(plan: Plan)

  ghost function Ids(steps: seq<StepSpec>): seq<StepId> {
    seq(|steps|, i requires 0 <= i < |steps| => steps[i].id)
  }

  /** The dictionary comprehension over the steps: a repeated id keeps its last dependencies. */
  ghost function GraphOf(steps: seq<StepSpec>): Graph {
    if steps == [] then map[]
    else GraphOf(steps[..|steps| - 1])[steps[|steps| - 1].id := steps[|steps| - 1].dependencies]
  }

  ghost predicate Dangling(steps: seq<StepSpec>) {
    exists i, d :: 0 <= i < |steps| && d in steps[i].dependencies && d !in Ids(steps)
  }

  lemma {:induction false} GraphOfKeys(steps: seq<StepSpec>)
    ensures forall id :: id in GraphOf(steps) <==> id in Ids(steps)
  {
    if steps != [] {
      var n := |steps| - 1;
      GraphOfKeys(steps[..n]);
      assert Ids(steps) == Ids(steps[..n]) + [steps[n].id];
    }
  }

  /** The dictionary holds, for each id, the dependencies of some step with that id. */
  lemma {:induction false} GraphOfStep(steps: seq<StepSpec>, id: StepId) returns (i: nat)
    requires id in GraphOf(steps)
    ensures i < |steps| && steps[i].id == id && GraphOf(steps)[id] == steps[i].dependencies
  {
    i := |steps| - 1;
    if steps[i].id != id {
      i := GraphOfStep(steps[..i], id);
    }
  }

  lemma GraphOfDistinct(steps: seq<StepSpec>, i: nat)
    requires Distinct(Ids(steps)) && i < |steps|
    ensures steps[i].id in GraphOf(steps) && GraphOf(steps)[steps[i].id] == steps[i].dependencies
  {
    var ids := Ids(steps);
    assert ids[i] == steps[i].id && ids[i] in ids;
    GraphOfKeys(steps);
    var k := GraphOfStep(steps, steps[i].id);
    assert ids[k] == ids[i] && k == i;
  }

  lemma ClosedGraph(steps: seq<StepSpec>)
    requires !Dangling(steps)
    ensures Nodes(GraphOf(steps)) == GraphOf(steps).Keys
  {
    var g := GraphOf(steps);
    GraphOfKeys(steps);
    forall n, d | n in g.Keys && d in g[n] ensures d in g.Keys {
      var i := GraphOfStep(steps, n);
      assert d in Ids(steps);
    }
  }

  /** The nested loops over all dependencies of all steps. */
  method HasDangling(steps: seq<StepSpec>) returns (dangling: bool)
    ensures dangling <==> Dangling(steps)
  {
    var ids: set<StepId> := {};
    for i := 0 to |steps|
      invariant forall id :: id in ids <==> id in Ids(steps)[..i]
    {
      assert Ids(steps)[..i + 1] == Ids(steps)[..i] + [steps[i].id];
      ids := ids + {steps[i].id};
    }
    assert Ids(steps)[..|steps|] == Ids(steps);
    for i := 0 to |steps|
      invariant forall k, d :: 0 <= k < i && d in steps[k].dependencies ==> d in Ids(steps)
    {
      var deps := steps[i].dependencies;
      for j := 0 to |deps|
        invariant forall k :: 0 <= k < j ==> deps[k] in Ids(steps)
      {
        if deps[j] !in ids {
          assert deps[j] in steps[i].dependencies && deps[j] !in Ids(steps);
          return true;
        }
      }
    }
    return false;
  }

  /** The dictionary has_cycle builds, with its keys in insertion order. */
  method BuildGraph(steps: seq<StepSpec>) returns (graph: Graph, keys: seq<StepId>)
    ensures graph == GraphOf(steps) && Elements(keys) == graph.Keys
  {
    graph, keys := map[], [];
    for i := 0 to |steps|
      invariant graph == GraphOf(steps[..i]) && Elements(keys) == graph.Keys
    {
      assert steps[..i + 1][..i] == steps[..i];
      if steps[i].id !in graph {
        keys := keys + [steps[i].id];
      }
      graph := graph[steps[i].id := steps[i].dependencies];
    }
    assert steps[..|steps|] == steps;
  }

  /** The INSERTs; a repeated step id violates the primary key of `steps`. */
  method InsertSteps(steps: seq<StepSpec>) returns (ok: bool, rows: seq<StepId>, maxRetries: map<StepId, int>)
    ensures ok <==> Distinct(Ids(steps))
    ensures ok ==> rows == Ids(steps) && maxRetries.Keys == Elements(rows)
    ensures ok ==> forall k :: 0 <= k < |steps| ==> steps[k].id in maxRetries && maxRetries[steps[k].id] == steps[k].maxRetries
  {
    rows, maxRetries := [], map[];
    for i := 0 to |steps|
      invariant rows == Ids(steps)[..i] && Distinct(rows) && maxRetries.Keys == Elements(rows)
      invariant forall k :: 0 <= k < i ==> steps[k].id in maxRetries && maxRetries[steps[k].id] == steps[k].maxRetries
    {
      assert Ids(steps)[..i + 1] == Ids(steps)[..i] + [steps[i].id];
      if steps[i].id in maxRetries {
        assert steps[i].id in Elements(rows);
        ghost var k :| 0 <= k < i && rows[k] == steps[i].id;
        assert Ids(steps)[k] == Ids(steps)[i];
        return false, rows, maxRetries;
      }
      assert forall k :: 0 <= k < i ==> rows[k] == steps[k].id && rows[k] in Elements(rows);
      rows := rows + [steps[i].id];
      maxRetries := maxRetries[steps[i].id := steps[i].maxRetries];
    }
    assert Ids(steps)[..|steps|] == Ids(steps);
    return true, rows, maxRetries;
  }

  ghost predicate Stores(plan: Plan, steps: seq<StepSpec>) {
    && plan.rows == Ids(steps)
    && forall i :: 0 <= i < |steps| ==>
         && steps[i].id in plan.graph && plan.graph[steps[i].id] == steps[i].dependencies
         && steps[i].id in plan.maxRetries && plan.maxRetries[steps[i].id] == steps[i].maxRetries
  }

  /** create_saga: a plan is stored exactly when the request is closed, acyclic
      and without repeated ids, and then it says what the request said. */
  method CreateSaga(steps: seq<StepSpec>) returns (r: Created)
    ensures r.InvalidDependency? <==> Dangling(steps)
    ensures r.CyclicDependency? <==> !Dangling(steps) && !Acyclic(GraphOf(steps))
    ensures r.DuplicateStep? <==> !Dangling(steps) && Acyclic(GraphOf(steps)) && !Distinct(Ids(steps))
    ensures r.Stored? ==> WellFormed(r.plan) && Stores(r.plan, steps)
  {
    var dangling := HasDangling(steps);
    if dangling {
      return InvalidDependency;
    }
    var graph, keys := BuildGraph(steps);
    var cyclic, order := HasCycle(graph, keys);
    if cyclic {
      return CyclicDependency;
    }
    var ok, rows, maxRetries := InsertSteps(steps);
    if !ok {
      return DuplicateStep;
    }
    ClosedGraph(steps);
    GraphOfKeys(steps);
    forall i | 0 <= i < |steps| ensures steps[i].id in graph && graph[steps[i].id] == steps[i].dependencies {
      GraphOfDistinct(steps, i);
    }
    return Stored(Plan(rows, graph, maxRetries));
  }

  /** The saga's rows and the background task that works on them. */
  class Orchestrator {
    const plan: Plan
    var status: map<StepId, StepStatus>
    var saga: SagaStatus
    var control: Control
    var journal: seq<Entry>

    ghost function View(): State
      reads this
    {
      State(status, saga, control, journal)
    }

    ghost predicate Valid()
      reads this
    {
      Elements(plan.rows) == plan.graph.Keys && Typed(plan, View())
    }

    constructor (plan: Plan)
      requires WellFormed(plan)
      ensures this.plan == plan && Valid() && View() == Init(plan)
    {
      this.plan := plan;
      saga, control, journal := Running, Scheduling, [Opened(Running)];
      new;
      status := map[];
      for i := 0 to |plan.rows|
        invariant status.Keys == Elements(plan.rows[..i])
        invariant forall id :: id in status ==> status[id] == Pending
        invariant saga == Running && control == Scheduling && journal == [Opened(Running)]
      {
        assert plan.rows[..i + 1] == plan.rows[..i] + [plan.rows[i]];
        status := status[plan.rows[i] := Pending];
      }
      assert plan.rows[..|plan.rows|] == plan.rows;
      assert status == Init(plan).status;
    }

    /** The list comprehensions that pick the rows in one status. */
    method Select(st: StepStatus) returns (found: seq<StepId>)
      requires Valid()
      ensures Elements(found) == With(View(), st)
    {
      found := [];
      for i := 0 to |plan.rows|
        invariant forall id :: id in found <==> id in plan.rows[..i] && id in status && status[id] == st
      {
        assert plan.rows[i] in Elements(plan.rows);
        if status[plan.rows[i]] == st {
          found := found + [plan.rows[i]];
        }
        assert plan.rows[..i + 1] == plan.rows[..i] + [plan.rows[i]];
      }
      forall id | id in With(View(), st) ensures id in found {
        assert id in Elements(plan.rows) && plan.rows[..|plan.rows|] == plan.rows;
      }
    }

    /** The UPDATE loop over the chosen rows. */
    method Mark(ids: seq<StepId>, st: StepStatus)
      requires Valid() && Elements(ids) <= status.Keys
      modifies this`status
      ensures status == SetAll(old(status), Elements(ids), st)
    {
      for i := 0 to |ids|
        invariant status.Keys == old(status).Keys
        invariant forall id :: id in status ==> status[id] == if id in ids[..i] then st else old(status)[id]
      {
        assert ids[i] in Elements(ids);
        assert ids[..i + 1] == ids[..i] + [ids[i]];
        status := status[ids[i] := st];
      }
      assert ids[..|ids|] == ids;
      assert status == SetAll(old(status), Elements(ids), st);
    }

    method WriteSaga(from: SagaStatus, to: SagaStatus)
      modifies this`saga, this`journal
      ensures View() == Log(old(View()), from, to)
    {
      journal := journal + [Changed(from, to)];
      saga := to;
    }

    /** One pass of run_saga's block. */
    method Tick()
      requires Valid() && control.Scheduling?
      modifies this
      ensures Valid() && View() == TickState(plan, old(View()))
    {
      if saga == Paused {
        return;
      }
      var failed := Select(Failed);
      if failed != [] {
        assert failed[0] in Elements(failed);
        WriteSaga(saga, RollingBack);
        control := Unwinding;
        return;
      }
      assert With(View(), Failed) == {};
      var pending := Select(Pending);
      if pending == [] {
        assert With(View(), Pending) == {};
        var executing := Select(Executing);
        if executing == [] {
          assert With(View(), Executing) == {};
          WriteSaga(saga, Succeeded);
          control := Ended(Succeeded);
        } else {
          assert executing[0] in Elements(executing);
        }
        return;
      }
      assert pending[0] in Elements(pending);
      var ready := ReadySteps(pending);
      if ready == [] {
        assert Ready(plan, View()) == {};
        return;
      }
      assert ready[0] in Elements(ready);
      Mark(ready, Executing);
      var attempts := Gather(ready);
      control := Dispatching(attempts);
    }

    /** asyncio.gather starts one exec_step per ready step, each at attempt 0. */
    method Gather(ready: seq<StepId>) returns (attempts: map<StepId, nat>)
      ensures attempts == map id | id in Elements(ready) :: 0
    {
      attempts := map[];
      for i := 0 to |ready|
        invariant forall id :: id in attempts <==> id in ready[..i]
        invariant forall id :: id in attempts ==> attempts[id] == 0
      {
        assert ready[..i + 1] == ready[..i] + [ready[i]];
        attempts := attempts[ready[i] := 0];
      }
      assert ready[..|ready|] == ready;
    }

    /** The nested loops that pick the pending steps whose dependencies are all completed. */
    method ReadySteps(pending: seq<StepId>) returns (ready: seq<StepId>)
      requires Valid() && Elements(pending) == With(View(), Pending)
      ensures Elements(ready) == Ready(plan, View())
    {
      ready := [];
      for i := 0 to |pending|
        invariant forall id :: id in ready <==> id in pending[..i] && AllCompleted(View(), Deps(plan.graph, id))
      {
        assert pending[i] in Elements(pending);
        var deps := plan.graph[pending[i]];
        var depsCompleted := true;
        for j := 0 to |deps|
          invariant depsCompleted
          invariant forall k :: 0 <= k < j ==> deps[k] in status && status[deps[k]] == Completed
        {
          if deps[j] !in status || status[deps[j]] != Completed {
            depsCompleted := false;
            break;
          }
        }
        if depsCompleted {
          ready := ready + [pending[i]];
        }
        assert pending[..i + 1] == pending[..i] + [pending[i]];
      }
      assert pending[..|pending|] == pending;
      forall id | id in Ready(plan, View()) ensures id in ready {
        assert id in Elements(pending);
      }
      forall id | id in ready ensures id in Ready(plan, View()) {
        assert id in Elements(pending);
      }
    }

    /** One turn of exec_step's loop for `id`: the reply decides `ok`. */
    method Post(id: StepId, ok: bool)
      requires Valid() && control.Dispatching? && id in control.attempts
      modifies this
      ensures Valid() && View() == PostState(plan, old(View()), id, ok)
    {
      ApplyTyped(plan, View(), Action.Post(id, ok));
      var attempt, limit := control.attempts[id], plan.maxRetries[id];
      var gone := attempt > limit;
      if !gone {
        if ok {
          status := status[id := Completed];
          gone := true;
        } else {
          attempt := attempt + 1;
          if attempt > limit {
            status := status[id := Failed];
            gone := true;
          }
        }
      }
      if !gone {
        control := Dispatching(control.attempts[id := attempt]);
      } else if control.attempts.Keys == {id} {
        control := Scheduling;
      } else {
        control := Dispatching(control.attempts - {id});
      }
    }

    /** One pass of compensate_saga's block. */
    method Unwind()
      requires Valid() && control.Unwinding?
      modifies this
      ensures Valid() && View() == UnwindState(plan, old(View()))
    {
      var completed := Select(Completed);
      if completed == [] {
        assert With(View(), Completed) == {};
        WriteSaga(RollingBack, RolledBack);
        control := Ended(RolledBack);
        return;
      }
      assert completed[0] in Elements(completed);
      var leaves := LeafSteps(completed);
      if leaves == [] {
        assert Leaves(plan, View()) == {};
        return;
      }
      assert leaves[0] in Elements(leaves);
      Mark(leaves, Compensating);
      control := Undoing(set id | id in leaves);
      assert control.inFlight == Elements(leaves);
    }

    /** The nested loops that pick the completed steps nothing live depends on. */
    method LeafSteps(completed: seq<StepId>) returns (leaves: seq<StepId>)
      requires Valid() && Elements(completed) == With(View(), Completed)
      ensures Elements(leaves) == Leaves(plan, View())
    {
      leaves := [];
      for i := 0 to |completed|
        invariant forall id :: id in leaves <==> id in completed[..i] && !Needed(plan, View(), id)
      {
        var c := completed[i];
        var isLeaf := true;
        for j := 0 to |plan.rows|
          invariant isLeaf
          invariant forall k :: 0 <= k < j && (status[plan.rows[k]] == Completed || status[plan.rows[k]] == Compensating)
                      ==> c !in plan.graph[plan.rows[k]]
        {
          var other := plan.rows[j];
          assert other in Elements(plan.rows);
          if (status[other] == Completed || status[other] == Compensating) && c in plan.graph[other] {
            isLeaf := false;
            break;
          }
        }
        if isLeaf {
          forall o | o in plan.graph.Keys && (status[o] == Completed || status[o] == Compensating) ensures c !in plan.graph[o] {
            assert o in Elements(plan.rows);
          }
          leaves := leaves + [c];
        }
        assert completed[..i + 1] == completed[..i] + [c];
      }
      assert completed[..|completed|] == completed;
      forall id | id in Leaves(plan, View()) ensures id in leaves {
        assert id in Elements(completed);
      }
      forall id | id in leaves ensures id in Leaves(plan, View()) {
        assert id in Elements(completed);
      }
    }

    /** comp_step finishes for `id`, whether or not its POST succeeded. */
    method Undo(id: StepId)
      requires Valid() && control.Undoing? && id in control.inFlight
      modifies this
      ensures Valid() && View() == UndoState(old(View()), id)
    {
      status := status[id := Compensated];
      var rest := control.inFlight - {id};
      control := if rest == {} then Unwinding else Undoing(rest);
    }

    method PauseSaga()
      requires Valid()
      modifies this
      ensures Valid() && View() == Apply(plan, old(View()), Pause)
    {
      WriteSaga(Running, Paused);
    }

    method ResumeSaga()
      requires Valid()
      modifies this
      ensures Valid() && View() == Apply(plan, old(View()), Resume)
    {
      WriteSaga(Paused, Running);
    }
  }
}
