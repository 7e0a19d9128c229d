/** What the task actions make of the schedule: when exactly every dependency holds after an edit, and an edit after which one does not. */
module PlanSettling {
  import opened Cascade
  import opened CascadeSettling
  import CycleCheck
  import opened Digraph
  import opened PlanActions
  import opened TaskTable
  import opened Wrappers

  // ---- the plan of written rows ----

  /** A plan with exactly these rows is the plan of the rows. */
  lemma {:induction false} PlanIs(tasks: Table, plan: Plan)
    requires DistinctIds(tasks)
    requires forall i :: 0 <= i < |tasks| ==> tasks[i].id in plan && plan[tasks[i].id] == tasks[i]
    requires forall id :: id in plan ==> exists i :: 0 <= i < |tasks| && tasks[i].id == id
    ensures ById(tasks) == plan
  {
    forall id
      ensures id in ById(tasks) <==> id in plan
      ensures id in plan ==> ById(tasks)[id] == plan[id]
    {
      IdsOf(tasks, id);
      if id in plan {
        var i :| 0 <= i < |tasks| && tasks[i].id == id;
        ByIdIs(tasks, tasks[i]);
      }
    }
  }

  lemma {:induction false} WrittenPlan(tasks: Table, id: int, t: Task)
    requires DistinctIds(tasks) && id in ById(tasks) && t.id == id
    ensures DistinctIds(Write(tasks, id, t)) && ById(Write(tasks, id, t)) == ById(tasks)[id := t]
  {
    var after, plan := Write(tasks, id, t), ById(tasks)[id := t];
    forall i | 0 <= i < |after|
      ensures after[i].id == tasks[i].id && after[i].id in plan && plan[after[i].id] == after[i]
    {
      ByIdIs(tasks, tasks[i]);
    }
    forall x | x in plan
      ensures exists i :: 0 <= i < |after| && after[i].id == x
    {
      var i := RowOf(tasks, x);
      assert after[i].id == x;
    }
    PlanIs(after, plan);
  }

  lemma {:induction false} CascadedPlan(tasks: Table, root: int)
    requires DistinctIds(tasks)
    ensures DistinctIds(Cascaded(tasks, root)) && ById(Cascaded(tasks, root)) == Final(tasks, root).plan
  {
    var after, plan := Cascaded(tasks, root), Final(tasks, root).plan;
    MovesAreSound(tasks, root);
    CascadedGraph(tasks, root);
    forall i | 0 <= i < |after|
      ensures after[i].id == tasks[i].id && after[i].id in plan && plan[after[i].id] == after[i]
    {
      CascadedRow(tasks, root, i);
    }
    forall x | x in plan
      ensures exists i :: 0 <= i < |after| && after[i].id == x
    {
      var i := RowOf(tasks, x);
      assert after[i].id == x;
    }
    PlanIs(after, plan);
  }

  // ---- after an edit with its cascade ----

  /** A task with this start and these dependencies waits for all of them, as far as they are scheduled. */
  ghost predicate Waits(plan: Plan, start: Option<int>, deps: seq<int>) {
    start.Some? ==> forall d :: d in deps && Scheduled(plan, d) ==> End(plan, d) <= start.value
  }

  ghost predicate AllSettled(s: Store) {
    Settled(ById(s.tasks))
  }

  lemma {:induction false} NotItsOwn(g: Graph, id: int)
    requires Acyclic(g)
    ensures !Step(g, id, id)
  {
    if Step(g, id, id) {
      assert IsPath(g, [id, id]);
    }
  }

  /** Writing one row does not touch the dependencies between the others. */
  lemma {:induction false} OthersStay(plan: Plan, id: int, t: Task)
    requires id in plan && SettledElsewhere(plan, id)
    ensures SettledElsewhere(plan[id := t], id)
  {
    var after := plan[id := t];
    forall x, d | Scheduled(after, x) && d in after[x].deps && Scheduled(after, d) && x != id && d != id
      ensures End(after, d) <= Start(after, x)
    {
      assert Scheduled(plan, x) && d in plan[x].deps && Scheduled(plan, d);
    }
  }

  lemma {:induction false} WaitsThen(plan: Plan, id: int, t: Task)
    requires id in plan && t.id == id && id !in t.deps && RootWaits(plan[id := t], id)
    ensures Waits(plan, t.start, t.deps)
  {
    var after := plan[id := t];
    forall d | t.start.Some? && d in t.deps && Scheduled(plan, d)
      ensures End(plan, d) <= t.start.value
    {
      assert Scheduled(after, id) && Scheduled(after, d) && End(after, d) == End(plan, d);
    }
  }

  lemma {:induction false} ThenWaits(plan: Plan, id: int, t: Task)
    requires id in plan && t.id == id && id !in t.deps && Waits(plan, t.start, t.deps)
    ensures RootWaits(plan[id := t], id)
  {
    var after := plan[id := t];
    forall d | Scheduled(after, id) && d in after[id].deps && Scheduled(after, d)
      ensures End(after, d) <= Start(after, id)
    {
      assert Scheduled(plan, d) && End(after, d) == End(plan, d);
    }
  }

  /** On layered tasks: after an edit and its cascade everything is settled exactly if the edited task waits by itself. */
  lemma {:induction false} WriteSettles(s: Store, id: int, t: Task, active: set<int>, level: int -> int)
    requires Sane(s) && id in ById(s.tasks) && t.id == id && SettledElsewhere(ById(s.tasks), id)
    requires Acyclic(CycleCheck.Patched(GraphOf(s.tasks), id, t.deps)) && Layered(ById(s.tasks)[id := t], id, active, level)
    ensures AllSettled(AfterWrite(s, id, t, true)) <==> Waits(ById(s.tasks), t.start, t.deps)
  {
    var rows := Write(s.tasks, id, t);
    WriteGraph(s.tasks, id, t);
    WrittenPlan(s.tasks, id, t);
    NotItsOwn(GraphOf(rows), id);
    OthersStay(ById(s.tasks), id, t);
    var plan := ById(s.tasks);
    if RootWaits(plan[id := t], id) {
      WaitsThen(plan, id, t);
    }
    if Waits(plan, t.start, t.deps) {
      ThenWaits(plan, id, t);
    }
    LayeredSettles(rows, id, active, level);
    CascadedPlan(rows, id);
  }

  /** `task.set_dependencies`: settled exactly if the task, which is not moved, starts behind all of its new dependencies. */
  lemma {:induction false} SetDependenciesSettles(s: Store, id: int, raw: seq<Number>, active: set<int>, level: int -> int)
    requires Sane(s) && Apply(s, SetDependencies(id, raw)).Success? && SettledElsewhere(ById(s.tasks), id)
    requires Layered(ById(s.tasks)[id := ById(s.tasks)[id].(deps := Accepted(s.tasks, id, raw).value)], id, active, level)
    ensures AllSettled(Apply(s, SetDependencies(id, raw)).value) <==>
      Waits(ById(s.tasks), ById(s.tasks)[id].start, Accepted(s.tasks, id, raw).value)
  {
    var deps := Accepted(s.tasks, id, raw).value;
    AcceptedIsSafe(s, id, raw);
    WriteSettles(s, id, ById(s.tasks)[id].(deps := deps), active, level);
  }

  /** The row that an update writes. */
  ghost function UpdatedRow(s: Store, id: int, patch: Patch): Task
    requires Sane(s) && Apply(s, Update(id, patch)).Success?
  {
    var t := ById(s.tasks)[id];
    PlanActions.Patched(t, patch, if patch.deps.Some? then Accepted(s.tasks, id, patch.deps.value).value else t.deps)
  }

  lemma {:induction false} UpdatedRowSafe(s: Store, id: int, patch: Patch)
    requires Sane(s) && Apply(s, Update(id, patch)).Success?
    ensures Acyclic(CycleCheck.Patched(GraphOf(s.tasks), id, UpdatedRow(s, id, patch).deps))
  {
    if patch.deps.Some? {
      AcceptedIsSafe(s, id, patch.deps.value);
    } else {
      SameDepsSafe(s, id);
    }
  }

  /** The update cascades if it has anything to do with the schedule. */
  ghost predicate Reschedules(s: Store, id: int, patch: Patch)
    requires Sane(s) && Apply(s, Update(id, patch)).Success?
  {
    patch.deps.Some? || UpdatedRow(s, id, patch) != ById(s.tasks)[id]
  }

  lemma {:induction false} UpdateWrites(s: Store, id: int, patch: Patch)
    requires Sane(s) && Apply(s, Update(id, patch)).Success?
    ensures Apply(s, Update(id, patch)).value == AfterWrite(s, id, UpdatedRow(s, id, patch), Reschedules(s, id, patch))
  {
  }

  /** `task.update`: the same for the dates and dependencies of the patch; an update of neither leaves the schedule alone. */
  lemma {:induction false} UpdateSettles(s: Store, id: int, patch: Patch, active: set<int>, level: int -> int)
    requires Sane(s) && Apply(s, Update(id, patch)).Success? && SettledElsewhere(ById(s.tasks), id)
    requires Layered(ById(s.tasks)[id := UpdatedRow(s, id, patch)], id, active, level)
    ensures Reschedules(s, id, patch) ==> (AllSettled(Apply(s, Update(id, patch)).value) <==>
      Waits(ById(s.tasks), UpdatedRow(s, id, patch).start, UpdatedRow(s, id, patch).deps))
    ensures !Reschedules(s, id, patch) ==> ById(Apply(s, Update(id, patch)).value.tasks) == ById(s.tasks)
  {
    UpdateWrites(s, id, patch);
    UpdatedRowSafe(s, id, patch);
    if Reschedules(s, id, patch) {
      WriteSettles(s, id, UpdatedRow(s, id, patch), active, level);
    } else {
      SameRow(s, id, UpdatedRow(s, id, patch));
    }
  }

  lemma {:induction false} SameRow(s: Store, id: int, t: Task)
    requires Sane(s) && id in ById(s.tasks) && t == ById(s.tasks)[id]
    ensures ById(AfterWrite(s, id, t, false).tasks) == ById(s.tasks)
  {
    WrittenPlan(s.tasks, id, t);
    assert ById(s.tasks)[id := t] == ById(s.tasks);
  }

  // ---- an edit that leaves its own task behind ----

  /** Two one-day tasks on the same day. */
  function TwoRows(): Table {
    [Task(1, Some(0), None, Some(1), []), Task(2, Some(0), None, Some(1), [])]
  }

  lemma {:induction false} TwoRowsPlan()
    ensures ById(TwoRows()) == map[1 := TwoRows()[0], 2 := TwoRows()[1]]
  {
    var rows := TwoRows();
    var plan: Plan := map[1 := rows[0], 2 := rows[1]];
    assert rows[0].id == 1 && rows[1].id == 2;
    PlanIs(rows, plan);
  }

  lemma {:induction false} TwoRowsSane()
    ensures Sane(Store(TwoRows(), 3)) && AllSettled(Store(TwoRows(), 3))
  {
    TwoRowsPlan();
    RankedAcyclic(GraphOf(TwoRows()), x => x);
  }

  lemma {:induction false} OneDependency(g: Graph)
    requires g == map[1 := [], 2 := [1]]
    ensures Acyclic(g)
  {
    RankedAcyclic(g, x => x);
  }

  lemma {:induction false} TwoRowsAccepted()
    ensures Accepted(TwoRows(), 2, [Whole(1)]) == Success([1])
  {
    TwoRowsPlan();
    assert [Whole(1)][..0] == [];
    assert Checked(Some(2), [], TwoRows()) == Success([]);
    assert [] + [1] == [1];
    assert Checked(Some(2), [Whole(1)], TwoRows()) == Success([1]);
    TwoRowsSane();
    var g := GraphOf(TwoRows());
    assert CycleCheck.Patched(g, 2, [1]) == map[1 := [], 2 := [1]];
    OneDependency(CycleCheck.Patched(g, 2, [1]));
    CycleCheck.PatchedAcyclic(g, 2, [1]);
  }

  lemma {:induction false} TwoRowsLayered()
    ensures 2 in ById(TwoRows()) && Layered(ById(TwoRows())[2 := ById(TwoRows())[2].(deps := [1])], 2, {2}, x => x)
  {
    TwoRowsPlan();
  }

  lemma {:induction false} TwoRowsClash()
    ensures 2 in ById(TwoRows()) && !Waits(ById(TwoRows()), ById(TwoRows())[2].start, [1])
  {
    TwoRowsPlan();
    assert Scheduled(ById(TwoRows()), 1) && End(ById(TwoRows()), 1) > 0 && 1 in [1];
  }

  /** Task 2 is made to depend on task 1, which ends a day after it starts: the edit is accepted, and task 2 stays where it is. */
  lemma {:induction false} EditedTaskStays() returns (s: Store)
    ensures Sane(s) && AllSettled(s)
    ensures Apply(s, SetDependencies(2, [Whole(1)])).Success? && !AllSettled(Apply(s, SetDependencies(2, [Whole(1)])).value)
  {
    s := Store(TwoRows(), 3);
    TwoRowsSane();
    TwoRowsPlan();
    TwoRowsAccepted();
    TwoRowsLayered();
    TwoRowsClash();
    SetDependenciesSettles(s, 2, [Whole(1)], {2}, x => x);
  }
}
