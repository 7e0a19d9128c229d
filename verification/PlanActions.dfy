/** The actions that edit the dependency graph, and what every run of them keeps. */
module PlanActions {
  import opened Cascade
  import opened CycleCheck
  import opened Digraph
  import opened TaskTable
  import opened Wrappers

  // ---- what each action does ----

  /** Fields that a request leaves out stay as they are. */
  datatype Patch = Patch(start: Option<Option<int>>, due: Option<Option<int>>, duration: Option<Option<int>>,
                         deps: Option<seq<Number>>)

  datatype Action =
    | Create(start: Option<int>, due: Option<int>, duration: Option<int>, deps: seq<Number>)
    | FindOrCreate(known: bool)
    | Update(id: int, patch: Patch)
    | SetDependencies(id: int, deps: seq<Number>)
    | Delete(id: int)

  /** The rows, and the next id the database will hand out. */
  datatype Store = Store(tasks: Table, nextId: int)

  ghost predicate IdsUnder(tasks: Table, bound: int) {
    forall i :: 0 <= i < |tasks| ==> tasks[i].id < bound
  }

  ghost predicate Sane(s: Store) {
    Consistent(s.tasks) && IdsUnder(s.tasks, s.nextId)
  }

  function Or<T>(patch: Option<T>, current: T): T {
    match patch
    case None => current
    case Some(value) => value
  }

  function Patched(t: Task, patch: Patch, deps: seq<int>): Task {
    Task(t.id, Or(patch.start, t.start), Or(patch.due, t.due), Or(patch.duration, t.duration), deps)
  }

  /** The accepted list, or why it is refused. */
  ghost function Accepted(tasks: Table, id: int, raw: seq<Number>): Result<seq<int>, PlanError> {
    match Checked(Some(id), raw, tasks)
    case Failure(e) => Failure(e)
    case Success(deps) => if OnCycle(CycleCheck.Patched(GraphOf(tasks), id, deps), id) then Failure(CycleDetected) else Success(deps)
  }

  function Append(s: Store, t: Task): Store {
    Store(s.tasks + [t], s.nextId + 1)
  }

  ghost function AfterCreate(s: Store, start: Option<int>, due: Option<int>, duration: Option<int>, deps: seq<int>): Store
    requires DistinctIds(s.tasks) && IdsUnder(s.tasks, s.nextId)
  {
    var t := Task(s.nextId, start, due, duration, deps);
    FreshDistinct(s, t);
    var rows := s.tasks + [t];
    Store(if start.Some? then Cascaded(rows, t.id) else rows, s.nextId + 1)
  }

  ghost function AfterWrite(s: Store, id: int, t: Task, cascade: bool): Store
    requires DistinctIds(s.tasks) && id in GraphOf(s.tasks) && t.id == id
  {
    WriteGraph(s.tasks, id, t);
    Store(if cascade then Cascaded(Write(s.tasks, id, t), id) else Write(s.tasks, id, t), s.nextId)
  }

  ghost function AfterUpdate(s: Store, id: int, patch: Patch, deps: seq<int>): Store
    requires DistinctIds(s.tasks) && id in ById(s.tasks)
  {
    var t := ById(s.tasks)[id];
    var after := Patched(t, patch, deps);
    var timeChanged := after.start != t.start || after.due != t.due || after.duration != t.duration;
    AfterWrite(s, id, after, timeChanged || patch.deps.Some?)
  }

  function AfterDelete(s: Store, id: int): Store {
    Store(Removed(StripAll(s.tasks, id), id), s.nextId)
  }

  ghost function Apply(s: Store, a: Action): Result<Store, PlanError>
    requires Sane(s)
  {
    match a
    case Create(start, due, duration, raw) =>
      (match Checked(None, raw, s.tasks)
       case Failure(e) => Failure(e)
       case Success(deps) => Success(AfterCreate(s, start, due, duration, deps)))
    case FindOrCreate(known) =>
      Success(if known then s else Append(s, Task(s.nextId, None, None, None, [])))
    case Update(id, patch) =>
      if id !in ById(s.tasks) then Failure(NotFound) else
        var t := ById(s.tasks)[id];
        (match if patch.deps.Some? then Accepted(s.tasks, id, patch.deps.value) else Success(t.deps)
         case Failure(e) => Failure(e)
         case Success(deps) => Success(AfterUpdate(s, id, patch, deps)))
    case SetDependencies(id, raw) =>
      if id !in ById(s.tasks) then Failure(NotFound) else
        (match Accepted(s.tasks, id, raw)
         case Failure(e) => Failure(e)
         case Success(deps) => Success(AfterWrite(s, id, ById(s.tasks)[id].(deps := deps), true)))
    case Delete(id) =>
      if id !in ById(s.tasks) then Failure(NotFound)
      else Success(AfterDelete(s, id))
  }

  // ---- every action keeps the graph acyclic and free of dangling ids ----

  lemma {:induction false} FreshDistinct(s: Store, t: Task)
    requires DistinctIds(s.tasks) && IdsUnder(s.tasks, s.nextId) && t.id == s.nextId
    ensures DistinctIds(s.tasks + [t])
  {
  }

  lemma {:induction false} FreshAppend(s: Store, t: Task)
    requires Sane(s) && t.id == s.nextId
    ensures DistinctIds(s.tasks + [t]) && GraphOf(s.tasks + [t]) == GraphOf(s.tasks)[t.id := t.deps]
    ensures t.id !in GraphOf(s.tasks)
  {
    if t.id in GraphOf(s.tasks) {
      var i := RowOf(s.tasks, t.id);
      assert false;
    }
    AppendGraph(s.tasks, t);
  }

  lemma {:induction false} CascadeKeeps(tasks: Table, root: int, bound: int)
    requires Consistent(tasks) && forall i :: 0 <= i < |tasks| ==> tasks[i].id < bound
    ensures Consistent(Cascaded(tasks, root))
    ensures forall i :: 0 <= i < |tasks| ==> Cascaded(tasks, root)[i].id < bound
  {
    CascadedGraph(tasks, root);
    forall i | 0 <= i < |tasks|
      ensures Cascaded(tasks, root)[i].id == tasks[i].id
    {
      CascadedRow(tasks, root, i);
    }
  }

  lemma {:induction false} WriteConsistent(tasks: Table, id: int, t: Task)
    requires Consistent(tasks) && id in GraphOf(tasks) && t.id == id && (forall d :: d in t.deps ==> d in GraphOf(tasks))
    requires Acyclic(CycleCheck.Patched(GraphOf(tasks), id, t.deps))
    ensures Consistent(Write(tasks, id, t))
  {
    WriteGraph(tasks, id, t);
    PatchedNoDangling(GraphOf(tasks), id, t.deps);
  }

  lemma {:induction false} SaneIs(tasks: Table, nextId: int)
    requires Consistent(tasks) && IdsUnder(tasks, nextId)
    ensures Sane(Store(tasks, nextId))
  {
  }

  lemma {:induction false} CascadeSane(tasks: Table, root: int, nextId: int)
    requires Consistent(tasks) && IdsUnder(tasks, nextId)
    ensures Sane(Store(Cascaded(tasks, root), nextId))
  {
    CascadeKeeps(tasks, root, nextId);
    SaneIs(Cascaded(tasks, root), nextId);
  }

  lemma {:induction false} AfterWriteSane(after: Table, id: int, nextId: int, cascade: bool)
    requires Consistent(after) && IdsUnder(after, nextId)
    ensures Sane(Store(if cascade then Cascaded(after, id) else after, nextId))
  {
    if cascade {
      CascadeSane(after, id, nextId);
    } else {
      SaneIs(after, nextId);
    }
  }

  lemma {:induction false} WriteKeeps(s: Store, id: int, t: Task, cascade: bool)
    requires Sane(s) && id in GraphOf(s.tasks) && t.id == id && (forall d :: d in t.deps ==> d in GraphOf(s.tasks))
    requires Acyclic(CycleCheck.Patched(GraphOf(s.tasks), id, t.deps))
    ensures Sane(AfterWrite(s, id, t, cascade))
  {
    WriteConsistent(s.tasks, id, t);
    WriteUnder(s.tasks, id, t, s.nextId);
    AfterWriteSane(Write(s.tasks, id, t), id, s.nextId, cascade);
  }

  lemma {:induction false} WriteUnder(tasks: Table, id: int, t: Task, bound: int)
    requires IdsUnder(tasks, bound) && t.id == id && id in GraphOf(tasks)
    ensures IdsUnder(Write(tasks, id, t), bound)
  {
  }

  lemma {:induction false} AppendKeeps(s: Store, t: Task)
    requires Sane(s) && t.id == s.nextId && forall d :: d in t.deps ==> d in GraphOf(s.tasks)
    ensures Sane(Append(s, t))
  {
    FreshAppend(s, t);
    NewTaskAcyclic(GraphOf(s.tasks), t.id, t.deps);
  }

  lemma {:induction false} CreateIs(s: Store, start: Option<int>, due: Option<int>, duration: Option<int>, deps: seq<int>, rows: Table)
    requires DistinctIds(s.tasks) && IdsUnder(s.tasks, s.nextId) && DistinctIds(rows)
    requires rows == s.tasks + [Task(s.nextId, start, due, duration, deps)]
    ensures AfterCreate(s, start, due, duration, deps) ==
      Store(if start.Some? then Cascaded(rows, s.nextId) else rows, s.nextId + 1)
  {
  }

  lemma {:induction false} AppendRows(s: Store, t: Task, rows: Table)
    requires Sane(s) && t.id == s.nextId && (forall d :: d in t.deps ==> d in GraphOf(s.tasks)) && rows == s.tasks + [t]
    ensures Consistent(rows) && IdsUnder(rows, s.nextId + 1)
  {
    AppendKeeps(s, t);
  }

  lemma {:induction false} CreateKeeps(s: Store, start: Option<int>, due: Option<int>, duration: Option<int>, deps: seq<int>)
    requires Sane(s) && forall d :: d in deps ==> d in GraphOf(s.tasks)
    ensures Sane(AfterCreate(s, start, due, duration, deps))
  {
    var t := Task(s.nextId, start, due, duration, deps);
    var rows := s.tasks + [t];
    AppendRows(s, t, rows);
    CreateIs(s, start, due, duration, deps, rows);
    AfterWriteSane(rows, s.nextId, s.nextId + 1, start.Some?);
  }

  lemma {:induction false} AcceptedIsSafe(s: Store, id: int, raw: seq<Number>)
    requires Sane(s) && Accepted(s.tasks, id, raw).Success?
    ensures var deps := Accepted(s.tasks, id, raw).value;
      (forall d :: d in deps ==> d in GraphOf(s.tasks)) && Acyclic(CycleCheck.Patched(GraphOf(s.tasks), id, deps))
  {
    DepsOwned(Some(id), raw, s.tasks);
    PatchedAcyclic(GraphOf(s.tasks), id, Accepted(s.tasks, id, raw).value);
  }

  lemma {:induction false} SameDepsSafe(s: Store, id: int)
    requires Sane(s) && id in GraphOf(s.tasks)
    ensures var deps := GraphOf(s.tasks)[id];
      (forall d :: d in deps ==> d in GraphOf(s.tasks)) && Acyclic(CycleCheck.Patched(GraphOf(s.tasks), id, deps))
  {
    var g := GraphOf(s.tasks);
    forall d | d in g[id]
      ensures d in g
    {
      assert Step(g, id, d);
    }
    assert CycleCheck.Patched(g, id, g[id]) == g;
  }

  lemma {:induction false} DeletedRow(tasks: Table, id: int, a: int) returns (i: int)
    requires DistinctIds(tasks) && DistinctIds(Removed(StripAll(tasks, id), id)) && a in GraphOf(Removed(StripAll(tasks, id), id))
    ensures 0 <= i < |tasks| && tasks[i].id == a && a != id
    ensures GraphOf(Removed(StripAll(tasks, id), id))[a] == Strip(tasks[i], id).deps
  {
    var after := Removed(StripAll(tasks, id), id);
    var k := RowOf(after, a);
    GraphAt(after, k);
    RemovedMember(StripAll(tasks, id), id, after[k]);
    i :| 0 <= i < |tasks| && StripAll(tasks, id)[i] == after[k];
  }

  /** What is left after a deletion is the old graph without the deleted node and without any edge to it. */
  lemma {:induction false} DeletedGraph(tasks: Table, id: int)
    requires DistinctIds(tasks)
    ensures var after := Removed(StripAll(tasks, id), id);
      && DistinctIds(after)
      && (forall a :: a in GraphOf(after) <==> a in GraphOf(tasks) && a != id)
      && (forall a, b :: Step(GraphOf(after), a, b) <==> Step(GraphOf(tasks), a, b) && a != id && b != id)
  {
    var after := Removed(StripAll(tasks, id), id);
    RemovedDistinct(StripAll(tasks, id), id);
    forall a
      ensures a in GraphOf(after) <==> a in GraphOf(tasks) && a != id
      ensures forall b :: Step(GraphOf(after), a, b) <==> Step(GraphOf(tasks), a, b) && a != id && b != id
    {
      DeletedKey(tasks, id, a);
      if a in GraphOf(after) {
        DeletedSteps(tasks, id, a);
      }
    }
  }

  lemma {:induction false} DeletedKey(tasks: Table, id: int, a: int)
    requires DistinctIds(tasks) && DistinctIds(Removed(StripAll(tasks, id), id))
    ensures a in GraphOf(Removed(StripAll(tasks, id), id)) <==> a in GraphOf(tasks) && a != id
  {
    var after := Removed(StripAll(tasks, id), id);
    if a in GraphOf(after) {
      var i := DeletedRow(tasks, id, a);
      GraphAt(tasks, i);
    }
    if a in GraphOf(tasks) && a != id {
      var i := RowOf(tasks, a);
      assert StripAll(tasks, id)[i] in StripAll(tasks, id);
      RemovedMember(StripAll(tasks, id), id, StripAll(tasks, id)[i]);
      var k :| 0 <= k < |after| && after[k] == StripAll(tasks, id)[i];
      GraphAt(after, k);
    }
  }

  lemma {:induction false} DeletedSteps(tasks: Table, id: int, a: int)
    requires DistinctIds(tasks) && DistinctIds(Removed(StripAll(tasks, id), id)) && a in GraphOf(Removed(StripAll(tasks, id), id))
    ensures forall b :: Step(GraphOf(Removed(StripAll(tasks, id), id)), a, b) <==> Step(GraphOf(tasks), a, b) && b != id
  {
    var i := DeletedRow(tasks, id, a);
    GraphAt(tasks, i);
    forall b
      ensures b in Strip(tasks[i], id).deps <==> b in tasks[i].deps && b != id
    {
      WithoutMember(tasks[i].deps, id, b);
    }
  }

  lemma {:induction false} Shrunk(g: Graph, h: Graph, id: int)
    requires Acyclic(g) && NoDangling(g) && forall a :: a in h <==> a in g && a != id
    requires forall a, b :: Step(h, a, b) <==> Step(g, a, b) && a != id && b != id
    ensures Acyclic(h) && NoDangling(h)
  {
    SubgraphAcyclic(g, h);
    forall a, b | Step(h, a, b)
      ensures b in h
    {
      assert Step(g, a, b);
    }
  }

  lemma {:induction false} DeleteConsistent(tasks: Table, id: int)
    requires Consistent(tasks)
    ensures Consistent(Removed(StripAll(tasks, id), id))
  {
    DeletedGraph(tasks, id);
    Shrunk(GraphOf(tasks), GraphOf(Removed(StripAll(tasks, id), id)), id);
  }

  lemma {:induction false} RemovedUnder(tasks: Table, id: int, bound: int)
    requires IdsUnder(tasks, bound)
    ensures IdsUnder(Removed(tasks, id), bound)
  {
    if tasks == [] {
    } else {
      RemovedUnder(tasks[..|tasks| - 1], id, bound);
    }
  }

  lemma {:induction false} DeleteKeeps(s: Store, id: int)
    requires Sane(s)
    ensures Sane(AfterDelete(s, id))
  {
    DeleteConsistent(s.tasks, id);
    RemovedUnder(StripAll(s.tasks, id), id, s.nextId);
    SaneIs(Removed(StripAll(s.tasks, id), id), s.nextId);
  }

  lemma {:induction false} DeleteApplies(s: Store, id: int)
    requires Sane(s) && id in ById(s.tasks)
    ensures Apply(s, Delete(id)) == Success(AfterDelete(s, id)) && Sane(AfterDelete(s, id))
  {
    DeleteKeeps(s, id);
  }

  lemma {:induction false} ApplyKeeps(s: Store, a: Action)
    requires Sane(s) && Apply(s, a).Success?
    ensures Sane(Apply(s, a).value)
  {
    match a
    case Create(start, due, duration, raw) =>
      DepsOwned(None, raw, s.tasks);
      CreateKeeps(s, start, due, duration, Checked(None, raw, s.tasks).value);
    case FindOrCreate(known) =>
      AppendKeeps(s, Task(s.nextId, None, None, None, []));
    case Update(id, patch) =>
      UpdateKeeps(s, id, patch);
    case SetDependencies(id, raw) =>
      AcceptedIsSafe(s, id, raw);
      var deps := Accepted(s.tasks, id, raw).value;
      WriteKeeps(s, id, ById(s.tasks)[id].(deps := deps), true);
    case Delete(id) =>
      DeleteKeeps(s, id);
  }

  lemma {:induction false} UpdateKeeps(s: Store, id: int, patch: Patch)
    requires Sane(s) && Apply(s, Update(id, patch)).Success?
    ensures Sane(Apply(s, Update(id, patch)).value)
  {
    var t := ById(s.tasks)[id];
    if patch.deps.Some? {
      AcceptedIsSafe(s, id, patch.deps.value);
      var after := Patched(t, patch, Accepted(s.tasks, id, patch.deps.value).value);
      WriteKeeps(s, id, after, true);
    } else {
      SameDepsSafe(s, id);
      var after := Patched(t, patch, t.deps);
      WriteKeeps(s, id, after, after.start != t.start || after.due != t.due || after.duration != t.duration);
    }
  }

  /** A refused action leaves the rows as they were. */
  ghost function RunActions(s: Store, actions: seq<Action>): (after: Store)
    requires Sane(s)
    ensures Sane(after)
    decreases |actions|
  {
    if actions == [] then s else
      var before := RunActions(s, actions[..|actions| - 1]);
      var a := actions[|actions| - 1];
      match Apply(before, a)
      case Failure(_) => before
      case Success(after) => ApplyKeeps(before, a); after
  }

  lemma {:induction false} FirstStep(g: Graph, p: seq<int>)
    requires IsPath(g, p) && |p| >= 2
    ensures Step(g, p[0], p[1])
  {
  }

  lemma {:induction false} NothingIsSane()
    ensures Sane(Store([], 1))
  {
    var g := GraphOf([]);
    assert g == map[];
    forall p: seq<int>
      ensures !(IsPath(g, p) && |p| >= 2)
    {
      if IsPath(g, p) && |p| >= 2 {
        FirstStep(g, p);
      }
    }
  }

  /** From an empty plan, no sequence of actions ever produces a cycle or a dependency on a task that is not there. */
  lemma {:induction false} EveryRunIsConsistent(actions: seq<Action>)
    ensures Sane(Store([], 1)) && Consistent(RunActions(Store([], 1), actions).tasks)
  {
    NothingIsSane();
  }
}
