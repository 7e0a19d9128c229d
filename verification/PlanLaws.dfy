/** What each task action leaves in the rows, field by field. */
module PlanLaws {
  import opened Cascade
  import opened CascadeSettling
  import CycleCheck
  import opened Digraph
  import opened PlanActions
  import opened PlanSettling
  import opened TaskTable
  import opened Wrappers

  // ---- the list of dependencies ----

  /** What is wrong with an entry. */
  predicate IsFault(taskId: Option<int>, n: Number, tasks: Table, e: PlanError) {
    match n
    case Fraction => e == NotInteger
    case Whole(id) => if taskId == Some(id) then e == DependsOnItself else id !in ById(tasks) && e == UnknownDependency(id)
  }

  /** A list is refused for the first entry with which something is wrong. */
  lemma {:induction false} FirstFault(taskId: Option<int>, raw: seq<Number>, tasks: Table) returns (k: nat)
    requires Checked(taskId, raw, tasks).Failure?
    ensures k < |raw| && IsFault(taskId, raw[k], tasks, Checked(taskId, raw, tasks).error)
    ensures forall i :: 0 <= i < k ==> Acceptable(taskId, raw[i], tasks)
  {
    var n := |raw| - 1;
    if Checked(taskId, raw[..n], tasks).Failure? {
      k := FirstFault(taskId, raw[..n], tasks);
      assert forall i :: 0 <= i < k ==> raw[..n][i] == raw[i];
    } else {
      k := n;
      CheckedWhen(taskId, raw[..n], tasks);
      assert forall i :: 0 <= i < n ==> raw[..n][i] == raw[i];
    }
  }

  /** The accepted ids stand in the order in which they first came. */
  lemma {:induction false} InOrderGiven(taskId: Option<int>, raw: seq<Number>, tasks: Table, j: nat, k: nat)
    requires Checked(taskId, raw, tasks).Success? && j < k < |Checked(taskId, raw, tasks).value|
    ensures var out := Checked(taskId, raw, tasks).value;
      exists i :: 0 <= i < |raw| && raw[i] == Whole(out[j]) && Whole(out[k]) !in raw[..i + 1]
  {
    var out, n := Checked(taskId, raw, tasks).value, |raw| - 1;
    var before := Checked(taskId, raw[..n], tasks).value;
    CheckedEntries(taskId, raw[..n], tasks);
    CheckedEntries(taskId, raw, tasks);
    if k < |before| {
      InOrderGiven(taskId, raw[..n], tasks, j, k);
      var i :| 0 <= i < n && raw[..n][i] == Whole(before[j]) && Whole(before[k]) !in raw[..n][..i + 1];
      assert raw[..n][..i + 1] == raw[..i + 1] && raw[i] == Whole(out[j]);
    } else {
      assert Whole(before[j]) in raw[..n];
      var i :| 0 <= i < n && raw[..n][i] == Whole(before[j]);
      assert raw[i] == Whole(out[j]);
      NotBefore(raw, n, i, out[k]);
    }
  }

  lemma {:induction false} NotBefore(raw: seq<Number>, n: nat, i: nat, id: int)
    requires i < n <= |raw| && Whole(id) !in raw[..n]
    ensures Whole(id) !in raw[..i + 1]
  {
    forall h | 0 <= h < i + 1
      ensures raw[h] != Whole(id)
    {
      assert raw[..n][h] == raw[h];
    }
  }

  // ---- rows that an action does not name ----

  /** As it was, or moved by the cascade. */
  ghost predicate Carried(t: Task, now: Task) {
    TaskSound(t, now, false) || TaskSound(t, now, true)
  }

  /** The plan with this row in place of its own, and every other row carried. */
  ghost predicate OnlyRow(before: Plan, after: Plan, id: int, t: Task) {
    && after.Keys == before.Keys + {id} && after[id] == t
    && forall x :: x in before && x != id ==> Carried(before[x], after[x])
  }

  lemma {:induction false} FinalCarries(rows: Table, root: int, x: int)
    requires DistinctIds(rows) && x in ById(rows)
    ensures x in Final(rows, root).plan && Carried(ById(rows)[x], Final(rows, root).plan[x])
    ensures x !in Final(rows, root).moved ==> Final(rows, root).plan[x] == ById(rows)[x]
  {
    MovesAreSound(rows, root);
    assert TaskSound(ById(rows)[x], Final(rows, root).plan[x], x in Final(rows, root).moved);
  }

  lemma {:induction false} FinalKeys(rows: Table, root: int)
    requires DistinctIds(rows)
    ensures Final(rows, root).plan.Keys == ById(rows).Keys
  {
    MovesAreSound(rows, root);
  }

  /** A cascade on a graph without cycles leaves its root alone. */
  lemma {:induction false} CascadeCarries(rows: Table, id: int)
    requires DistinctIds(rows) && Acyclic(GraphOf(rows)) && id in ById(rows)
    ensures OnlyRow(ById(rows), ById(Cascaded(rows, id)), id, ById(rows)[id])
  {
    var plan, after := ById(rows), Final(rows, id).plan;
    CascadedPlan(rows, id);
    FinalKeys(rows, id);
    RootStays(rows, id);
    FinalCarries(rows, id, id);
    forall x | x in plan
      ensures Carried(plan[x], after[x])
    {
      FinalCarries(rows, id, x);
    }
    AllCarried(plan, after, id);
  }

  lemma {:induction false} AllCarried(before: Plan, after: Plan, id: int)
    requires after.Keys == before.Keys && id in before && after[id] == before[id]
    requires forall x :: x in before ==> Carried(before[x], after[x])
    ensures OnlyRow(before, after, id, before[id])
  {
    assert before.Keys + {id} == before.Keys;
  }

  lemma {:induction false} SameOthers(before: Plan, after: Plan, id: int, t: Task)
    requires id in before && OnlyRow(before[id := t], after, id, t)
    ensures OnlyRow(before, after, id, t)
  {
    forall x | x in before && x != id
      ensures Carried(before[x], after[x])
    {
      assert before[id := t][x] == before[x];
    }
  }

  lemma {:induction false} OwnRow(before: Plan, id: int, t: Task)
    requires id in before
    ensures OnlyRow(before, before[id := t], id, t)
  {
  }

  lemma {:induction false} WrittenRows(s: Store, id: int, t: Task, cascade: bool)
    requires Sane(s) && id in ById(s.tasks) && t.id == id && Acyclic(CycleCheck.Patched(GraphOf(s.tasks), id, t.deps))
    ensures OnlyRow(ById(s.tasks), ById(AfterWrite(s, id, t, cascade).tasks), id, t)
    ensures !cascade ==> ById(AfterWrite(s, id, t, cascade).tasks) == ById(s.tasks)[id := t]
  {
    var rows, before := Write(s.tasks, id, t), ById(s.tasks);
    WrittenPlan(s.tasks, id, t);
    WriteGraph(s.tasks, id, t);
    if cascade {
      CascadeCarries(rows, id);
      SameOthers(before, ById(Cascaded(rows, id)), id, t);
    } else {
      OwnRow(before, id, t);
    }
  }

  // ---- the actions ----

  ghost function PlanAfter(s: Store, a: Action): Plan
    requires Sane(s) && Apply(s, a).Success?
  {
    ById(Apply(s, a).value.tasks)
  }

  /** Each field is the one of the patch where there is one, and the old one otherwise. */
  predicate Follows(tasks: Table, patch: Patch, t: Task, now: Task) {
    && now.id == t.id
    && (if patch.start.Some? then now.start == patch.start.value else now.start == t.start)
    && (if patch.due.Some? then now.due == patch.due.value else now.due == t.due)
    && (if patch.duration.Some? then now.duration == patch.duration.value else now.duration == t.duration)
    && (if patch.deps.Some? then Checked(Some(t.id), patch.deps.value, tasks) == Success(now.deps) else now.deps == t.deps)
  }

  lemma {:induction false} RowOfUpdate(s: Store, id: int, patch: Patch)
    requires Sane(s) && Apply(s, Update(id, patch)).Success?
    ensures id in ById(s.tasks) && Follows(s.tasks, patch, ById(s.tasks)[id], UpdatedRow(s, id, patch))
  {
  }

  /** `task.update`: the row follows the patch, and the others are only carried along; without a change they stay as they are. */
  lemma {:induction false} UpdatedRows(s: Store, id: int, patch: Patch)
    requires Sane(s) && Apply(s, Update(id, patch)).Success?
    ensures id in ById(s.tasks) && id in PlanAfter(s, Update(id, patch))
    ensures var before, after := ById(s.tasks), PlanAfter(s, Update(id, patch));
      && Follows(s.tasks, patch, before[id], after[id]) && OnlyRow(before, after, id, after[id])
      && (after[id] == before[id] && patch.deps.None? ==> after == before)
  {
    var before, row, cascade := ById(s.tasks), UpdatedRow(s, id, patch), Reschedules(s, id, patch);
    UpdateWrites(s, id, patch);
    UpdatedRowSafe(s, id, patch);
    RowOfUpdate(s, id, patch);
    WrittenRows(s, id, row, cascade);
    UpdateKeeps(before, ById(AfterWrite(s, id, row, cascade).tasks), id, row, cascade);
  }

  lemma {:induction false} UpdateKeeps(before: Plan, after: Plan, id: int, row: Task, cascade: bool)
    requires id in before && OnlyRow(before, after, id, row) && (!cascade ==> after == before[id := row])
    ensures id in after && after[id] == row && (row == before[id] && !cascade ==> after == before)
  {
    if row == before[id] {
      assert before[id := row] == before;
    }
  }

  /** `task.set_dependencies`: the accepted list and nothing else. */
  lemma {:induction false} DependenciesSet(s: Store, id: int, raw: seq<Number>)
    requires Sane(s) && Apply(s, SetDependencies(id, raw)).Success?
    ensures id in ById(s.tasks) && Checked(Some(id), raw, s.tasks).Success?
    ensures OnlyRow(ById(s.tasks), ById(Apply(s, SetDependencies(id, raw)).value.tasks), id,
                    ById(s.tasks)[id].(deps := Checked(Some(id), raw, s.tasks).value))
  {
    AcceptedIsSafe(s, id, raw);
    WrittenRows(s, id, ById(s.tasks)[id].(deps := Accepted(s.tasks, id, raw).value), true);
  }

  lemma {:induction false} NothingReachesNew(g: Graph, id: int, deps: seq<int>, a: int, d: int)
    requires NoDangling(g) && id !in g && (forall x :: x in deps ==> x in g) && Step(g[id := deps], a, d)
    ensures !Reaches(g[id := deps], d, id)
  {
    var h := g[id := deps];
    assert a != id ==> Step(g, a, d);
    if Reaches(h, d, id) {
      var p :| Connects(h, p, d, id);
      forall x, y | x in g.Keys && Step(h, x, y)
        ensures y in g.Keys
      {
        assert Step(g, x, y);
      }
      CycleCheck.ClosedStays(h, g.Keys, p);
    }
  }

  lemma {:induction false} ByIdAppend(tasks: Table, t: Task)
    ensures ById(tasks + [t]) == ById(tasks)[t.id := t]
  {
    assert (tasks + [t])[..|tasks|] == tasks;
  }

  lemma {:induction false} AppendedPlan(s: Store, t: Task)
    requires Sane(s) && t.id == s.nextId
    ensures DistinctIds(s.tasks + [t]) && ById(s.tasks + [t]) == ById(s.tasks)[t.id := t] && t.id !in ById(s.tasks)
  {
    FreshAppend(s, t);
    ByIdAppend(s.tasks, t);
  }

  lemma {:induction false} NewIsNoRoot(rows: Table, g: Graph, id: int, deps: seq<int>, x: int)
    requires DistinctIds(rows) && GraphOf(rows) == g[id := deps]
    requires NoDangling(g) && id !in g && forall d :: d in deps ==> d in g
    ensures x !in Final(rows, id).moved
  {
    MovesAreSound(rows, id);
    var moved := Final(rows, id).moved;
    if x in moved {
      var k :| 0 <= k < |moved| && moved[k] == x;
      var d :| Step(g[id := deps], moved[k], d) && Reaches(g[id := deps], d, id);
      NothingReachesNew(g, id, deps, x, d);
    }
  }

  lemma {:induction false} SamePlan(a: Plan, b: Plan)
    requires a.Keys == b.Keys && forall x :: x in a ==> a[x] == b[x]
    ensures a == b
  {
    forall x
      ensures x in a <==> x in b
      ensures x in a ==> a[x] == b[x]
    {
      assert x in a <==> x in a.Keys;
      assert x in b <==> x in b.Keys;
    }
  }

  lemma {:induction false} UnmovedPlan(rows: Table, root: int)
    requires DistinctIds(rows) && forall x :: x in ById(rows) ==> x !in Final(rows, root).moved
    ensures ById(Cascaded(rows, root)) == ById(rows)
  {
    CascadedPlan(rows, root);
    FinalKeys(rows, root);
    forall x | x in ById(rows)
      ensures Final(rows, root).plan[x] == ById(rows)[x]
    {
      FinalCarries(rows, root, x);
    }
    SamePlan(ById(rows), Final(rows, root).plan);
  }

  /** Nothing waits for a task that has only just been made, so its cascade moves nothing. */
  lemma {:induction false} NewMovesNothing(s: Store, t: Task)
    requires Sane(s) && t.id == s.nextId && forall d :: d in t.deps ==> d in GraphOf(s.tasks)
    ensures DistinctIds(s.tasks + [t]) && ById(Cascaded(s.tasks + [t], t.id)) == ById(s.tasks + [t])
  {
    var rows := s.tasks + [t];
    FreshAppend(s, t);
    forall x | x in ById(rows)
      ensures x !in Final(rows, t.id).moved
    {
      NewIsNoRoot(rows, GraphOf(s.tasks), t.id, t.deps, x);
    }
    UnmovedPlan(rows, t.id);
  }

  /** `task.create`: one more row, with these fields and the accepted list, and every other row as it was. */
  lemma {:induction false} CreatedRows(s: Store, start: Option<int>, due: Option<int>, duration: Option<int>, raw: seq<Number>)
    requires Sane(s) && Apply(s, Create(start, due, duration, raw)).Success?
    ensures Checked(None, raw, s.tasks).Success? && s.nextId !in ById(s.tasks)
    ensures var r := Apply(s, Create(start, due, duration, raw)).value;
      && ById(r.tasks) == ById(s.tasks)[s.nextId := Task(s.nextId, start, due, duration, Checked(None, raw, s.tasks).value)]
      && r.nextId == s.nextId + 1
  {
    var t := Task(s.nextId, start, due, duration, Checked(None, raw, s.tasks).value);
    DepsOwned(None, raw, s.tasks);
    AppendedPlan(s, t);
    NewMovesNothing(s, t);
  }

  /** `task.find_or_create`: nothing if the key is known, and otherwise one row without dates or dependencies. */
  lemma {:induction false} FoundOrCreated(s: Store, known: bool)
    requires Sane(s)
    ensures Apply(s, FindOrCreate(known)).Success?
    ensures var r := Apply(s, FindOrCreate(known)).value;
      if known then r == s
      else ById(r.tasks) == ById(s.tasks)[s.nextId := Task(s.nextId, None, None, None, [])] && r.nextId == s.nextId + 1
  {
    AppendedPlan(s, Task(s.nextId, None, None, None, []));
  }

  lemma {:induction false} WithoutIs(deps: seq<int>, id: int)
    ensures multiset(Without(deps, id)) == multiset(deps)[id := 0]
  {
    if deps == [] {
    } else {
      var n := |deps| - 1;
      WithoutIs(deps[..n], id);
      assert deps == deps[..n] + [deps[n]];
    }
  }

  lemma {:induction false} WithoutNone(deps: seq<int>, id: int)
    requires id !in deps
    ensures Without(deps, id) == deps
  {
    if deps == [] {
    } else {
      WithoutNone(deps[..|deps| - 1], id);
    }
  }

  lemma {:induction false} WithoutJoin(a: seq<int>, b: seq<int>, id: int)
    ensures Without(a + b, id) == Without(a, id) + Without(b, id)
    decreases |b|
  {
    if b == [] {
      assert a + b == a;
    } else {
      var n := |b| - 1;
      assert (a + b)[..|a| + n] == a + b[..n];
      WithoutJoin(a, b[..n], id);
    }
  }

  lemma {:induction false} StrippedRow(tasks: Table, id: int, i: nat)
    requires i < |tasks| && tasks[i].id != id
    ensures StripAll(tasks, id)[i] == tasks[i].(deps := Without(tasks[i].deps, id))
  {
    if id !in tasks[i].deps {
      WithoutNone(tasks[i].deps, id);
    }
  }

  lemma {:induction false} DeletedTable(tasks: Table, id: int, i: nat)
    requires i < |tasks| && tasks[i].id != id
    ensures tasks[i].(deps := Without(tasks[i].deps, id)) in Removed(StripAll(tasks, id), id)
  {
    StrippedRow(tasks, id, i);
    RemovedHas(StripAll(tasks, id), id, i);
  }

  lemma {:induction false} StrippedIds(tasks: Table, id: int, k: nat)
    requires DistinctIds(tasks) && k < |tasks| && tasks[k].id == id
    ensures DistinctIds(StripAll(tasks, id)) && StripAll(tasks, id)[k].id == id
  {
  }

  lemma {:induction false} OneLess(tasks: Table, id: int)
    requires DistinctIds(tasks) && id in ById(tasks)
    ensures |Removed(StripAll(tasks, id), id)| == |tasks| - 1
    ensures forall now :: now in Removed(StripAll(tasks, id), id) ==> now.id != id
  {
    RemovedGone(StripAll(tasks, id), id);
    var k := RowOf(tasks, id);
    StrippedIds(tasks, id, k);
    RemovedOne(StripAll(tasks, id), id, k);
  }

  /** `task.delete`: the row is gone, and from every other row only this dependency. */
  lemma {:induction false} DeletedRows(s: Store, id: int)
    requires Sane(s) && id in ById(s.tasks)
    ensures Apply(s, Delete(id)).Success?
    ensures forall i :: 0 <= i < |s.tasks| && s.tasks[i].id != id ==>
      s.tasks[i].(deps := Without(s.tasks[i].deps, id)) in Apply(s, Delete(id)).value.tasks
    ensures |Apply(s, Delete(id)).value.tasks| == |s.tasks| - 1
    ensures forall now :: now in Apply(s, Delete(id)).value.tasks ==> now.id != id
  {
    DeleteApplies(s, id);
    OneLess(s.tasks, id);
    forall i | 0 <= i < |s.tasks| && s.tasks[i].id != id
      ensures s.tasks[i].(deps := Without(s.tasks[i].deps, id)) in Removed(StripAll(s.tasks, id), id)
    {
      DeletedTable(s.tasks, id, i);
    }
  }

  lemma {:induction false} RemovedHas(tasks: Table, id: int, i: nat)
    requires i < |tasks| && tasks[i].id != id
    ensures tasks[i] in Removed(tasks, id)
  {
    var n := |tasks| - 1;
    if i < n {
      RemovedHas(tasks[..n], id, i);
    }
  }

  lemma {:induction false} RemovedGone(tasks: Table, id: int)
    ensures forall t :: t in Removed(tasks, id) ==> t.id != id
  {
    if tasks == [] {
    } else {
      RemovedGone(tasks[..|tasks| - 1], id);
    }
  }

  lemma {:induction false} RemovedNone(tasks: Table, id: int)
    requires forall i :: 0 <= i < |tasks| ==> tasks[i].id != id
    ensures |Removed(tasks, id)| == |tasks|
  {
    if tasks == [] {
    } else {
      RemovedNone(tasks[..|tasks| - 1], id);
    }
  }

  lemma {:induction false} RemovedOne(tasks: Table, id: int, k: nat)
    requires DistinctIds(tasks) && k < |tasks| && tasks[k].id == id
    ensures |Removed(tasks, id)| == |tasks| - 1
  {
    var n := |tasks| - 1;
    if k == n {
      RemovedNone(tasks[..n], id);
    } else {
      RemovedOne(tasks[..n], id, k);
    }
  }
}
