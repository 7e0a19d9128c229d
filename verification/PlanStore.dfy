/** The actions as the handlers run them, against the stored rows. */
module PlanStore {
  import opened Cascade
  import opened CascadeLoop
  import opened CycleCheck
  import opened PlanActions
  import opened TaskTable
  import opened Wrappers

  method AssertDependencies(taskId: Option<int>, raw: seq<Number>, all: Table) returns (r: Result<seq<int>, PlanError>)
    ensures r == Checked(taskId, raw, all)
  {
    var owned := set i | 0 <= i < |all| :: all[i].id;
    forall id
      ensures id in owned <==> id in ById(all)
    {
      IdsOf(all, id);
    }
    var seen: set<int>, out: seq<int> := {}, [];
    for k := 0 to |raw|
      invariant Checked(taskId, raw[..k], all) == Success(out)
      invariant forall id :: id in seen <==> id in out
    {
      var n := raw[k];
      CheckedStep(taskId, raw, all, k);
      if n.Fraction? {
        FaultStays(taskId, raw, all, k + 1);
        return Failure(NotInteger);
      }
      if taskId == Some(n.value) {
        FaultStays(taskId, raw, all, k + 1);
        return Failure(DependsOnItself);
      }
      if n.value !in owned {
        FaultStays(taskId, raw, all, k + 1);
        return Failure(UnknownDependency(n.value));
      }
      if n.value !in seen {
        seen, out := seen + {n.value}, out + [n.value];
      }
    }
    assert raw[..|raw|] == raw;
    r := Success(out);
  }

  lemma {:induction false} CheckedStep(taskId: Option<int>, raw: seq<Number>, all: Table, k: nat)
    requires k < |raw| && Checked(taskId, raw[..k], all).Success?
    ensures Checked(taskId, raw[..k + 1], all) == CheckOne(taskId, raw[k], all, Checked(taskId, raw[..k], all).value)
  {
    assert raw[..k + 1][..k] == raw[..k];
  }

  lemma {:induction false} FaultStays(taskId: Option<int>, raw: seq<Number>, all: Table, k: nat)
    requires k <= |raw| && Checked(taskId, raw[..k], all).Failure?
    ensures Checked(taskId, raw, all) == Checked(taskId, raw[..k], all)
    decreases |raw| - k
  {
    if k == |raw| {
      assert raw[..k] == raw;
    } else {
      assert raw[..k + 1][..k] == raw[..k];
      FaultStays(taskId, raw, all, k + 1);
    }
  }

  /** The rows once the first `k` changes have been written. */
  ghost function Partly(before: Table, s: State, k: nat): (after: Table)
    requires k <= |s.moved|
    ensures |after| == |before|
  {
    seq(|before|, i requires 0 <= i < |before| => RowAfter(before[i], s.plan, s.moved[..k]))
  }

  function RowAfter(t: Task, plan: Plan, moved: seq<int>): Task {
    if t.id in moved && t.id in plan then plan[t.id] else t
  }

  function Changed(tasks: Table, c: Change): (after: Table)
    ensures |after| == |tasks|
  {
    seq(|tasks|, i requires 0 <= i < |tasks| => ChangedRow(tasks[i], c))
  }

  function ChangedRow(t: Task, c: Change): Task {
    if t.id == c.id then t.(start := Some(c.start), due := c.due) else t
  }

  lemma {:induction false} RowSound(before: Table, root: int, i: nat)
    requires DistinctIds(before) && i < |before|
    ensures var s := Final(before, root);
      before[i].id in s.plan && TaskSound(before[i], s.plan[before[i].id], before[i].id in s.moved)
  {
    MovesAreSound(before, root);
    ByIdIs(before, before[i]);
  }

  lemma {:induction false} RowStep(t: Task, plan: Plan, moved: seq<int>, k: nat, c: Change)
    requires k < |moved| && t.id in plan && TaskSound(t, plan[t.id], t.id in moved) && c == ChangeOf(plan, moved[k])
    ensures ChangedRow(RowAfter(t, plan, moved[..k]), c) == RowAfter(t, plan, moved[..k + 1])
  {
    assert moved[..k + 1] == moved[..k] + [moved[k]];
    assert moved[k] in moved && forall x :: x in moved[..k] ==> x in moved;
  }

  lemma {:induction false} WriteStep(before: Table, root: int, k: nat, c: Change)
    requires DistinctIds(before) && k < |Final(before, root).moved|
    requires c == ChangeOf(Final(before, root).plan, Final(before, root).moved[k])
    ensures Changed(Partly(before, Final(before, root), k), c) == Partly(before, Final(before, root), k + 1)
  {
    var s := Final(before, root);
    forall i | 0 <= i < |before|
      ensures ChangedRow(RowAfter(before[i], s.plan, s.moved[..k]), c) == RowAfter(before[i], s.plan, s.moved[..k + 1])
    {
      RowSound(before, root, i);
      RowStep(before[i], s.plan, s.moved, k, c);
    }
  }

  lemma {:induction false} NothingWritten(before: Table, s: State)
    ensures Partly(before, s, 0) == before
  {
  }

  lemma {:induction false} AllWritten(before: Table, root: int)
    requires DistinctIds(before)
    ensures Partly(before, Final(before, root), |Final(before, root).moved|) == Cascaded(before, root)
  {
    var s := Final(before, root);
    assert s.moved[..|s.moved|] == s.moved;
    forall i | 0 <= i < |before|
      ensures RowAfter(before[i], s.plan, s.moved) == Cascaded(before, root)[i]
    {
      RowSound(before, root, i);
    }
  }

  lemma {:induction false} RowFound(tasks: Table, i: nat)
    requires DistinctIds(tasks) && i < |tasks|
    ensures tasks[i].id in ById(tasks) && ById(tasks)[tasks[i].id] == tasks[i]
  {
    ByIdIs(tasks, tasks[i]);
  }

  lemma {:induction false} RowMissing(tasks: Table, id: int)
    requires forall k :: 0 <= k < |tasks| ==> tasks[k].id != id
    ensures id !in ById(tasks)
  {
    IdsOf(tasks, id);
  }

  class PlanBoard {
    var tasks: Table
    var nextId: int

    ghost function State(): Store
      reads this
    {
      Store(tasks, nextId)
    }

    constructor ()
      ensures Sane(State()) && State() == Store([], 1)
    {
      tasks, nextId := [], 1;
      new;
      NothingIsSane();
    }

    /** `UPDATE … WHERE id = id` with a computed row. */
    method WriteRow(id: int, t: Task)
      modifies this
      ensures tasks == Write(old(tasks), id, t) && nextId == old(nextId)
    {
      tasks := Write(tasks, id, t);
    }

    method FindRow(id: int) returns (row: Option<Task>)
      requires DistinctIds(tasks)
      ensures row.Some? <==> id in ById(tasks)
      ensures row.Some? ==> row.value == ById(tasks)[id]
    {
      for i := 0 to |tasks|
        invariant forall k :: 0 <= k < i ==> tasks[k].id != id
      {
        if tasks[i].id == id {
          RowFound(tasks, i);
          return Some(tasks[i]);
        }
      }
      RowMissing(tasks, id);
      return None;
    }

    /** Every change of the cascade written back, one row at a time. */
    method ApplyCascade(rootId: int)
      requires DistinctIds(tasks)
      modifies this
      ensures tasks == Cascaded(old(tasks), rootId) && nextId == old(nextId)
    {
      var changes := CascadeFrom(tasks, rootId);
      ghost var before, s := tasks, Final(tasks, rootId);
      NothingWritten(before, s);
      for k := 0 to |changes|
        invariant nextId == old(nextId) && tasks == Partly(before, s, k)
      {
        WriteStep(before, rootId, k, changes[k]);
        WriteChange(changes[k]);
      }
      AllWritten(before, rootId);
    }

    method WriteChange(c: Change)
      modifies this
      ensures tasks == Changed(old(tasks), c) && nextId == old(nextId)
    {
      tasks := Changed(tasks, c);
    }

    /** What an action that ended like this must have made of the rows as they were. */
    ghost function Outcome(error: Option<PlanError>): Result<Store, PlanError>
      reads this
    {
      match error
      case None => Success(State())
      case Some(e) => Failure(e)
    }

    method Create(start: Option<int>, due: Option<int>, duration: Option<int>, raw: seq<Number>) returns (error: Option<PlanError>)
      requires Sane(State())
      modifies this
      ensures Outcome(error) == Apply(old(State()), Action.Create(start, due, duration, raw)) && (error.Some? ==> State() == old(State()))
    {
      var checked := AssertDependencies(None, raw, tasks);
      if checked.Failure? {
        return Some(checked.error);
      }
      InsertRow(start, due, duration, checked.value);
      error := None;
    }

    method InsertRow(start: Option<int>, due: Option<int>, duration: Option<int>, deps: seq<int>)
      requires DistinctIds(tasks) && IdsUnder(tasks, nextId)
      modifies this
      ensures State() == AfterCreate(old(State()), start, due, duration, deps)
    {
      var t := Task(nextId, start, due, duration, deps);
      FreshDistinct(State(), t);
      tasks, nextId := tasks + [t], nextId + 1;
      if start.Some? {
        ApplyCascade(t.id);
      }
    }

    method FindOrCreate(known: bool) returns (error: Option<PlanError>)
      requires Sane(State())
      modifies this
      ensures Outcome(error) == Apply(old(State()), Action.FindOrCreate(known)) && (error.Some? ==> State() == old(State()))
    {
      if !known {
        tasks, nextId := tasks + [Task(nextId, None, None, None, [])], nextId + 1;
      }
      error := None;
    }

    method Accept(id: int, raw: seq<Number>) returns (r: Result<seq<int>, PlanError>)
      requires Sane(State())
      ensures r == Accepted(tasks, id, raw)
    {
      r := AssertDependencies(Some(id), raw, tasks);
      if r.Success? {
        var cycle := WouldCreateCycle(tasks, id, r.value);
        if cycle {
          r := Failure(CycleDetected);
        }
      }
    }

    method SetDependencies(id: int, raw: seq<Number>) returns (error: Option<PlanError>)
      requires Sane(State())
      modifies this
      ensures Outcome(error) == Apply(old(State()), Action.SetDependencies(id, raw)) && (error.Some? ==> State() == old(State()))
    {
      var existing := FindRow(id);
      if existing.None? {
        return Some(NotFound);
      }
      var deps := Accept(id, raw);
      if deps.Failure? {
        return Some(deps.error);
      }
      var t := existing.value.(deps := deps.value);
      WriteGraph(tasks, id, t);
      WriteRow(id, t);
      ApplyCascade(id);
      error := None;
    }

    method Update(id: int, patch: Patch) returns (error: Option<PlanError>)
      requires Sane(State())
      modifies this
      ensures Outcome(error) == Apply(old(State()), Action.Update(id, patch)) && (error.Some? ==> State() == old(State()))
    {
      var existing := FindRow(id);
      if existing.None? {
        return Some(NotFound);
      }
      var deps := existing.value.deps;
      if patch.deps.Some? {
        var accepted := Accept(id, patch.deps.value);
        if accepted.Failure? {
          return Some(accepted.error);
        }
        deps := accepted.value;
      }
      var t := PlanActions.Patched(existing.value, patch, deps);
      var timeChanged := t.start != existing.value.start || t.due != existing.value.due || t.duration != existing.value.duration;
      WriteGraph(tasks, id, t);
      WriteRow(id, t);
      if timeChanged || patch.deps.Some? {
        ApplyCascade(id);
      }
      error := None;
    }

    /** The reference stripped from every dependent, one row at a time, and then the row itself removed. */
    method Delete(id: int) returns (error: Option<PlanError>)
      requires Sane(State())
      modifies this
      ensures Outcome(error) == Apply(old(State()), Action.Delete(id)) && (error.Some? ==> State() == old(State()))
    {
      var existing := FindRow(id);
      if existing.None? {
        return Some(NotFound);
      }
      DeleteApplies(State(), id);
      EraseRow(id);
      error := None;
    }

    method Dispatch(a: Action) returns (error: Option<PlanError>)
      requires Sane(State())
      modifies this
      ensures Outcome(error) == Apply(old(State()), a) && (error.Some? ==> State() == old(State()))
    {
      match a
      case Create(start, due, duration, raw) => error := Create(start, due, duration, raw);
      case FindOrCreate(known) => error := FindOrCreate(known);
      case Update(id, patch) => error := Update(id, patch);
      case SetDependencies(id, raw) => error := SetDependencies(id, raw);
      case Delete(id) => error := Delete(id);
    }

    /** Any of the actions: the graph is acyclic and free of dangling ids before and after. */
    method Perform(a: Action) returns (error: Option<PlanError>)
      requires Sane(State())
      modifies this
      ensures Outcome(error) == Apply(old(State()), a) && (error.Some? ==> State() == old(State()))
      ensures Sane(State())
    {
      ghost var before := State();
      error := Dispatch(a);
      OutcomeSane(before, a, error);
    }

    lemma {:induction false} OutcomeSane(before: Store, a: Action, error: Option<PlanError>)
      requires Sane(before) && Outcome(error) == Apply(before, a) && (error.Some? ==> State() == before)
      ensures Sane(State())
    {
      if error.None? {
        ApplyKeeps(before, a);
      }
    }

    method EraseRow(id: int)
      requires DistinctIds(tasks)
      modifies this
      ensures State() == AfterDelete(old(State()), id)
    {
      StripDependents(id);
      DeleteRow(id);
    }

    method StripDependents(id: int)
      requires DistinctIds(tasks)
      modifies this
      ensures tasks == StripAll(old(tasks), id) && nextId == old(nextId)
    {
      var all := tasks;
      for i := 0 to |all|
        invariant nextId == old(nextId) && |tasks| == |all|
        invariant forall k :: 0 <= k < |all| ==> tasks[k] == if k < i then Strip(all[k], id) else all[k]
      {
        var dependent := all[i];
        if dependent.id != id && id in dependent.deps {
          var after := Filter(dependent.deps, id);
          WriteRow(dependent.id, dependent.(deps := after));
        }
      }
    }

    method DeleteRow(id: int)
      modifies this
      ensures tasks == Removed(old(tasks), id) && nextId == old(nextId)
    {
      var kept: Table := [];
      for i := 0 to |tasks|
        invariant kept == Removed(tasks[..i], id) && tasks == old(tasks) && nextId == old(nextId)
      {
        assert tasks[..i + 1][..i] == tasks[..i];
        if tasks[i].id != id {
          kept := kept + [tasks[i]];
        }
      }
      assert tasks[..|tasks|] == tasks;
      tasks := kept;
    }
  }

  method Filter(deps: seq<int>, id: int) returns (after: seq<int>)
    ensures after == Without(deps, id)
  {
    after := [];
    for k := 0 to |deps|
      invariant after == Without(deps[..k], id)
    {
      assert deps[..k + 1][..k] == deps[..k];
      if deps[k] != id {
        after := after + [deps[k]];
      }
    }
    assert deps[..|deps|] == deps;
  }
}
