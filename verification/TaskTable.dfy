/** The task rows of an organization, and what each edit makes of them. */
module TaskTable {
  import opened Cascade
  import opened CycleCheck
  import opened Digraph
  import opened Wrappers

  /** A number as it arrives in a request. */
  datatype Number = Whole(value: int) | Fraction

  datatype PlanError = NotFound | NotInteger | DependsOnItself | UnknownDependency(id: int) | CycleDetected

  type Table = seq<Task>

  function GraphOf(tasks: Table): Graph {
    DepGraph(ById(tasks))
  }

  /** What must hold of an organization's rows at all times. */
  ghost predicate Consistent(tasks: Table) {
    DistinctIds(tasks) && Acyclic(GraphOf(tasks)) && NoDangling(GraphOf(tasks))
  }

  // ---- checking a list of dependencies ----

  /** One entry, after the list `out` of those before it. */
  function CheckOne(taskId: Option<int>, n: Number, tasks: Table, out: seq<int>): Result<seq<int>, PlanError> {
    if n.Fraction? then Failure(NotInteger)
    else if taskId == Some(n.value) then Failure(DependsOnItself)
    else if n.value !in ById(tasks) then Failure(UnknownDependency(n.value))
    else if n.value in out then Success(out)
    else Success(out + [n.value])
  }

  /** The list without repetitions, in order, or the first fault in it. */
  function Checked(taskId: Option<int>, raw: seq<Number>, tasks: Table): Result<seq<int>, PlanError> {
    if raw == [] then Success([]) else
      match Checked(taskId, raw[..|raw| - 1], tasks)
      case Failure(e) => Failure(e)
      case Success(out) => CheckOne(taskId, raw[|raw| - 1], tasks, out)
  }

  predicate Acceptable(taskId: Option<int>, n: Number, tasks: Table) {
    n.Whole? && taskId != Some(n.value) && n.value in ById(tasks)
  }

  lemma {:induction false} CheckedWhen(taskId: Option<int>, raw: seq<Number>, tasks: Table)
    ensures Checked(taskId, raw, tasks).Success? <==> forall k :: 0 <= k < |raw| ==> Acceptable(taskId, raw[k], tasks)
  {
    if raw == [] {
    } else {
      var front := raw[..|raw| - 1];
      CheckedWhen(taskId, front, tasks);
      assert forall k :: 0 <= k < |front| ==> raw[k] == front[k];
    }
  }

  lemma {:induction false} CheckedEntries(taskId: Option<int>, raw: seq<Number>, tasks: Table)
    requires Checked(taskId, raw, tasks).Success?
    ensures var out := Checked(taskId, raw, tasks).value;
      && (forall id :: id in out <==> Whole(id) in raw)
      && (forall j, k :: 0 <= j < k < |out| ==> out[j] != out[k])
  {
    if raw == [] {
    } else {
      var front := raw[..|raw| - 1];
      CheckedEntries(taskId, front, tasks);
      assert raw == front + [raw[|raw| - 1]];
    }
  }

  /** Accepted exactly when every entry is acceptable, and then with the same entries, each once. */
  lemma {:induction false} CheckedIs(taskId: Option<int>, raw: seq<Number>, tasks: Table)
    ensures Checked(taskId, raw, tasks).Success? <==> forall k :: 0 <= k < |raw| ==> Acceptable(taskId, raw[k], tasks)
    ensures Checked(taskId, raw, tasks).Success? ==>
      var out := Checked(taskId, raw, tasks).value;
      && (forall id :: id in out <==> Whole(id) in raw)
      && (forall j, k :: 0 <= j < k < |out| ==> out[j] != out[k])
  {
    CheckedWhen(taskId, raw, tasks);
    if Checked(taskId, raw, tasks).Success? {
      CheckedEntries(taskId, raw, tasks);
    }
  }

  lemma {:induction false} DepsOwned(taskId: Option<int>, raw: seq<Number>, tasks: Table)
    requires Checked(taskId, raw, tasks).Success?
    ensures forall d :: d in Checked(taskId, raw, tasks).value ==> d in GraphOf(tasks) && taskId != Some(d)
  {
    CheckedIs(taskId, raw, tasks);
    forall d | d in Checked(taskId, raw, tasks).value
      ensures d in GraphOf(tasks) && taskId != Some(d)
    {
      var k :| 0 <= k < |raw| && raw[k] == Whole(d);
      assert Acceptable(taskId, raw[k], tasks);
    }
  }

  // ---- writing rows ----

  /** Every row with this id replaced. */
  function Write(tasks: Table, id: int, t: Task): (after: Table)
    ensures |after| == |tasks|
  {
    seq(|tasks|, i requires 0 <= i < |tasks| => if tasks[i].id == id then t else tasks[i])
  }

  function Without(deps: seq<int>, id: int): seq<int> {
    if deps == [] then [] else
      Without(deps[..|deps| - 1], id) + if deps[|deps| - 1] == id then [] else [deps[|deps| - 1]]
  }

  function Strip(t: Task, id: int): Task {
    if t.id != id && id in t.deps then t.(deps := Without(t.deps, id)) else t
  }

  function StripAll(tasks: Table, id: int): (after: Table)
    ensures |after| == |tasks|
  {
    seq(|tasks|, i requires 0 <= i < |tasks| => Strip(tasks[i], id))
  }

  function Removed(tasks: Table, id: int): Table {
    if tasks == [] then [] else
      Removed(tasks[..|tasks| - 1], id) + if tasks[|tasks| - 1].id == id then [] else [tasks[|tasks| - 1]]
  }

  /** The rows after the cascade from `root` has been written back. */
  ghost function Cascaded(tasks: Table, root: int): (after: Table)
    requires DistinctIds(tasks)
    ensures |after| == |tasks|
  {
    FinalSameTasks(tasks, root);
    seq(|tasks|, i requires 0 <= i < |tasks| => Final(tasks, root).plan[tasks[i].id])
  }

  // ---- graphs of tables ----

  lemma {:induction false} IdsOf(tasks: Table, id: int)
    ensures id in ById(tasks) <==> exists i :: 0 <= i < |tasks| && tasks[i].id == id
  {
    if tasks == [] {
    } else {
      var n := |tasks| - 1;
      IdsOf(tasks[..n], id);
      if id in ById(tasks[..n]) {
        var i :| 0 <= i < n && tasks[..n][i].id == id;
        assert tasks[i].id == id;
      }
    }
  }

  /** A graph with exactly these ids and lists is the graph of the rows. */
  lemma {:induction false} GraphIs(tasks: Table, g: Graph)
    requires DistinctIds(tasks)
    requires forall i :: 0 <= i < |tasks| ==> tasks[i].id in g && g[tasks[i].id] == tasks[i].deps
    requires forall id :: id in g ==> exists i :: 0 <= i < |tasks| && tasks[i].id == id
    ensures GraphOf(tasks) == g
  {
    forall id
      ensures id in GraphOf(tasks) <==> id in g
      ensures id in g ==> GraphOf(tasks)[id] == g[id]
    {
      IdsOf(tasks, id);
      if id in g {
        var i :| 0 <= i < |tasks| && tasks[i].id == id;
        ByIdIs(tasks, tasks[i]);
      }
    }
  }

  lemma {:induction false} GraphAt(tasks: Table, i: int)
    requires DistinctIds(tasks) && 0 <= i < |tasks|
    ensures tasks[i].id in GraphOf(tasks) && GraphOf(tasks)[tasks[i].id] == tasks[i].deps
  {
    ByIdIs(tasks, tasks[i]);
  }

  lemma {:induction false} RowOf(tasks: Table, id: int) returns (i: int)
    requires id in GraphOf(tasks)
    ensures 0 <= i < |tasks| && tasks[i].id == id
  {
    IdsOf(tasks, id);
    i :| 0 <= i < |tasks| && tasks[i].id == id;
  }

  lemma {:induction false} AppendGraph(tasks: Table, t: Task)
    requires DistinctIds(tasks) && t.id !in GraphOf(tasks)
    ensures DistinctIds(tasks + [t]) && GraphOf(tasks + [t]) == GraphOf(tasks)[t.id := t.deps]
  {
    forall i | 0 <= i < |tasks|
      ensures tasks[i].id != t.id
    {
      GraphAt(tasks, i);
    }
    assert (tasks + [t])[..|tasks|] == tasks;
    DepGraphSet(ById(tasks), t);
  }

  lemma {:induction false} WriteGraph(tasks: Table, id: int, t: Task)
    requires DistinctIds(tasks) && id in GraphOf(tasks) && t.id == id
    ensures DistinctIds(Write(tasks, id, t)) && GraphOf(Write(tasks, id, t)) == Patched(GraphOf(tasks), id, t.deps)
  {
    var after, g := Write(tasks, id, t), Patched(GraphOf(tasks), id, t.deps);
    forall i | 0 <= i < |after|
      ensures after[i].id == tasks[i].id && after[i].id in g && g[after[i].id] == after[i].deps
    {
      GraphAt(tasks, i);
    }
    forall x | x in g
      ensures exists i :: 0 <= i < |after| && after[i].id == x
    {
      var i := RowOf(tasks, x);
      assert after[i].id == x;
    }
    GraphIs(after, g);
  }

  lemma {:induction false} CascadedGraph(tasks: Table, root: int)
    requires DistinctIds(tasks)
    ensures DistinctIds(Cascaded(tasks, root)) && GraphOf(Cascaded(tasks, root)) == GraphOf(tasks)
  {
    var after, plan := Cascaded(tasks, root), Final(tasks, root).plan;
    FinalSameTasks(tasks, root);
    forall i | 0 <= i < |after|
      ensures after[i].id == tasks[i].id && after[i].deps == tasks[i].deps
    {
      CascadedRow(tasks, root, i);
    }
    forall i | 0 <= i < |after|
      ensures after[i].id in GraphOf(tasks) && GraphOf(tasks)[after[i].id] == after[i].deps
    {
      GraphAt(tasks, i);
    }
    forall x | x in GraphOf(tasks)
      ensures exists i :: 0 <= i < |after| && after[i].id == x
    {
      var i := RowOf(tasks, x);
      assert after[i].id == x;
    }
    GraphIs(after, GraphOf(tasks));
  }

  lemma {:induction false} CascadedRow(tasks: Table, root: int, i: int)
    requires DistinctIds(tasks) && 0 <= i < |tasks|
    ensures Cascaded(tasks, root)[i].id == tasks[i].id && Cascaded(tasks, root)[i].deps == tasks[i].deps
  {
    MovesAreSound(tasks, root);
    ByIdIs(tasks, tasks[i]);
    var s := Final(tasks, root);
    assert TaskSound(tasks[i], s.plan[tasks[i].id], tasks[i].id in s.moved);
  }

  // ---- keeping graphs acyclic ----

  /** A new task cannot close a cycle: nothing points at it yet. */
  lemma {:induction false} NewTaskAcyclic(g: Graph, id: int, deps: seq<int>)
    requires Acyclic(g) && NoDangling(g) && id !in g && forall d :: d in deps ==> d in g
    ensures Acyclic(g[id := deps]) && NoDangling(g[id := deps])
  {
    var h := Patched(g, id, deps);
    OnCycleIs(h, id);
    forall d | d in deps
      ensures !Reaches(h, d, id)
    {
      if Reaches(h, d, id) {
        var p :| Connects(h, p, d, id);
        forall a, b | a in g.Keys && Step(h, a, b)
          ensures b in g.Keys
        {
          assert Step(g, a, b);
        }
        ClosedStays(h, g.Keys, p);
      }
    }
    PatchedAcyclic(g, id, deps);
    forall a, b | Step(h, a, b)
      ensures b in h
    {
      assert a != id ==> Step(g, a, b);
    }
  }

  lemma {:induction false} SubgraphAcyclic(g: Graph, h: Graph)
    requires Acyclic(g) && forall a, b :: Step(h, a, b) ==> Step(g, a, b)
    ensures Acyclic(h)
  {
    forall p | IsPath(h, p) && |p| >= 2
      ensures p[0] != p[|p| - 1]
    {
      assert IsPath(g, p);
    }
  }

  lemma {:induction false} PatchedNoDangling(g: Graph, id: int, deps: seq<int>)
    requires NoDangling(g) && id in g && forall d :: d in deps ==> d in g
    ensures NoDangling(Patched(g, id, deps))
  {
    forall a, b | Step(Patched(g, id, deps), a, b)
      ensures b in Patched(g, id, deps)
    {
      assert a != id ==> Step(g, a, b);
    }
  }

  lemma {:induction false} WithoutMember(deps: seq<int>, id: int, x: int)
    ensures x in Without(deps, id) <==> x in deps && x != id
  {
    if deps == [] {
    } else {
      var n := |deps| - 1;
      WithoutMember(deps[..n], id, x);
      assert x in deps <==> x in deps[..n] || x == deps[n];
    }
  }

  lemma {:induction false} RemovedMember(tasks: Table, id: int, t: Task)
    ensures t in Removed(tasks, id) <==> t in tasks && t.id != id
  {
    if tasks == [] {
    } else {
      var n := |tasks| - 1;
      RemovedMember(tasks[..n], id, t);
      assert t in tasks <==> t in tasks[..n] || t == tasks[n];
    }
  }

  lemma {:induction false} RemovedDistinct(tasks: Table, id: int)
    requires DistinctIds(tasks)
    ensures DistinctIds(Removed(tasks, id))
  {
    if tasks == [] {
    } else {
      var n := |tasks| - 1;
      RemovedDistinct(tasks[..n], id);
      forall k | 0 <= k < |Removed(tasks[..n], id)|
        ensures Removed(tasks[..n], id)[k].id != tasks[n].id
      {
        RemovedMember(tasks[..n], id, Removed(tasks[..n], id)[k]);
      }
    }
  }
}
