/** The cascade as the program runs it: a queue, a set of visited ids and a map of pending changes. */
module CascadeLoop {
  import opened Cascade
  import opened Wrappers

  /** The list kept under a key, empty if there is none. */
  function Lookup(m: map<int, seq<int>>, key: int): seq<int> {
    if key in m then m[key] else []
  }

  /** The reported change of a task that has been moved. */
  function ChangeOf(plan: Plan, id: int): Change {
    if Scheduled(plan, id) then Change(id, Start(plan, id), plan[id].due) else Change(id, 0, None)
  }

  /** The changes in the order in which the tasks were first moved. */
  function ChangesOf(s: State): seq<Change> {
    seq(|s.moved|, k requires 0 <= k < |s.moved| => ChangeOf(s.plan, s.moved[k]))
  }

  // ---- setting up ----

  lemma {:induction false} ByIdStep(tasks: seq<Task>, i: nat)
    requires i < |tasks|
    ensures ById(tasks[..i + 1]) == ById(tasks[..i])[tasks[i].id := tasks[i]]
  {
    assert tasks[..i + 1][..i] == tasks[..i];
  }

  method BuildById(tasks: seq<Task>) returns (byId: Plan)
    ensures byId == ById(tasks)
  {
    byId := map[];
    for i := 0 to |tasks|
      invariant byId == ById(tasks[..i])
    {
      ByIdStep(tasks, i);
      byId := byId[tasks[i].id := tasks[i]];
    }
    assert tasks[..|tasks|] == tasks;
  }

  method PushDependent(m: map<int, seq<int>>, dep: int, id: int) returns (after: map<int, seq<int>>)
    ensures forall d :: Lookup(after, d) == Lookup(m, d) + if d == dep then [id] else []
  {
    after := m[dep := Lookup(m, dep) + [id]];
  }

  lemma {:induction false} CopiesStep(before: seq<int>, deps: seq<int>, j: nat, d: int, id: int)
    requires j < |deps|
    ensures before + Copies(deps[..j + 1], d, id) == before + Copies(deps[..j], d, id) + if deps[j] == d then [id] else []
  {
    assert deps[..j + 1][..j] == deps[..j];
    var copies, last := Copies(deps[..j], d, id), if deps[j] == d then [id] else [];
    assert Copies(deps[..j + 1], d, id) == copies + last;
    assert before + (copies + last) == before + copies + last;
  }

  method AddDependents(m: map<int, seq<int>>, t: Task) returns (after: map<int, seq<int>>)
    ensures forall d :: Lookup(after, d) == Lookup(m, d) + Copies(t.deps, d, t.id)
  {
    after := m;
    for j := 0 to |t.deps|
      invariant forall d :: Lookup(after, d) == Lookup(m, d) + Copies(t.deps[..j], d, t.id)
    {
      after := PushDependent(after, t.deps[j], t.id);
      forall d
        ensures Lookup(after, d) == Lookup(m, d) + Copies(t.deps[..j + 1], d, t.id)
      {
        CopiesStep(Lookup(m, d), t.deps, j, d, t.id);
      }
    }
    assert t.deps[..|t.deps|] == t.deps;
  }

  /** Reverse adjacency: from a task to the tasks that depend on it. */
  method BuildDependents(tasks: seq<Task>) returns (m: map<int, seq<int>>)
    ensures forall d :: Lookup(m, d) == Dependents(tasks, d)
  {
    m := map[];
    for i := 0 to |tasks|
      invariant forall d :: Lookup(m, d) == Dependents(tasks[..i], d)
    {
      m := AddDependents(m, tasks[i]);
      assert tasks[..i + 1][..i] == tasks[..i];
    }
    assert tasks[..|tasks|] == tasks;
  }

  // ---- one dependent ----

  /** The pending changes say exactly what the overlay of tasks says. */
  ghost predicate Mirrors(changes: map<int, Change>, order: seq<int>, plan: Plan) {
    && (forall id :: id in changes <==> id in order)
    && (forall id :: id in changes ==> Scheduled(plan, id) && changes[id] == ChangeOf(plan, id))
  }

  method LatestEndOf(byId: Plan, changes: map<int, Change>, deps: seq<int>, ghost order: seq<int>) returns (latest: Option<int>)
    requires Mirrors(changes, order, byId)
    ensures latest == LatestEnd(byId, deps)
  {
    latest := None;
    for j := 0 to |deps|
      invariant latest == LatestEnd(byId, deps[..j])
    {
      assert deps[..j + 1][..j] == deps[..j];
      var depId := deps[j];
      if depId in byId {
        var depTask := byId[depId];
        var start := if depId in changes then Some(changes[depId].start) else depTask.start;
        if start.Some? {
          var days := Days(depTask);
          var end := if days > 0 then start.value + days * MS_PER_DAY else start.value;
          if latest.None? || end > latest.value {
            latest := Some(end);
          }
        }
      }
    }
    assert deps[..|deps|] == deps;
  }

  method RelaxDependent(byId: Plan, changes: map<int, Change>, order: seq<int>, queue: seq<int>, id: int, ghost seen: set<int>)
    returns (byId': Plan, changes': map<int, Change>, order': seq<int>, queue': seq<int>)
    requires Mirrors(changes, order, byId)
    ensures State(byId', queue', seen, order') == Relax(State(byId, queue, seen, order), id)
    ensures Mirrors(changes', order', byId')
  {
    byId', changes', order', queue' := byId, changes, order, queue;
    if id !in byId || byId[id].start.None? {
      return;
    }
    var dependent := byId[id];
    var latest := LatestEndOf(byId, changes, dependent.deps, order);
    if latest.None? {
      return;
    }
    var currentStart := if id in changes then changes[id].start else dependent.start.value;
    if currentStart >= latest.value {
      return;
    }
    var newStart := latest.value;
    var newEnd := if Days(dependent) > 0 then Some(newStart + Days(dependent) * MS_PER_DAY) else None;
    var nextDue := if dependent.due.Some? then newEnd else None;
    if id !in changes {
      order' := order + [id];
    }
    changes' := changes[id := Change(id, newStart, nextDue)];
    byId' := byId[id := dependent.(start := Some(newStart), due := nextDue)];
    queue' := queue + [id];
    assert byId'[id] == Shift(dependent, newStart);
  }

  // ---- the loops ----

  method RelaxDependents(byId: Plan, changes: map<int, Change>, order: seq<int>, queue: seq<int>, ids: seq<int>, ghost seen: set<int>)
    returns (byId': Plan, changes': map<int, Change>, order': seq<int>, queue': seq<int>)
    requires Mirrors(changes, order, byId)
    ensures State(byId', queue', seen, order') == RelaxAll(State(byId, queue, seen, order), ids)
    ensures Mirrors(changes', order', byId')
  {
    byId', changes', order', queue' := byId, changes, order, queue;
    for k := 0 to |ids|
      invariant State(byId', queue', seen, order') == RelaxAll(State(byId, queue, seen, order), ids[..k])
      invariant Mirrors(changes', order', byId')
    {
      assert ids[..k + 1][..k] == ids[..k];
      byId', changes', order', queue' := RelaxDependent(byId', changes', order', queue', ids[k], seen);
    }
    assert ids[..|ids|] == ids;
  }

  method Turn(tasks: seq<Task>, dependentsOf: map<int, seq<int>>, byId: Plan, changes: map<int, Change>, order: seq<int>,
              queue: seq<int>, seen: set<int>)
    returns (byId': Plan, changes': map<int, Change>, order': seq<int>, queue': seq<int>, seen': set<int>)
    requires (forall d :: Lookup(dependentsOf, d) == Dependents(tasks, d)) && queue != [] && Mirrors(changes, order, byId)
    ensures State(byId', queue', seen', order') == Pass(tasks, State(byId, queue, seen, order))
    ensures Mirrors(changes', order', byId')
  {
    byId', changes', order' := byId, changes, order;
    var cur := queue[0];
    queue' := queue[1..];
    seen' := seen + {cur};
    if cur in seen {
      return;
    }
    byId', changes', order', queue' := RelaxDependents(byId, changes, order, queue', Lookup(dependentsOf, cur), seen');
  }

  method Report(byId: Plan, changes: map<int, Change>, order: seq<int>, ghost s: State) returns (result: seq<Change>)
    requires Mirrors(changes, order, byId) && s.plan == byId && s.moved == order
    ensures result == ChangesOf(s)
  {
    result := [];
    for k := 0 to |order|
      invariant |result| == k && forall i :: 0 <= i < k ==> result[i] == ChangeOf(byId, order[i])
    {
      assert order[k] in order;
      result := result + [changes[order[k]]];
    }
  }

  method CascadeFrom(tasks: seq<Task>, rootId: int) returns (result: seq<Change>)
    ensures result == ChangesOf(Final(tasks, rootId))
    ensures DistinctIds(tasks) ==> forall c :: c in result ==> c.id in ById(tasks) && ChangeSound(ById(tasks)[c.id], c)
  {
    var byId := BuildById(tasks);
    var dependentsOf := BuildDependents(tasks);
    var changes: map<int, Change>, order: seq<int> := map[], [];
    var queue, seen := [rootId], {};
    ghost var universe := Universe(tasks, rootId);
    while queue != []
      invariant Mirrors(changes, order, byId)
      invariant Within(State(byId, queue, seen, order), universe)
      invariant Run(tasks, State(byId, queue, seen, order), rootId) == Final(tasks, rootId)
      decreases |universe - seen|, |queue|
    {
      PassWithin(tasks, State(byId, queue, seen, order), rootId);
      SmallerRest(universe, seen, queue[0]);
      byId, changes, order, queue, seen := Turn(tasks, dependentsOf, byId, changes, order, queue, seen);
    }
    result := Report(byId, changes, order, Final(tasks, rootId));
    if DistinctIds(tasks) {
      ChangesAre(tasks, rootId);
    }
  }

  // ---- what is reported ----

  /** A change of a stored task: later than before, with the deadline that goes with the new start. */
  ghost predicate ChangeSound(t: Task, c: Change) {
    c.id == t.id && t.start.Some? && t.start.value < c.start && DeadlineAfter(t, c.start, c.due)
  }

  /**
   * Every reported change moves a task that was scheduled, to a later start and with its deadline recomputed or dropped, and
   * every task is reported at most once. What is not reported is where it was.
   */
  lemma {:induction false} ChangesAre(tasks: seq<Task>, root: int)
    requires DistinctIds(tasks)
    ensures var s, changes := Final(tasks, root), ChangesOf(Final(tasks, root));
      && (forall k :: 0 <= k < |changes| ==> changes[k].id in ById(tasks) && ChangeSound(ById(tasks)[changes[k].id], changes[k]))
      && (forall j, k :: 0 <= j < k < |changes| ==> changes[j].id != changes[k].id)
      && s.plan.Keys == ById(tasks).Keys
      && (forall id :: id in ById(tasks) && (forall c :: c in changes ==> c.id != id) ==> s.plan[id] == ById(tasks)[id])
  {
    var s, changes := Final(tasks, root), ChangesOf(Final(tasks, root));
    MovesAreSound(tasks, root);
    forall k | 0 <= k < |changes|
      ensures changes[k].id == s.moved[k] && changes[k].id in ById(tasks) && ChangeSound(ById(tasks)[changes[k].id], changes[k])
    {
      ChangeIs(tasks, root, s.moved[k]);
      assert changes[k] == ChangeOf(s.plan, s.moved[k]);
    }
    forall id | id in ById(tasks) && forall c :: c in changes ==> c.id != id
      ensures s.plan[id] == ById(tasks)[id]
    {
      if id in s.moved {
        MovedIsReported(s, id);
      }
      assert TaskSound(ById(tasks)[id], s.plan[id], id in s.moved);
    }
  }

  lemma {:induction false} MovedIsReported(s: State, id: int)
    requires id in s.moved
    ensures exists c :: c in ChangesOf(s) && c.id == id
  {
    var k :| 0 <= k < |s.moved| && s.moved[k] == id;
    assert ChangesOf(s)[k] in ChangesOf(s);
  }

  lemma {:induction false} ChangeIs(tasks: seq<Task>, root: int, id: int)
    requires DistinctIds(tasks) && id in Final(tasks, root).moved
    ensures id in ById(tasks) && ChangeSound(ById(tasks)[id], ChangeOf(Final(tasks, root).plan, id))
  {
    var s, g := Final(tasks, root), DepGraph(ById(tasks));
    MovesAreSound(tasks, root);
    var k :| 0 <= k < |s.moved| && s.moved[k] == id;
    assert Downstream(g, s.moved[k], root);
    assert TaskSound(ById(tasks)[id], s.plan[id], true);
  }
}
