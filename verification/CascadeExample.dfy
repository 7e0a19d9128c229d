/** Four tasks on which the cascade stops too early: a task pushed again after it was looked at leaves its dependents behind. */
module CascadeExample {
  import opened Cascade
  import opened Digraph
  import opened Sequences
  import opened Wrappers

  // ---- the tasks: 2 depends on 1 and 3, 3 on 1, 4 on 2; the root is 1, and 2 is listed before 3 ----

  /** A one-day task that starts on day `day`. */
  function OneDay(id: int, day: int, deps: seq<int>): Task {
    Task(id, Some(day * MS_PER_DAY), None, Some(1), deps)
  }

  /** Task 1 on day 10, and the others on these days. */
  function PlanOf(x: int, y: int, z: int): Plan {
    map[1 := OneDay(1, 10, []), 2 := OneDay(2, x, [1, 3]), 3 := OneDay(3, y, [1]), 4 := OneDay(4, z, [2])]
  }

  function Rows(): seq<Task> {
    [] + [OneDay(1, 10, [])] + [OneDay(2, 1, [1, 3])] + [OneDay(3, 0, [1])] + [OneDay(4, 2, [2])]
  }

  /** Who depends on each of the tasks, in the order of the rows. */
  function Followers(d: int): seq<int> {
    if d == 1 then [2, 3] else if d == 2 then [4] else if d == 3 then [2] else []
  }

  lemma {:induction false} Snoc(tasks: seq<Task>, t: Task, d: int)
    ensures ById(tasks + [t]) == ById(tasks)[t.id := t]
    ensures Dependents(tasks + [t], d) == Dependents(tasks, d) + Copies(t.deps, d, t.id)
  {
    assert (tasks + [t])[..|tasks|] == tasks;
  }

  lemma {:induction false} CopiesOfOne(a: int, d: int, id: int)
    ensures Copies([a], d, id) == if d == a then [id] else []
  {
    assert [a][..0] == [];
  }

  lemma {:induction false} CopiesOfTwo(a: int, b: int, d: int, id: int)
    ensures Copies([a, b], d, id) == (if d == a then [id] else []) + (if d == b then [id] else [])
  {
    assert [a, b][..1] == [a];
    CopiesOfOne(a, d, id);
  }

  lemma {:induction false} RowsById()
    ensures ById(Rows()) == PlanOf(1, 0, 2)
  {
    var a, b, c, e := OneDay(1, 10, []), OneDay(2, 1, [1, 3]), OneDay(3, 0, [1]), OneDay(4, 2, [2]);
    Snoc([], a, 0);
    Snoc([] + [a], b, 0);
    Snoc([] + [a] + [b], c, 0);
    Snoc([] + [a] + [b] + [c], e, 0);
  }

  lemma {:induction false} TwoDependents(tasks: seq<Task>, a: Task, b: Task, d: int)
    ensures Dependents(tasks + [a] + [b], d) == Dependents(tasks, d) + (Copies(a.deps, d, a.id) + Copies(b.deps, d, b.id))
  {
    Snoc(tasks, a, d);
    Snoc(tasks + [a], b, d);
    Assoc(Dependents(tasks, d), Copies(a.deps, d, a.id), Copies(b.deps, d, b.id));
  }

  /** The first two rows, and the other two. */
  lemma {:induction false} HalfDependents(d: int)
    ensures Copies([], d, 1) + Copies([1, 3], d, 2) == if d == 1 || d == 3 then [2] else []
    ensures Copies([1], d, 3) + Copies([2], d, 4) == if d == 1 then [3] else if d == 2 then [4] else []
  {
    CopiesOfTwo(1, 3, d, 2);
    CopiesOfOne(1, d, 3);
    CopiesOfOne(2, d, 4);
  }

  lemma {:induction false} RowsDependents(d: int)
    ensures Dependents(Rows(), d) == Followers(d)
  {
    var a, b, c, e := OneDay(1, 10, []), OneDay(2, 1, [1, 3]), OneDay(3, 0, [1]), OneDay(4, 2, [2]);
    TwoDependents([], a, b, d);
    TwoDependents([] + [a] + [b], c, e, d);
    HalfDependents(d);
  }

  lemma {:induction false} RowsDistinct()
    ensures DistinctIds(Rows())
  {
    assert Rows() == [OneDay(1, 10, []), OneDay(2, 1, [1, 3]), OneDay(3, 0, [1]), OneDay(4, 2, [2])];
  }

  // ---- the run ----

  ghost predicate Looks(s: State, plan: Plan, queue: seq<int>, seen: set<int>) {
    s.plan == plan && s.queue == queue && s.seen == seen
  }

  lemma {:induction false} LatestOfOne(plan: Plan, d: int)
    requires Scheduled(plan, d)
    ensures LatestEnd(plan, [d]) == Some(End(plan, d))
  {
    assert [d][..0] == [];
  }

  lemma {:induction false} LatestOfTwo(plan: Plan, a: int, b: int)
    requires Scheduled(plan, a) && Scheduled(plan, b)
    ensures LatestEnd(plan, [a, b]) == Some(if End(plan, b) > End(plan, a) then End(plan, b) else End(plan, a))
  {
    assert [a, b][..1] == [a];
    LatestOfOne(plan, a);
  }

  /** Task 2 is moved behind the root, or behind task 3 if that ends later. */
  lemma {:induction false} Relax2(s: State, x: int, y: int, z: int, queue: seq<int>, seen: set<int>, latest: int)
    requires Looks(s, PlanOf(x, y, z), queue, seen) && latest == (if y > 10 then y + 1 else 11) && x < latest
    ensures Looks(Relax(s, 2), PlanOf(latest, y, z), queue + [2], seen)
  {
    LatestOfTwo(s.plan, 1, 3);
    assert PlanOf(x, y, z)[2 := OneDay(2, latest, [1, 3])] == PlanOf(latest, y, z);
  }

  lemma {:induction false} Relax3(s: State, x: int, y: int, z: int, queue: seq<int>, seen: set<int>)
    requires Looks(s, PlanOf(x, y, z), queue, seen) && y < 11
    ensures Looks(Relax(s, 3), PlanOf(x, 11, z), queue + [3], seen)
  {
    LatestOfOne(s.plan, 1);
    assert PlanOf(x, y, z)[3 := OneDay(3, 11, [1])] == PlanOf(x, 11, z);
  }

  lemma {:induction false} Relax4(s: State, x: int, y: int, z: int, queue: seq<int>, seen: set<int>)
    requires Looks(s, PlanOf(x, y, z), queue, seen) && z < x + 1
    ensures Looks(Relax(s, 4), PlanOf(x, y, x + 1), queue + [4], seen)
  {
    LatestOfOne(s.plan, 2);
    assert PlanOf(x, y, z)[4 := OneDay(4, x + 1, [2])] == PlanOf(x, y, x + 1);
  }

  lemma {:induction false} RelaxOne(s: State, id: int)
    ensures RelaxAll(s, [id]) == Relax(s, id)
  {
    assert [id][..0] == [];
  }

  lemma {:induction false} RelaxTwo(s: State, a: int, b: int)
    ensures RelaxAll(s, [a, b]) == Relax(Relax(s, a), b)
  {
    assert [a, b][..1] == [a];
    RelaxOne(s, a);
  }

  /** What a turn does to a state, apart from moving tasks. */
  lemma {:induction false} PassIs(tasks: seq<Task>, s: State, plan: Plan, cur: int, rest: seq<int>, seen: set<int>, ids: seq<int>)
    requires Looks(s, plan, [cur] + rest, seen) && Dependents(tasks, cur) == ids
    ensures Looks(Popped(s), plan, rest, seen + {cur})
    ensures Pass(tasks, s) == if cur in seen then Popped(s) else RelaxAll(Popped(s), ids)
  {
  }

  lemma {:induction false} Turn1(s: State)
    requires Looks(s, PlanOf(1, 0, 2), [1], {})
    ensures Looks(Pass(Rows(), s), PlanOf(11, 11, 2), [2, 3], {1})
  {
    RowsDependents(1);
    assert [1] + [] == [1] && {} + {1} == {1} && [] + [2] == [2];
    PassIs(Rows(), s, PlanOf(1, 0, 2), 1, [], {}, [2, 3]);
    RelaxTwo(Popped(s), 2, 3);
    Relax2(Popped(s), 1, 0, 2, [], {1}, 11);
    Relax3(Relax(Popped(s), 2), 11, 0, 2, [2], {1});
  }

  lemma {:induction false} Turn2(s: State)
    requires Looks(s, PlanOf(11, 11, 2), [2, 3], {1})
    ensures Looks(Pass(Rows(), s), PlanOf(11, 11, 12), [3, 4], {1, 2})
  {
    RowsDependents(2);
    assert [2] + [3] == [2, 3];
    PassIs(Rows(), s, PlanOf(11, 11, 2), 2, [3], {1}, [4]);
    RelaxOne(Popped(s), 4);
    Relax4(Popped(s), 11, 11, 2, [3], {1, 2});
  }

  lemma {:induction false} Turn3(s: State)
    requires Looks(s, PlanOf(11, 11, 12), [3, 4], {1, 2})
    ensures Looks(Pass(Rows(), s), PlanOf(12, 11, 12), [4, 2], {1, 2, 3})
  {
    RowsDependents(3);
    assert [3] + [4] == [3, 4];
    PassIs(Rows(), s, PlanOf(11, 11, 12), 3, [4], {1, 2}, [2]);
    RelaxOne(Popped(s), 2);
    Relax2(Popped(s), 11, 11, 12, [4], {1, 2, 3}, 12);
  }

  lemma {:induction false} Turn4(s: State)
    requires Looks(s, PlanOf(12, 11, 12), [4, 2], {1, 2, 3})
    ensures Looks(Pass(Rows(), s), PlanOf(12, 11, 12), [2], {1, 2, 3, 4})
  {
    RowsDependents(4);
    assert [4] + [2] == [4, 2];
    PassIs(Rows(), s, PlanOf(12, 11, 12), 4, [2], {1, 2, 3}, []);
  }

  /** The second time task 2 is reached it has been seen, and nothing is done. */
  lemma {:induction false} Turn5(s: State)
    requires Looks(s, PlanOf(12, 11, 12), [2], {1, 2, 3, 4})
    ensures Looks(Pass(Rows(), s), PlanOf(12, 11, 12), [], {1, 2, 3, 4})
  {
    RowsDependents(2);
    assert [2] + [] == [2] && {1, 2, 3, 4} + {2} == {1, 2, 3, 4};
    PassIs(Rows(), s, PlanOf(12, 11, 12), 2, [], {1, 2, 3, 4}, [4]);
  }

  lemma {:induction false} RunTurn(tasks: seq<Task>, s: State, root: int) returns (next: State)
    requires Within(s, Universe(tasks, root)) && s.queue != []
    ensures next == Pass(tasks, s) && Within(next, Universe(tasks, root)) && Run(tasks, s, root) == Run(tasks, next, root)
  {
    PassWithin(tasks, s, root);
    next := Pass(tasks, s);
  }

  lemma {:induction false} WholeRun()
    ensures Final(Rows(), 1).plan == PlanOf(12, 11, 12)
  {
    var s0 := Initial(Rows(), 1);
    RowsById();
    Turn1(s0);
    var s1 := RunTurn(Rows(), s0, 1);
    Turn2(s1);
    var s2 := RunTurn(Rows(), s1, 1);
    Turn3(s2);
    var s3 := RunTurn(Rows(), s2, 1);
    Turn4(s3);
    var s4 := RunTurn(Rows(), s3, 1);
    Turn5(s4);
    var s5 := RunTurn(Rows(), s4, 1);
  }

  lemma {:induction false} Unsettled()
    ensures !Settled(PlanOf(12, 11, 12))
  {
    var plan := PlanOf(12, 11, 12);
    assert Scheduled(plan, 4) && 2 in plan[4].deps && Scheduled(plan, 2) && End(plan, 2) > Start(plan, 4);
  }

  lemma {:induction false} OnlyRootBroken()
    ensures SettledElsewhere(PlanOf(1, 0, 2), 1) && RootWaits(PlanOf(1, 0, 2), 1)
  {
  }

  /** Every dependency has a lower rank. */
  function Rank(id: int): int {
    if id == 1 then 0 else if id == 3 then 1 else if id == 2 then 2 else 3
  }

  lemma {:induction false} ExampleGraph()
    ensures Acyclic(DepGraph(PlanOf(1, 0, 2))) && NoDangling(DepGraph(PlanOf(1, 0, 2)))
  {
    var g := DepGraph(PlanOf(1, 0, 2));
    forall a, b | Step(g, a, b)
      ensures Rank(b) < Rank(a) && b in g
    {
      assert a == 2 || a == 3 || a == 4;
    }
    RankedAcyclic(g, Rank);
  }

  /**
   * On rows that the program can hold, and before the edit only dependencies on the root are broken, yet afterwards task 4
   * starts before task 2 ends.
   */
  lemma {:induction false} DoesNotSettle() returns (tasks: seq<Task>)
    ensures DistinctIds(tasks) && Acyclic(DepGraph(ById(tasks))) && NoDangling(DepGraph(ById(tasks)))
    ensures SettledElsewhere(ById(tasks), 1) && RootWaits(ById(tasks), 1)
    ensures !Settled(Final(tasks, 1).plan)
  {
    tasks := Rows();
    RowsDistinct();
    RowsById();
    ExampleGraph();
    OnlyRootBroken();
    WholeRun();
    Unsettled();
  }
}
