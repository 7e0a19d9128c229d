/** When the cascade leaves every dependency satisfied. */
module CascadeSettling {
  import opened Cascade
  import opened Digraph

  /** Some scheduled task depends on `d`. */
  ghost predicate Awaited(plan: Plan, d: int) {
    exists t :: Scheduled(plan, t) && d in plan[t].deps
  }

  /** `t` is scheduled and depends on `d`, which is scheduled or the root. */
  predicate Edge(plan: Plan, root: int, t: int, d: int) {
    Scheduled(plan, t) && d in plan[t].deps && (d == root || Scheduled(plan, d))
  }

  /**
   * `active` holds the root and whatever depends on it, and a task in it that others wait for sits one level
   * above each of its dependencies in it. Chains and trees are layered; tasks that nothing waits for may sit anywhere.
   */
  ghost predicate Layered(plan: Plan, root: int, active: set<int>, level: int -> int) {
    && root in active
    && forall t, d :: Edge(plan, root, t, d) && d in active ==>
      t in active && (Awaited(plan, t) ==> level(t) == level(d) + 1)
  }

  // ---- the invariant ----

  /** The queue holds levels `k` and `k + 1` in order, and nothing above level `k` has been seen. */
  ghost predicate InLayers(plan: Plan, root: int, active: set<int>, level: int -> int, queue: seq<int>, seen: set<int>, k: int) {
    && (forall i :: 0 <= i < |queue| ==> queue[i] in active && (queue[i] == root || Scheduled(plan, queue[i])))
    && (forall i :: 0 <= i < |queue| && Awaited(plan, queue[i]) ==> k <= level(queue[i]) <= k + 1)
    && (forall i, j :: 0 <= i < j < |queue| && Awaited(plan, queue[i]) && Awaited(plan, queue[j]) ==>
      level(queue[i]) <= level(queue[j]))
    && (forall x :: x in seen && Awaited(plan, x) ==> level(x) <= k)
  }

  predicate Holds(plan: Plan, t: int, d: int)
    requires Scheduled(plan, t) && Scheduled(plan, d)
  {
    End(plan, d) <= Start(plan, t)
  }

  /** A dependency that does not hold, unless it is one of the root, is still to be looked at: its end is queued and unseen, or being dealt with. */
  ghost predicate Pending(original: Plan, root: int, s: State, cur: int, done: set<int>) {
    SameTasks(original, s.plan) &&
    forall t, d :: Scheduled(original, t) && d in original[t].deps && Scheduled(original, d) && t != root ==>
      Holds(s.plan, t, d) || (d in s.queue && d !in s.seen) || (d == cur && t !in done)
  }

  lemma {:induction false} NotSelf(original: Plan, root: int, active: set<int>, level: int -> int, id: int, cur: int)
    requires Layered(original, root, active, level) && cur in active && Edge(original, root, id, cur)
    ensures id in active && id !in original[id].deps
    ensures Awaited(original, id) ==> level(id) == level(cur) + 1
    ensures Awaited(original, cur)
  {
    if id in original[id].deps {
      assert Edge(original, root, id, id) && Awaited(original, id);
    }
  }

  lemma {:induction false} MoveLayers(original: Plan, root: int, active: set<int>, level: int -> int, queue: seq<int>, seen: set<int>, k: int, id: int)
    requires InLayers(original, root, active, level, queue, seen, k)
    requires id in active && Scheduled(original, id) && (Awaited(original, id) ==> level(id) == k + 1)
    ensures InLayers(original, root, active, level, queue + [id], seen, k)
  {
  }

  lemma {:induction false} RelaxPending(original: Plan, root: int, s: State, id: int, cur: int, done: set<int>)
    requires Pending(original, root, s, cur, done) && id in original
    requires Scheduled(original, id) ==> id !in original[id].deps && (Awaited(original, id) ==> id !in s.seen)
    ensures Pending(original, root, Relax(s, id), cur, done + {id})
  {
    var s' := Relax(s, id);
    if Scheduled(original, id) {
      LatestEndIs(s.plan, s.plan[id].deps);
    }
    forall t, d | Scheduled(original, t) && d in original[t].deps && Scheduled(original, d) && t != root
      ensures Holds(s'.plan, t, d) || (d in s'.queue && d !in s'.seen) || (d == cur && t !in done + {id})
    {
      if d == id {
        assert Awaited(original, id);
      }
    }
  }

  lemma {:induction false} RelaxStep(original: Plan, root: int, active: set<int>, level: int -> int, s: State, k: int, id: int, cur: int, done: set<int>)
    requires Layered(original, root, active, level) && InLayers(original, root, active, level, s.queue, s.seen, k)
    requires Pending(original, root, s, cur, done) && id in original && cur in original[id].deps
    requires cur in active && (cur == root || Scheduled(original, cur)) && (Awaited(original, cur) ==> level(cur) == k)
    ensures Pending(original, root, Relax(s, id), cur, done + {id})
    ensures InLayers(original, root, active, level, Relax(s, id).queue, s.seen, k)
  {
    if Scheduled(original, id) {
      NotSelf(original, root, active, level, id, cur);
      MoveLayers(original, root, active, level, s.queue, s.seen, k, id);
    }
    RelaxPending(original, root, s, id, cur, done);
  }

  lemma {:induction false} RelaxAllStep(original: Plan, root: int, active: set<int>, level: int -> int, s: State, k: int,
                                        ids: seq<int>, cur: int)
    requires Layered(original, root, active, level) && InLayers(original, root, active, level, s.queue, s.seen, k)
    requires Pending(original, root, s, cur, {}) && forall x :: x in ids ==> x in original && cur in original[x].deps
    requires cur in active && (cur == root || Scheduled(original, cur)) && (Awaited(original, cur) ==> level(cur) == k)
    ensures Pending(original, root, RelaxAll(s, ids), cur, SetOf(ids))
    ensures RelaxAll(s, ids).seen == s.seen
    ensures InLayers(original, root, active, level, RelaxAll(s, ids).queue, s.seen, k)
  {
    if ids == [] {
    } else {
      var n := |ids| - 1;
      RelaxAllStep(original, root, active, level, s, k, ids[..n], cur);
      RelaxStep(original, root, active, level, RelaxAll(s, ids[..n]), k, ids[n], cur, SetOf(ids[..n]));
    }
  }

  function SetOf(ids: seq<int>): set<int> {
    if ids == [] then {} else SetOf(ids[..|ids| - 1]) + {ids[|ids| - 1]}
  }

  lemma {:induction false} SetOfMember(ids: seq<int>, x: int)
    requires x in ids
    ensures x in SetOf(ids)
  {
    var n := |ids| - 1;
    if x != ids[n] {
      SetOfMember(ids[..n], x);
    }
  }

  lemma {:induction false} CopiesComplete(deps: seq<int>, d: int, id: int)
    requires d in deps
    ensures id in Copies(deps, d, id)
  {
    var n := |deps| - 1;
    if d != deps[n] {
      CopiesComplete(deps[..n], d, id);
    }
  }

  lemma {:induction false} DependentsComplete(tasks: seq<Task>, d: int, t: Task)
    requires t in tasks && d in t.deps
    ensures t.id in Dependents(tasks, d)
  {
    var n := |tasks| - 1;
    if t == tasks[n] {
      CopiesComplete(t.deps, d, t.id);
    } else {
      DependentsComplete(tasks[..n], d, t);
    }
  }

  lemma {:induction false} PopLayers(original: Plan, root: int, active: set<int>, level: int -> int, s: State, k: int) returns (next: int)
    requires s.queue != [] && InLayers(original, root, active, level, s.queue, s.seen, k)
    ensures InLayers(original, root, active, level, Popped(s).queue, Popped(s).seen, next)
    ensures s.queue[0] in active && (s.queue[0] == root || Scheduled(original, s.queue[0]))
    ensures Awaited(original, s.queue[0]) ==> level(s.queue[0]) == next
  {
    next := if Awaited(original, s.queue[0]) then level(s.queue[0]) else k;
  }

  lemma {:induction false} PopPending(original: Plan, root: int, s: State)
    requires s.queue != [] && Pending(original, root, s, 0, original.Keys)
    ensures s.queue[0] in s.seen ==> Pending(original, root, Popped(s), 0, original.Keys)
    ensures s.queue[0] !in s.seen ==> Pending(original, root, Popped(s), s.queue[0], {})
  {
    assert forall d :: d in s.queue ==> d == s.queue[0] || d in Popped(s).queue;
  }

  lemma {:induction false} AllDone(original: Plan, root: int, s: State, cur: int, done: set<int>)
    requires Pending(original, root, s, cur, done)
    requires forall t :: t in original && cur in original[t].deps ==> t in done
    ensures Pending(original, root, s, 0, original.Keys)
  {
  }

  lemma {:induction false} PassLayers(tasks: seq<Task>, original: Plan, root: int, active: set<int>, level: int -> int, s: State, k: int) returns (next: int)
    requires DistinctIds(tasks) && original == ById(tasks) && Layered(original, root, active, level)
    requires s.queue != [] && InLayers(original, root, active, level, s.queue, s.seen, k)
    requires Pending(original, root, s, 0, original.Keys)
    ensures InLayers(original, root, active, level, Pass(tasks, s).queue, Pass(tasks, s).seen, next)
    ensures Pending(original, root, Pass(tasks, s), 0, original.Keys)
  {
    var cur := s.queue[0];
    var ids := Dependents(tasks, cur);
    next := PopLayers(original, root, active, level, s, k);
    PopPending(original, root, s);
    if cur !in s.seen {
      DependentsDepend(tasks, DepGraph(original), cur);
      RelaxAllStep(original, root, active, level, Popped(s), next, ids, cur);
      forall t | t in original && cur in original[t].deps
        ensures t in SetOf(ids)
      {
        DependentsComplete(tasks, cur, original[t]);
        SetOfMember(ids, t);
      }
      AllDone(original, root, RelaxAll(Popped(s), ids), cur, SetOf(ids));
    }
  }

  lemma {:induction false} RunSettles(tasks: seq<Task>, root: int, active: set<int>, level: int -> int, s: State, k: int)
    requires DistinctIds(tasks) && Layered(ById(tasks), root, active, level) && Within(s, Universe(tasks, root))
    requires InLayers(ById(tasks), root, active, level, s.queue, s.seen, k) && Pending(ById(tasks), root, s, 0, ById(tasks).Keys)
    ensures Pending(ById(tasks), root, Run(tasks, s, root), 0, ById(tasks).Keys) && Run(tasks, s, root).queue == []
    decreases |Universe(tasks, root) - s.seen|, |s.queue|
  {
    if s.queue == [] {
    } else {
      PassWithin(tasks, s, root);
      SmallerRest(Universe(tasks, root), s.seen, s.queue[0]);
      var next := PassLayers(tasks, ById(tasks), root, active, level, s, k);
      RunSettles(tasks, root, active, level, Pass(tasks, s), next);
    }
  }

  lemma {:induction false} NothingPending(original: Plan, root: int, s: State)
    requires Pending(original, root, s, 0, original.Keys) && s.queue == []
    ensures SettledButRoot(s.plan, root)
  {
    forall t, d | Scheduled(s.plan, t) && d in s.plan[t].deps && Scheduled(s.plan, d) && t != root
      ensures End(s.plan, d) <= Start(s.plan, t)
    {
      assert Holds(s.plan, t, d);
    }
  }

  lemma {:induction false} FirstPending(original: Plan, root: int)
    requires SettledElsewhere(original, root)
    ensures Pending(original, root, State(original, [root], {}, []), 0, original.Keys)
  {
  }

  /** On layered tasks an edit of the root is absorbed: afterwards every task but the root waits for its dependencies. */
  lemma {:induction false} LayeredAbsorbs(tasks: seq<Task>, root: int, active: set<int>, level: int -> int)
    requires DistinctIds(tasks) && SettledElsewhere(ById(tasks), root)
    requires Layered(ById(tasks), root, active, level)
    ensures SettledButRoot(Final(tasks, root).plan, root)
  {
    FirstPending(ById(tasks), root);
    RunSettles(tasks, root, active, level, Initial(tasks, root), level(root));
    NothingPending(ById(tasks), root, Final(tasks, root));
  }

  // ---- what depends directly on the root, on any graph without cycles ----

  /** Every dependency on the root holds, unless the root itself has been moved. */
  ghost predicate RootHolds(original: Plan, root: int, s: State) {
    SameTasks(original, s.plan) && (root in s.moved ||
    forall t :: Scheduled(original, t) && root in original[t].deps && Scheduled(original, root) ==> Holds(s.plan, t, root))
  }

  lemma {:induction false} RelaxSame(original: Plan, s: State, id: int)
    requires SameTasks(original, s.plan)
    ensures SameTasks(original, Relax(s, id).plan)
  {
  }

  lemma {:induction false} RelaxRoot(original: Plan, root: int, s: State, id: int)
    requires RootHolds(original, root, s)
    ensures RootHolds(original, root, Relax(s, id))
  {
    RelaxSame(original, s, id);
  }

  lemma {:induction false} RelaxAllRoot(original: Plan, root: int, s: State, ids: seq<int>)
    requires RootHolds(original, root, s)
    ensures RootHolds(original, root, RelaxAll(s, ids))
  {
    if ids == [] {
    } else {
      RelaxAllRoot(original, root, s, ids[..|ids| - 1]);
      RelaxRoot(original, root, RelaxAll(s, ids[..|ids| - 1]), ids[|ids| - 1]);
    }
  }

  lemma {:induction false} RunRoot(tasks: seq<Task>, root: int, s: State)
    requires Within(s, Universe(tasks, root)) && RootHolds(ById(tasks), root, s)
    ensures RootHolds(ById(tasks), root, Run(tasks, s, root))
    decreases |Universe(tasks, root) - s.seen|, |s.queue|
  {
    if s.queue == [] {
    } else {
      PassWithin(tasks, s, root);
      SmallerRest(Universe(tasks, root), s.seen, s.queue[0]);
      assert RootHolds(ById(tasks), root, Popped(s));
      RelaxAllRoot(ById(tasks), root, Popped(s), Dependents(tasks, s.queue[0]));
      RunRoot(tasks, root, Pass(tasks, s));
    }
  }

  /** After the given dependents of the root have been relaxed, they wait for it. */
  ghost predicate RelaxedRoot(original: Plan, root: int, s: State, done: set<int>) {
    SameTasks(original, s.plan) && (root in s.moved ||
    forall t :: Scheduled(original, t) && t in done && root in original[t].deps && Scheduled(original, root) ==> Holds(s.plan, t, root))
  }

  lemma {:induction false} RelaxRootStep(original: Plan, root: int, s: State, id: int, done: set<int>)
    requires RelaxedRoot(original, root, s, done) && id in original && root in original[id].deps
    ensures RelaxedRoot(original, root, Relax(s, id), done + {id})
  {
    RelaxSame(original, s, id);
    LatestEndIs(s.plan, s.plan[id].deps);
  }

  lemma {:induction false} RelaxAllRootStep(original: Plan, root: int, s: State, ids: seq<int>)
    requires RelaxedRoot(original, root, s, {}) && forall x :: x in ids ==> x in original && root in original[x].deps
    ensures RelaxedRoot(original, root, RelaxAll(s, ids), SetOf(ids))
  {
    if ids == [] {
    } else {
      var n := |ids| - 1;
      RelaxAllRootStep(original, root, s, ids[..n]);
      RelaxRootStep(original, root, RelaxAll(s, ids[..n]), ids[n], SetOf(ids[..n]));
    }
  }

  lemma {:induction false} FirstPassRoot(tasks: seq<Task>, root: int)
    requires DistinctIds(tasks)
    ensures RootHolds(ById(tasks), root, Pass(tasks, Initial(tasks, root)))
  {
    var original, ids, s := ById(tasks), Dependents(tasks, root), Popped(Initial(tasks, root));
    DependentsDepend(tasks, DepGraph(original), root);
    RelaxAllRootStep(original, root, s, ids);
    forall t | t in original && root in original[t].deps
      ensures t in SetOf(ids)
    {
      DependentsComplete(tasks, root, original[t]);
      SetOfMember(ids, t);
    }
  }

  lemma {:induction false} DownstreamOfItself(g: Graph, id: int)
    requires Downstream(g, id, id)
    ensures !Acyclic(g)
  {
    var d :| Step(g, id, d) && Reaches(g, d, id);
    var p :| Connects(g, p, d, id);
    var cycle := [id] + p;
    assert IsPath(g, cycle) && |cycle| >= 2 && cycle[0] == cycle[|cycle| - 1];
  }

  lemma {:induction false} RootStays(tasks: seq<Task>, root: int)
    requires DistinctIds(tasks) && Acyclic(DepGraph(ById(tasks)))
    ensures root !in Final(tasks, root).moved
  {
    var g, moved := DepGraph(ById(tasks)), Final(tasks, root).moved;
    MovesAreSound(tasks, root);
    if root in moved {
      var k :| 0 <= k < |moved| && moved[k] == root;
      DownstreamOfItself(g, moved[k]);
    }
  }

  /** Layered or not: on a graph without cycles, whatever depends directly on the root waits for it. */
  lemma {:induction false} RootEdgesHold(tasks: seq<Task>, root: int, t: int)
    requires DistinctIds(tasks) && Acyclic(DepGraph(ById(tasks)))
    requires Scheduled(ById(tasks), root) && Scheduled(ById(tasks), t) && root in ById(tasks)[t].deps
    ensures Scheduled(Final(tasks, root).plan, t) && Scheduled(Final(tasks, root).plan, root)
    ensures Holds(Final(tasks, root).plan, t, root)
  {
    var s := Initial(tasks, root);
    PassWithin(tasks, s, root);
    SmallerRest(Universe(tasks, root), s.seen, root);
    FirstPassRoot(tasks, root);
    RunRoot(tasks, root, Pass(tasks, s));
    RootStays(tasks, root);
  }

  // ---- when exactly everything holds ----

  lemma {:induction false} StepThenReach(g: Graph, a: int, b: int, c: int)
    requires Step(g, a, b) && Downstream(g, b, c)
    ensures Downstream(g, a, c)
  {
    var d :| Step(g, b, d) && Reaches(g, d, c);
    ReachesStep(g, b, d, c);
  }

  /** On a graph without cycles, what the root depends on does not depend on the root, and stays too. */
  lemma {:induction false} RootDependencyStays(tasks: seq<Task>, root: int, d: int)
    requires DistinctIds(tasks) && Acyclic(DepGraph(ById(tasks)))
    requires root in ById(tasks) && d in ById(tasks)[root].deps
    ensures d !in Final(tasks, root).moved
  {
    var g, moved := DepGraph(ById(tasks)), Final(tasks, root).moved;
    MovesAreSound(tasks, root);
    if d in moved {
      var k :| 0 <= k < |moved| && moved[k] == d;
      StepThenReach(g, root, moved[k], root);
      DownstreamOfItself(g, root);
    }
  }

  /** So the cascade changes nothing about whether the root waits. */
  lemma {:induction false} RootWaitsAsBefore(tasks: seq<Task>, root: int)
    requires DistinctIds(tasks) && Acyclic(DepGraph(ById(tasks)))
    ensures RootWaits(Final(tasks, root).plan, root) <==> RootWaits(ById(tasks), root)
  {
    var original, s := ById(tasks), Final(tasks, root);
    MovesAreSound(tasks, root);
    if root in original {
      RootStays(tasks, root);
      assert TaskSound(original[root], s.plan[root], root in s.moved);
      forall d | d in original[root].deps
        ensures Scheduled(s.plan, d) <==> Scheduled(original, d)
        ensures Scheduled(s.plan, d) ==> End(s.plan, d) == End(original, d)
      {
        RootDependencyStays(tasks, root, d);
        if d in original {
          assert TaskSound(original[d], s.plan[d], d in s.moved);
        }
      }
    }
  }

  /**
   * On layered tasks without cycles, whatever the edit did to the dates and dependencies of the root: afterwards every
   * dependency holds exactly if those of the root itself did, as the root is never moved.
   */
  lemma {:induction false} LayeredSettles(tasks: seq<Task>, root: int, active: set<int>, level: int -> int)
    requires DistinctIds(tasks) && Acyclic(DepGraph(ById(tasks))) && SettledElsewhere(ById(tasks), root)
    requires Layered(ById(tasks), root, active, level)
    ensures Settled(Final(tasks, root).plan) <==> RootWaits(ById(tasks), root)
  {
    LayeredAbsorbs(tasks, root, active, level);
    RootWaitsAsBefore(tasks, root);
  }
}
