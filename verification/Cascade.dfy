/** Pushing dependent tasks forward after an edit. */
module Cascade {
  import opened Digraph
  import opened Wrappers

  const MS_PER_DAY: nat := 86400000

  /** Dates are milliseconds; `deps` is empty where the row stores no list. */
  datatype Task = Task(id: int, start: Option<int>, due: Option<int>, duration: Option<int>, deps: seq<int>)

  datatype Change = Change(id: int, start: int, due: Option<int>)

  /** Tasks by id, with the changes so far applied. */
  type Plan = map<int, Task>

  function Days(t: Task): int {
    match t.duration
    case None => 0
    case Some(d) => d
  }

  /** How long a task takes, in milliseconds. */
  function Length(t: Task): (length: nat)
    ensures t.duration.Some? && t.duration.value > 0 ==> length == t.duration.value * 24 * 60 * 60 * 1000
    ensures t.duration.None? || t.duration.value <= 0 ==> length == 0
  {
    if Days(t) > 0 then Days(t) * MS_PER_DAY else 0
  }

  predicate Scheduled(plan: Plan, id: int) {
    id in plan && plan[id].start.Some?
  }

  function Start(plan: Plan, id: int): int
    requires Scheduled(plan, id)
  {
    plan[id].start.value
  }

  function End(plan: Plan, id: int): int
    requires Scheduled(plan, id)
  {
    plan[id].start.value + Length(plan[id])
  }

  /** The latest end among those of `deps` that are scheduled. */
  function LatestEnd(plan: Plan, deps: seq<int>): Option<int> {
    if deps == [] then None else
      var before, d := LatestEnd(plan, deps[..|deps| - 1]), deps[|deps| - 1];
      if Scheduled(plan, d) && (before.None? || End(plan, d) > before.value) then Some(End(plan, d)) else before
  }

  /** Moved to `start`, with the deadline kept only where there was one and a duration to recompute it from. */
  function Shift(t: Task, start: int): Task {
    t.(start := Some(start),
       due := if t.due.Some? && Days(t) > 0 then Some(start + Length(t)) else None)
  }

  // ---- one run, as a function of the tasks ----

  datatype State = State(plan: Plan, queue: seq<int>, seen: set<int>, moved: seq<int>)

  /** One dependent: pushed forward, and queued, if it starts before some dependency ends. */
  function Relax(s: State, id: int): State {
    if !Scheduled(s.plan, id) then s else
      var t, latest := s.plan[id], LatestEnd(s.plan, s.plan[id].deps);
      if latest.None? || t.start.value >= latest.value then s
      else State(s.plan[id := Shift(t, latest.value)], s.queue + [id], s.seen,
                 if id in s.moved then s.moved else s.moved + [id])
  }

  function RelaxAll(s: State, ids: seq<int>): State {
    if ids == [] then s else Relax(RelaxAll(s, ids[..|ids| - 1]), ids[|ids| - 1])
  }

  /** How often `d` occurs in the list, as that many copies of `id`. */
  function Copies(deps: seq<int>, d: int, id: int): seq<int> {
    if deps == [] then [] else
      Copies(deps[..|deps| - 1], d, id) + if deps[|deps| - 1] == d then [id] else []
  }

  /** The tasks that depend on `d`, in the order of the list. */
  function Dependents(tasks: seq<Task>, d: int): seq<int> {
    if tasks == [] then [] else
      var t := tasks[|tasks| - 1];
      Dependents(tasks[..|tasks| - 1], d) + Copies(t.deps, d, t.id)
  }

  function ById(tasks: seq<Task>): (plan: Plan)
    ensures forall id :: id in plan ==> plan[id].id == id && plan[id] in tasks
    ensures forall t :: t in tasks ==> t.id in plan
  {
    if tasks == [] then map[] else
      var t := tasks[|tasks| - 1];
      ById(tasks[..|tasks| - 1])[t.id := t]
  }

  /** The head of the queue taken off; marked as seen if it has just been reached. */
  function Popped(s: State): State
    requires s.queue != []
  {
    State(s.plan, s.queue[1..], s.seen + {s.queue[0]}, s.moved)
  }

  /** One turn of the loop. */
  function Pass(tasks: seq<Task>, s: State): State
    requires s.queue != []
  {
    if s.queue[0] in s.seen then Popped(s) else RelaxAll(Popped(s), Dependents(tasks, s.queue[0]))
  }

  ghost function Universe(tasks: seq<Task>, root: int): set<int> {
    ById(tasks).Keys + {root}
  }

  ghost predicate Within(s: State, universe: set<int>) {
    s.seen <= universe && (forall k :: 0 <= k < |s.queue| ==> s.queue[k] in universe)
  }

  lemma {:induction false} CopiesMember(deps: seq<int>, d: int, id: int, x: int)
    requires x in Copies(deps, d, id)
    ensures x == id && d in deps
  {
    var n := |deps| - 1;
    if x in Copies(deps[..n], d, id) {
      CopiesMember(deps[..n], d, id, x);
    }
  }

  lemma {:induction false} DependentsMember(tasks: seq<Task>, d: int, x: int)
    requires x in Dependents(tasks, d)
    ensures exists t :: t in tasks && t.id == x && d in t.deps
  {
    var n := |tasks| - 1;
    if x in Dependents(tasks[..n], d) {
      DependentsMember(tasks[..n], d, x);
      var t :| t in tasks[..n] && t.id == x && d in t.deps;
    } else {
      CopiesMember(tasks[n].deps, d, tasks[n].id, x);
    }
  }

  lemma {:induction false} RelaxAllWithin(s: State, ids: seq<int>, universe: set<int>)
    requires Within(s, universe) && forall k :: 0 <= k < |ids| ==> ids[k] in universe
    ensures Within(RelaxAll(s, ids), universe) && RelaxAll(s, ids).seen == s.seen
  {
    if ids == [] {
    } else {
      RelaxAllWithin(s, ids[..|ids| - 1], universe);
    }
  }

  lemma {:induction false} PassWithin(tasks: seq<Task>, s: State, root: int)
    requires s.queue != [] && Within(s, Universe(tasks, root))
    ensures Within(Pass(tasks, s), Universe(tasks, root))
    ensures s.queue[0] in s.seen ==> Pass(tasks, s).seen == s.seen && |Pass(tasks, s).queue| < |s.queue|
    ensures s.queue[0] !in s.seen ==> Pass(tasks, s).seen == s.seen + {s.queue[0]}
  {
    var cur := s.queue[0];
    if cur in s.seen {
      assert s.seen + {cur} == s.seen;
    } else {
      var ids := Dependents(tasks, cur);
      forall k | 0 <= k < |ids|
        ensures ids[k] in Universe(tasks, root)
      {
        DependentsMember(tasks, cur, ids[k]);
      }
      RelaxAllWithin(Popped(s), ids, Universe(tasks, root));
    }
  }

  /** The loop ends on every list of tasks, cyclic or not: each pass shortens the queue or marks one more id. */
  ghost function Run(tasks: seq<Task>, s: State, root: int): State
    requires Within(s, Universe(tasks, root))
    decreases |Universe(tasks, root) - s.seen|, |s.queue|
  {
    if s.queue == [] then s else
      PassWithin(tasks, s, root);
      SmallerRest(Universe(tasks, root), s.seen, s.queue[0]);
      Run(tasks, Pass(tasks, s), root)
  }

  lemma {:induction false} SmallerRest(universe: set<int>, seen: set<int>, cur: int)
    requires cur in universe
    ensures cur !in seen ==> |universe - (seen + {cur})| < |universe - seen|
  {
    if cur !in seen {
      assert universe - seen == (universe - (seen + {cur})) + {cur};
    }
  }

  function Initial(tasks: seq<Task>, root: int): State {
    State(ById(tasks), [root], {}, [])
  }

  /** The state in which the cascade from `root` ends. */
  ghost function Final(tasks: seq<Task>, root: int): State {
    Run(tasks, Initial(tasks, root), root)
  }

  // ---- what is moved, where to, and why ----

  predicate DistinctIds(tasks: seq<Task>) {
    forall j, k :: 0 <= j < k < |tasks| ==> tasks[j].id != tasks[k].id
  }

  lemma {:induction false} ByIdIs(tasks: seq<Task>, t: Task)
    requires DistinctIds(tasks) && t in tasks
    ensures ById(tasks)[t.id] == t
  {
    var n := |tasks| - 1;
    if t in tasks[..n] {
      ByIdIs(tasks[..n], t);
    }
  }

  function DepGraph(plan: Plan): Graph {
    map id | id in plan :: plan[id].deps
  }

  /** `id` depends on some task that, through any number of dependencies, depends on the root. */
  ghost predicate Downstream(g: Graph, id: int, root: int) {
    exists d :: Step(g, id, d) && Reaches(g, d, root)
  }

  ghost predicate AllDownstream(g: Graph, ids: seq<int>, root: int) {
    forall k :: 0 <= k < |ids| ==> Downstream(g, ids[k], root)
  }

  ghost predicate AllReach(g: Graph, ids: seq<int>, root: int) {
    forall k :: 0 <= k < |ids| ==> Reaches(g, ids[k], root)
  }

  ghost predicate Distinct(ids: seq<int>) {
    forall j, k :: 0 <= j < k < |ids| ==> ids[j] != ids[k]
  }

  /** The deadline after a move to `start`: so many days later, if there was one and the duration is known, and none otherwise. */
  predicate DeadlineAfter(t: Task, start: int, due: Option<int>) {
    if t.due.Some? && t.duration.Some? && t.duration.value > 0
    then due == Some(start + t.duration.value * 86400000)
    else due == None
  }

  /** A moved task is strictly later, with its deadline recomputed or dropped, and otherwise the same; any other is as it was. */
  ghost predicate TaskSound(t: Task, now: Task, moved: bool) {
    if moved then
      && t.start.Some? && now.start.Some? && t.start.value < now.start.value
      && DeadlineAfter(t, now.start.value, now.due)
      && now.id == t.id && now.duration == t.duration && now.deps == t.deps
    else now == t
  }

  ghost predicate PlanSound(original: Plan, plan: Plan, moved: seq<int>) {
    && plan.Keys == original.Keys && Distinct(moved)
    && forall id :: id in original ==> TaskSound(original[id], plan[id], id in moved)
  }

  ghost predicate Sound(original: Plan, g: Graph, root: int, s: State) {
    PlanSound(original, s.plan, s.moved) && AllDownstream(g, s.moved, root) && AllReach(g, s.queue, root)
  }

  lemma {:induction false} ShiftSound(t: Task, now: Task, moved: bool, start: int)
    requires TaskSound(t, now, moved) && now.start.Some? && now.start.value < start
    ensures TaskSound(t, Shift(now, start), true)
  {
  }

  lemma {:induction false} MovePlan(original: Plan, plan: Plan, moved: seq<int>, id: int, start: int)
    requires PlanSound(original, plan, moved) && id in original && plan[id].start.Some? && plan[id].start.value < start
    ensures PlanSound(original, plan[id := Shift(plan[id], start)], if id in moved then moved else moved + [id])
  {
    ShiftSound(original[id], plan[id], id in moved, start);
    var after := if id in moved then moved else moved + [id];
    forall x | x in original
      ensures TaskSound(original[x], plan[id := Shift(plan[id], start)][x], x in after)
    {
      assert TaskSound(original[x], plan[x], x in moved);
    }
  }

  lemma {:induction false} RelaxSound(original: Plan, g: Graph, root: int, s: State, id: int, cur: int)
    requires Sound(original, g, root, s) && id in original && Step(g, id, cur) && Reaches(g, cur, root)
    ensures Sound(original, g, root, Relax(s, id))
  {
    var s' := Relax(s, id);
    if s' != s {
      MovePlan(original, s.plan, s.moved, id, LatestEnd(s.plan, s.plan[id].deps).value);
      ReachesStep(g, id, cur, root);
    }
  }

  lemma {:induction false} RelaxAllSound(original: Plan, g: Graph, root: int, s: State, ids: seq<int>, cur: int)
    requires Sound(original, g, root, s) && Reaches(g, cur, root)
    requires forall x :: x in ids ==> x in original && Step(g, x, cur)
    ensures Sound(original, g, root, RelaxAll(s, ids))
  {
    if ids == [] {
    } else {
      var n := |ids| - 1;
      RelaxAllSound(original, g, root, s, ids[..n], cur);
      RelaxSound(original, g, root, RelaxAll(s, ids[..n]), ids[n], cur);
    }
  }

  lemma {:induction false} DependentsDepend(tasks: seq<Task>, g: Graph, cur: int)
    requires DistinctIds(tasks) && g == DepGraph(ById(tasks))
    ensures forall x :: x in Dependents(tasks, cur) ==> x in ById(tasks) && Step(g, x, cur)
  {
    forall x | x in Dependents(tasks, cur)
      ensures x in ById(tasks) && Step(g, x, cur)
    {
      DependentsMember(tasks, cur, x);
      var t :| t in tasks && t.id == x && cur in t.deps;
      ByIdIs(tasks, t);
    }
  }

  lemma {:induction false} PopSound(original: Plan, g: Graph, root: int, s: State)
    requires s.queue != [] && Sound(original, g, root, s)
    ensures Sound(original, g, root, Popped(s)) && Reaches(g, s.queue[0], root)
  {
  }

  lemma {:induction false} PassSound(tasks: seq<Task>, original: Plan, g: Graph, root: int, s: State)
    requires DistinctIds(tasks) && original == ById(tasks) && g == DepGraph(original)
    requires s.queue != [] && Sound(original, g, root, s)
    ensures Sound(original, g, root, Pass(tasks, s))
  {
    PopSound(original, g, root, s);
    DependentsDepend(tasks, g, s.queue[0]);
    RelaxAllSound(original, g, root, Popped(s), Dependents(tasks, s.queue[0]), s.queue[0]);
  }

  lemma {:induction false} RunSound(tasks: seq<Task>, g: Graph, s: State, root: int)
    requires DistinctIds(tasks) && g == DepGraph(ById(tasks))
    requires Within(s, Universe(tasks, root)) && Sound(ById(tasks), g, root, s)
    ensures Sound(ById(tasks), g, root, Run(tasks, s, root)) && Run(tasks, s, root).queue == []
    decreases |Universe(tasks, root) - s.seen|, |s.queue|
  {
    if s.queue == [] {
    } else {
      PassWithin(tasks, s, root);
      SmallerRest(Universe(tasks, root), s.seen, s.queue[0]);
      PassSound(tasks, ById(tasks), g, root, s);
      RunSound(tasks, g, Pass(tasks, s), root);
    }
  }

  /** Only tasks that depend on the root move, each strictly forward, with its deadline recomputed or dropped. */
  lemma {:induction false} MovesAreSound(tasks: seq<Task>, root: int)
    requires DistinctIds(tasks)
    ensures var s := Final(tasks, root);
      PlanSound(ById(tasks), s.plan, s.moved) && AllDownstream(DepGraph(ById(tasks)), s.moved, root)
  {
    var g := DepGraph(ById(tasks));
    ReachesSelf(g, root);
    RunSound(tasks, g, Initial(tasks, root), root);
  }

  // ---- never further than any feasible schedule ----

  /** Start times, none earlier than planned, under which no scheduled task starts before a scheduled dependency ends. */
  ghost predicate Feasible(original: Plan, schedule: int -> int) {
    && (forall id :: Scheduled(original, id) ==> Start(original, id) <= schedule(id))
    && forall id, d :: Scheduled(original, id) && d in original[id].deps && Scheduled(original, d) ==>
      schedule(d) + Length(original[d]) <= schedule(id)
  }

  ghost predicate Below(original: Plan, plan: Plan, schedule: int -> int) {
    && (forall id :: Scheduled(original, id) <==> Scheduled(plan, id))
    && forall id :: Scheduled(plan, id) ==>
      Start(plan, id) <= schedule(id) && plan[id].deps == original[id].deps && Length(plan[id]) == Length(original[id])
  }

  /** The latest end is the end of one of the dependencies, and no other ends later. */
  lemma {:induction false} LatestEndIs(plan: Plan, deps: seq<int>)
    ensures LatestEnd(plan, deps).Some? ==> exists d :: d in deps && Scheduled(plan, d) && End(plan, d) == LatestEnd(plan, deps).value
    ensures forall d :: d in deps && Scheduled(plan, d) ==>
      LatestEnd(plan, deps).Some? && End(plan, d) <= LatestEnd(plan, deps).value
  {
    if deps == [] {
    } else {
      var n := |deps| - 1;
      LatestEndIs(plan, deps[..n]);
      assert forall d :: d in deps <==> d in deps[..n] || d == deps[n];
    }
  }

  lemma {:induction false} RelaxBelow(original: Plan, s: State, id: int, schedule: int -> int)
    requires Feasible(original, schedule) && Below(original, s.plan, schedule)
    ensures Below(original, Relax(s, id).plan, schedule)
  {
    if Scheduled(s.plan, id) {
      LatestEndIs(s.plan, s.plan[id].deps);
    }
  }

  lemma {:induction false} RelaxAllBelow(original: Plan, s: State, ids: seq<int>, schedule: int -> int)
    requires Feasible(original, schedule) && Below(original, s.plan, schedule)
    ensures Below(original, RelaxAll(s, ids).plan, schedule)
  {
    if ids == [] {
    } else {
      var n := |ids| - 1;
      RelaxAllBelow(original, s, ids[..n], schedule);
      RelaxBelow(original, RelaxAll(s, ids[..n]), ids[n], schedule);
    }
  }

  lemma {:induction false} RunBelow(tasks: seq<Task>, s: State, root: int, schedule: int -> int)
    requires Within(s, Universe(tasks, root))
    requires Feasible(ById(tasks), schedule) && Below(ById(tasks), s.plan, schedule)
    ensures Below(ById(tasks), Run(tasks, s, root).plan, schedule)
    decreases |Universe(tasks, root) - s.seen|, |s.queue|
  {
    if s.queue == [] {
    } else {
      var cur := s.queue[0];
      PassWithin(tasks, s, root);
      SmallerRest(Universe(tasks, root), s.seen, cur);
      RelaxAllBelow(ById(tasks), Popped(s), Dependents(tasks, cur), schedule);
      RunBelow(tasks, Pass(tasks, s), root, schedule);
    }
  }

  /** Whatever the graph, no start passes that of any feasible schedule. */
  lemma {:induction false} NeverTooFar(tasks: seq<Task>, root: int, schedule: int -> int)
    requires Feasible(ById(tasks), schedule)
    ensures Below(ById(tasks), Final(tasks, root).plan, schedule)
  {
    RunBelow(tasks, Initial(tasks, root), root, schedule);
  }

  // ---- settling ----

  /** Every scheduled task starts at or after the end of each of its scheduled dependencies. */
  ghost predicate Settled(plan: Plan) {
    forall id, d :: Scheduled(plan, id) && d in plan[id].deps && Scheduled(plan, d) ==> End(plan, d) <= Start(plan, id)
  }

  /** The same, except for the dependencies of the root and those on it, which an edit of the root may have broken. */
  ghost predicate SettledElsewhere(plan: Plan, root: int) {
    forall id, d :: Scheduled(plan, id) && d in plan[id].deps && Scheduled(plan, d) && id != root && d != root ==>
      End(plan, d) <= Start(plan, id)
  }

  /** Every task but the root waits for its dependencies. */
  ghost predicate SettledButRoot(plan: Plan, root: int) {
    forall id, d :: Scheduled(plan, id) && d in plan[id].deps && Scheduled(plan, d) && id != root ==> End(plan, d) <= Start(plan, id)
  }

  /** The root itself waits for its dependencies. */
  ghost predicate RootWaits(plan: Plan, root: int) {
    forall d :: Scheduled(plan, root) && d in plan[root].deps && Scheduled(plan, d) ==> End(plan, d) <= Start(plan, root)
  }

  ghost function StartsOf(plan: Plan): int -> int {
    id => if Scheduled(plan, id) then Start(plan, id) else 0
  }

  /** Same tasks, with none earlier. */
  ghost predicate SameTasks(original: Plan, plan: Plan) {
    && plan.Keys == original.Keys
    && forall id :: id in original ==>
      && plan[id].deps == original[id].deps && Length(plan[id]) == Length(original[id])
      && (Scheduled(original, id) <==> Scheduled(plan, id))
      && (Scheduled(original, id) ==> Start(original, id) <= Start(plan, id))
  }

  lemma {:induction false} FinalSameTasks(tasks: seq<Task>, root: int)
    requires DistinctIds(tasks)
    ensures SameTasks(ById(tasks), Final(tasks, root).plan)
  {
    MovesAreSound(tasks, root);
    var original, s := ById(tasks), Final(tasks, root);
    forall id | id in original
      ensures s.plan[id].deps == original[id].deps && Length(s.plan[id]) == Length(original[id])
      ensures Scheduled(original, id) <==> Scheduled(s.plan, id)
      ensures Scheduled(original, id) ==> Start(original, id) <= Start(s.plan, id)
    {
      assert TaskSound(original[id], s.plan[id], id in s.moved);
    }
  }

  lemma {:induction false} SettledIsFeasible(original: Plan, plan: Plan)
    requires SameTasks(original, plan)
    ensures Settled(plan) <==> Feasible(original, StartsOf(plan))
  {
  }

  /** A cascade that settles gives a feasible schedule, and then the least of them all. */
  lemma {:induction false} SettledIsLeast(tasks: seq<Task>, root: int)
    requires DistinctIds(tasks)
    ensures Settled(Final(tasks, root).plan) <==> Feasible(ById(tasks), StartsOf(Final(tasks, root).plan))
    ensures forall schedule: int -> int :: Feasible(ById(tasks), schedule) ==>
      forall id :: Scheduled(ById(tasks), id) ==> StartsOf(Final(tasks, root).plan)(id) <= schedule(id)
  {
    var original, plan := ById(tasks), Final(tasks, root).plan;
    FinalSameTasks(tasks, root);
    SettledIsFeasible(original, plan);
    forall schedule: int -> int, id | Feasible(original, schedule) && Scheduled(original, id)
      ensures StartsOf(plan)(id) <= schedule(id)
    {
      NeverTooFar(tasks, root, schedule);
    }
  }
}
