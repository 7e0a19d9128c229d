/** Refusing dependency lists that would close a cycle. */
module CycleCheck {
  import opened Cascade
  import opened CascadeLoop
  import opened Digraph

  // ---- paths ----

  lemma {:induction false} PathTail(g: Graph, p: seq<int>, i: nat)
    requires IsPath(g, p) && i < |p|
    ensures IsPath(g, p[i..])
  {
  }

  lemma {:induction false} PathHead(g: Graph, p: seq<int>, n: nat)
    requires IsPath(g, p) && 0 < n <= |p|
    ensures IsPath(g, p[..n])
  {
  }

  lemma {:induction false} PathJoin(g: Graph, p: seq<int>, q: seq<int>)
    requires IsPath(g, p) && IsPath(g, q) && p[|p| - 1] == q[0]
    ensures IsPath(g, p + q[1..])
  {
  }

  lemma {:induction false} ReachesOn(g: Graph, a: int, b: int, c: int)
    requires Reaches(g, a, b) && Step(g, b, c)
    ensures Reaches(g, a, c)
  {
    var p :| Connects(g, p, a, b);
    assert Connects(g, p + [c], a, c);
  }

  /** Nothing outside a set that is closed under steps can be reached from inside it. */
  lemma {:induction false} ClosedStays(g: Graph, inside: set<int>, p: seq<int>)
    requires IsPath(g, p) && p[0] in inside
    requires forall a, b :: a in inside && Step(g, a, b) ==> b in inside
    ensures p[|p| - 1] in inside
    decreases |p|
  {
    if |p| <= 1 {
    } else {
      assert Step(g, p[0], p[1]);
      PathTail(g, p, 1);
      ClosedStays(g, inside, p[1..]);
    }
  }

  // ---- the graph after the edit ----

  function Patched(g: Graph, id: int, deps: seq<int>): Graph {
    g[id := deps]
  }

  /** Some path of at least one step leads from `id` back to it. */
  ghost predicate OnCycle(g: Graph, id: int) {
    exists p :: IsPath(g, p) && |p| >= 2 && p[0] == id && p[|p| - 1] == id
  }

  lemma {:induction false} OnCycleIs(g: Graph, id: int)
    requires id in g
    ensures OnCycle(g, id) <==> exists d :: d in g[id] && Reaches(g, d, id)
  {
    if OnCycle(g, id) {
      var p :| IsPath(g, p) && |p| >= 2 && p[0] == id && p[|p| - 1] == id;
      PathTail(g, p, 1);
      assert Step(g, p[0], p[1]) && Connects(g, p[1..], p[1], id);
    }
    if d :| d in g[id] && Reaches(g, d, id) {
      var q :| Connects(g, q, d, id);
      var p := [id] + q;
      assert IsPath(g, p) && |p| >= 2 && p[0] == id && p[|p| - 1] == id;
    }
  }

  /** A cycle that passes through `id` can be walked starting from it. */
  lemma {:induction false} Rotate(g: Graph, p: seq<int>, k: nat)
    requires IsPath(g, p) && |p| >= 2 && p[0] == p[|p| - 1] && k < |p| - 1
    ensures OnCycle(g, p[k])
  {
    PathTail(g, p, k);
    PathHead(g, p, k + 1);
    PathJoin(g, p[k..], p[..k + 1]);
    var q := p[k..] + p[..k + 1][1..];
    assert IsPath(g, q) && |q| >= 2 && q[0] == p[k] && q[|q| - 1] == p[k];
  }

  lemma {:induction false} PathAvoiding(g: Graph, id: int, deps: seq<int>, p: seq<int>)
    requires IsPath(Patched(g, id, deps), p) && forall k :: 0 <= k < |p| - 1 ==> p[k] != id
    ensures IsPath(g, p)
  {
    forall i | 0 <= i < |p| - 1
      ensures Step(g, p[i], p[i + 1])
    {
      assert Step(Patched(g, id, deps), p[i], p[i + 1]);
    }
  }

  /** In a graph without cycles, replacing one list of dependencies closes a cycle only through that task. */
  lemma {:induction false} PatchedAcyclic(g: Graph, id: int, deps: seq<int>)
    requires Acyclic(g)
    ensures Acyclic(Patched(g, id, deps)) <==> !OnCycle(Patched(g, id, deps), id)
  {
    var h := Patched(g, id, deps);
    if !OnCycle(h, id) {
      forall p | IsPath(h, p) && |p| >= 2
        ensures p[0] != p[|p| - 1]
      {
        if p[0] == p[|p| - 1] {
          NotOnCycle(g, id, deps, p);
        }
      }
    }
  }

  lemma {:induction false} NotOnCycle(g: Graph, id: int, deps: seq<int>, p: seq<int>)
    requires IsPath(Patched(g, id, deps), p) && |p| >= 2 && p[0] == p[|p| - 1]
    requires !OnCycle(Patched(g, id, deps), id)
    ensures !Acyclic(g)
  {
    forall k | 0 <= k < |p| - 1
      ensures p[k] != id
    {
      Rotate(Patched(g, id, deps), p, k);
    }
    PathAvoiding(g, id, deps, p);
  }

  // ---- the search ----

  /** Leaving `id` out of the graph does not hide a path that ends in it. */
  lemma {:induction false} FirstArrival(g: Graph, id: int, deps: seq<int>, p: seq<int>)
    requires IsPath(Patched(g, id, deps), p) && p[|p| - 1] == id
    ensures Reaches(g, p[0], id)
    decreases |p|
  {
    if |p| == 1 || p[0] == id {
      ReachesSelf(g, id);
    } else {
      PathTail(Patched(g, id, deps), p, 1);
      FirstArrival(g, id, deps, p[1..]);
      assert Step(Patched(g, id, deps), p[0], p[1]);
      ReachesStep(g, p[0], p[1], id);
    }
  }

  lemma {:induction false} SameArrivals(g: Graph, id: int, deps: seq<int>, start: int)
    requires id !in g
    ensures Reaches(g, start, id) <==> Reaches(Patched(g, id, deps), start, id)
  {
    if Reaches(g, start, id) {
      var p :| Connects(g, p, start, id);
      assert forall i :: 0 <= i < |p| - 1 ==> Step(g, p[i], p[i + 1]) ==> Step(Patched(g, id, deps), p[i], p[i + 1]);
      assert Connects(Patched(g, id, deps), p, start, id);
    }
    if Reaches(Patched(g, id, deps), start, id) {
      var p :| Connects(Patched(g, id, deps), p, start, id);
      FirstArrival(g, id, deps, p);
    }
  }

  /** Everything a step from the graph can lead to. */
  ghost function Targets(g: Graph): set<int> {
    set a, b | a in g && b in g[a] :: b
  }

  ghost predicate Searched(g: Graph, start: int, target: int, stack: seq<int>, seen: set<int>) {
    && (forall x :: x in stack || x in seen ==> Reaches(g, start, x))
    && (forall x :: x in stack || x in seen ==> x in Targets(g) + {start})
    && target !in seen && (start in seen || start in stack)
    && forall a, b :: a in seen && Step(g, a, b) ==> b in seen || b in stack
  }

  lemma {:induction false} NothingLeft(g: Graph, start: int, target: int, seen: set<int>)
    requires Searched(g, start, target, [], seen)
    ensures !Reaches(g, start, target)
  {
    if Reaches(g, start, target) {
      var p :| Connects(g, p, start, target);
      ClosedStays(g, seen, p);
    }
  }

  lemma {:induction false} Rest(universe: set<int>, seen: set<int>, cur: int)
    requires cur in universe && cur !in seen
    ensures |universe - (seen + {cur})| < |universe - seen|
  {
    assert universe - seen == (universe - (seen + {cur})) + {cur};
  }

  /** Depth-first search with an explicit stack. */
  method Search(adj: Graph, start: int, target: int) returns (found: bool)
    ensures found <==> Reaches(adj, start, target)
  {
    var stack, seen := [start], {};
    ghost var universe := Targets(adj) + {start};
    ReachesSelf(adj, start);
    while stack != []
      invariant Searched(adj, start, target, stack, seen)
      decreases |universe - seen|, |stack|
    {
      var cur := stack[|stack| - 1];
      assert stack == stack[..|stack| - 1] + [cur];
      stack := stack[..|stack| - 1];
      PopKnows(adj, start, target, stack, seen, cur);
      if cur == target {
        return true;
      }
      if cur in seen {
        continue;
      }
      Rest(universe, seen, cur);
      PushKeeps(adj, start, target, stack, seen, cur);
      seen := seen + {cur};
      if cur in adj {
        stack := stack + adj[cur];
      }
    }
    NothingLeft(adj, start, target, seen);
    found := false;
  }

  lemma {:induction false} PopKnows(g: Graph, start: int, target: int, stack: seq<int>, seen: set<int>, cur: int)
    requires Searched(g, start, target, stack + [cur], seen)
    ensures Reaches(g, start, cur) && cur in Targets(g) + {start}
    ensures cur in seen ==> Searched(g, start, target, stack, seen)
  {
    assert cur in stack + [cur];
    assert forall x :: x in stack + [cur] <==> x in stack || x == cur;
  }

  lemma {:induction false} PushKeeps(g: Graph, start: int, target: int, stack: seq<int>, seen: set<int>, cur: int)
    requires Searched(g, start, target, stack + [cur], seen) && cur != target
    ensures Searched(g, start, target, if cur in g then stack + g[cur] else stack, seen + {cur})
  {
    var after := if cur in g then stack + g[cur] else stack;
    assert cur in stack + [cur];
    forall x | x in after || x in seen + {cur}
      ensures Reaches(g, start, x) && x in Targets(g) + {start}
    {
      if x in stack {
        assert x in stack + [cur];
      } else if x !in seen + {cur} {
        assert Step(g, cur, x);
        ReachesOn(g, start, cur, x);
      }
    }
  }

  // ---- the check ----

  function Edited(g: Graph, id: int, deps: seq<int>): Graph {
    if id in g then Patched(g, id, deps) else g
  }

  lemma {:induction false} DepGraphSet(plan: Plan, t: Task)
    ensures DepGraph(plan[t.id := t]) == DepGraph(plan)[t.id := t.deps]
  {
  }

  lemma {:induction false} EditedSet(g: Graph, key: int, value: seq<int>, id: int, deps: seq<int>)
    ensures Edited(g[key := value], id, deps) == Edited(g, id, deps)[key := if key == id then deps else value]
  {
  }

  lemma {:induction false} EditedStep(tasks: seq<Task>, i: nat, id: int, deps: seq<int>)
    requires i < |tasks|
    ensures Edited(DepGraph(ById(tasks[..i + 1])), id, deps) ==
      Edited(DepGraph(ById(tasks[..i])), id, deps)[tasks[i].id := if tasks[i].id == id then deps else tasks[i].deps]
  {
    ByIdStep(tasks, i);
    DepGraphSet(ById(tasks[..i]), tasks[i]);
    EditedSet(DepGraph(ById(tasks[..i])), tasks[i].id, tasks[i].deps, id, deps);
  }

  method BuildAdjacency(tasks: seq<Task>, taskId: int, newDeps: seq<int>) returns (adj: Graph)
    ensures adj == Edited(DepGraph(ById(tasks)), taskId, newDeps)
  {
    adj := map[];
    for i := 0 to |tasks|
      invariant adj == Edited(DepGraph(ById(tasks[..i])), taskId, newDeps)
    {
      EditedStep(tasks, i, taskId, newDeps);
      adj := adj[tasks[i].id := if tasks[i].id == taskId then newDeps else tasks[i].deps];
    }
    assert tasks[..|tasks|] == tasks;
  }

  /** True exactly when the graph with this task's dependencies replaced has a cycle through it. */
  method WouldCreateCycle(tasks: seq<Task>, taskId: int, newDeps: seq<int>) returns (r: bool)
    ensures r <==> OnCycle(Patched(DepGraph(ById(tasks)), taskId, newDeps), taskId)
  {
    ghost var h := Patched(DepGraph(ById(tasks)), taskId, newDeps);
    OnCycleIs(h, taskId);
    ReachesSelf(h, taskId);
    if taskId in newDeps {
      return true;
    }
    var adj := BuildAdjacency(tasks, taskId, newDeps);
    for k := 0 to |newDeps|
      invariant forall i :: 0 <= i < k ==> !Reaches(h, newDeps[i], taskId)
    {
      var found := Search(adj, newDeps[k], taskId);
      SearchedPatched(DepGraph(ById(tasks)), adj, taskId, newDeps, newDeps[k]);
      if found {
        return true;
      }
    }
    r := false;
  }

  lemma {:induction false} SearchedPatched(g: Graph, adj: Graph, id: int, deps: seq<int>, start: int)
    requires adj == Edited(g, id, deps)
    ensures Reaches(adj, start, id) <==> Reaches(Patched(g, id, deps), start, id)
  {
    if id !in g {
      SameArrivals(g, id, deps, start);
    }
  }

  /** On a graph without cycles the check refuses exactly the lists that would make it cyclic. */
  lemma {:induction false} RefusesExactlyCycles(tasks: seq<Task>, taskId: int, newDeps: seq<int>)
    requires Acyclic(DepGraph(ById(tasks)))
    ensures OnCycle(Patched(DepGraph(ById(tasks)), taskId, newDeps), taskId) <==>
      !Acyclic(Patched(DepGraph(ById(tasks)), taskId, newDeps))
  {
    PatchedAcyclic(DepGraph(ById(tasks)), taskId, newDeps);
  }
}
