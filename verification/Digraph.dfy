/** Directed graphs as maps from a node to its successors; here a task to the tasks it depends on. */
module Digraph {

  type Graph = map<int, seq<int>>

  predicate Step(g: Graph, a: int, b: int) {
    a in g && b in g[a]
  }

  ghost predicate IsPath(g: Graph, p: seq<int>) {
    p != [] && forall i :: 0 <= i < |p| - 1 ==> Step(g, p[i], p[i + 1])
  }

  ghost predicate Connects(g: Graph, p: seq<int>, a: int, b: int) {
    IsPath(g, p) && p[0] == a && p[|p| - 1] == b
  }

  /** There is a path, possibly of no steps, from `a` to `b`. */
  ghost predicate Reaches(g: Graph, a: int, b: int) {
    exists p :: Connects(g, p, a, b)
  }

  /** No path of at least one step returns to where it began. */
  ghost predicate Acyclic(g: Graph) {
    forall p :: IsPath(g, p) && |p| >= 2 ==> p[0] != p[|p| - 1]
  }

  ghost predicate NoDangling(g: Graph) {
    forall a, b :: Step(g, a, b) ==> b in g
  }

  lemma {:induction false} ReachesSelf(g: Graph, a: int)
    ensures Reaches(g, a, a)
  {
    assert Connects(g, [a], a, a);
  }

  lemma {:induction false} ReachesStep(g: Graph, a: int, b: int, c: int)
    requires Step(g, a, b) && Reaches(g, b, c)
    ensures Reaches(g, a, c)
  {
    var p :| Connects(g, p, b, c);
    assert Connects(g, [a] + p, a, c);
  }

  lemma {:induction false} PathFalls(g: Graph, rank: int -> int, p: seq<int>)
    requires IsPath(g, p) && |p| >= 2 && forall a, b :: Step(g, a, b) ==> rank(b) < rank(a)
    ensures rank(p[|p| - 1]) < rank(p[0])
    decreases |p|
  {
    var n := |p| - 1;
    assert Step(g, p[n - 1], p[n]);
    if n <= 1 {
    } else {
      assert IsPath(g, p[..n]);
      PathFalls(g, rank, p[..n]);
    }
  }

  /** A graph whose steps all lead to a lower rank has no cycle. */
  lemma {:induction false} RankedAcyclic(g: Graph, rank: int -> int)
    requires forall a, b :: Step(g, a, b) ==> rank(b) < rank(a)
    ensures Acyclic(g)
  {
    forall p | IsPath(g, p) && |p| >= 2
      ensures p[0] != p[|p| - 1]
    {
      PathFalls(g, rank, p);
    }
  }
}
