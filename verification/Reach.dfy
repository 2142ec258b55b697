/** Reachability in finite directed graphs given by successor lists. */
module Reach {

  type Graph = seq<seq<nat>>

  /** Every edge ends at a node of the graph. */
  predicate Closed(g: Graph) {
    forall u, k :: 0 <= u < |g| && 0 <= k < |g[u]| ==> g[u][k] < |g|
  }

  predicate Edge(g: Graph, u: nat, v: nat) {
    u < |g| && v in g[u]
  }

  predicate StepAt(g: Graph, p: seq<nat>, i: nat) {
    i + 1 < |p| && Edge(g, p[i], p[i + 1])
  }

  ghost predicate IsPath(g: Graph, p: seq<nat>) {
    forall i: nat :: i + 1 < |p| ==> StepAt(g, p, i)
  }

  ghost predicate Connects(g: Graph, p: seq<nat>, u: nat, v: nat) {
    p != [] && p[0] == u && p[|p| - 1] == v && IsPath(g, p)
  }

  /** v can be reached from u in zero or more steps. */
  ghost predicate Reachable(g: Graph, u: nat, v: nat) {
    exists p :: Connects(g, p, u, v)
  }

  ghost predicate Mutual(g: Graph, u: nat, v: nat) {
    Reachable(g, u, v) && Reachable(g, v, u)
  }

  lemma ReachRefl(g: Graph, u: nat)
    ensures Reachable(g, u, u)
  {
    assert Connects(g, [u], u, u);
  }

  lemma ReachEdge(g: Graph, u: nat, v: nat)
    requires Edge(g, u, v)
    ensures Reachable(g, u, v)
  {
    assert Connects(g, [u, v], u, v);
  }

  lemma ReachTrans(g: Graph, u: nat, v: nat, w: nat)
    requires Reachable(g, u, v) && Reachable(g, v, w)
    ensures Reachable(g, u, w)
  {
    var p :| Connects(g, p, u, v);
    var q :| Connects(g, q, v, w);
    var r := p + q[1..];
    forall i: nat | i + 1 < |r| ensures StepAt(g, r, i) {
      if i >= |p| - 1 {
        assert StepAt(g, q, i - (|p| - 1));
      } else {
        assert StepAt(g, p, i);
      }
    }
    assert Connects(g, r, u, w);
  }

  /** A path that leaves a set does so along some edge. */
  lemma LeavingEdge(g: Graph, u: nat, v: nat, s: set<nat>) returns (a: nat, b: nat)
    requires Reachable(g, u, v) && u in s && v !in s
    ensures a in s && b !in s && Edge(g, a, b)
    ensures Reachable(g, u, a) && Reachable(g, b, v)
  {
    var p :| Connects(g, p, u, v);
    var i := 0;
    while p[i + 1] in s
      invariant 0 <= i < |p| - 1 && forall j :: 0 <= j <= i ==> p[j] in s
      decreases |p| - i
    {
      i := i + 1;
    }
    a, b := p[i], p[i + 1];
    assert StepAt(g, p, i);
    Pieces(g, p, i);
  }

  lemma Pieces(g: Graph, p: seq<nat>, i: nat)
    requires IsPath(g, p) && i + 1 < |p|
    ensures Reachable(g, p[0], p[i]) && Reachable(g, p[i + 1], p[|p| - 1])
  {
    var a, b := p[..i + 1], p[i + 1..];
    forall j: nat | j + 1 < |a| ensures StepAt(g, a, j) { assert StepAt(g, p, j); }
    forall j: nat | j + 1 < |b| ensures StepAt(g, b, j) { assert StepAt(g, p, i + 1 + j); }
    assert Connects(g, a, p[0], p[i]) && Connects(g, b, p[i + 1], p[|p| - 1]);
  }

  /** A set closed under edges is closed under reachability. */
  lemma ClosedReach(g: Graph, u: nat, v: nat, s: set<nat>)
    requires u in s && Reachable(g, u, v) && forall a, b :: a in s && Edge(g, a, b) ==> b in s
    ensures v in s
  {
    if v !in s {
      var a, b := LeavingEdge(g, u, v, s);
    }
  }

  /** Without edges a node reaches only itself. */
  lemma SinkReach(g: Graph, u: nat, v: nat)
    requires u < |g| && g[u] == [] && Reachable(g, u, v)
    ensures v == u
  {
    ClosedReach(g, u, v, {u});
  }

  lemma ReachBound(g: Graph, u: nat, v: nat)
    requires Closed(g) && u < |g| && Reachable(g, u, v)
    ensures v < |g|
  {
    var p :| Connects(g, p, u, v);
    if |p| > 1 {
      assert StepAt(g, p, |p| - 2);
      var k :| 0 <= k < |g[p[|p| - 2]]| && g[p[|p| - 2]][k] == v;
    }
  }
}
