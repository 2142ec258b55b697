/** Invariant of the component search over the incremental call graph
    (XSB/emu/call_graph_xsb.c, xsb_compute_scc). */
module SccSpec {
  import opened Reach

  datatype SccNode = SccNode(dfn: nat, low: nat, component: nat, stack: nat)

  /** nodes, the search stack with its top, and the two counters. */
  datatype Search = Search(nodes: seq<SccNode>, dfnStack: seq<nat>, dfnTop: nat, dfn: nat, component: nat)

  predicate Visited(s: Search, u: nat) {
    u < |s.nodes| && s.nodes[u].dfn > 0
  }

  /** Visited and not yet given to a component. */
  predicate Live(s: Search, u: nat) {
    Visited(s, u) && s.nodes[u].component == 0
  }

  predicate Assigned(s: Search, u: nat) {
    Visited(s, u) && s.nodes[u].component > 0
  }

  predicate OnStack(s: Search, u: nat) {
    Visited(s, u) && s.nodes[u].stack < s.dfnTop <= |s.dfnStack| && s.dfnStack[s.nodes[u].stack] == u
  }

  predicate Sink(g: Graph, u: nat) {
    u < |g| && g[u] == []
  }

  // ---- shape of the tables ---------------------------------------------------------

  ghost predicate Tables(g: Graph, s: Search) {
    && Closed(g) && |s.nodes| == |s.dfnStack| == |g| && s.dfnTop <= |g| && s.dfn > 0 && s.component > 0
    && (forall u: nat :: u < |g| ==> s.nodes[u].dfn < s.dfn && s.nodes[u].component < s.component)
    && (forall u: nat :: u < |g| && s.nodes[u].dfn == 0 ==> s.nodes[u].component == 0)
  }

  /** Stack slots and stack fields agree; dfn numbers grow along the stack. */
  ghost predicate StackOk(g: Graph, s: Search) {
    && |s.dfnStack| == |s.nodes| == |g| && s.dfnTop <= |g|
    && (forall i :: 0 <= i < s.dfnTop ==> Visited(s, s.dfnStack[i]) && s.nodes[s.dfnStack[i]].stack == i)
    && (forall i, j :: 0 <= i < j < s.dfnTop ==> s.nodes[s.dfnStack[i]].dfn < s.nodes[s.dfnStack[j]].dfn)
    && (forall u: nat :: Live(s, u) ==> OnStack(s, u) && !Sink(g, u))
    && (forall u: nat :: OnStack(s, u) && !Live(s, u) ==> Sink(g, u))
  }

  /** The calls in progress, oldest first. */
  ghost predicate GrayOk(g: Graph, s: Search, gray: seq<nat>) {
    && (forall i :: 0 <= i < |gray| ==> Live(s, gray[i]))
    && (forall u: nat, v: nat :: Visited(s, u) && u !in gray && Edge(g, u, v) ==> Visited(s, v))
    && (forall u: nat, v: nat :: Assigned(s, u) && Edge(g, u, v) ==> Assigned(s, v))
  }

  ghost predicate OlderGray(g: Graph, s: Search, gray: seq<nat>, u: nat, z: nat) {
    z in gray && Visited(s, u) && Visited(s, z) && s.nodes[z].dfn <= s.nodes[u].dfn && Reachable(g, u, z)
  }

  ghost predicate LowWitness(g: Graph, s: Search, u: nat, w: nat) {
    Live(s, w) && Live(s, u) && s.nodes[w].dfn == s.nodes[u].low <= s.nodes[u].dfn && Reachable(g, u, w)
  }

  ghost predicate ReachOk(g: Graph, s: Search, gray: seq<nat>) {
    && (forall u: nat, v: nat :: Live(s, u) && Live(s, v) && s.nodes[u].dfn <= s.nodes[v].dfn ==> Reachable(g, u, v))
    && (forall u: nat :: Live(s, u) ==> exists z: nat :: OlderGray(g, s, gray, u, z))
    && (forall u: nat :: Live(s, u) ==> exists w: nat :: LowWitness(g, s, u, w))
  }

  /** Nodes with edges are classified exactly, and what a node reaches has no higher number. */
  ghost predicate ClassOk(g: Graph, s: Search) {
    forall u: nat, v: nat :: Assigned(s, u) && Assigned(s, v) && !Sink(g, u) && !Sink(g, v) ==>
      && (s.nodes[u].component == s.nodes[v].component <==> Mutual(g, u, v))
      && (Reachable(g, u, v) ==> s.nodes[v].component <= s.nodes[u].component)
  }

  /** r has an edge to the edge-free node b, is below it on the stack, and no call in progress is between the two. */
  ghost predicate HasCaller(g: Graph, s: Search, gray: seq<nat>, b: nat, r: nat) {
    && Live(s, r) && b < |s.nodes| && Edge(g, r, b) && s.nodes[r].stack < s.nodes[b].stack
    && forall z: nat :: z in gray && z < |s.nodes| && s.nodes[z].stack < s.nodes[b].stack ==> s.nodes[z].stack <= s.nodes[r].stack
  }

  /** Everything live is above b. */
  ghost predicate Lowest(s: Search, b: nat) {
    forall x: nat :: Live(s, x) && b < |s.nodes| ==> s.nodes[x].stack > s.nodes[b].stack
  }

  /** An edge-free node on the stack was entered from the list, or by a call that is still live. */
  ghost predicate CallerOk(g: Graph, s: Search, gray: seq<nat>) {
    forall b: nat :: OnStack(s, b) && Sink(g, b) ==> Lowest(s, b) || exists r: nat :: HasCaller(g, s, gray, b, r)
  }

  ghost predicate Given(s: Search, n: nat) {
    exists u: nat :: Assigned(s, u) && s.nodes[u].component == n
  }

  /** Some edge-free node has lost its own number. */
  ghost predicate Overwritten(g: Graph, s: Search) {
    exists b: nat :: Assigned(s, b) && Sink(g, b) && !OnStack(s, b)
  }

  /** The numbers given begin at 1 and have no gap, unless the number of an edge-free node was overwritten. */
  ghost predicate NoGap(g: Graph, s: Search) {
    !Overwritten(g, s) ==> forall n: nat :: 1 <= n < s.component ==> Given(s, n)
  }

  /** An edge-free node is alone in its component while it stays on the stack; once popped
      it shares the component of some node that has an edge to it. */
  ghost predicate SinkOk(g: Graph, s: Search) {
    && (forall u: nat, v: nat :: Assigned(s, u) && Sink(g, u) && OnStack(s, u) && Assigned(s, v) && u != v ==>
          s.nodes[u].component != s.nodes[v].component)
    && (forall u: nat :: Assigned(s, u) && Sink(g, u) && !OnStack(s, u) ==> exists r: nat :: Shares(g, s, u, r))
  }

  ghost predicate Shares(g: Graph, s: Search, u: nat, r: nat) {
    Assigned(s, u) && Assigned(s, r) && Edge(g, r, u) && s.nodes[r].component == s.nodes[u].component
  }

  ghost predicate Inv(g: Graph, s: Search, gray: seq<nat>) {
    Tables(g, s) && StackOk(g, s) && GrayOk(g, s, gray) && ReachOk(g, s, gray) && ClassOk(g, s) && SinkOk(g, s)
    && CallerOk(g, s, gray) && NoGap(g, s)
  }

  // ---- what a call leaves alone, and what it says about its result -----------------

  /** Everything visited before, and the stack below, is as it was. */
  ghost predicate Grown(s0: Search, s1: Search) {
    && |s1.nodes| == |s0.nodes| && |s1.dfnStack| == |s0.dfnStack|
    && (forall u: nat :: Visited(s0, u) ==> s1.nodes[u] == s0.nodes[u])
    && s0.dfnTop <= s1.dfnTop && s0.dfn <= s1.dfn
    && (forall i :: 0 <= i < s0.dfnTop && i < |s0.dfnStack| ==> s1.dfnStack[i] == s0.dfnStack[i])
  }

  /** low of v is a lower bound for every edge from the live part at or above slot t to the live part below it. */
  ghost predicate LowBound(g: Graph, s: Search, v: nat, t: nat) {
    forall x: nat, y: nat :: Live(s, x) && s.nodes[x].stack >= t && Edge(g, x, y) && Live(s, y) && s.nodes[y].stack < t ==>
      Live(s, v) && s.nodes[v].low <= s.nodes[y].dfn
  }

  ghost predicate NewReached(g: Graph, s0: Search, s1: Search, v: nat) {
    forall u: nat :: Visited(s1, u) && !Visited(s0, u) ==> Reachable(g, v, u)
  }
}
