/** Strongly connected components of the incremental call graph
    (XSB/emu/call_graph_xsb.c, get_incr_sccs and xsb_compute_scc). */
module Scc {
  import opened Reach
  import opened SccSpec
  import opened SccProof

  // ---- counting the nodes that are still to be entered -------------------------------

  lemma SameUnvisited(s: Search, s1: Search)
    requires |s1.nodes| == |s.nodes| && forall u: nat :: Visited(s1, u) <==> Visited(s, u)
    ensures Unvisited(s1) == Unvisited(s)
  {
  }

  lemma EnteredUnvisited(g: Graph, s: Search, v: nat)
    requires Tables(g, s) && v < |g| && !Visited(s, v) && s.dfnTop < |g|
    ensures v < |s.nodes| == |s.dfnStack|
    ensures Unvisited(Entered(s, v)) == Unvisited(s) - {v} && v in Unvisited(s)
    ensures Entered(s, v).dfn == s.dfn + 1
  {
  }

  lemma UnvisitedShrinks(s0: Search, s: Search, v: nat)
    requires Grown(s0, s) && !Visited(s0, v) && Visited(s, v)
    ensures Unvisited(s) < Unvisited(s0)
  {
    assert v in Unvisited(s0) && v !in Unvisited(s);
  }

  /** dfn counts the nodes entered so far. */
  ghost function Toll(s: Search): int {
    s.dfn + |Unvisited(s)|
  }

  lemma TollEntered(g: Graph, s: Search, v: nat)
    requires Tables(g, s) && v < |g| && !Visited(s, v) && s.dfnTop < |g|
    ensures v < |s.nodes| == |s.dfnStack|
    ensures Toll(Entered(s, v)) == Toll(s) && Toll(SinkDone(s, v)) == Toll(s)
  {
    hide Tables, Visited, Entered, SinkDone, Unvisited;
    EnteredUnvisited(g, s, v);
    SinkOnStack(g, s, v);
    SinkFields(g, s, v);
    SameUnvisited(Entered(s, v), SinkDone(s, v));
  }

  lemma SinkFields(g: Graph, s: Search, v: nat)
    requires Tables(g, s) && v < |g| && s.dfnTop < |g|
    ensures v < |s.nodes| == |s.dfnStack| == |g|
    ensures SinkDone(s, v).dfn == Entered(s, v).dfn && |SinkDone(s, v).nodes| == |Entered(s, v).nodes|
  {
  }

  lemma TollLowered(g: Graph, s: Search, v: nat, l: nat)
    requires Tables(g, s) && StackOk(g, s) && v < |g|
    ensures v < |s.nodes| && Toll(Lowered(s, v, l)) == Toll(s)
  {
    hide Tables, StackOk, Visited, Unvisited;
    LoweredIs(g, s, v, l);
    SameUnvisited(s, Lowered(s, v, l));
  }

  lemma TollPopped(g: Graph, s: Search, t: nat)
    requires Tables(g, s) && StackOk(g, s) && t <= s.dfnTop
    ensures Toll(Popped(s, t)) == Toll(s)
  {
    hide Tables, StackOk, Visited, Popped, Unvisited;
    PoppedIs(g, s, t);
    TopOf(s, t);
    SameUnvisited(s, Popped(s, t));
  }

  lemma TollCombined(g: Graph, s: Search, s1: Search, gray: seq<nat>, v: nat, w: nat)
    requires Inv(g, s1, gray) && v < |g| && w < |g|
    ensures v < |s1.nodes| && w < |s1.nodes| && Toll(Combined(s1, v, w)) == Toll(s1)
  {
    hide Tables, StackOk, GrayOk, ReachOk, ClassOk, SinkOk, CallerOk, NoGap, Toll, Lowered;
    InvReach(g, s1, gray);
    TollLowered(g, s1, v, s1.nodes[w].low);
  }

  /** What the loop needs to know about its edge. */
  lemma LoopFacts(g: Graph, s0: Search, s: Search, gray: seq<nat>, v: nat, k: nat)
    requires v < |g| && k < |g[v]| && LoopOk(g, s0, s, gray, v, k)
    ensures Inv(g, s, gray + [v]) && |s.nodes| == |g| && g[v][k] < |g|
    ensures Unvisited(s) < Unvisited(s0)
    ensures Visited(s, g[v][k]) <==> s.nodes[g[v][k]].dfn > 0
    ensures forall u: nat :: Live(s, u) ==> Reachable(g, u, g[v][k])
  {
    hide Inv, Tables, StackOk, Live, Reachable, Grown, SeenTo, NewReached, PartBound, OnStack, Unvisited;
    InvReach(g, s, gray + [v]);
    EdgeIn(g, s, v, k);
    EdgeAt(g, v, k);
    ChildReach(g, s0, s, gray, v, g[v][k]);
    LiveVisited(s);
    UnvisitedShrinks(s0, s, v);
  }

  /** The next call is made from v, the newest call in progress. */
  lemma ChildCalled(g: Graph, s0: Search, s: Search, gray: seq<nat>, v: nat, k: nat)
    requires v < |g| && k < |g[v]| && LoopOk(g, s0, s, gray, v, k)
    ensures CalledFrom(g, s, gray + [v], g[v][k])
  {
    hide Inv, Grown, SeenTo, NewReached, PartBound, OnStack, Edge;
    EdgeAt(g, v, k);
    LiveVisited(s);
    forall z: nat | z in gray + [v] && z < |s.nodes| ensures s.nodes[z].stack <= s.nodes[v].stack {
      InAppend(gray, v, z);
      if z != v { GrayBelow(g, s0, s, gray, v, z); }
    }
  }

  lemma RootCalled(g: Graph, s: Search, v: nat)
    requires forall u: nat :: !Live(s, u)
    ensures CalledFrom(g, s, [], v)
  {
  }

  lemma EdgeIn(g: Graph, s: Search, v: nat, k: nat)
    requires Tables(g, s) && v < |g| && k < |g[v]|
    ensures g[v][k] < |g|
  {
  }

  lemma LoopEnd(g: Graph, s0: Search, s: Search, gray: seq<nat>, v: nat)
    requires v < |g| && LoopOk(g, s0, s, gray, v, |g[v]|)
    ensures OnStack(s, v) && s0.dfnTop <= s.dfnTop && v < |s.nodes| && s.nodes[v].low <= s.nodes[v].dfn
  {
    hide Inv, Reachable, SeenTo, NewReached, PartBound;
  }

  lemma SinkCall(g: Graph, s: Search, gray: seq<nat>, v: nat)
    requires Inv(g, s, gray) && v < |g| && !Visited(s, v) && g[v] == [] && s.dfnTop < |g| && CalledFrom(g, s, gray, v)
    ensures v < |s.nodes| == |s.dfnStack| && CallOk(g, s, SinkDone(s, v), gray, v)
  {
    hide Inv, Tables, StackOk, Visited, Live, Reachable, Grown, OnStack, SinkDone, Edge, Assigned, CalledFrom;
    InvReach(g, s, gray);
    EnterSink(g, s, v, gray);
    SinkIs(g, s, v);
    SinkTop(g, s, v);
    ReachRefl(g, v);
    SinkSlots(g, s, v);
  }

  lemma SinkTop(g: Graph, s: Search, v: nat)
    requires Tables(g, s) && v < |g| && s.dfnTop < |g|
    ensures v < |s.nodes| == |s.dfnStack| && SinkDone(s, v).dfnTop == s.dfnTop + 1
  {
  }

  lemma SinkSlots(g: Graph, s: Search, v: nat)
    requires Tables(g, s) && StackOk(g, s) && v < |g| && !Visited(s, v) && s.dfnTop < |g|
    ensures v < |s.nodes| == |s.dfnStack| && LowBound(g, SinkDone(s, v), v, s.dfnTop)
  {
    hide Tables, StackOk, Visited, Live, Grown, SinkDone, Edge;
    SinkIs(g, s, v);
    LiveSlots(g, s);
    LiveVisited(s);
  }

  lemma FreshInv(g: Graph, s: Search)
    requires Closed(g) && |s.nodes| == |s.dfnStack| == |g| && s.dfnTop == 0 && s.dfn == 1 && s.component == 1
    requires forall u: nat :: u < |g| ==> s.nodes[u] == SccNode(0, 0, 0, 0)
    ensures Inv(g, s, []) && Toll(s) == 1 + |g| && forall u: nat :: !Visited(s, u)
  {
    UpToSize(|g|);
    assert Unvisited(s) == UpTo(|g|);
  }

  lemma CallFacts(g: Graph, s0: Search, s: Search, gray: seq<nat>, v: nat)
    requires CallOk(g, s0, s, gray, v)
    ensures Inv(g, s, gray) && Grown(s0, s) && NewReached(g, s0, s, v) && Visited(s, v)
    ensures v < |g| && g[v] == [] ==> OnStack(s, v) && s.nodes[v].stack == s0.dfnTop && s.dfnTop == s0.dfnTop + 1
    ensures v < |g| && g[v] != [] && !Live(s, v) ==> s.dfnTop == s0.dfnTop
  {
    hide Inv, Grown, NewReached, LowBound, OnStack, Visited;
  }

  lemma PoppingKeeps(s: Search, lo: nat)
    ensures |Popping(s, lo).nodes| == |s.nodes| && Popping(s, lo).dfnStack == s.dfnStack && Popping(s, lo).dfn == s.dfn
    ensures Popping(s, lo).component == s.component
    ensures forall u: nat :: u < |s.nodes| ==> Popping(s, lo).nodes[u].stack == s.nodes[u].stack
  {
  }

  // ---- the search --------------------------------------------------------------------

  class SccSearch {
    const g: Graph
    const nodes: array<SccNode>
    const dfnStack: array<nat>
    var dfnTop: nat
    var dfn: nat
    var component: nat

    ghost function State(): Search
      reads this, nodes, dfnStack
    {
      Search(nodes[..], dfnStack[..], dfnTop, dfn, component)
    }

    constructor (g: Graph)
      requires Closed(g)
      ensures this.g == g && fresh(nodes) && fresh(dfnStack) && Inv(g, State(), [])
      ensures forall u: nat :: !Visited(State(), u)
      ensures Toll(State()) == 1 + |g|
    {
      this.g := g;
      nodes := new SccNode[|g|](_ => SccNode(0, 0, 0, 0));
      dfnStack := new nat[|g|](_ => 0);
      dfnTop, dfn, component := 0, 1, 1;
      new;
      FreshInv(g, State());
    }

    /** Numbers v and pushes it. */
    method Push(v: nat)
      requires Tables(g, State()) && v < |g| && dfnTop < |g|
      modifies `dfnTop, `dfn, nodes, dfnStack
      ensures State() == Entered(old(State()), v)
    {
      nodes[v] := nodes[v].(low := dfn, dfn := dfn);
      dfn := dfn + 1;
      dfnStack[dfnTop] := v;
      nodes[v] := nodes[v].(stack := dfnTop);
      dfnTop := dfnTop + 1;
    }

    method LowerFrom(v: nat, w: nat)
      requires v < nodes.Length && w < nodes.Length
      modifies nodes
      ensures State() == Combined(old(State()), v, w)
    {
      if nodes[w].low < nodes[v].low {
        nodes[v] := nodes[v].(low := nodes[w].low);
      }
    }

    /** Gives the stack from v up one component number. */
    method PopComponent(v: nat)
      requires Tables(g, State()) && StackOk(g, State()) && v < |g| && OnStack(State(), v)
      modifies `dfnTop, `component, nodes
      ensures State() == Popped(old(State()), old(nodes[v].stack))
    {
      hide Tables, StackOk, Popping;
      ghost var s := State();
      var j: int := dfnTop - 1;
      PoppingStep(g, s, j);
      PoppingKeeps(s, j + 1);
      while j >= nodes[v].stack
        invariant s.nodes[v].stack - 1 <= j < s.dfnTop && component == s.component
        invariant nodes[..] == Popping(s, j + 1).nodes && nodes[v].stack == s.nodes[v].stack
      {
        PoppingStep(g, s, j);
        PoppingKeeps(s, j);
        nodes[dfnStack[j]] := nodes[dfnStack[j]].(component := component);
        j := j - 1;
      }
      PoppingKeeps(s, j + 1);
      component := component + 1;
      dfnTop := j + 1;
    }

    /** A search from v with the calls in gray in progress. */
    method XsbComputeScc(v: nat, ghost gray: seq<nat>)
      requires Inv(g, State(), gray) && v < |g| && !Visited(State(), v)
      requires CalledFrom(g, State(), gray, v) && forall u: nat :: Live(State(), u) ==> Reachable(g, u, v)
      modifies `dfnTop, `dfn, `component, nodes, dfnStack
      ensures CallOk(g, old(State()), State(), gray, v)
      ensures Toll(State()) == old(Toll(State()))
      decreases Unvisited(State())
    {
      hide Inv, Tables, StackOk, GrayOk, ReachOk, ClassOk, SinkOk, CallerOk, NoGap, Visited, OnStack, Live, Reachable, CallOk, LoopOk, LoopBase, Grown, Toll, Unvisited, Combined, Lowered, Entered, Popping, Popped, InProgress, Closed, Edge, CalledFrom;
      ghost var s0 := State();
      InvReach(g, s0, gray);
      StackRoom(g, s0, v);
      TollEntered(g, s0, v);
      Push(v);
      if |g[v]| > 0 {
        StartLoop(g, s0, gray, v);
        var k := 0;
        while k < |g[v]|
          invariant 0 <= k <= |g[v]|
          invariant LoopOk(g, s0, State(), gray, v, k)
          invariant Toll(State()) == Toll(s0)
        {
          ghost var s := State();
          var w := g[v][k];
          LoopFacts(g, s0, s, gray, v, k);
          if nodes[w].dfn == 0 {
            ChildCalled(g, s0, s, gray, v, k);
            XsbComputeScc(w, gray + [v]);
            AfterChild(g, s0, s, State(), gray, v, w, k);
            CallFacts(g, s, State(), gray + [v], w);
            TollCombined(g, s, State(), gray + [v], v, w);
            LowerFrom(v, w);
          } else {
            AfterSeen(g, s0, s, gray, v, w, k);
            if nodes[w].dfn < nodes[v].dfn && nodes[w].component == 0 {
              TollCombined(g, s, s, gray + [v], v, w);
              LowerFrom(v, w);
            }
          }
          k := k + 1;
        }
        ghost var s := State();
        LoopInv(g, s0, s, gray, v);
        LoopEnd(g, s0, s, gray, v);
        if nodes[v].low == nodes[v].dfn {
          PopInv(g, s0, s, gray, v);
          TollPopped(g, s, s0.dfnTop);
          PopComponent(v);
        } else {
          FinishLive(g, s0, s, gray, v);
        }
      } else {
        nodes[v] := nodes[v].(component := component);
        component := component + 1;
        SinkCall(g, s0, gray, v);
        assert State() == SinkDone(s0, v);
      }
    }
  }

  // ---- the whole list ------------------------------------------------------------------

  /** Some node listed before b reaches it. */
  ghost predicate ReachedEarlier(g: Graph, b: nat) {
    exists a: nat :: a < b && Reachable(g, a, b)
  }

  ghost predicate ReachedBefore(g: Graph, i: nat, u: nat) {
    exists a: nat :: a < i && Reachable(g, a, u)
  }

  /** The first i nodes of the list have been dealt with. */
  ghost predicate ListedTo(g: Graph, s: Search, i: nat) {
    && Inv(g, s, []) && i <= |g|
    && (forall u: nat :: Visited(s, u) <==> ReachedBefore(g, i, u))
    && (forall b: nat :: Visited(s, b) && Sink(g, b) ==> (OnStack(s, b) <==> !ReachedEarlier(g, b)))
  }

  lemma NothingLive(g: Graph, s: Search)
    requires Inv(g, s, [])
    ensures forall u: nat :: !Live(s, u)
    ensures forall u: nat, v: nat :: Visited(s, u) && Edge(g, u, v) ==> Visited(s, v)
  {
    hide Tables, StackOk, ClassOk, SinkOk, CallerOk, NoGap, Visited, Live, Reachable, Edge, OlderGray;
    forall u: nat ensures !Live(s, u) {
      if Live(s, u) {
        var z: nat :| OlderGray(g, s, [], u, z);
        OlderIn(g, s, [], u, z);
      }
    }
  }

  lemma VisitedClosed(g: Graph, s: Search, u: nat, v: nat)
    requires Inv(g, s, []) && Visited(s, u) && Reachable(g, u, v)
    ensures Visited(s, v)
  {
    hide Inv, Visited, Edge, Reachable;
    NothingLive(g, s);
    var r := set x: nat | x < |s.nodes| && Visited(s, x);
    LiveVisited(s);
    ClosedReach(g, u, v, r);
  }

  lemma Skip(g: Graph, s: Search, i: nat)
    requires ListedTo(g, s, i) && Visited(s, i) && i < |g|
    ensures ListedTo(g, s, i + 1)
  {
    hide Inv, Visited, Reachable, OnStack, Sink, ReachedEarlier;
    forall u: nat | ReachedBefore(g, i + 1, u) ensures Visited(s, u) {
      var a: nat :| a < i + 1 && Reachable(g, a, u);
      if a == i { VisitedClosed(g, s, i, u); } else { assert ReachedBefore(g, i, u); }
    }
    forall u: nat | ReachedBefore(g, i, u) ensures ReachedBefore(g, i + 1, u) { }
  }

  lemma VisitedAfter(g: Graph, s: Search, s1: Search, i: nat, u: nat)
    requires ListedTo(g, s, i) && i < |g| && CallOk(g, s, s1, [], i)
    ensures Visited(s1, u) <==> Visited(s, u) || Reachable(g, i, u)
    ensures Visited(s1, u) <==> ReachedBefore(g, i + 1, u)
  {
    hide Inv, Visited, Reachable, OnStack, Sink, ReachedEarlier, CallOk, Grown;
    CallFacts(g, s, s1, [], i);
    GrownVisited(s, s1);
    if Reachable(g, i, u) { VisitedClosed(g, s1, i, u); }
    if ReachedBefore(g, i + 1, u) {
      var a: nat :| a < i + 1 && Reachable(g, a, u);
      if a < i { assert ReachedBefore(g, i, u); }
    }
    if ReachedBefore(g, i, u) {
      var a: nat :| a < i && Reachable(g, a, u);
      assert ReachedBefore(g, i + 1, u);
    }
  }

  lemma GrownVisited(s: Search, s1: Search)
    requires Grown(s, s1)
    ensures forall u: nat :: Visited(s, u) ==> Visited(s1, u)
  {
  }

  /** Stack membership of the nodes visited before, and of the new ones. */
  lemma StackAfter(g: Graph, s: Search, s1: Search, i: nat, u: nat)
    requires Inv(g, s, []) && i < |g| && !Visited(s, i) && CallOk(g, s, s1, [], i)
    ensures Visited(s, u) ==> (OnStack(s1, u) <==> OnStack(s, u))
    ensures !Visited(s, u) ==> (OnStack(s1, u) <==> u == i && Sink(g, i))
  {
    hide Reachable, NewReached, LowBound, ReachOk, ClassOk, SinkOk, CallerOk, NoGap, Edge, Live, GrayOk;
    NothingLive(g, s1);
    InvReach(g, s, []);
    InvReach(g, s1, []);
  }

  lemma CallRoot(g: Graph, s: Search, s1: Search, i: nat)
    requires ListedTo(g, s, i) && i < |g| && !Visited(s, i) && CallOk(g, s, s1, [], i)
    ensures ListedTo(g, s1, i + 1)
  {
    hide Inv, Visited, Reachable, OnStack, CallOk, Grown, ReachedBefore;
    CallFacts(g, s, s1, [], i);
    forall u: nat ensures Visited(s1, u) <==> ReachedBefore(g, i + 1, u) { VisitedAfter(g, s, s1, i, u); }
    forall b: nat | Visited(s1, b) && Sink(g, b) ensures OnStack(s1, b) <==> !ReachedEarlier(g, b) {
      StackAfter(g, s, s1, i, b);
      if !Visited(s, b) {
        VisitedAfter(g, s, s1, i, b);
        NewSink(g, s, i, b);
      }
    }
  }

  lemma NewSink(g: Graph, s: Search, i: nat, b: nat)
    requires ListedTo(g, s, i) && !Visited(s, b) && Reachable(g, i, b)
    ensures ReachedEarlier(g, b) <==> b != i
  {
    hide Inv, Reachable, OnStack, Sink, ReachedBefore;
    ReachRefl(g, b);
    NotBefore(g, i, b, b);
    if ReachedEarlier(g, b) {
      var a: nat :| a < b && Reachable(g, a, b);
      NotBefore(g, i, b, a);
    }
  }

  lemma NotBefore(g: Graph, i: nat, b: nat, a: nat)
    requires !ReachedBefore(g, i, b) && Reachable(g, a, b)
    ensures a >= i
  {
  }

  /** The numbering is right for all pairs. */
  ghost predicate Exact(g: Graph, component: seq<nat>) {
    |component| == |g| && forall u: nat, v: nat :: u < |g| && v < |g| ==> (component[u] == component[v] <==> Mutual(g, u, v))
  }

  /** Numbers of nodes with edges come in reverse topological order: what a node reaches has a lower number, unless the
      two reach each other. */
  ghost predicate ReverseOrder(g: Graph, component: seq<nat>) {
    forall u: nat, v: nat :: u < |g| && v < |g| && u < |component| && v < |component| && !Sink(g, u) && !Sink(g, v) && Reachable(g, u, v) && !Mutual(g, u, v) ==>
      component[v] < component[u]
  }

  /** An edge-free node that a node before it reaches has the number of a node with an edge to it; any other has a number
      of its own. */
  ghost predicate SinkNumber(g: Graph, component: seq<nat>, b: nat) {
    if ReachedEarlier(g, b) then exists r: nat :: Edge(g, r, b) && SameNumber(component, r, b)
    else forall v: nat :: v < |component| && v != b ==> !SameNumber(component, v, b)
  }

  predicate SameNumber(component: seq<nat>, u: nat, v: nat) {
    u < |component| && v < |component| && component[u] == component[v]
  }

  /** The numbers are 1, 2 and so on. */
  ghost predicate FromOne(component: seq<nat>) {
    && (forall u: nat :: u < |component| ==> component[u] >= 1)
    && forall u: nat, n: nat :: u < |component| && 1 <= n <= component[u] ==> Occurs(component, n)
  }

  ghost predicate Occurs(component: seq<nat>, n: nat) {
    exists v: nat :: v < |component| && component[v] == n
  }

  /** The list puts no edge-free node after a node that reaches it. */
  ghost predicate SinksFirst(g: Graph) {
    forall b: nat :: Sink(g, b) ==> !ReachedEarlier(g, b)
  }

  /** What the numbers say when the whole list has been dealt with. */
  lemma Classified(g: Graph, s: Search, component: seq<nat>)
    requires ListedTo(g, s, |g|) && |component| == |g| == |s.nodes| && forall u :: 0 <= u < |g| ==> component[u] == s.nodes[u].component
    ensures forall u: nat, v: nat :: u < |g| && v < |g| && !Sink(g, u) && !Sink(g, v) ==> (component[u] == component[v] <==> Mutual(g, u, v))
    ensures Exact(g, component) <==> SinksFirst(g)
    ensures ReverseOrder(g, component) && (forall b: nat :: Sink(g, b) ==> SinkNumber(g, component, b))
    ensures (forall u: nat :: u < |g| ==> component[u] >= 1) && (SinksFirst(g) ==> FromOne(component))
  {
    hide Inv, Visited, Reachable, OnStack, ReachedEarlier, ReachedBefore, Assigned, Live, Mutual, Sink, ReverseOrder, SinkNumber, FromOne, SinksFirst, ListedTo;
    AllAssigned(g, s);
    OrderedNumbers(g, s, component);
    forall b: nat | Sink(g, b) ensures SinkNumber(g, component, b) { SinkGets(g, s, component, b); }
    NumbersFromOne(g, s, component);
    EveryNumber(g, s, component);
  }

  lemma OrderedNumbers(g: Graph, s: Search, component: seq<nat>)
    requires ListedTo(g, s, |g|) && |component| == |g| == |s.nodes| && forall u :: 0 <= u < |g| ==> component[u] == s.nodes[u].component
    ensures ReverseOrder(g, component)
  {
    hide Inv, Visited, Reachable, OnStack, ReachedEarlier, ReachedBefore, Assigned, Live, Mutual, Sink;
    AllAssigned(g, s);
  }

  lemma SinkGets(g: Graph, s: Search, component: seq<nat>, b: nat)
    requires ListedTo(g, s, |g|) && |component| == |g| == |s.nodes| && forall u :: 0 <= u < |g| ==> component[u] == s.nodes[u].component
    requires Sink(g, b)
    ensures SinkNumber(g, component, b)
  {
    hide Inv, Visited, Reachable, OnStack, ReachedEarlier, ReachedBefore, Assigned, Live, Mutual, Sink, ListedTo;
    AllAssigned(g, s);
    SinkIn(g, b);
    if ReachedEarlier(g, b) {
      var r := SharedWith(g, s, b);
      assert SameNumber(component, r, b);
    } else {
      forall v: nat | v < |component| && v != b ensures !SameNumber(component, v, b) {
        LoneSink(g, s, b, v);
        LoneReach(g, b, v);
      }
    }
  }

  lemma NumbersFromOne(g: Graph, s: Search, component: seq<nat>)
    requires ListedTo(g, s, |g|) && |component| == |g| == |s.nodes| && forall u :: 0 <= u < |g| ==> component[u] == s.nodes[u].component
    ensures (forall u: nat :: u < |g| ==> component[u] >= 1) && (SinksFirst(g) ==> FromOne(component))
  {
    hide Visited, Reachable, OnStack, ReachedEarlier, ReachedBefore, Live, Mutual, Sink, StackOk, GrayOk, ReachOk, ClassOk, SinkOk, CallerOk;
    AllAssigned(g, s);
    AssignedVisited(s);
    forall u: nat | u < |g| ensures component[u] >= 1 { assert Assigned(s, u); }
    if SinksFirst(g) {
      NoneOverwritten(g, s);
      forall u: nat, n: nat | u < |component| && 1 <= n <= component[u] ensures Occurs(component, n) {
        assert Given(s, n);
        var v: nat :| Assigned(s, v) && s.nodes[v].component == n;
        assert component[v] == n;
      }
    }
  }

  lemma NoneOverwritten(g: Graph, s: Search)
    requires ListedTo(g, s, |g|) && SinksFirst(g)
    ensures !Overwritten(g, s)
  {
    hide Inv, Visited, Reachable, OnStack, ReachedEarlier, ReachedBefore, Sink;
    AssignedVisited(s);
  }

  lemma EveryNumber(g: Graph, s: Search, component: seq<nat>)
    requires ListedTo(g, s, |g|) && |component| == |g| == |s.nodes| && forall u :: 0 <= u < |g| ==> component[u] == s.nodes[u].component
    ensures forall u: nat, v: nat :: u < |g| && v < |g| && !Sink(g, u) && !Sink(g, v) ==> (component[u] == component[v] <==> Mutual(g, u, v))
    ensures Exact(g, component) <==> SinksFirst(g)
  {
    hide Inv, Visited, Reachable, OnStack, ReachedEarlier, ReachedBefore, Assigned, Live, Mutual, Sink;
    AllAssigned(g, s);
    if SinksFirst(g) {
      forall u: nat, v: nat | u < |g| && v < |g| ensures component[u] == component[v] <==> Mutual(g, u, v) {
        if Sink(g, u) { LoneSink(g, s, u, v); }
        else if Sink(g, v) { LoneSink(g, s, v, u); MutualSym(g, u, v); }
      }
    } else {
      var b: nat :| Sink(g, b) && ReachedEarlier(g, b);
      SinkIn(g, b);
      var r := SharedWith(g, s, b);
      LoneReach(g, b, r);
      assert component[b] == component[r];
    }
  }

  /** A call and an edge-free call that it reaches, listed after it. */
  lemma LateSink(g: Graph, component: seq<nat>)
    requires g == [[1], []] && |component| == 2 && (Exact(g, component) <==> SinksFirst(g))
    ensures component[0] == component[1] && !Mutual(g, 0, 1)
  {
    hide Mutual, Reachable;
    assert g[0] == [1] && 1 in g[0];
    ReachEdge(g, 0, 1);
    assert ReachedEarlier(g, 1) && Sink(g, 1);
    LoneReach(g, 1, 0);
    MutualSym(g, 0, 1);
    SelfMutual(g, 0);
    SelfMutual(g, 1);
  }

  lemma SinkIn(g: Graph, b: nat)
    requires Sink(g, b)
    ensures b < |g| && g[b] == []
  {
  }

  lemma LoneReach(g: Graph, b: nat, r: nat)
    requires Sink(g, b) && r != b
    ensures !Mutual(g, b, r)
  {
    if Reachable(g, b, r) { SinkReach(g, b, r); }
  }

  lemma AllAssigned(g: Graph, s: Search)
    requires ListedTo(g, s, |g|)
    ensures forall u: nat :: u < |g| ==> Visited(s, u) && Assigned(s, u)
    ensures |s.nodes| == |g| && ClassOk(g, s) && SinkOk(g, s)
  {
    hide Reachable, OnStack, ReachedEarlier, Tables, StackOk, GrayOk, ReachOk, ClassOk, SinkOk, CallerOk, NoGap, Sink;
    InvReach(g, s, []);
    NothingLive(g, s);
    forall u: nat | u < |g| ensures Visited(s, u) {
      ReachRefl(g, u);
      assert ReachedBefore(g, |g|, u);
    }
  }

  lemma LoneSink(g: Graph, s: Search, u: nat, v: nat)
    requires ListedTo(g, s, |g|) && u < |g| && v < |g| && Sink(g, u) && !ReachedEarlier(g, u)
    ensures |s.nodes| == |g| && (s.nodes[u].component == s.nodes[v].component <==> Mutual(g, u, v))
  {
    hide Reachable, OnStack, ReachedEarlier, Inv, Mutual, Sink, Assigned, Visited;
    AllAssigned(g, s);
    if u == v {
      SelfMutual(g, u);
    } else {
      LoneReach(g, u, v);
    }
  }

  lemma SelfMutual(g: Graph, u: nat)
    ensures Mutual(g, u, u)
  {
    ReachRefl(g, u);
  }

  lemma SharedWith(g: Graph, s: Search, b: nat) returns (r: nat)
    requires ListedTo(g, s, |g|) && Sink(g, b) && b < |g| && ReachedEarlier(g, b)
    ensures |s.nodes| == |g| && r < |g| && r != b && s.nodes[r].component == s.nodes[b].component && Edge(g, r, b)
  {
    hide Reachable, OnStack, ReachedEarlier, Inv, Sink, Visited, Edge;
    AllAssigned(g, s);
    r :| Shares(g, s, b, r);
    AssignedVisited(s);
    LiveVisited(s);
    SharesEdge(g, s, b, r);
  }

  lemma SharesEdge(g: Graph, s: Search, b: nat, r: nat)
    requires Shares(g, s, b, r) && Sink(g, b)
    ensures Edge(g, r, b) && r != b && Assigned(s, r)
  {
  }

  // ---- the list of calls -----------------------------------------------------------------

  /** Where a call stands in the list; a call that is not listed reads as position 0. */
  function Position(goals: seq<nat>, x: nat): (i: nat)
    ensures i < |goals| || i == 0
    ensures x in goals ==> i < |goals| && goals[i] == x
  {
    if x !in goals then 0
    else if goals[0] == x then 0
    else 1 + Position(goals[1..], x)
  }

  lemma PositionAt(goals: seq<nat>, x: nat)
    ensures if x in goals then Position(goals, x) < |goals| && goals[Position(goals, x)] == x else Position(goals, x) == 0
  {
    if x in goals && goals[0] != x {
      assert goals == [goals[0]] + goals[1..];
      PositionAt(goals[1..], x);
    }
  }

  lemma PositionOf(goals: seq<nat>, j: nat)
    requires j < |goals| && DistinctGoals(goals)
    ensures Position(goals, goals[j]) == j
  {
    PositionAt(goals, goals[j]);
  }

  function Positions(goals: seq<nat>, xs: seq<nat>): (r: seq<nat>)
    ensures |r| == |xs| && forall k :: 0 <= k < |xs| ==> r[k] == Position(goals, xs[k])
  {
    seq(|xs|, k requires 0 <= k < |xs| => Position(goals, xs[k]))
  }

  predicate DistinctGoals(goals: seq<nat>) {
    forall i, j :: 0 <= i < j < |goals| ==> goals[i] != goals[j]
  }

  /** The graph the search walks: the listed calls by position. */
  function Numbered(goals: seq<nat>, outedges: map<nat, seq<nat>>): (g: Graph)
    requires goals != [] && forall i :: 0 <= i < |goals| ==> goals[i] in outedges
    ensures |g| == |goals| && Closed(g)
  {
    seq(|goals|, i requires 0 <= i < |goals| => Positions(goals, outedges[goals[i]]))
  }

  /** Some call in xs is not listed. */
  predicate Unlisted(goals: seq<nat>, xs: seq<nat>) {
    exists k :: 0 <= k < |xs| && xs[k] !in goals
  }

  /** The positions carry exactly the edges of the calls, except that a call that is not listed reads as position 0. */
  lemma NumberedEdges(goals: seq<nat>, outedges: map<nat, seq<nat>>, i: nat, j: nat)
    requires goals != [] && DistinctGoals(goals) && forall k :: 0 <= k < |goals| ==> goals[k] in outedges
    requires i < |goals| && j < |goals|
    ensures Edge(Numbered(goals, outedges), i, j) <==>
      goals[j] in outedges[goals[i]] || (j == 0 && Unlisted(goals, outedges[goals[i]]))
  {
    var g := Numbered(goals, outedges);
    var xs := outedges[goals[i]];
    assert g[i] == Positions(goals, xs);
    if goals[j] in xs {
      var k :| 0 <= k < |xs| && xs[k] == goals[j];
      PositionOf(goals, j);
      assert g[i][k] == Position(goals, goals[j]) == j;
    }
    if j == 0 && Unlisted(goals, xs) {
      var k :| 0 <= k < |xs| && xs[k] !in goals;
      assert g[i][k] == 0;
    }
    if Edge(g, i, j) {
      var k :| 0 <= k < |g[i]| && g[i][k] == j;
      assert Position(goals, xs[k]) == j && xs[k] in xs;
      PositionAt(goals, xs[k]);
    }
  }

  /** All components of the listed calls. */
  method GetIncrSccs(goals: seq<nat>, outedges: map<nat, seq<nat>>) returns (component: seq<nat>, entered: nat)
    requires goals != [] && DistinctGoals(goals) && forall i :: 0 <= i < |goals| ==> goals[i] in outedges
    ensures |component| == |goals|
    ensures var g := Numbered(goals, outedges);
      forall u: nat, v: nat :: u < |g| && v < |g| && !Sink(g, u) && !Sink(g, v) ==> (component[u] == component[v] <==> Mutual(g, u, v))
    ensures var g := Numbered(goals, outedges); Exact(g, component) <==> SinksFirst(g)
    ensures var g := Numbered(goals, outedges); ReverseOrder(g, component) && forall b: nat :: Sink(g, b) ==> SinkNumber(g, component, b)
    ensures (forall u: nat :: u < |component| ==> component[u] >= 1) && (SinksFirst(Numbered(goals, outedges)) ==> FromOne(component))
    ensures entered == |goals|
  {
    hide Inv, Visited, Live, Reachable, CallOk, Toll, ListedTo, Sink, Mutual, Closed, Exact, SinksFirst, Numbered, Unvisited, DistinctGoals, ReverseOrder, SinkNumber, FromOne, CalledFrom;
    var g := Numbered(goals, outedges);
    var run := new SccSearch(g);
    var i := 0;
    ListedNone(g, run.State());
    while i < |g|
      invariant 0 <= i <= |g| && run.g == g && fresh(run) && fresh(run.nodes) && fresh(run.dfnStack)
      invariant ListedTo(g, run.State(), i) && Toll(run.State()) == 1 + |g|
    {
      ghost var s := run.State();
      ListFacts(g, s, i);
      if run.nodes[i].dfn == 0 {
        RootCalled(g, s, i);
        run.XsbComputeScc(i, []);
        CallRoot(g, s, run.State(), i);
      } else {
        Skip(g, s, i);
      }
      i := i + 1;
    }
    ListEnd(g, run.State());
    component := seq(|g|, u requires 0 <= u < |g| reads run.nodes => if u < run.nodes.Length then run.nodes[u].component else 0);
    entered := run.dfn - 1;
    Classified(g, run.State(), component);
  }

  lemma ListedNone(g: Graph, s: Search)
    requires Inv(g, s, []) && forall u: nat :: !Visited(s, u)
    ensures ListedTo(g, s, 0)
  {
    hide Inv, Visited, Reachable, OnStack;
  }

  lemma ListFacts(g: Graph, s: Search, i: nat)
    requires ListedTo(g, s, i) && i < |g|
    ensures Inv(g, s, []) && |s.nodes| == |g| && (Visited(s, i) <==> s.nodes[i].dfn > 0)
    ensures forall u: nat :: !Live(s, u)
  {
    hide Reachable, OnStack, Tables, StackOk, GrayOk, ReachOk, ClassOk, SinkOk, CallerOk, NoGap, ReachedEarlier, ReachedBefore, Live;
    InvReach(g, s, []);
    NothingLive(g, s);
  }

  lemma ListEnd(g: Graph, s: Search)
    requires ListedTo(g, s, |g|)
    ensures |s.nodes| == |g| && Toll(s) == s.dfn
  {
    hide Inv, Reachable, OnStack, ReachedEarlier, ReachedBefore, Sink;
    AllAssigned(g, s);
    assert Unvisited(s) == {};
  }

  /** One call and one fact it depends on, listed after it: the two get the same number. */
  method SinkAfterCaller(caller: nat, fact: nat) returns (component: seq<nat>)
    requires caller != fact
    ensures |component| == 2 && component[0] == component[1]
    ensures !Mutual(Numbered([caller, fact], map[caller := [fact], fact := []]), 0, 1)
  {
    hide Mutual, Exact, SinksFirst;
    var goals, outedges := [caller, fact], map[caller := [fact], fact := []];
    assert forall i :: 0 <= i < |goals| ==> goals[i] == caller || goals[i] == fact;
    var entered;
    component, entered := GetIncrSccs(goals, outedges);
    assert Position(goals, fact) == 1;
    assert outedges[goals[0]] == [fact] && outedges[goals[1]] == [];
    assert Positions(goals, [fact]) == [1] && Positions(goals, []) == [];
    assert Numbered(goals, outedges) == [[1], []];
    LateSink(Numbered(goals, outedges), component);
  }

  // ---- room for the table --------------------------------------------------------------------------------

  /** The list has had call i before, and the search in the hash table tells so: the first call is stored with position
      0, which reads as not found; again tells whether its entry with position 0 is met before one with another. */
  predicate Recognised(goals: seq<nat>, again: seq<bool>, i: nat) {
    1 <= i < |goals| == |again| && goals[i] in goals[..i] && !(goals[i] == goals[0] && (again[i] || goals[0] !in goals[1..i]))
  }

  /** How many nodes there is room for and how many are then filled in. */
  method CountCalls(goals: seq<nat>, again: seq<bool>) returns (nodeNum: nat, entries: nat)
    requires goals != [] && |again| == |goals|
    ensures entries == |goals|
    ensures entries > nodeNum <==> exists i: nat :: Recognised(goals, again, i)
    ensures DistinctGoals(goals) ==> entries == nodeNum
  {
    var stored: set<nat> := {goals[0]};
    var other := false;
    nodeNum := 1;
    var k := 1;
    while k < |goals|
      invariant 1 <= k <= |goals| && 1 <= nodeNum <= k
      invariant forall x :: x in stored <==> x in goals[..k]
      invariant other <==> goals[0] in goals[1..k]
      invariant nodeNum < k <==> exists i: nat :: i < k && Recognised(goals, again, i)
    {
      var node := goals[k];
      var found := node in stored && !(node == goals[0] && (!other || again[k]));
      assert found <==> Recognised(goals, again, k);
      if !found {
        stored := stored + {node};
        other := other || node == goals[0];
        nodeNum := nodeNum + 1;
      }
      assert goals[..k + 1] == goals[..k] + [node] && goals[1..k + 1] == goals[1..k] + [node];
      k := k + 1;
    }
    entries := 1;
    while entries < |goals|
      invariant 1 <= entries <= |goals|
    {
      entries := entries + 1;
    }
  }
}
