/** One lemma for each thing the component search does. */
module SccProof {
  import opened Reach
  import opened SccSpec

  ghost function Unvisited(s: Search): set<nat> {
    set u: nat | u < |s.nodes| && !Visited(s, u)
  }

  // ---- the stack cannot overflow ---------------------------------------------------

  lemma StackRoom(g: Graph, s: Search, v: nat)
    requires Tables(g, s) && StackOk(g, s) && v < |g| && !Visited(s, v)
    ensures s.dfnTop < |g|
  {
    var xs := s.dfnStack[..s.dfnTop];
    forall i, j | 0 <= i < j < |xs| ensures xs[i] != xs[j] { assert s.nodes[xs[i]].stack == i && s.nodes[xs[j]].stack == j; }
    forall i | 0 <= i < |xs| ensures xs[i] < |g| && xs[i] != v { assert Visited(s, s.dfnStack[i]); }
    DistinctBound(xs, |g|, v);
  }

  lemma DistinctBound(xs: seq<nat>, n: nat, v: nat)
    requires forall i, j :: 0 <= i < j < |xs| ==> xs[i] != xs[j]
    requires forall i :: 0 <= i < |xs| ==> xs[i] < n && xs[i] != v
    requires v < n
    ensures |xs| < n
  {
    SetOfDistinct(xs);
    UpToSize(n);
    forall x | x in Elems(xs) ensures x in UpTo(n) && x != v { }
    assert Elems(xs) < UpTo(n) by { assert v in UpTo(n) && v !in Elems(xs); }
    SubsetSize(Elems(xs), UpTo(n));
  }

  ghost function Elems(xs: seq<nat>): (s: set<nat>)
    ensures forall x :: x in s <==> x in xs
  {
    if xs == [] then {} else Elems(xs[..|xs| - 1]) + {xs[|xs| - 1]}
  }

  lemma {:induction false} SetOfDistinct(xs: seq<nat>)
    requires forall i, j :: 0 <= i < j < |xs| ==> xs[i] != xs[j]
    ensures |Elems(xs)| == |xs|
  {
    if xs != [] {
      SetOfDistinct(xs[..|xs| - 1]);
    }
  }

  ghost function UpTo(n: nat): set<nat> {
    if n == 0 then {} else UpTo(n - 1) + {n - 1}
  }

  lemma UpToSize(n: nat)
    ensures |UpTo(n)| == n && forall x: nat :: x in UpTo(n) <==> x < n
  {
    if n > 0 { UpToSize(n - 1); }
  }

  lemma SubsetSize(a: set<nat>, b: set<nat>)
    requires a < b
    ensures |a| < |b|
  {
    var x :| x in b && x !in a;
    SubsetLe(a, b - {x});
  }

  lemma SubsetLe(a: set<nat>, b: set<nat>)
    requires a <= b
    ensures |a| <= |b|
  {
    if a != {} {
      var x :| x in a;
      SubsetLe(a - {x}, b - {x});
    }
  }

  // ---- entering a node -------------------------------------------------------------

  function Entered(s: Search, v: nat): Search
    requires v < |s.nodes| && s.dfnTop < |s.dfnStack|
  {
    Search(s.nodes[v := SccNode(s.dfn, s.dfn, s.nodes[v].component, s.dfnTop)], s.dfnStack[s.dfnTop := v],
           s.dfnTop + 1, s.dfn + 1, s.component)
  }

  /** What a search state says about the nodes after v has been entered. */
  lemma EnteredIs(g: Graph, s: Search, v: nat)
    requires Tables(g, s) && v < |g| && !Visited(s, v) && s.dfnTop < |g|
    ensures |s.nodes| == |s.dfnStack| == |g|
    ensures var s1 := Entered(s, v);
      && (forall u: nat :: Visited(s1, u) <==> Visited(s, u) || u == v)
      && (forall u: nat :: Live(s1, u) <==> Live(s, u) || u == v)
      && (forall u: nat :: Assigned(s1, u) <==> Assigned(s, u))
      && (forall u: nat :: u != v && u < |g| ==> s1.nodes[u] == s.nodes[u])
      && s1.nodes[v] == SccNode(s.dfn, s.dfn, 0, s.dfnTop)
      && Tables(g, s1)
      && (forall u: nat :: Visited(s, u) ==> s.nodes[u].dfn < s.dfn)
  {
  }

  lemma EnteredStack(g: Graph, s: Search, v: nat)
    requires Tables(g, s) && StackOk(g, s) && v < |g| && !Visited(s, v) && s.dfnTop < |g|
    ensures var s1 := Entered(s, v);
      && (forall u: nat :: OnStack(s1, u) <==> OnStack(s, u) || u == v)
      && (forall i :: 0 <= i < s1.dfnTop ==> Visited(s1, s1.dfnStack[i]) && s1.nodes[s1.dfnStack[i]].stack == i)
      && (forall i, j :: 0 <= i < j < s1.dfnTop ==> s1.nodes[s1.dfnStack[i]].dfn < s1.nodes[s1.dfnStack[j]].dfn)
  {
    var s1 := Entered(s, v);
    forall i | 0 <= i < s1.dfnTop ensures Visited(s1, s1.dfnStack[i]) && s1.nodes[s1.dfnStack[i]].stack == i {
      if i < s.dfnTop { assert Visited(s, s.dfnStack[i]); }
    }
    forall i, j | 0 <= i < j < s1.dfnTop ensures s1.nodes[s1.dfnStack[i]].dfn < s1.nodes[s1.dfnStack[j]].dfn {
      assert Visited(s, s.dfnStack[i]);
      if j < s.dfnTop { assert Visited(s, s.dfnStack[j]); }
    }
    forall u: nat ensures OnStack(s1, u) <==> OnStack(s, u) || u == v {
      if u != v && Visited(s, u) {
        assert s1.nodes[u] == s.nodes[u];
        if s.nodes[u].stack == s.dfnTop { assert s1.dfnStack[s.dfnTop] == v; }
      }
    }
  }

  /** A node with edges joins the calls in progress. */
  lemma EnterNode(g: Graph, s: Search, v: nat, gray: seq<nat>)
    requires Inv(g, s, gray) && v < |g| && !Visited(s, v) && g[v] != [] && s.dfnTop < |g|
    requires forall u: nat :: Live(s, u) ==> Reachable(g, u, v)
    ensures Inv(g, Entered(s, v), gray + [v])
    ensures Grown(s, Entered(s, v))
  {
    hide Tables, StackOk, GrayOk, ReachOk, ClassOk, SinkOk, CallerOk, NoGap, Edge, Reachable, OnStack, Visited, Live, Assigned, Sink, Entered;
    EnteredIs(g, s, v);
    var s1 := Entered(s, v);
    EnteredStack(g, s, v);
    EnterStackOk(g, s, v);
    EnterGray(g, s, v, gray);
    EnterReach(g, s, v, gray);
    EnterClass(g, s, v);
    EnterCallers(g, s, v, gray);
    EnterNumbers(g, s, v);
    EnterGrown(g, s, v);
  }

  lemma StackBelow(g: Graph, s: Search)
    requires StackOk(g, s)
    ensures forall u: nat :: OnStack(s, u) ==> u < |s.nodes| && s.nodes[u].stack < s.dfnTop
    ensures forall u: nat :: Live(s, u) ==> OnStack(s, u)
  {
  }

  lemma EnterCallers(g: Graph, s: Search, v: nat, gray: seq<nat>)
    requires Tables(g, s) && StackOk(g, s) && GrayOk(g, s, gray) && CallerOk(g, s, gray) && v < |g| && !Visited(s, v) && s.dfnTop < |g| && g[v] != []
    ensures CallerOk(g, Entered(s, v), gray + [v])
  {
    hide Tables, StackOk, GrayOk, Edge, OnStack, Visited, Live, Assigned, Entered, HasCaller, Lowest;
    EnteredIs(g, s, v);
    EnteredStack(g, s, v);
    StackBelow(g, s);
    LiveVisited(s);
    GrayLive(g, s, gray);
    var s1 := Entered(s, v);
    forall b: nat | OnStack(s1, b) && Sink(g, b) ensures Lowest(s1, b) || exists r: nat :: HasCaller(g, s1, gray + [v], b, r) {
      if Lowest(s, b) {
        LowestKept(s, s1, b, v);
      } else {
        var r: nat :| HasCaller(g, s, gray, b, r);
        CallerIs(g, s, gray, b, r);
        forall z: nat ensures z in gray + [v] <==> z in gray || z == v { InAppend(gray, v, z); }
        CallerKept(g, s, s1, gray, gray + [v], b, r, v);
      }
    }
  }

  lemma GrayLive(g: Graph, s: Search, gray: seq<nat>)
    requires GrayOk(g, s, gray)
    ensures forall z: nat :: z in gray ==> Live(s, z)
  {
  }

  /** New live nodes are above everything else. */
  lemma LowestKept(s: Search, s1: Search, b: nat, v: nat)
    requires Lowest(s, b) && |s1.nodes| == |s.nodes| && b != v
    requires forall u: nat :: Live(s1, u) ==> Live(s, u) || u == v
    requires forall u: nat :: u != v && u < |s.nodes| ==> s1.nodes[u].stack == s.nodes[u].stack
    requires v < |s.nodes| && b < |s.nodes| && s1.nodes[v].stack > s.nodes[b].stack
    ensures Lowest(s1, b)
  {
    hide Live;
    LiveVisited(s);
  }

  lemma CallerKept(g: Graph, s: Search, s1: Search, gray: seq<nat>, gray1: seq<nat>, b: nat, r: nat, v: nat)
    requires HasCaller(g, s, gray, b, r) && |s1.nodes| == |s.nodes| && b != v && r != v && Live(s1, r)
    requires forall z: nat :: z in gray1 ==> z in gray || z == v
    requires forall u: nat :: u != v && u < |s.nodes| ==> s1.nodes[u].stack == s.nodes[u].stack
    requires v < |s.nodes| && b < |s.nodes| && (v in gray1 && v !in gray ==> s1.nodes[v].stack > s.nodes[b].stack)
    requires v in gray ==> s1.nodes[v].stack == s.nodes[v].stack
    ensures HasCaller(g, s1, gray1, b, r)
  {
    hide Live, Edge;
    LiveVisited(s);
  }

  lemma EnterNumbers(g: Graph, s: Search, v: nat)
    requires Tables(g, s) && StackOk(g, s) && NoGap(g, s) && v < |g| && !Visited(s, v) && s.dfnTop < |g|
    ensures NoGap(g, Entered(s, v))
  {
    hide Tables, StackOk, OnStack, Visited, Entered, Assigned, Live, Sink;
    EnteredIs(g, s, v);
    EnteredStack(g, s, v);
    AssignedVisited(s);
    EnteredCounter(s, v);
    NumbersKept(g, s, Entered(s, v), v);
  }

  lemma EnteredCounter(s: Search, v: nat)
    requires v < |s.nodes| && s.dfnTop < |s.dfnStack|
    ensures Entered(s, v).component == s.component && |Entered(s, v).nodes| == |s.nodes|
  {
  }

  /** Nodes other than v keep their numbers and their places. */
  lemma NumbersKept(g: Graph, s: Search, s1: Search, v: nat)
    requires NoGap(g, s) && s1.component == s.component && |s1.nodes| == |s.nodes|
    requires forall u: nat :: Assigned(s, u) ==> Assigned(s1, u) && u < |s.nodes| && s1.nodes[u].component == s.nodes[u].component
    requires forall u: nat :: Assigned(s, u) ==> (OnStack(s1, u) <==> OnStack(s, u))
    ensures NoGap(g, s1)
  {
    hide Assigned, OnStack, Sink;
    if Overwritten(g, s) {
      var b: nat :| Assigned(s, b) && Sink(g, b) && !OnStack(s, b);
      assert Assigned(s1, b) && Sink(g, b) && !OnStack(s1, b);
    } else {
      forall n: nat | 1 <= n < s1.component ensures Given(s1, n) {
        assert Given(s, n);
        var u: nat :| Assigned(s, u) && s.nodes[u].component == n;
        assert Assigned(s1, u) && s1.nodes[u].component == n;
      }
    }
  }

  lemma EnterStackOk(g: Graph, s: Search, v: nat)
    requires Tables(g, s) && StackOk(g, s) && v < |g| && !Visited(s, v) && s.dfnTop < |g| && g[v] != []
    ensures StackOk(g, Entered(s, v))
  {
    hide OnStack, Visited, Live;
    EnteredIs(g, s, v);
    EnteredStack(g, s, v);
  }

  lemma EnterGrown(g: Graph, s: Search, v: nat)
    requires Tables(g, s) && v < |g| && !Visited(s, v) && s.dfnTop < |g|
    ensures Grown(s, Entered(s, v))
  {
  }

  lemma EnterGray(g: Graph, s: Search, v: nat, gray: seq<nat>)
    requires Tables(g, s) && GrayOk(g, s, gray) && v < |g| && !Visited(s, v) && s.dfnTop < |g|
    ensures GrayOk(g, Entered(s, v), gray + [v])
  {
    hide Edge, Visited, Live, Assigned, Entered, Tables;
    EnteredIs(g, s, v);
    forall u: nat | u !in gray + [v] ensures u !in gray && u != v { InAppend(gray, v, u); }
  }

  lemma InAppend(xs: seq<nat>, v: nat, u: nat)
    ensures u in xs + [v] <==> u in xs || u == v
  {
  }

  lemma EnterReach(g: Graph, s: Search, v: nat, gray: seq<nat>)
    requires Tables(g, s) && ReachOk(g, s, gray) && v < |g| && !Visited(s, v) && s.dfnTop < |g|
    requires forall u: nat :: Live(s, u) ==> Reachable(g, u, v)
    ensures ReachOk(g, Entered(s, v), gray + [v])
  {
    hide Reachable, Tables, Entered, Visited, Live, OlderGray, LowWitness;
    EnteredIs(g, s, v);
    var s1 := Entered(s, v);
    ReachRefl(g, v);
    LiveVisited(s);
    forall u: nat | Live(s1, u) ensures (exists z: nat :: OlderGray(g, s1, gray + [v], u, z)) && exists w: nat :: LowWitness(g, s1, u, w) {
      if u == v {
        NewWitness(g, s1, gray, v);
      } else {
        var z: nat :| OlderGray(g, s, gray, u, z);
        var w: nat :| LowWitness(g, s, u, w);
        OlderIn(g, s, gray, u, z);
        InAppend(gray, v, z);
        OldWitness(g, s, s1, gray, gray + [v], u, z, w);
      }
    }
  }

  lemma OlderIn(g: Graph, s: Search, gray: seq<nat>, u: nat, z: nat)
    requires OlderGray(g, s, gray, u, z)
    ensures z in gray
  {
  }

  lemma NewWitness(g: Graph, s1: Search, gray: seq<nat>, v: nat)
    requires Live(s1, v) && s1.nodes[v].low == s1.nodes[v].dfn && Reachable(g, v, v)
    ensures OlderGray(g, s1, gray + [v], v, v) && LowWitness(g, s1, v, v)
  {
  }

  lemma OldWitness(g: Graph, s: Search, s1: Search, gray: seq<nat>, gray1: seq<nat>, u: nat, z: nat, w: nat)
    requires OlderGray(g, s, gray, u, z) && LowWitness(g, s, u, w) && |s1.nodes| == |s.nodes|
    requires z in gray1
    requires Visited(s, u) && Visited(s, z) && Visited(s, w) ==> s1.nodes[u] == s.nodes[u] && s1.nodes[z] == s.nodes[z] && s1.nodes[w] == s.nodes[w]
    ensures OlderGray(g, s1, gray1, u, z) && LowWitness(g, s1, u, w)
  {
    hide Reachable;
  }

  lemma LiveVisited(s: Search)
    ensures forall u: nat :: Live(s, u) ==> Visited(s, u) && u < |s.nodes|
    ensures forall u: nat :: Visited(s, u) ==> u < |s.nodes|
  {
  }

  lemma EnterClass(g: Graph, s: Search, v: nat)
    requires Tables(g, s) && StackOk(g, s) && ClassOk(g, s) && SinkOk(g, s) && v < |g| && !Visited(s, v) && s.dfnTop < |g|
    ensures ClassOk(g, Entered(s, v)) && SinkOk(g, Entered(s, v))
  {
    hide Reachable, Mutual, Tables, StackOk, Entered, OnStack, Sink, Visited, Live, Assigned;
    EnteredIs(g, s, v);
    EnteredStack(g, s, v);
    var s1 := Entered(s, v);
    AssignedVisited(s);
    forall u: nat | Assigned(s1, u) && Sink(g, u) && !OnStack(s1, u) ensures exists r: nat :: Shares(g, s1, u, r) {
      var r: nat :| Shares(g, s, u, r);
      assert Shares(g, s1, u, r);
    }
  }

  lemma AssignedVisited(s: Search)
    ensures forall u: nat :: Assigned(s, u) ==> Visited(s, u) && u < |s.nodes|
  {
  }

  // ---- an edge-free node -----------------------------------------------------------

  /** An edge-free node gets a component at once but stays on the stack. */
  function SinkDone(s: Search, v: nat): Search
    requires v < |s.nodes| && s.dfnTop < |s.dfnStack|
  {
    var s1 := Entered(s, v);
    s1.(nodes := s1.nodes[v := s1.nodes[v].(component := s1.component)], component := s1.component + 1)
  }

  lemma EnterSink(g: Graph, s: Search, v: nat, gray: seq<nat>)
    requires Inv(g, s, gray) && v < |g| && !Visited(s, v) && g[v] == [] && s.dfnTop < |g|
    requires CalledFrom(g, s, gray, v)
    ensures Inv(g, SinkDone(s, v), gray) && Grown(s, SinkDone(s, v))
    ensures !Live(SinkDone(s, v), v)
    ensures OnStack(SinkDone(s, v), v)
    ensures forall u: nat :: Live(SinkDone(s, v), u) <==> Live(s, u)
  {
    hide Tables, StackOk, Edge, Reachable, OnStack, Visited, Live, Assigned, Sink, SinkDone, GrayOk, ReachOk, ClassOk, SinkOk, CallerOk, NoGap;
    LiveVisited(s);
    SinkIs(g, s, v);
    SinkStack(g, s, v);
    SinkGray(g, s, v, gray);
    SinkReachOk(g, s, v, gray);
    SinkClass(g, s, v);
    SinkCallers(g, s, v, gray);
    SinkNumbers(g, s, v);
  }

  /** v is entered from the list, or by the newest of the calls in progress. */
  ghost predicate CalledFrom(g: Graph, s: Search, gray: seq<nat>, v: nat) {
    if gray == [] then forall u: nat :: !Live(s, u)
    else
      var c := gray[|gray| - 1];
      c < |s.nodes| && Edge(g, c, v) && forall z: nat :: z in gray && z < |s.nodes| ==> s.nodes[z].stack <= s.nodes[c].stack
  }

  lemma SinkCallers(g: Graph, s: Search, v: nat, gray: seq<nat>)
    requires Tables(g, s) && StackOk(g, s) && GrayOk(g, s, gray) && CallerOk(g, s, gray) && v < |g| && !Visited(s, v) && s.dfnTop < |g| && g[v] == []
    requires CalledFrom(g, s, gray, v)
    ensures CallerOk(g, SinkDone(s, v), gray)
  {
    hide Tables, StackOk, GrayOk, Edge, OnStack, Visited, Live, Assigned, SinkDone, HasCaller, Lowest;
    SinkIs(g, s, v);
    SinkStack(g, s, v);
    StackBelow(g, s);
    LiveVisited(s);
    GrayLive(g, s, gray);
    TableSize(g, s);
    var s1 := SinkDone(s, v);
    forall b: nat | OnStack(s1, b) && Sink(g, b) ensures Lowest(s1, b) || exists r: nat :: HasCaller(g, s1, gray, b, r) {
      if b == v {
        NewSinkCaller(g, s, s1, gray, v);
      } else if Lowest(s, b) {
        LowestKept(s, s1, b, v);
      } else {
        var r: nat :| HasCaller(g, s, gray, b, r);
        CallerIs(g, s, gray, b, r);
        CallerKept(g, s, s1, gray, gray, b, r, v);
      }
    }
  }

  lemma CallerIs(g: Graph, s: Search, gray: seq<nat>, b: nat, r: nat)
    requires HasCaller(g, s, gray, b, r)
    ensures Live(s, r) && b < |s.nodes|
  {
  }

  lemma NewSinkCaller(g: Graph, s: Search, s1: Search, gray: seq<nat>, v: nat)
    requires CalledFrom(g, s, gray, v) && v < |s.nodes| == |s1.nodes| && v !in gray && s1.nodes[v].stack == s.dfnTop
    requires forall z: nat :: z in gray ==> Live(s, z)
    requires forall u: nat :: Live(s1, u) <==> Live(s, u)
    requires forall u: nat :: Live(s, u) ==> u < |s.nodes| && s.nodes[u].stack < s.dfnTop
    requires forall u: nat :: u != v && u < |s.nodes| ==> s1.nodes[u] == s.nodes[u]
    ensures Lowest(s1, v) || exists r: nat :: HasCaller(g, s1, gray, v, r)
  {
    hide Live, Edge;
    if gray != [] {
      var c := gray[|gray| - 1];
      assert c in gray;
      assert HasCaller(g, s1, gray, v, c);
    }
  }

  lemma SinkNumbers(g: Graph, s: Search, v: nat)
    requires Tables(g, s) && StackOk(g, s) && NoGap(g, s) && v < |g| && !Visited(s, v) && s.dfnTop < |g| && g[v] == []
    ensures NoGap(g, SinkDone(s, v))
  {
    hide Tables, StackOk, OnStack, Visited, SinkDone, Assigned, Live, Sink;
    SinkIs(g, s, v);
    SinkStack(g, s, v);
    AssignedVisited(s);
    SinkCounter(s, v);
    NumbersMore(g, s, SinkDone(s, v), v);
  }

  lemma SinkCounter(s: Search, v: nat)
    requires v < |s.nodes| && s.dfnTop < |s.dfnStack|
    ensures SinkDone(s, v).component == s.component + 1 && |SinkDone(s, v).nodes| == |s.nodes|
  {
  }

  /** The next number has been given to v; nodes that had one keep it, or an edge-free node has lost its own. */
  lemma NumbersMore(g: Graph, s: Search, s1: Search, v: nat)
    requires NoGap(g, s) && s1.component == s.component + 1 && |s1.nodes| == |s.nodes|
    requires Assigned(s1, v) && v < |s.nodes| && s1.nodes[v].component == s.component
    requires forall u: nat :: Assigned(s, u) ==> Assigned(s1, u) && u < |s.nodes|
    requires forall u: nat :: Assigned(s, u) && !OnStack(s, u) ==> !OnStack(s1, u)
    requires forall u: nat :: Assigned(s, u) && s1.nodes[u].component != s.nodes[u].component ==> Sink(g, u) && !OnStack(s1, u)
    ensures NoGap(g, s1)
  {
    hide Assigned, OnStack, Sink;
    if Overwritten(g, s) {
      var b: nat :| Assigned(s, b) && Sink(g, b) && !OnStack(s, b);
      assert Assigned(s1, b) && Sink(g, b) && !OnStack(s1, b);
    } else if !Overwritten(g, s1) {
      forall n: nat | 1 <= n < s1.component ensures Given(s1, n) {
        if n < s.component {
          assert Given(s, n);
          var u: nat :| Assigned(s, u) && s.nodes[u].component == n;
          assert Assigned(s1, u) && s1.nodes[u].component == n;
        }
      }
    }
  }

  lemma SinkIs(g: Graph, s: Search, v: nat)
    requires Tables(g, s) && v < |g| && !Visited(s, v) && s.dfnTop < |g|
    ensures var s1 := SinkDone(s, v);
      && (forall u: nat :: Visited(s1, u) <==> Visited(s, u) || u == v)
      && (forall u: nat :: Live(s1, u) <==> Live(s, u))
      && (forall u: nat :: Assigned(s1, u) <==> Assigned(s, u) || u == v)
      && (forall u: nat :: u != v && u < |g| ==> s1.nodes[u] == s.nodes[u])
      && s1.nodes[v] == SccNode(s.dfn, s.dfn, s.component, s.dfnTop)
      && Tables(g, s1) && Grown(s, s1)
  {
  }

  lemma SinkStack(g: Graph, s: Search, v: nat)
    requires Tables(g, s) && StackOk(g, s) && v < |g| && !Visited(s, v) && s.dfnTop < |g| && g[v] == []
    ensures StackOk(g, SinkDone(s, v)) && OnStack(SinkDone(s, v), v)
    ensures forall u: nat :: u != v ==> (OnStack(SinkDone(s, v), u) <==> OnStack(s, u))
  {
    hide OnStack, Visited, Live;
    EnteredIs(g, s, v);
    EnteredStack(g, s, v);
    SinkIs(g, s, v);
    SinkOnStack(g, s, v);
  }

  lemma SinkOnStack(g: Graph, s: Search, v: nat)
    requires Tables(g, s) && v < |g| && !Visited(s, v) && s.dfnTop < |g|
    ensures forall u: nat :: OnStack(SinkDone(s, v), u) <==> OnStack(Entered(s, v), u)
    ensures forall u: nat :: Visited(SinkDone(s, v), u) <==> Visited(Entered(s, v), u)
    ensures forall u: nat :: u < |g| ==> SinkDone(s, v).nodes[u].stack == Entered(s, v).nodes[u].stack && SinkDone(s, v).nodes[u].dfn == Entered(s, v).nodes[u].dfn
  {
  }

  lemma SinkGray(g: Graph, s: Search, v: nat, gray: seq<nat>)
    requires Tables(g, s) && GrayOk(g, s, gray) && v < |g| && !Visited(s, v) && s.dfnTop < |g| && g[v] == []
    ensures GrayOk(g, SinkDone(s, v), gray)
  {
    hide Visited, Live, Assigned, SinkDone, Tables;
    SinkIs(g, s, v);
  }

  lemma SinkReachOk(g: Graph, s: Search, v: nat, gray: seq<nat>)
    requires Tables(g, s) && ReachOk(g, s, gray) && v < |g| && !Visited(s, v) && s.dfnTop < |g|
    ensures ReachOk(g, SinkDone(s, v), gray)
  {
    hide Reachable, Tables, SinkDone, Visited, Live;
    SinkIs(g, s, v);
    LiveVisited(s);
    SameLive(g, s, SinkDone(s, v), gray);
  }

  /** The live part and its words are the same. */
  lemma SameLive(g: Graph, s: Search, s1: Search, gray: seq<nat>)
    requires ReachOk(g, s, gray) && |s1.nodes| == |s.nodes|
    requires forall u: nat :: Live(s1, u) <==> Live(s, u)
    requires forall u: nat :: Visited(s, u) ==> Visited(s1, u) && u < |s.nodes| && s1.nodes[u].dfn == s.nodes[u].dfn && s1.nodes[u].low == s.nodes[u].low
    ensures ReachOk(g, s1, gray)
  {
    hide Reachable, Visited, Live;
    LiveVisited(s);
    forall u: nat | Live(s1, u) ensures exists z: nat :: OlderGray(g, s1, gray, u, z) {
      var z: nat :| OlderGray(g, s, gray, u, z);
      assert OlderGray(g, s1, gray, u, z);
    }
    forall u: nat | Live(s1, u) ensures exists w: nat :: LowWitness(g, s1, u, w) {
      var w: nat :| LowWitness(g, s, u, w);
      assert LowWitness(g, s1, u, w);
    }
  }

  lemma SinkClass(g: Graph, s: Search, v: nat)
    requires Tables(g, s) && StackOk(g, s) && ClassOk(g, s) && SinkOk(g, s) && v < |g| && !Visited(s, v) && s.dfnTop < |g| && g[v] == []
    ensures ClassOk(g, SinkDone(s, v)) && SinkOk(g, SinkDone(s, v))
  {
    hide Reachable, Mutual, StackOk, SinkDone, OnStack, Live;
    SinkIs(g, s, v);
    SinkStack(g, s, v);
    var s1 := SinkDone(s, v);
    forall u: nat | Assigned(s1, u) && Sink(g, u) && !OnStack(s1, u) ensures exists r: nat :: Shares(g, s1, u, r) {
      var r: nat :| Shares(g, s, u, r);
      assert Shares(g, s1, u, r);
    }
  }

  // ---- lowering the word of a call in progress ---------------------------------------

  function Lowered(s: Search, v: nat, l: nat): Search
    requires v < |s.nodes|
  {
    s.(nodes := s.nodes[v := s.nodes[v].(low := l)])
  }

  lemma LoweredIs(g: Graph, s: Search, v: nat, l: nat)
    requires Tables(g, s) && StackOk(g, s) && v < |g|
    ensures |s.nodes| == |g|
    ensures var s1 := Lowered(s, v, l);
      && (forall u: nat :: Visited(s1, u) <==> Visited(s, u))
      && (forall u: nat :: Live(s1, u) <==> Live(s, u))
      && (forall u: nat :: Assigned(s1, u) <==> Assigned(s, u))
      && (forall u: nat :: OnStack(s1, u) <==> OnStack(s, u))
      && (forall u: nat :: u < |g| ==> s1.nodes[u] == s.nodes[u].(low := if u == v then l else s.nodes[u].low))
      && Tables(g, s1) && StackOk(g, s1)
  {
  }

  lemma LowerInv(g: Graph, s: Search, gray: seq<nat>, v: nat, w: nat)
    requires Inv(g, s, gray) && Live(s, v) && Live(s, w) && Reachable(g, v, w) && s.nodes[w].low < s.nodes[v].low
    ensures Inv(g, Lowered(s, v, s.nodes[w].low), gray)
  {
    hide Tables, StackOk, GrayOk, ClassOk, Reachable, OnStack, Visited, Live, Assigned, Sink, Lowered, Edge, Mutual, ReachOk, SinkOk, CallerOk, NoGap;
    LiveVisited(s);
    LoweredGray(g, s, gray, v, s.nodes[w].low);
    AssignedVisited(s);
    TableSize(g, s);
    LoweredIs(g, s, v, s.nodes[w].low);
    LowerReach(g, s, gray, v, w);
    SameSinks(g, s, Lowered(s, v, s.nodes[w].low));
    LoweredClass(g, s, Lowered(s, v, s.nodes[w].low));
    LoweredCallers(g, s, Lowered(s, v, s.nodes[w].low), gray);
    LoweredCounter(s, v, s.nodes[w].low);
    NumbersKept(g, s, Lowered(s, v, s.nodes[w].low), v);
  }

  lemma LoweredClass(g: Graph, s: Search, s1: Search)
    requires ClassOk(g, s) && |s1.nodes| == |s.nodes|
    requires forall u: nat :: Assigned(s1, u) <==> Assigned(s, u)
    requires forall u: nat :: Assigned(s, u) ==> u < |s.nodes| && s1.nodes[u].component == s.nodes[u].component
    ensures ClassOk(g, s1)
  {
    hide Reachable, Mutual, Assigned, Sink;
  }

  lemma LoweredCallers(g: Graph, s: Search, s1: Search, gray: seq<nat>)
    requires CallerOk(g, s, gray) && |s1.nodes| == |s.nodes|
    requires forall u: nat :: Live(s1, u) <==> Live(s, u)
    requires forall u: nat :: OnStack(s1, u) <==> OnStack(s, u)
    requires forall u: nat :: u < |s.nodes| ==> s1.nodes[u].stack == s.nodes[u].stack
    ensures CallerOk(g, s1, gray)
  {
    hide Live, OnStack, Sink, Edge;
    LiveVisited(s);
    forall b: nat | OnStack(s1, b) && Sink(g, b) ensures Lowest(s1, b) || exists r: nat :: HasCaller(g, s1, gray, b, r) {
      if !Lowest(s, b) {
        var r: nat :| HasCaller(g, s, gray, b, r);
        assert HasCaller(g, s1, gray, b, r);
      }
    }
  }

  lemma LoweredCounter(s: Search, v: nat, l: nat)
    requires v < |s.nodes|
    ensures Lowered(s, v, l).component == s.component && |Lowered(s, v, l).nodes| == |s.nodes|
  {
  }

  lemma LoweredGray(g: Graph, s: Search, gray: seq<nat>, v: nat, l: nat)
    requires Inv(g, s, gray) && v < |s.nodes|
    ensures GrayOk(g, Lowered(s, v, l), gray)
  {
    hide ReachOk, ClassOk, SinkOk, CallerOk, NoGap, Edge, OnStack, Visited, Live, Assigned, Lowered;
    TableSize(g, s);
    LoweredIs(g, s, v, l);
  }

  lemma TableSize(g: Graph, s: Search)
    requires Tables(g, s)
    ensures |s.nodes| == |s.dfnStack| == |g|
  {
  }

  lemma SameSinks(g: Graph, s: Search, s1: Search)
    requires SinkOk(g, s) && |s1.nodes| == |s.nodes|
    requires forall u: nat :: Assigned(s1, u) <==> Assigned(s, u)
    requires forall u: nat :: OnStack(s1, u) <==> OnStack(s, u)
    requires forall u: nat :: u < |s.nodes| ==> s1.nodes[u].component == s.nodes[u].component
    ensures SinkOk(g, s1)
  {
    hide OnStack, Sink, Assigned;
    AssignedVisited(s);
    LiveVisited(s);
    forall u: nat | Assigned(s1, u) && Sink(g, u) && !OnStack(s1, u) ensures exists r: nat :: Shares(g, s1, u, r) {
      var r: nat :| Shares(g, s, u, r);
      assert Shares(g, s1, u, r);
    }
  }

  lemma LowerReach(g: Graph, s: Search, gray: seq<nat>, v: nat, w: nat)
    requires Tables(g, s) && StackOk(g, s) && ReachOk(g, s, gray)
    requires Live(s, v) && Live(s, w) && Reachable(g, v, w) && s.nodes[w].low < s.nodes[v].low
    ensures ReachOk(g, Lowered(s, v, s.nodes[w].low), gray)
  {
    hide Tables, StackOk, Reachable, OnStack, Visited, Live, Lowered, OlderGray, LowWitness;
    LiveVisited(s);
    TableSize(g, s);
    var l := s.nodes[w].low;
    LoweredIs(g, s, v, l);
    var s1 := Lowered(s, v, l);
    forall u: nat | Live(s1, u)
      ensures (exists z: nat :: OlderGray(g, s1, gray, u, z)) && exists x: nat :: LowWitness(g, s1, u, x)
    {
      var z: nat :| OlderGray(g, s, gray, u, z);
      var x: nat :| LowWitness(g, s, u, x);
      CarryOlder(g, s, s1, gray, u, z);
      if u == v {
        var y: nat :| LowWitness(g, s, w, y);
        WitnessThrough(g, s, s1, v, w, x, y);
      } else {
        CarryWitness(g, s, s1, u, x);
      }
    }
  }

  lemma CarryOlder(g: Graph, s: Search, s1: Search, gray: seq<nat>, u: nat, z: nat)
    requires OlderGray(g, s, gray, u, z) && |s1.nodes| == |s.nodes|
    requires forall x: nat :: Visited(s, x) ==> Visited(s1, x) && x < |s.nodes| && s1.nodes[x].dfn == s.nodes[x].dfn
    ensures OlderGray(g, s1, gray, u, z)
  {
    hide Reachable, Visited;
  }

  lemma CarryWitness(g: Graph, s: Search, s1: Search, u: nat, w: nat)
    requires LowWitness(g, s, u, w) && |s1.nodes| == |s.nodes|
    requires forall x: nat :: Live(s, x) ==> Live(s1, x) && x < |s.nodes| && s1.nodes[x].dfn == s.nodes[x].dfn
    requires u < |s.nodes| ==> s1.nodes[u].low == s.nodes[u].low
    ensures LowWitness(g, s1, u, w)
  {
    hide Reachable, Live;
  }

  lemma WitnessThrough(g: Graph, s: Search, s1: Search, v: nat, w: nat, x: nat, y: nat)
    requires LowWitness(g, s, v, x) && LowWitness(g, s, w, y) && Reachable(g, v, w) && |s1.nodes| == |s.nodes|
    requires forall z: nat :: Live(s, z) ==> Live(s1, z) && z < |s.nodes| && s1.nodes[z].dfn == s.nodes[z].dfn
    requires v < |s.nodes| && w < |s.nodes| ==> s1.nodes[v].low == s.nodes[w].low < s.nodes[v].low
    ensures LowWitness(g, s1, v, y)
  {
    hide Reachable, Live;
    ReachTrans(g, v, w, y);
  }

  // ---- the loop over the edges of v --------------------------------------------------

  predicate AmongFirst(g: Graph, v: nat, k: nat, y: nat) {
    v < |g| && k <= |g[v]| && y in g[v][..k]
  }

  /** The part of LowBound that the first k edges of v account for. */
  ghost predicate PartBound(g: Graph, s: Search, v: nat, t: nat, k: nat) {
    forall x: nat, y: nat ::
      (Live(s, x) && s.nodes[x].stack >= t && Edge(g, x, y) && Live(s, y) && s.nodes[y].stack < t && (x == v ==> AmongFirst(g, v, k, y)))
      ==> Live(s, v) && s.nodes[v].low <= s.nodes[y].dfn
  }

  ghost predicate SeenTo(g: Graph, s: Search, v: nat, k: nat) {
    v < |g| && k <= |g[v]| && forall j :: 0 <= j < k ==> Visited(s, g[v][j])
  }

  /** v was entered in state s0 and is still in progress. */
  ghost predicate InProgress(s0: Search, s: Search, v: nat) {
    && !Visited(s0, v) && Live(s, v) && OnStack(s, v) && s.nodes[v].dfn == s0.dfn && s.nodes[v].stack == s0.dfnTop
    && s.nodes[v].low <= s.nodes[v].dfn
  }

  /** Everything the loop keeps except the bound on low. */
  ghost predicate LoopBase(g: Graph, s0: Search, s: Search, gray: seq<nat>, v: nat, k: nat) {
    && Inv(g, s0, gray) && Inv(g, s, gray + [v]) && Grown(s0, s) && InProgress(s0, s, v)
    && SeenTo(g, s, v, k) && NewReached(g, s0, s, v)
  }

  ghost predicate LoopOk(g: Graph, s0: Search, s: Search, gray: seq<nat>, v: nat, k: nat) {
    LoopBase(g, s0, s, gray, v, k) && PartBound(g, s, v, s0.dfnTop, k)
  }

  /** What a call for v does. */
  ghost predicate CallOk(g: Graph, s0: Search, s: Search, gray: seq<nat>, v: nat) {
    && Inv(g, s, gray) && Grown(s0, s) && Visited(s, v) && NewReached(g, s0, s, v) && LowBound(g, s, v, s0.dfnTop)
    && s.nodes[v].dfn == s0.dfn
    && (!Live(s, v) ==> s.nodes[v].low == s.nodes[v].dfn)
    && (v < |g| && g[v] == [] ==> OnStack(s, v) && s.nodes[v].stack == s0.dfnTop && s.dfnTop == s0.dfnTop + 1)
    && (v < |g| && g[v] != [] && !Live(s, v) ==> s.dfnTop == s0.dfnTop)
  }

  // ---- the beginning of the loop -----------------------------------------------------

  lemma StartLoop(g: Graph, s0: Search, gray: seq<nat>, v: nat)
    requires Inv(g, s0, gray) && v < |g| && !Visited(s0, v) && g[v] != [] && s0.dfnTop < |g|
    requires forall u: nat :: Live(s0, u) ==> Reachable(g, u, v)
    ensures LoopOk(g, s0, Entered(s0, v), gray, v, 0)
  {
    hide Inv, Tables, StackOk, Edge, Reachable, OnStack, Visited, Live, Assigned, Sink, Entered, Grown;
    EnterNode(g, s0, v, gray);
    StartFacts(g, s0, gray, v);
    ReachRefl(g, v);
  }

  lemma StartFacts(g: Graph, s0: Search, gray: seq<nat>, v: nat)
    requires Inv(g, s0, gray) && v < |g| && !Visited(s0, v) && s0.dfnTop < |g|
    ensures |s0.nodes| == |s0.dfnStack| == |g|
    ensures InProgress(s0, Entered(s0, v), v)
    ensures PartBound(g, Entered(s0, v), v, s0.dfnTop, 0)
    ensures forall u: nat :: Visited(Entered(s0, v), u) && !Visited(s0, u) ==> u == v
  {
    hide Reachable, GrayOk, ReachOk, ClassOk, SinkOk, CallerOk, NoGap, Edge;
    LiveSlots(g, s0);
  }

  lemma LiveSlots(g: Graph, s: Search)
    requires Tables(g, s) && StackOk(g, s)
    ensures forall x: nat :: Live(s, x) ==> s.nodes[x].stack < s.dfnTop
  {
  }

  // ---- an edge of the loop -----------------------------------------------------------

  /** A call in progress before v is below v in every way. */
  lemma GrayBelow(g: Graph, s0: Search, s: Search, gray: seq<nat>, v: nat, z: nat)
    requires Inv(g, s0, gray) && Grown(s0, s) && z in gray
    ensures Visited(s0, z) && Live(s, z) && s.nodes[z] == s0.nodes[z]
    ensures s.nodes[z].dfn < s0.dfn && s.nodes[z].stack < s0.dfnTop
  {
    hide Reachable, ReachOk, ClassOk, SinkOk, CallerOk, NoGap, Edge;
  }

  /** While v is in progress every live node reaches it. */
  lemma LiveReaches(g: Graph, s0: Search, s: Search, gray: seq<nat>, v: nat, u: nat)
    requires Inv(g, s0, gray) && Inv(g, s, gray + [v]) && Grown(s0, s) && InProgress(s0, s, v) && Live(s, u)
    ensures Reachable(g, u, v)
  {
    hide Reachable, Tables, StackOk, GrayOk, Grown, ClassOk, SinkOk, CallerOk, NoGap, Inv, Visited, Live, OnStack;
    InvReach(g, s, gray + [v]);
    LiveVisited(s);
    if s.nodes[u].dfn > s.nodes[v].dfn {
      var z: nat :| OlderGray(g, s, gray + [v], u, z);
      InAppend(gray, v, z);
      if z != v {
        GrayBelow(g, s0, s, gray, v, z);
        ReachTrans(g, u, z, v);
      }
    }
  }

  lemma InvReach(g: Graph, s: Search, gray: seq<nat>)
    requires Inv(g, s, gray)
    ensures ReachOk(g, s, gray) && Tables(g, s) && StackOk(g, s) && GrayOk(g, s, gray)
    ensures |s.nodes| == |s.dfnStack| == |g|
  {
  }

  lemma ChildReach(g: Graph, s0: Search, s: Search, gray: seq<nat>, v: nat, w: nat)
    requires Inv(g, s0, gray) && Inv(g, s, gray + [v]) && Grown(s0, s) && InProgress(s0, s, v) && Edge(g, v, w)
    ensures forall u: nat :: Live(s, u) ==> Reachable(g, u, w)
  {
    hide *;
    forall u: nat | Live(s, u) ensures Reachable(g, u, w) {
      LiveReaches(g, s0, s, gray, v, u);
      ReachEdge(g, v, w);
      ReachTrans(g, u, v, w);
    }
  }

  function Combined(s: Search, v: nat, w: nat): Search
    requires v < |s.nodes| && w < |s.nodes|
  {
    if s.nodes[w].low < s.nodes[v].low then Lowered(s, v, s.nodes[w].low) else s
  }

  lemma OrderIs(g: Graph, s: Search, u: nat, v: nat)
    requires StackOk(g, s) && OnStack(s, u) && OnStack(s, v)
    ensures s.nodes[u].stack < s.nodes[v].stack <==> s.nodes[u].dfn < s.nodes[v].dfn
  {
  }

  lemma GrownTrans(s0: Search, s: Search, s1: Search)
    requires Grown(s0, s) && Grown(s, s1)
    ensures Grown(s0, s1)
    ensures forall u: nat :: Visited(s0, u) ==> Visited(s1, u)
    ensures forall u: nat :: Visited(s, u) ==> Visited(s1, u)
  {
  }

  /** A node that is not live when its call is over leaves low of v alone. */
  lemma BaseAfterChild(g: Graph, s0: Search, s: Search, s1: Search, gray: seq<nat>, v: nat, w: nat, k: nat)
    requires LoopBase(g, s0, s, gray, v, k) && k < |g[v]| && w == g[v][k] && !Visited(s, w)
    requires CallOk(g, s, s1, gray + [v], w)
    ensures LoopBase(g, s0, s1, gray, v, k + 1) && s1.nodes[v] == s.nodes[v]
  {
    hide Inv, Reachable, Edge;
    GrownTrans(s0, s, s1);
    EdgeAt(g, v, k);
    KeepProgress(g, s0, s, s1, gray, v);
    NewReachedTrans(g, s0, s, s1, v, w);
  }

  lemma KeepProgress(g: Graph, s0: Search, s: Search, s1: Search, gray: seq<nat>, v: nat)
    requires InProgress(s0, s, v) && Grown(s, s1) && Inv(g, s1, gray + [v])
    ensures InProgress(s0, s1, v) && s1.nodes[v] == s.nodes[v]
  {
    hide ReachOk, ClassOk, SinkOk, CallerOk, NoGap, GrayOk;
  }

  lemma NewReachedTrans(g: Graph, s0: Search, s: Search, s1: Search, v: nat, w: nat)
    requires NewReached(g, s0, s, v) && NewReached(g, s, s1, w) && Edge(g, v, w)
    ensures NewReached(g, s0, s1, v)
  {
    hide Reachable, Edge, Visited;
    forall u: nat | Visited(s1, u) && !Visited(s0, u) ensures Reachable(g, v, u) {
      if !Visited(s, u) {
        ReachEdge(g, v, w);
        ReachTrans(g, v, w, u);
      }
    }
  }

  lemma BaseLowered(g: Graph, s0: Search, s: Search, gray: seq<nat>, v: nat, w: nat, k: nat)
    requires LoopBase(g, s0, s, gray, v, k) && Live(s, w) && Edge(g, v, w) && s.nodes[w].low < s.nodes[v].low
    ensures LoopBase(g, s0, Lowered(s, v, s.nodes[w].low), gray, v, k)
  {
    hide Inv, Tables, StackOk, Reachable, Visited, Live, OnStack, Edge, Lowered, Grown, SeenTo, NewReached;
    ReachEdge(g, v, w);
    InvReach(g, s, gray + [v]);
    LowerInv(g, s, gray + [v], v, w);
    LiveVisited(s);
    LoweredIs(g, s, v, s.nodes[w].low);
    LoweredGrown(s0, s, v, s.nodes[w].low);
    SameVisited(g, s0, s, Lowered(s, v, s.nodes[w].low), v, k);
    LowAtMost(g, s, gray + [v]);
  }

  lemma SameVisited(g: Graph, s0: Search, s: Search, s1: Search, v: nat, k: nat)
    requires SeenTo(g, s, v, k) && NewReached(g, s0, s, v)
    requires forall u: nat :: Visited(s1, u) <==> Visited(s, u)
    ensures SeenTo(g, s1, v, k) && NewReached(g, s0, s1, v)
  {
    hide Reachable, Visited;
  }

  lemma LoweredGrown(s0: Search, s: Search, v: nat, l: nat)
    requires Grown(s0, s) && v < |s.nodes| && !Visited(s0, v)
    ensures Grown(s0, Lowered(s, v, l))
  {
  }

  /** The child w has been called: all edges that leave its part of the stack respect low of w. */
  lemma BoundChild(g: Graph, s0: Search, s: Search, s1: Search, s2: Search, gray: seq<nat>, v: nat, w: nat, k: nat)
    requires LoopOk(g, s0, s, gray, v, k) && k < |g[v]| && w == g[v][k] && !Visited(s, w)
    requires CallOk(g, s, s1, gray + [v], w) && |s2.nodes| == |s1.nodes|
    requires forall u: nat :: Live(s2, u) <==> Live(s1, u)
    requires forall u: nat :: u < |s1.nodes| ==> s2.nodes[u].stack == s1.nodes[u].stack && s2.nodes[u].dfn == s1.nodes[u].dfn
    requires v < |s1.nodes| && s2.nodes[v].low <= s1.nodes[v].low
    requires Live(s1, w) ==> s2.nodes[v].low <= s1.nodes[w].low
    ensures PartBound(g, s2, v, s0.dfnTop, k + 1)
  {
    hide Inv, Tables, StackOk, Visited, OnStack, Reachable, GrayOk, ReachOk, SeenTo, NewReached, Live, Edge, AmongFirst, Grown;
    var t := s0.dfnTop;
    InvReach(g, s1, gray + [v]);
    KeepProgress(g, s0, s, s1, gray, v);
    LiveVisited(s1);
    LiveVisited(s2);
    TopsGrow(s0, s, s1);
    forall x: nat, y: nat | Live(s2, x) && s2.nodes[x].stack >= t && Edge(g, x, y) && Live(s2, y) && s2.nodes[y].stack < t
      && (x == v ==> AmongFirst(g, v, k + 1, y))
      ensures Live(s2, v) && s2.nodes[v].low <= s2.nodes[y].dfn
    {
      if s1.nodes[x].stack < s.dfnTop {
        LiveBelow(g, s, s1, gray + [v], x);
        LiveBelow(g, s, s1, gray + [v], y);
        AmongEarlier(g, s, v, k, y);
      }
    }
  }

  lemma TopsGrow(s0: Search, s: Search, s1: Search)
    requires Grown(s0, s) && Grown(s, s1)
    ensures s0.dfnTop <= s.dfnTop <= s1.dfnTop
  {
  }

  /** A live node below the old top was live before. */
  lemma LiveBelow(g: Graph, s: Search, s1: Search, gray: seq<nat>, x: nat)
    requires Inv(g, s, gray) && Inv(g, s1, gray) && Grown(s, s1) && Live(s1, x) && s1.nodes[x].stack < s.dfnTop
    ensures Live(s, x) && Visited(s, x) && s.nodes[x] == s1.nodes[x]
  {
    hide ReachOk, ClassOk, SinkOk, CallerOk, NoGap, GrayOk;
    assert OnStack(s1, x);
    assert s.dfnStack[s1.nodes[x].stack] == x;
  }

  lemma AmongEarlier(g: Graph, s: Search, v: nat, k: nat, y: nat)
    requires v < |g| && k < |g[v]| && !Visited(s, g[v][k]) && Visited(s, y) 
    ensures AmongFirst(g, v, k + 1, y) ==> AmongFirst(g, v, k, y)
  {
    if AmongFirst(g, v, k + 1, y) {
      var j :| 0 <= j < k + 1 && g[v][j] == y;
      assert j < k && g[v][..k][j] == y;
    }
  }

  /** The node is new: call it, then lower v. */
  lemma AfterChild(g: Graph, s0: Search, s: Search, s1: Search, gray: seq<nat>, v: nat, w: nat, k: nat)
    requires LoopOk(g, s0, s, gray, v, k) && k < |g[v]| && w == g[v][k] && !Visited(s, w)
    requires CallOk(g, s, s1, gray + [v], w) && v < |s1.nodes| && w < |s1.nodes|
    ensures LoopOk(g, s0, Combined(s1, v, w), gray, v, k + 1)
  {
    hide Inv, Tables, StackOk, Visited, OnStack, Reachable, GrayOk, ReachOk, NewReached, Live, Edge, Grown, Lowered, PartBound;
    BaseAfterChild(g, s0, s, s1, gray, v, w, k);
    EdgeAt(g, v, k);
    InvReach(g, s1, gray + [v]);
    LowNotAbove(g, s, s1, gray, v, w);
    LoweredIs(g, s1, v, s1.nodes[w].low);
    if s1.nodes[w].low < s1.nodes[v].low {
      BaseLowered(g, s0, s1, gray, v, w, k + 1);
    }
    BoundChild(g, s0, s, s1, Combined(s1, v, w), gray, v, w, k);
  }

  lemma EdgeAt(g: Graph, v: nat, k: nat)
    requires v < |g| && k < |g[v]|
    ensures Edge(g, v, g[v][k])
  {
  }

  lemma LowNotAbove(g: Graph, s: Search, s1: Search, gray: seq<nat>, v: nat, w: nat)
    requires Inv(g, s, gray + [v]) && Live(s, v) && s.nodes[v].low <= s.nodes[v].dfn && CallOk(g, s, s1, gray + [v], w)
    ensures Live(s1, v) && Visited(s1, w) && (s1.nodes[w].low < s1.nodes[v].low ==> Live(s1, w))
  {
    hide ReachOk, ClassOk, SinkOk, CallerOk, NoGap, GrayOk, StackOk, LowBound;
  }

  function CombinedSeen(s: Search, v: nat, w: nat): Search
    requires v < |s.nodes| && w < |s.nodes|
  {
    if s.nodes[w].dfn < s.nodes[v].dfn && s.nodes[w].component == 0 then Combined(s, v, w) else s
  }

  /** The node was visited before. */
  lemma AfterSeen(g: Graph, s0: Search, s: Search, gray: seq<nat>, v: nat, w: nat, k: nat)
    requires LoopOk(g, s0, s, gray, v, k) && k < |g[v]| && w == g[v][k] && Visited(s, w)
    ensures v < |s.nodes| && w < |s.nodes|
    ensures LoopOk(g, s0, CombinedSeen(s, v, w), gray, v, k + 1)
  {
    hide Inv, Tables, StackOk, OnStack, Reachable, GrayOk, ReachOk, NewReached, Edge, Grown, Lowered, PartBound;
    EdgeAt(g, v, k);
    SeenNext(g, s, v, k);
    InvReach(g, s, gray + [v]);
    LoweredIs(g, s, v, s.nodes[w].low);
    if s.nodes[w].low < s.nodes[v].low && s.nodes[w].dfn < s.nodes[v].dfn && s.nodes[w].component == 0 {
      BaseLowered(g, s0, s, gray, v, w, k + 1);
    }
    BoundSeen(g, s0, s, CombinedSeen(s, v, w), gray, v, w, k);
  }

  lemma SeenNext(g: Graph, s: Search, v: nat, k: nat)
    requires SeenTo(g, s, v, k) && k < |g[v]| && Visited(s, g[v][k])
    ensures SeenTo(g, s, v, k + 1)
  {
  }

  lemma BoundSeen(g: Graph, s0: Search, s: Search, s2: Search, gray: seq<nat>, v: nat, w: nat, k: nat)
    requires LoopOk(g, s0, s, gray, v, k) && k < |g[v]| && w == g[v][k] && |s2.nodes| == |s.nodes|
    requires forall u: nat :: Live(s2, u) <==> Live(s, u)
    requires forall u: nat :: u < |s.nodes| ==> s2.nodes[u].stack == s.nodes[u].stack && s2.nodes[u].dfn == s.nodes[u].dfn
    requires s2.nodes[v].low <= s.nodes[v].low
    requires Live(s, w) && s.nodes[w].dfn < s.nodes[v].dfn ==> s2.nodes[v].low <= s.nodes[w].low
    ensures PartBound(g, s2, v, s0.dfnTop, k + 1)
  {
    hide Inv, Tables, StackOk, OnStack, Reachable, GrayOk, ReachOk, SeenTo, NewReached, Live, Edge, Grown, AmongFirst;
    var t := s0.dfnTop;
    InvReach(g, s, gray + [v]);
    LiveVisited(s);
    LiveVisited(s2);
    LowAtMost(g, s, gray + [v]);
    forall x: nat, y: nat | Live(s2, x) && s2.nodes[x].stack >= t && Edge(g, x, y) && Live(s2, y) && s2.nodes[y].stack < t
      && (x == v ==> AmongFirst(g, v, k + 1, y))
      ensures Live(s2, v) && s2.nodes[v].low <= s2.nodes[y].dfn
    {
      AmongLast(g, v, k, y);
      LiveOrder(g, s, gray + [v], y, v);
    }
  }

  lemma AmongLast(g: Graph, v: nat, k: nat, y: nat)
    requires v < |g| && k < |g[v]|
    ensures AmongFirst(g, v, k + 1, y) ==> AmongFirst(g, v, k, y) || y == g[v][k]
  {
    if AmongFirst(g, v, k + 1, y) && y != g[v][k] {
      var j :| 0 <= j < k + 1 && g[v][j] == y;
      assert g[v][..k][j] == y;
    }
  }

  lemma LowAtMost(g: Graph, s: Search, gray: seq<nat>)
    requires Inv(g, s, gray)
    ensures forall u: nat :: Live(s, u) ==> s.nodes[u].low <= s.nodes[u].dfn
  {
    hide Tables, StackOk, GrayOk, ClassOk, SinkOk, CallerOk, NoGap, Reachable, Visited;
    forall u: nat | Live(s, u) ensures u < |s.nodes| && s.nodes[u].low <= s.nodes[u].dfn {
      var w: nat :| LowWitness(g, s, u, w);
      LiveVisited(s);
    }
  }

  lemma LiveOrder(g: Graph, s: Search, gray: seq<nat>, u: nat, v: nat)
    requires Inv(g, s, gray) && Live(s, u) && Live(s, v)
    ensures s.nodes[u].stack < s.nodes[v].stack <==> s.nodes[u].dfn < s.nodes[v].dfn
  {
    hide Tables, GrayOk, ClassOk, SinkOk, CallerOk, NoGap, ReachOk, OnStack;
    OrderIs(g, s, u, v);
  }

  // ---- the end of the call -----------------------------------------------------------

  /** v keeps a lower low: an older call in progress will pop it. */
  lemma FinishLive(g: Graph, s0: Search, s: Search, gray: seq<nat>, v: nat)
    requires v < |g| && g[v] != [] && LoopOk(g, s0, s, gray, v, |g[v]|) && s.nodes[v].low < s.nodes[v].dfn
    ensures CallOk(g, s0, s, gray, v)
  {
    hide Inv, Tables, StackOk, Reachable, ReachOk, NewReached, Edge, Grown, PartBound, OnStack, LowBound, SeenTo;
    EndGray(g, s, gray, v);
    EndReach(g, s0, s, gray, v);
    EndBound(g, s, v, s0.dfnTop);
    LoopInv(g, s0, s, gray, v);
    EndCallers(g, s, gray, v);
    InvSwap(g, s, gray + [v], gray);
  }

  lemma EndCallers(g: Graph, s: Search, gray: seq<nat>, v: nat)
    requires CallerOk(g, s, gray + [v])
    ensures CallerOk(g, s, gray)
  {
    hide Live, OnStack, Sink, Edge;
    forall b: nat | OnStack(s, b) && Sink(g, b) ensures Lowest(s, b) || exists r: nat :: HasCaller(g, s, gray, b, r) {
      if !Lowest(s, b) {
        var r: nat :| HasCaller(g, s, gray + [v], b, r);
        forall z: nat | z in gray ensures z in gray + [v] { InAppend(gray, v, z); }
        assert HasCaller(g, s, gray, b, r);
      }
    }
  }

  lemma InvSwap(g: Graph, s: Search, gray: seq<nat>, gray1: seq<nat>)
    requires Inv(g, s, gray) && GrayOk(g, s, gray1) && ReachOk(g, s, gray1) && CallerOk(g, s, gray1)
    ensures Inv(g, s, gray1)
  {
    hide Tables, StackOk, GrayOk, ReachOk, ClassOk, SinkOk, CallerOk, NoGap;
  }

  lemma EndGray(g: Graph, s: Search, gray: seq<nat>, v: nat)
    requires Inv(g, s, gray + [v]) && v < |g| && SeenTo(g, s, v, |g[v]|)
    ensures GrayOk(g, s, gray)
  {
    hide Tables, StackOk, ReachOk, ClassOk, SinkOk, CallerOk, NoGap, Visited, Live, Assigned;
    forall u: nat, y: nat | Visited(s, u) && u !in gray && Edge(g, u, y) ensures Visited(s, y) {
      InAppend(gray, v, u);
      if u == v {
        var j :| 0 <= j < |g[v]| && g[v][j] == y;
      }
    }
    forall i | 0 <= i < |gray| ensures Live(s, gray[i]) { assert (gray + [v])[i] == gray[i]; }
  }

  lemma EndReach(g: Graph, s0: Search, s: Search, gray: seq<nat>, v: nat)
    requires Inv(g, s0, gray) && Inv(g, s, gray + [v]) && Grown(s0, s) && InProgress(s0, s, v) && s.nodes[v].low < s.nodes[v].dfn
    ensures ReachOk(g, s, gray)
  {
    hide Inv, Tables, StackOk, GrayOk, ClassOk, SinkOk, CallerOk, NoGap, Visited, Live, Reachable, OlderGray, LowWitness;
    InvReach(g, s, gray + [v]);
    LiveVisited(s);
    forall u: nat | Live(s, u) ensures exists z: nat :: OlderGray(g, s, gray, u, z) {
      var z: nat :| OlderGray(g, s, gray + [v], u, z);
      if z == v {
        var w: nat :| LowWitness(g, s, v, w);
        WitnessLive(g, s, v, w);
        var y: nat :| OlderGray(g, s, gray + [v], w, y);
        OlderThrough(g, s, gray, u, v, w, y);
      } else {
        StillOlder(g, s, gray, u, v, z);
      }
    }
  }

  lemma WitnessLive(g: Graph, s: Search, u: nat, w: nat)
    requires LowWitness(g, s, u, w)
    ensures Live(s, w)
  {
  }

  lemma OlderThrough(g: Graph, s: Search, gray: seq<nat>, u: nat, v: nat, w: nat, y: nat)
    requires OlderGray(g, s, gray + [v], u, v) && LowWitness(g, s, v, w) && OlderGray(g, s, gray + [v], w, y)
    requires v < |s.nodes| && s.nodes[v].low < s.nodes[v].dfn
    ensures OlderGray(g, s, gray, u, y)
  {
    hide Reachable;
    InAppend(gray, v, y);
    ReachTrans(g, u, v, w);
    ReachTrans(g, u, w, y);
  }

  lemma StillOlder(g: Graph, s: Search, gray: seq<nat>, u: nat, v: nat, z: nat)
    requires OlderGray(g, s, gray + [v], u, z) && z != v
    ensures OlderGray(g, s, gray, u, z)
  {
    hide Reachable;
    InAppend(gray, v, z);
  }

  lemma EndBound(g: Graph, s: Search, v: nat, t: nat)
    requires v < |g| && PartBound(g, s, v, t, |g[v]|)
    ensures LowBound(g, s, v, t)
  {
    hide Live;
    LiveVisited(s);
    assert g[v][..|g[v]|] == g[v];
  }

  // ---- a component is complete ---------------------------------------------------------

  predicate InRegion(s: Search, u: nat, t: nat) {
    Live(s, u) && s.nodes[u].stack >= t
  }

  /** Nothing leads out of the region above v except into finished components. */
  lemma NoEscape(g: Graph, s0: Search, s: Search, gray: seq<nat>, v: nat, x: nat, y: nat)
    requires v < |g| && LoopOk(g, s0, s, gray, v, |g[v]|) && s.nodes[v].low == s.nodes[v].dfn
    requires InRegion(s, x, s0.dfnTop) && Edge(g, x, y)
    ensures InRegion(s, y, s0.dfnTop) || Assigned(s, y)
  {
    hide Inv, Tables, StackOk, Reachable, ReachOk, ClassOk, SinkOk, CallerOk, NoGap, NewReached, Grown, Edge, OnStack, SeenTo, PartBound;
    EndGray(g, s, gray, v);
    EndBound(g, s, v, s0.dfnTop);
    InvReach(g, s, gray + [v]);
    NotGray(g, s0, s, gray, x);
    LiveOrV(g, s, gray + [v], y, v);
  }

  lemma NotGray(g: Graph, s0: Search, s: Search, gray: seq<nat>, x: nat)
    requires Inv(g, s0, gray) && Grown(s0, s) && InRegion(s, x, s0.dfnTop)
    ensures x !in gray
  {
    hide Inv, Grown;
    if x in gray { GrayBelow(g, s0, s, gray, x, x); }
  }

  lemma LiveOrV(g: Graph, s: Search, gray: seq<nat>, y: nat, v: nat)
    requires Inv(g, s, gray) && Live(s, v)
    ensures Visited(s, y) ==> Live(s, y) || Assigned(s, y)
    ensures Live(s, y) ==> (s.nodes[y].stack < s.nodes[v].stack <==> s.nodes[y].dfn < s.nodes[v].dfn)
  {
    hide Inv, Tables, StackOk;
    if Live(s, y) { LiveOrder(g, s, gray, y, v); }
  }

  ghost predicate Sealed(g: Graph, s: Search, t: nat) {
    && (forall x: nat, y: nat :: InRegion(s, x, t) && Edge(g, x, y) ==> InRegion(s, y, t) || Assigned(s, y))
    && (forall x: nat, y: nat :: Assigned(s, x) && Edge(g, x, y) ==> Assigned(s, y))
  }

  lemma AssignedReach(g: Graph, s: Search, t: nat, x: nat, y: nat)
    requires Sealed(g, s, t) && Assigned(s, x) && Reachable(g, x, y)
    ensures Assigned(s, y)
  {
    hide Edge, Reachable;
    var r := set u: nat | u < |s.nodes| && Assigned(s, u);
    ClosedReach(g, x, y, r);
  }

  lemma IsSealed(g: Graph, s0: Search, s: Search, gray: seq<nat>, v: nat)
    requires v < |g| && LoopOk(g, s0, s, gray, v, |g[v]|) && s.nodes[v].low == s.nodes[v].dfn
    ensures Sealed(g, s, s0.dfnTop)
  {
    hide LoopOk, LoopBase, Inv, InRegion, Edge, Assigned;
    forall x: nat, y: nat | InRegion(s, x, s0.dfnTop) && Edge(g, x, y) ensures InRegion(s, y, s0.dfnTop) || Assigned(s, y) {
      NoEscape(g, s0, s, gray, v, x, y);
    }
    LoopGray(g, s0, s, gray, v);
  }

  lemma LoopGray(g: Graph, s0: Search, s: Search, gray: seq<nat>, v: nat)
    requires v < |g| && LoopOk(g, s0, s, gray, v, |g[v]|)
    ensures forall x: nat, y: nat :: Assigned(s, x) && Edge(g, x, y) ==> Assigned(s, y)
  {
    hide Edge, Assigned, Tables, StackOk, ReachOk, ClassOk, SinkOk, CallerOk, NoGap, PartBound, Grown, NewReached, SeenTo;
  }

  /** The region is one class: every member reaches v and v reaches every member. */
  lemma RegionMutual(g: Graph, s0: Search, s: Search, gray: seq<nat>, v: nat, x: nat)
    requires v < |g| && LoopOk(g, s0, s, gray, v, |g[v]|) && InRegion(s, x, s0.dfnTop)
    ensures Mutual(g, x, v)
  {
    hide Inv, Tables, StackOk, GrayOk, ClassOk, SinkOk, CallerOk, NoGap, Reachable, Grown, SeenTo, NewReached, PartBound, Sealed, OnStack;
    InvReach(g, s, gray + [v]);
    LiveOrV(g, s, gray + [v], x, v);
    LiveReaches(g, s0, s, gray, v, x);
  }

  // ---- popping a component -------------------------------------------------------------

  predicate AtOrAbove(s: Search, u: nat, t: nat) {
    OnStack(s, u) && s.nodes[u].stack >= t
  }

  /** Slots from lo up have received the new component number. */
  function Popping(s: Search, lo: nat): Search {
    s.(nodes := seq(|s.nodes|, u requires 0 <= u < |s.nodes| =>
         if AtOrAbove(s, u, lo) then s.nodes[u].(component := s.component) else s.nodes[u]))
  }

  function Popped(s: Search, t: nat): Search {
    Popping(s, t).(dfnTop := t, component := s.component + 1)
  }

  lemma PoppingStep(g: Graph, s: Search, j: nat)
    requires Tables(g, s) && StackOk(g, s) && j < s.dfnTop
    ensures s.dfnStack[j] < |s.nodes|
    ensures Popping(s, j).nodes == Popping(s, j + 1).nodes[s.dfnStack[j] := Popping(s, j + 1).nodes[s.dfnStack[j]].(component := s.component)]
    ensures Popping(s, s.dfnTop).nodes == s.nodes
  {
    assert Visited(s, s.dfnStack[j]);
  }

  lemma PoppedIs(g: Graph, s: Search, t: nat)
    requires Tables(g, s) && StackOk(g, s) && t <= s.dfnTop
    ensures |s.nodes| == |g|
    ensures var s1 := Popped(s, t);
      && (forall u: nat :: Visited(s1, u) <==> Visited(s, u))
      && (forall u: nat :: Live(s1, u) <==> Live(s, u) && !InRegion(s, u, t))
      && (forall u: nat :: Assigned(s1, u) <==> Assigned(s, u) || InRegion(s, u, t))
      && (forall u: nat :: u < |g| ==> s1.nodes[u] == s.nodes[u].(component := if AtOrAbove(s, u, t) then s.component else s.nodes[u].component))
      && Tables(g, s1)
  {
  }

  lemma PoppedStack(g: Graph, s: Search, t: nat)
    requires Tables(g, s) && StackOk(g, s) && t <= s.dfnTop
    ensures StackOk(g, Popped(s, t))
    ensures forall u: nat :: OnStack(Popped(s, t), u) <==> OnStack(s, u) && !AtOrAbove(s, u, t)
  {
  }

  lemma PopInv(g: Graph, s0: Search, s: Search, gray: seq<nat>, v: nat)
    requires v < |g| && g[v] != [] && LoopOk(g, s0, s, gray, v, |g[v]|) && s.nodes[v].low == s.nodes[v].dfn
    ensures CallOk(g, s0, Popped(s, s0.dfnTop), gray, v)
  {
    hide Inv, Tables, StackOk, Reachable, ReachOk, GrayOk, ClassOk, SinkOk, CallerOk, NoGap, NewReached, Grown, Edge, OnStack, SeenTo, PartBound, Live, Popped, LowBound, InRegion, AtOrAbove;
    var t, s1 := s0.dfnTop, Popped(s, s0.dfnTop);
    InvReach(g, s, gray + [v]);
    IsSealed(g, s0, s, gray, v);
    GrownTop(s0, s);
    PoppedIs(g, s, t);
    PoppedStack(g, s, t);
    EndGray(g, s, gray, v);
    PopGray(g, s0, s, gray, t);
    PopReach(g, s0, s, gray, v);
    PopClass(g, s0, s, gray, v);
    PopSinks(g, s0, s, gray, v);
    PopCallers(g, s0, s, gray, v);
    PopNumbers(g, s0, s, gray, v);
    PopGrown(g, s0, s, gray, v);
    PopRest(g, s0, s, gray, v);
    InvBuild(g, s1, gray);
  }

  lemma GrownTop(s0: Search, s: Search)
    requires Grown(s0, s)
    ensures s0.dfnTop <= s.dfnTop
  {
  }

  lemma InvBuild(g: Graph, s: Search, gray: seq<nat>)
    requires Tables(g, s) && StackOk(g, s) && GrayOk(g, s, gray) && ReachOk(g, s, gray) && ClassOk(g, s) && SinkOk(g, s)
    requires CallerOk(g, s, gray) && NoGap(g, s)
    ensures Inv(g, s, gray)
  {
  }

  lemma PopGray(g: Graph, s0: Search, s: Search, gray: seq<nat>, t: nat)
    requires Tables(g, s) && StackOk(g, s) && GrayOk(g, s, gray) && t == s0.dfnTop <= s.dfnTop && Sealed(g, s, t)
    requires Inv(g, s0, gray) && Grown(s0, s)
    ensures GrayOk(g, Popped(s, t), gray)
  {
    hide Inv, Tables, StackOk, Edge, Popped, Grown, InRegion, Visited, Assigned, Live;
    PoppedIs(g, s, t);
    forall i | 0 <= i < |gray| ensures Live(Popped(s, t), gray[i]) {
      GrayBelow(g, s0, s, gray, gray[i], gray[i]);
      RegionIs(s, gray[i], t);
    }
  }

  lemma RegionIs(s: Search, u: nat, t: nat)
    ensures InRegion(s, u, t) <==> Live(s, u) && s.nodes[u].stack >= t
  {
  }

  lemma PopReach(g: Graph, s0: Search, s: Search, gray: seq<nat>, v: nat)
    requires v < |g| && LoopOk(g, s0, s, gray, v, |g[v]|) && s0.dfnTop <= s.dfnTop
    ensures ReachOk(g, Popped(s, s0.dfnTop), gray)
  {
    hide Inv, Tables, StackOk, GrayOk, ClassOk, SinkOk, CallerOk, NoGap, Visited, Live, OnStack, Reachable, OlderGray, LowWitness, Popped, Grown, SeenTo, PartBound, NewReached, InRegion, AtOrAbove;
    var t, s1 := s0.dfnTop, Popped(s, s0.dfnTop);
    InvReach(g, s, gray + [v]);
    PoppedIs(g, s, t);
    LiveVisited(s);
    forall u: nat | Live(s1, u)
      ensures (exists z: nat :: OlderGray(g, s1, gray, u, z)) && exists w: nat :: LowWitness(g, s1, u, w)
    {
      RegionIs(s, u, t);
      LiveOrV(g, s, gray + [v], u, v);
      var z: nat :| OlderGray(g, s, gray + [v], u, z);
      BelowOlder(g, s, gray, u, v, z);
      CarryOlder(g, s, s1, gray, u, z);
      var w: nat :| LowWitness(g, s, u, w);
      WitnessLive(g, s, u, w);
      WitnessOrder(g, s, u, w);
      RegionIs(s, w, t);
      LiveOrV(g, s, gray + [v], w, v);
      CarryWitnessAt(g, s, s1, u, w);
    }
  }

  lemma BelowOlder(g: Graph, s: Search, gray: seq<nat>, u: nat, v: nat, z: nat)
    requires OlderGray(g, s, gray + [v], u, z) && Visited(s, u) && Visited(s, v) && s.nodes[u].dfn < s.nodes[v].dfn
    ensures OlderGray(g, s, gray, u, z)
  {
    hide Reachable;
    InAppend(gray, v, z);
  }

  lemma WitnessOrder(g: Graph, s: Search, u: nat, w: nat)
    requires LowWitness(g, s, u, w)
    ensures Live(s, u) && Live(s, w) && s.nodes[w].dfn <= s.nodes[u].dfn
  {
  }

  lemma CarryWitnessAt(g: Graph, s: Search, s1: Search, u: nat, w: nat)
    requires LowWitness(g, s, u, w) && |s1.nodes| == |s.nodes| && Live(s1, u) && Live(s1, w)
    requires u < |s.nodes| && w < |s.nodes| && s1.nodes[u].low == s.nodes[u].low && s1.nodes[u].dfn == s.nodes[u].dfn && s1.nodes[w].dfn == s.nodes[w].dfn
    ensures LowWitness(g, s1, u, w)
  {
    hide Reachable, Live;
  }

  lemma PopClass(g: Graph, s0: Search, s: Search, gray: seq<nat>, v: nat)
    requires v < |g| && LoopOk(g, s0, s, gray, v, |g[v]|) && s0.dfnTop <= s.dfnTop && Sealed(g, s, s0.dfnTop)
    ensures ClassOk(g, Popped(s, s0.dfnTop))
  {
    hide Inv, Tables, StackOk, GrayOk, SinkOk, CallerOk, NoGap, Live, Visited, OnStack, Reachable, Popped, Grown, SeenTo, PartBound, NewReached, InRegion, AtOrAbove, Sink, ReachOk, Assigned, Mutual, LoopOk, LoopBase;
    var t, s1 := s0.dfnTop, Popped(s, s0.dfnTop);
    LoopInv(g, s0, s, gray, v);
    PoppedIs(g, s, t);
    AssignedVisited(s1);
    forall x: nat, y: nat | Assigned(s1, x) && Assigned(s1, y) && !Sink(g, x) && !Sink(g, y)
      ensures s1.nodes[x].component == s1.nodes[y].component <==> Mutual(g, x, y)
      ensures Reachable(g, x, y) ==> s1.nodes[y].component <= s1.nodes[x].component
    {
      NonSinkPlace(g, s, x, t);
      NonSinkPlace(g, s, y, t);
      if InRegion(s, x, t) {
        PopPair(g, s0, s, gray, v, x, y);
      } else if InRegion(s, y, t) {
        PopPair(g, s0, s, gray, v, y, x);
        MutualSym(g, x, y);
        if Reachable(g, x, y) { AssignedReach(g, s, t, x, y); }
      }
    }
  }

  lemma LoopInv(g: Graph, s0: Search, s: Search, gray: seq<nat>, v: nat)
    requires v < |g| && LoopOk(g, s0, s, gray, v, |g[v]|)
    ensures Inv(g, s, gray + [v]) && Tables(g, s) && StackOk(g, s) && ClassOk(g, s) && SinkOk(g, s) && |s.nodes| == |g|
    ensures Live(s, v) && s.nodes[v].stack == s0.dfnTop && !Visited(s0, v) && s.nodes[v].dfn == s0.dfn
    ensures CallerOk(g, s, gray + [v]) && NoGap(g, s)
  {
    hide Tables, StackOk, GrayOk, ReachOk, ClassOk, SinkOk, CallerOk, NoGap, Grown, SeenTo, PartBound, NewReached;
    InvReach(g, s, gray + [v]);
  }

  lemma MutualSym(g: Graph, x: nat, y: nat)
    ensures Mutual(g, x, y) <==> Mutual(g, y, x)
  {
  }

  /** Where a node with edges stands when the region from t up is popped. */
  lemma NonSinkPlace(g: Graph, s: Search, x: nat, t: nat)
    requires StackOk(g, s) && Tables(g, s) && !Sink(g, x)
    ensures InRegion(s, x, t) <==> AtOrAbove(s, x, t)
    ensures Assigned(s, x) ==> s.nodes[x].component < s.component && !InRegion(s, x, t) && !AtOrAbove(s, x, t)
  {
  }

  lemma PopPair(g: Graph, s0: Search, s: Search, gray: seq<nat>, v: nat, x: nat, y: nat)
    requires v < |g| && LoopOk(g, s0, s, gray, v, |g[v]|) && Sealed(g, s, s0.dfnTop)
    requires InRegion(s, x, s0.dfnTop)
    ensures InRegion(s, y, s0.dfnTop) ==> Mutual(g, x, y)
    ensures Assigned(s, y) ==> !Mutual(g, x, y)
  {
    hide LoopOk, LoopBase, Sealed, Reachable;
    if InRegion(s, y, s0.dfnTop) {
      RegionMutual(g, s0, s, gray, v, x);
      RegionMutual(g, s0, s, gray, v, y);
      ReachTrans(g, x, v, y);
      ReachTrans(g, y, v, x);
    } else if Assigned(s, y) && Mutual(g, x, y) {
      AssignedReach(g, s, s0.dfnTop, y, x);
    }
  }

  lemma PopSinks(g: Graph, s0: Search, s: Search, gray: seq<nat>, v: nat)
    requires v < |g| && g[v] != [] && LoopOk(g, s0, s, gray, v, |g[v]|) && s0.dfnTop <= s.dfnTop
    ensures SinkOk(g, Popped(s, s0.dfnTop))
  {
    hide Inv, Tables, StackOk, GrayOk, ClassOk, Live, Visited, OnStack, Popped, InRegion, AtOrAbove, Assigned, Shares, LoopOk, LoopBase;
    var t, s1 := s0.dfnTop, Popped(s, s0.dfnTop);
    LoopInv(g, s0, s, gray, v);
    PoppedIs(g, s, t);
    PoppedStack(g, s, t);
    AssignedVisited(s1);
    AssignedVisited(s);
    RegionIs(s, v, t);
    ComponentsBelow(g, s);
    PlaceFacts(g, s, t);
    forall u: nat | Assigned(s1, u) && Sink(g, u) && !OnStack(s1, u) ensures exists r: nat :: Shares(g, s1, u, r) {
      if AtOrAbove(s, u, t) {
        var r := PoppedCaller(g, s, gray, v, u, t);
        RegionIs(s, r, t);
        SharesIs(g, s1, u, r);
      } else {
        var r: nat :| Shares(g, s, u, r);
        SharesKept(g, s, u, r, t);
      }
    }
  }

  /** An edge-free node that is popped with v has a caller that is popped with it. */
  lemma PoppedCaller(g: Graph, s: Search, gray: seq<nat>, v: nat, b: nat, t: nat) returns (r: nat)
    requires StackOk(g, s) && CallerOk(g, s, gray + [v]) && Live(s, v) && s.nodes[v].stack == t && Sink(g, b) && AtOrAbove(s, b, t)
    ensures InRegion(s, r, t) && AtOrAbove(s, r, t) && Edge(g, r, b)
  {
    hide Edge;
    assert OnStack(s, v) && s.nodes[b].stack > t;
    r :| HasCaller(g, s, gray + [v], b, r);
    InAppend(gray, v, v);
  }

  lemma PopCallers(g: Graph, s0: Search, s: Search, gray: seq<nat>, v: nat)
    requires v < |g| && LoopOk(g, s0, s, gray, v, |g[v]|) && s0.dfnTop <= s.dfnTop
    ensures CallerOk(g, Popped(s, s0.dfnTop), gray)
  {
    hide Inv, Tables, StackOk, Live, Visited, OnStack, Popped, InRegion, Assigned, LoopOk, LoopBase, HasCaller, Lowest, CallerOk, NoGap, SinkOk, ClassOk;
    var t, s1 := s0.dfnTop, Popped(s, s0.dfnTop);
    LoopInv(g, s0, s, gray, v);
    PoppedIs(g, s, t);
    PoppedStack(g, s, t);
    TopOf(s, t);
    EndCallers(g, s, gray, v);
    LiveVisited(s);
    forall b: nat | OnStack(s1, b) && Sink(g, b) ensures Lowest(s1, b) || exists r: nat :: HasCaller(g, s1, gray, b, r) {
      StackedCaller(g, s, gray, b);
      if Lowest(s, b) {
        LowestFewer(s, s1, b);
      } else {
        var r: nat :| HasCaller(g, s, gray, b, r);
        CallerFewer(g, s, s1, gray, b, r, t);
      }
    }
    CallerBuilt(g, s1, gray);
  }

  lemma StackedCaller(g: Graph, s: Search, gray: seq<nat>, b: nat)
    requires CallerOk(g, s, gray) && OnStack(s, b) && Sink(g, b)
    ensures Lowest(s, b) || exists r: nat :: HasCaller(g, s, gray, b, r)
  {
    hide OnStack, Sink, HasCaller, Lowest;
  }

  lemma CallerBuilt(g: Graph, s: Search, gray: seq<nat>)
    requires forall b: nat :: OnStack(s, b) && Sink(g, b) ==> Lowest(s, b) || exists r: nat :: HasCaller(g, s, gray, b, r)
    ensures CallerOk(g, s, gray)
  {
    hide OnStack, Sink, HasCaller, Lowest;
  }

  lemma LowestFewer(s: Search, s1: Search, b: nat)
    requires Lowest(s, b) && |s1.nodes| == |s.nodes| && forall u: nat :: Live(s1, u) ==> Live(s, u) && u < |s.nodes|
    requires forall u: nat :: u < |s.nodes| ==> s1.nodes[u].stack == s.nodes[u].stack
    ensures Lowest(s1, b)
  {
    hide Live;
  }

  lemma CallerFewer(g: Graph, s: Search, s1: Search, gray: seq<nat>, b: nat, r: nat, t: nat)
    requires HasCaller(g, s, gray, b, r) && |s1.nodes| == |s.nodes| && OnStack(s, b) && !AtOrAbove(s, b, t)
    requires forall u: nat :: Live(s1, u) <==> Live(s, u) && !InRegion(s, u, t)
    requires forall u: nat :: u < |s.nodes| ==> s1.nodes[u].stack == s.nodes[u].stack
    ensures HasCaller(g, s1, gray, b, r)
  {
    hide Live, Edge, OnStack;
    LiveVisited(s);
  }

  lemma PopNumbers(g: Graph, s0: Search, s: Search, gray: seq<nat>, v: nat)
    requires v < |g| && g[v] != [] && LoopOk(g, s0, s, gray, v, |g[v]|) && s0.dfnTop <= s.dfnTop
    ensures NoGap(g, Popped(s, s0.dfnTop))
  {
    hide Inv, Tables, StackOk, Live, Visited, OnStack, Popped, InRegion, Assigned, LoopOk, LoopBase, CallerOk, NoGap, SinkOk, ClassOk, AtOrAbove, Sink;
    var t, s1 := s0.dfnTop, Popped(s, s0.dfnTop);
    LoopInv(g, s0, s, gray, v);
    PoppedIs(g, s, t);
    PoppedStack(g, s, t);
    PoppedCounter(s, t);
    TopOf(s, t);
    RegionIs(s, v, t);
    LiveVisited(s);
    AssignedVisited(s);
    PlaceFacts(g, s, t);
    forall u: nat | Assigned(s, u) && AtOrAbove(s, u, t) ensures Sink(g, u) { if !Sink(g, u) { NonSinkPlace(g, s, u, t); } }
    NumbersMore(g, s, s1, v);
  }

  lemma PoppedCounter(s: Search, t: nat)
    ensures Popped(s, t).component == s.component + 1
  {
  }

  lemma ComponentsBelow(g: Graph, s: Search)
    requires Tables(g, s)
    ensures forall u: nat :: u < |s.nodes| ==> s.nodes[u].component < s.component
  {
  }

  lemma PlaceFacts(g: Graph, s: Search, t: nat)
    requires StackOk(g, s)
    ensures forall u: nat :: AtOrAbove(s, u, t) ==> OnStack(s, u)
    ensures forall u: nat :: InRegion(s, u, t) ==> AtOrAbove(s, u, t) && !Sink(g, u)
  {
  }

  lemma SharesIs(g: Graph, s: Search, u: nat, r: nat)
    requires Assigned(s, u) && Assigned(s, r) && Edge(g, r, u) && s.nodes[r].component == s.nodes[u].component
    ensures Shares(g, s, u, r)
  {
  }

  lemma SharesKept(g: Graph, s: Search, u: nat, r: nat, t: nat)
    requires Tables(g, s) && StackOk(g, s) && Shares(g, s, u, r) && t <= s.dfnTop && !AtOrAbove(s, u, t)
    ensures Shares(g, Popped(s, t), u, r)
  {
    hide Tables, StackOk, Popped, AtOrAbove, InRegion, Visited;
    AssignedVisited(s);
    PoppedIs(g, s, t);
    NonSinkPlace(g, s, r, t);
  }

  lemma PopGrown(g: Graph, s0: Search, s: Search, gray: seq<nat>, v: nat)
    requires v < |g| && LoopOk(g, s0, s, gray, v, |g[v]|) && s0.dfnTop <= s.dfnTop
    ensures Grown(s0, Popped(s, s0.dfnTop))
  {
    hide Inv, Tables, StackOk, GrayOk, ClassOk, SinkOk, CallerOk, NoGap, ReachOk, Live, OnStack, Popped, InRegion, SeenTo, PartBound, NewReached;
    var t := s0.dfnTop;
    LoopInv(g, s0, s, gray, v);
    PoppedIs(g, s, t);
    forall u: nat | Visited(s0, u) ensures Popped(s, t).nodes[u] == s0.nodes[u] {
      OldBelow(g, s0, s, gray, v, u);
    }
    assert Popped(s, t).dfnStack == s.dfnStack && Popped(s, t).dfn == s.dfn && Popped(s, t).dfnTop == t by { TopOf(s, t); }
  }

  lemma TopOf(s: Search, t: nat)
    ensures Popped(s, t).dfnStack == s.dfnStack && Popped(s, t).dfn == s.dfn && Popped(s, t).dfnTop == t && |Popped(s, t).nodes| == |s.nodes|
  {
  }

  lemma OldBelow(g: Graph, s0: Search, s: Search, gray: seq<nat>, v: nat, u: nat)
    requires v < |g| && LoopOk(g, s0, s, gray, v, |g[v]|) && Visited(s0, u)
    ensures !AtOrAbove(s, u, s0.dfnTop)
    ensures Visited(s, u) && s.nodes[u] == s0.nodes[u] && u < |g|
  {
    hide Inv, GrayOk, ClassOk, SinkOk, CallerOk, NoGap, ReachOk, SeenTo, PartBound, NewReached;
    InvReach(g, s0, gray);
    InvReach(g, s, gray + [v]);
  }

  lemma PopRest(g: Graph, s0: Search, s: Search, gray: seq<nat>, v: nat)
    requires v < |g| && g[v] != [] && LoopOk(g, s0, s, gray, v, |g[v]|) && s.nodes[v].low == s.nodes[v].dfn && s0.dfnTop <= s.dfnTop
    ensures var s1 := Popped(s, s0.dfnTop);
      Visited(s1, v) && !Live(s1, v) && NewReached(g, s0, s1, v) && LowBound(g, s1, v, s0.dfnTop) && s1.nodes[v].dfn == s0.dfn
      && s1.nodes[v].low == s1.nodes[v].dfn && s1.dfnTop == s0.dfnTop
  {
    hide Inv, Tables, StackOk, GrayOk, ClassOk, SinkOk, CallerOk, NoGap, ReachOk, Live, Visited, OnStack, Popped, Edge, Reachable, SeenTo, PartBound, Grown;
    LoopInv(g, s0, s, gray, v);
    PoppedIs(g, s, s0.dfnTop);
    TopOf(s, s0.dfnTop);
    LiveVisited(s);
    LiveVisited(Popped(s, s0.dfnTop));
  }
}
