/** Invalidation in the incremental call graph (XSB/emu/call_graph_xsb.c, invalidate_call and
    dfs_outedges): an iterative depth first search with one hash iterator per frame. */
module Invalidate {
  import opened Reach

  // ---- the part of the graph that an invalidation goes through -----------------------------

  function Kept(xs: seq<nat>, deleted: seq<bool>): (r: seq<nat>) {
    if xs == [] then []
    else (if xs[0] < |deleted| && deleted[xs[0]] then [] else [xs[0]]) + Kept(xs[1..], deleted)
  }

  lemma {:induction false} KeptIn(xs: seq<nat>, deleted: seq<bool>, x: nat)
    ensures x in Kept(xs, deleted) <==> x in xs && !(x < |deleted| && deleted[x])
  {
    if xs != [] {
      KeptIn(xs[1..], deleted, x);
      assert xs == [xs[0]] + xs[1..];
    }
  }

  /** The edges to nodes that are not marked deleted. */
  function Open(g: Graph, deleted: seq<bool>): (h: Graph)
    ensures |h| == |g|
  {
    seq(|g|, u requires 0 <= u < |g| => Kept(g[u], deleted))
  }

  lemma OpenEdge(g: Graph, deleted: seq<bool>, u: nat, v: nat)
    ensures Edge(Open(g, deleted), u, v) <==> Edge(g, u, v) && !(v < |deleted| && deleted[v])
  {
    if u < |g| { KeptIn(g[u], deleted, v); }
  }

  predicate NoDuplicates(xs: seq<nat>) {
    forall i, j :: 0 <= i < j < |xs| ==> xs[i] != xs[j]
  }

  predicate Simple(g: Graph) {
    forall u :: 0 <= u < |g| ==> NoDuplicates(g[u])
  }

  /** When everything that depends on a deleted node is deleted as well, the nodes passed are just the
      reachable ones that were valid. */
  lemma ClosedOpen(g: Graph, deleted: seq<bool>, start: nat, u: nat)
    requires Closed(g) && |deleted| == |g| && start < |g| && !deleted[start]
    requires forall a: nat, b: nat :: a < |g| && deleted[a] && Edge(g, a, b) ==> b < |g| && deleted[b]
    ensures Reachable(Open(g, deleted), start, u) <==> Reachable(g, start, u) && u < |g| && !deleted[u]
  {
    var h := Open(g, deleted);
    if Reachable(h, start, u) {
      OpenPath(g, deleted, start, u);
      ReachBound(g, start, u);
      var s := set x: nat | x < |g| && !deleted[x];
      forall a: nat, b: nat | a in s && Edge(h, a, b) ensures b in s { OpenEdge(g, deleted, a, b); EdgeBound(g, a, b); }
      ClosedReach(h, start, u, s);
    }
    if Reachable(g, start, u) && u < |g| && !deleted[u] {
      var s := set x: nat | x < |g| && (Reachable(h, start, x) || deleted[x]);
      ReachRefl(h, start);
      forall a: nat, b: nat | a in s && Edge(g, a, b) ensures b in s {
        EdgeBound(g, a, b);
        if !deleted[a] && !deleted[b] {
          OpenEdge(g, deleted, a, b);
          ReachEdge(h, a, b);
          ReachTrans(h, start, a, b);
        }
      }
      ClosedReach(g, start, u, s);
    }
  }

  lemma EdgeBound(g: Graph, a: nat, b: nat)
    requires Closed(g) && Edge(g, a, b)
    ensures b < |g|
  {
    var k :| 0 <= k < |g[a]| && g[a][k] == b;
  }

  lemma OpenPath(g: Graph, deleted: seq<bool>, u: nat, v: nat)
    requires Reachable(Open(g, deleted), u, v)
    ensures Reachable(g, u, v)
  {
    var h := Open(g, deleted);
    var p :| Connects(h, p, u, v);
    forall i: nat | i + 1 < |p| ensures StepAt(g, p, i) {
      assert StepAt(h, p, i);
      OpenEdge(g, deleted, p[i], p[i + 1]);
    }
    assert Connects(g, p, u, v);
  }

  // ---- the search --------------------------------------------------------------------------

  /** A node on the stack; itr is -1 before its first edge, then the edge that was looked at last. */
  datatype Frame = Frame(cn: nat, itr: int)

  /** What stays fixed during a search: graph, marks and counts at the beginning, which calls are facts
      and which have a table that is not completed. */
  datatype Task = Task(g: Graph, start: nat, deleted: seq<bool>, falsecount: seq<nat>, fact: seq<bool>, incomplete: seq<bool>)

  /** done tells how many edges of each node passed so far have been looked at. */
  datatype Dfs = Dfs(stack: seq<Frame>, deleted: seq<bool>, falsecount: seq<nat>, done: map<nat, nat>)

  /** The field falsecount has 14 bits (XSB/emu/tries.h). */
  const LIMIT: nat := 0x4000

  lemma CountUp(n: nat)
    ensures (n % LIMIT + 1) % LIMIT == (n + 1) % LIMIT
  {
  }

  ghost predicate TaskOk(k: Task) {
    && Closed(k.g) && Simple(k.g) && k.start < |k.g| == |k.deleted| == |k.falsecount| == |k.fact| == |k.incomplete|
    && !k.deleted[k.start] && (forall u :: 0 <= u < |k.g| ==> k.falsecount[u] < LIMIT)
    && (k.fact[k.start] ==> forall u: nat :: !Edge(k.g, u, k.start))
  }

  /** The nodes passed whose edge to u has been looked at. */
  ghost function Counted(g: Graph, done: map<nat, nat>, u: nat): set<nat> {
    set v | v in done && v < |g| && done[v] <= |g[v]| && u in g[v][..done[v]]
  }

  predicate OnTop(stack: seq<Frame>, v: nat) {
    exists i :: 0 <= i < |stack| && stack[i].cn == v
  }

  ghost predicate DoneOk(k: Task, d: Dfs) {
    && Closed(k.g) && |d.deleted| == |d.falsecount| == |k.g| == |k.deleted| == |k.incomplete| && k.start in d.done
    && (forall v: nat :: v in d.done ==> v < |k.g| && d.done[v] <= |k.g[v]| && Passed(k, v) && !k.incomplete[v])
    && (forall v: nat, j :: v in d.done && 0 <= j < d.done[v] && j < |k.g[v]| ==> k.g[v][j] in d.done || k.deleted[k.g[v][j]])
  }

  ghost predicate Passed(k: Task, v: nat) {
    Reachable(Open(k.g, k.deleted), k.start, v)
  }

  ghost predicate MarksOk(k: Task, d: Dfs) {
    && |d.deleted| == |k.deleted| == |k.fact|
    && forall u: nat :: u < |k.deleted| ==> (d.deleted[u] <==> k.deleted[u] || (u in d.done && !(u == k.start && k.fact[u])))
  }

  /** The count of u when n of its predecessors have added to it. */
  function Count(k: Task, u: nat, n: nat): nat
    requires u < |k.falsecount|
  {
    (k.falsecount[u] + (if u == k.start then 1 else 0) + n) % LIMIT
  }

  ghost predicate CountsOk(k: Task, d: Dfs) {
    && |d.falsecount| == |k.falsecount|
    && forall u: nat :: u < |k.falsecount| ==> d.falsecount[u] == Count(k, u, |Counted(k.g, d.done, u)|)
  }

  ghost predicate StackOk(k: Task, d: Dfs) {
    && (forall i :: 0 <= i < |d.stack| ==> d.stack[i].cn in d.done && d.stack[i].itr >= -1 && d.done[d.stack[i].cn] == d.stack[i].itr + 1)
    && (forall i, j :: 0 <= i < j < |d.stack| ==> d.stack[i].cn != d.stack[j].cn)
    && (forall v: nat :: v in d.done && v < |k.g| && !OnTop(d.stack, v) ==> d.done[v] == |k.g[v]|)
  }

  ghost predicate DfsOk(k: Task, d: Dfs) {
    DoneOk(k, d) && MarksOk(k, d) && CountsOk(k, d) && StackOk(k, d)
  }

  // ---- one edge ------------------------------------------------------------------------------

  /** The edge j of v, to w, is looked at for the first time. */
  lemma CountedMore(g: Graph, done: map<nat, nat>, v: nat, j: nat, u: nat)
    requires Simple(g) && v < |g| && v in done && done[v] == j < |g[v]|
    ensures Counted(g, done[v := j + 1], u) == if u == g[v][j] then Counted(g, done, u) + {v} else Counted(g, done, u)
    ensures u == g[v][j] ==> v !in Counted(g, done, u)
  {
    assert g[v][..j + 1] == g[v][..j] + [g[v][j]];
    assert NoDuplicates(g[v]);
  }

  lemma CountedNew(g: Graph, done: map<nat, nat>, w: nat, u: nat)
    requires w !in done
    ensures Counted(g, done[w := 0], u) == Counted(g, done, u)
  {
  }

  /** Nothing looked at yet: the start alone. */
  function First(k: Task): Dfs
    requires k.start < |k.g| == |k.deleted| == |k.falsecount| == |k.fact|
  {
    Dfs(if k.g[k.start] == [] then [] else [Frame(k.start, -1)],
        if k.fact[k.start] then k.deleted else k.deleted[k.start := true],
        k.falsecount[k.start := (k.falsecount[k.start] + 1) % LIMIT], map[k.start := 0])
  }

  lemma FirstOk(k: Task)
    requires TaskOk(k) && !k.incomplete[k.start]
    ensures DfsOk(k, First(k))
  {
    var d := First(k);
    ReachRefl(Open(k.g, k.deleted), k.start);
    forall u: nat ensures Counted(k.g, d.done, u) == {} { }
    if k.g[k.start] != [] { assert d.stack[0].cn == k.start; }
  }

  /** The frame on top has no more edges. */
  lemma PopOk(k: Task, d: Dfs)
    requires TaskOk(k) && DfsOk(k, d) && d.stack != [] && d.done[d.stack[|d.stack| - 1].cn] == |k.g[d.stack[|d.stack| - 1].cn]|
    ensures DfsOk(k, d.(stack := d.stack[..|d.stack| - 1]))
  {
    hide DoneOk, MarksOk, CountsOk, TaskOk;
    var stack1 := d.stack[..|d.stack| - 1];
    forall v: nat | v in d.done && v < |k.g| && !OnTop(stack1, v) ensures d.done[v] == |k.g[v]| { TopSplit(d.stack, v); }
    assert DoneOk(k, d.(stack := stack1)) && MarksOk(k, d.(stack := stack1)) && CountsOk(k, d.(stack := stack1)) by { SameRest(k, d, stack1); }
  }

  lemma SameRest(k: Task, d: Dfs, stack1: seq<Frame>)
    requires DoneOk(k, d) && MarksOk(k, d) && CountsOk(k, d)
    ensures DoneOk(k, d.(stack := stack1)) && MarksOk(k, d.(stack := stack1)) && CountsOk(k, d.(stack := stack1))
  {
  }

  lemma TopSplit(stack: seq<Frame>, v: nat)
    requires stack != []
    ensures OnTop(stack, v) <==> OnTop(stack[..|stack| - 1], v) || stack[|stack| - 1].cn == v
  {
    var n := |stack| - 1;
    assert stack == stack[..n] + [stack[n]];
    if OnTop(stack[..n], v) { var i :| 0 <= i < n && stack[..n][i].cn == v; assert stack[i].cn == v; }
    if OnTop(stack, v) { var i :| 0 <= i < |stack| && stack[i].cn == v; assert i < n ==> stack[..n][i].cn == v; }
  }

  function Top(d: Dfs): Frame
    requires d.stack != []
  {
    d.stack[|d.stack| - 1]
  }

  /** The frame on top has an edge left. */
  predicate HasNext(k: Task, d: Dfs) {
    && d.stack != [] && Top(d).cn < |k.g| == |d.falsecount| == |d.deleted| == |k.incomplete| && 0 <= Top(d).itr + 1 < |k.g[Top(d).cn]|
    && k.g[Top(d).cn][Top(d).itr + 1] < |k.g|
  }

  function Target(k: Task, d: Dfs): (w: nat)
    requires HasNext(k, d)
    ensures w < |k.g|
  {
    k.g[Top(d).cn][Top(d).itr + 1]
  }

  /** The next edge has been looked at and its target counted; the target has not been entered yet. */
  function Looked(k: Task, d: Dfs): Dfs
    requires HasNext(k, d)
  {
    var v, j, w := Top(d).cn, Top(d).itr + 1, Target(k, d);
    Dfs(d.stack[|d.stack| - 1 := Frame(v, j)], d.deleted, d.falsecount[w := (d.falsecount[w] + 1) % LIMIT], d.done[v := j + 1])
  }

  function EnteredDfs(d: Dfs, w: nat): Dfs
    requires w < |d.deleted|
  {
    Dfs(d.stack + [Frame(w, -1)], d.deleted[w := true], d.falsecount, d.done[w := 0])
  }

  /** What is known of the next edge. */
  lemma NextEdge(k: Task, d: Dfs)
    requires TaskOk(k) && DfsOk(k, d) && d.stack != []
    ensures var top := Top(d);
      (top.cn < |k.g| && top.cn in d.done && top.itr >= -1 && d.done[top.cn] == top.itr + 1 <= |k.g[top.cn]| && Passed(k, top.cn))
    ensures |d.deleted| == |d.falsecount| == |k.g| == |k.deleted| == |k.falsecount| == |k.incomplete| == |k.fact|
    ensures Top(d).itr + 1 < |k.g[Top(d).cn]| ==> HasNext(k, d) && Edge(k.g, Top(d).cn, Target(k, d))
  {
    hide Passed, MarksOk, CountsOk;
  }

  lemma LookedCounts(k: Task, d: Dfs)
    requires TaskOk(k) && DfsOk(k, d) && HasNext(k, d)
    ensures CountsOk(k, Looked(k, d))
  {
    hide Passed, MarksOk, DoneOk, Counted, Closed, OnTop, Simple;
    NextEdge(k, d);
    var v, j := Top(d).cn, Top(d).itr + 1;
    var d1 := Looked(k, d);
    forall u: nat | u < |k.falsecount|
      ensures d1.falsecount[u] == Count(k, u, |Counted(k.g, d1.done, u)|)
    {
      CountedMore(k.g, d.done, v, j, u);
      CountUp(k.falsecount[u] + (if u == k.start then 1 else 0) + |Counted(k.g, d.done, u)|);
    }
  }

  lemma LookedStack(k: Task, d: Dfs)
    requires TaskOk(k) && DfsOk(k, d) && HasNext(k, d)
    ensures StackOk(k, Looked(k, d))
  {
    hide Passed, MarksOk, DoneOk, CountsOk, Closed, Simple, OnTop;
    var d1 := Looked(k, d);
    assert d1.stack[..|d1.stack| - 1] == d.stack[..|d.stack| - 1];
    forall u: nat ensures OnTop(d1.stack, u) <==> OnTop(d.stack, u) { TopSplit(d.stack, u); TopSplit(d1.stack, u); }
    TopIn(d.stack);
  }

  lemma TopIn(stack: seq<Frame>)
    requires stack != []
    ensures OnTop(stack, stack[|stack| - 1].cn)
  {
  }

  /** The edge leads to a node that is marked already. */
  lemma SkipOk(k: Task, d: Dfs)
    requires TaskOk(k) && DfsOk(k, d) && HasNext(k, d) && d.deleted[Target(k, d)]
    ensures DfsOk(k, Looked(k, d))
  {
    hide Passed, CountsOk, StackOk, Closed, Simple;
    NextEdge(k, d);
    LookedCounts(k, d);
    LookedStack(k, d);
  }

  /** The edge leads to a node that has not been passed. */
  lemma NewNode(k: Task, d: Dfs)
    requires TaskOk(k) && DfsOk(k, d) && HasNext(k, d) && !d.deleted[Target(k, d)]
    ensures Passed(k, Target(k, d)) && Target(k, d) !in d.done && Target(k, d) != k.start && !k.deleted[Target(k, d)]
  {
    hide CountsOk, Reachable, Simple;
    NextEdge(k, d);
    var v, w := Top(d).cn, Target(k, d);
    OpenEdge(k.g, k.deleted, v, w);
    ReachEdge(Open(k.g, k.deleted), v, w);
    ReachTrans(Open(k.g, k.deleted), k.start, v, w);
  }

  lemma EnterOk(k: Task, d: Dfs)
    requires TaskOk(k) && DfsOk(k, d) && HasNext(k, d) && !d.deleted[Target(k, d)] && !k.incomplete[Target(k, d)]
    ensures DfsOk(k, EnteredDfs(Looked(k, d), Target(k, d)))
  {
    hide Passed, Simple, Counted, Edge, DoneOk, MarksOk, CountsOk, StackOk, Looked, EnteredDfs;
    var w := Target(k, d);
    NextEdge(k, d);
    NewNode(k, d);
    LookedCounts(k, d);
    LookedStack(k, d);
    EnterDone(k, d);
    LookedFields(k, d);
    EnterStack(k, Looked(k, d), w);
    EnterCounts(k, Looked(k, d), w);
  }

  lemma LookedFields(k: Task, d: Dfs)
    requires HasNext(k, d)
    ensures Looked(k, d).deleted == d.deleted && forall u: nat :: u in Looked(k, d).done <==> u in d.done || u == Top(d).cn
  {
  }

  lemma EnterDone(k: Task, d: Dfs)
    requires TaskOk(k) && DfsOk(k, d) && HasNext(k, d) && !d.deleted[Target(k, d)] && !k.incomplete[Target(k, d)]
    ensures DoneOk(k, EnteredDfs(Looked(k, d), Target(k, d))) && MarksOk(k, EnteredDfs(Looked(k, d), Target(k, d)))
  {
    hide Passed, Simple, CountsOk, StackOk, Closed, Edge;
    NextEdge(k, d);
    NewNode(k, d);
  }

  lemma EnterCounts(k: Task, d1: Dfs, w: nat)
    requires CountsOk(k, d1) && w !in d1.done && w < |d1.deleted|
    ensures CountsOk(k, EnteredDfs(d1, w))
  {
    hide Counted;
    forall u: nat ensures Counted(k.g, EnteredDfs(d1, w).done, u) == Counted(k.g, d1.done, u) { CountedNew(k.g, d1.done, w, u); }
  }

  lemma EnterStack(k: Task, d1: Dfs, w: nat)
    requires StackOk(k, d1) && w !in d1.done && w < |d1.deleted|
    ensures StackOk(k, EnteredDfs(d1, w))
  {
    hide OnTop;
    var d2 := EnteredDfs(d1, w);
    assert d2.stack[..|d2.stack| - 1] == d1.stack;
    forall u: nat | u in d2.done && u < |k.g| && !OnTop(d2.stack, u) ensures d2.done[u] == |k.g[u]| { TopSplit(d2.stack, u); }
  }

  // ---- the end of the search -------------------------------------------------------------------

  /** The passed nodes with an edge to u. */
  ghost function PassedBefore(k: Task, u: nat): set<nat> {
    set v: nat | v < |k.g| && Passed(k, v) && u in k.g[v]
  }

  /** What an invalidation leaves: exactly the passed nodes are newly marked, a start that is a fact excepted;
      each count has grown by the number of passed predecessors, and by one more for the start, as far as 14 bits go. */
  ghost predicate Invalidated(k: Task, deleted: seq<bool>, falsecount: seq<nat>) {
    && |deleted| == |falsecount| == |k.g| == |k.deleted| == |k.falsecount| == |k.fact| == |k.incomplete|
    && (forall u: nat :: u < |k.g| ==> (deleted[u] <==> k.deleted[u] || (Passed(k, u) && !(u == k.start && k.fact[u]))))
    && (forall u: nat :: u < |k.g| ==> falsecount[u] == Count(k, u, |PassedBefore(k, u)|))
    && (forall u: nat :: u < |k.g| && Passed(k, u) ==> !k.incomplete[u])
  }

  lemma AllDone(k: Task, d: Dfs)
    requires TaskOk(k) && DfsOk(k, d) && d.stack == []
    ensures forall u: nat :: Passed(k, u) <==> u in d.done
    ensures forall v: nat :: v in d.done ==> v < |k.g| && d.done[v] == |k.g[v]|
  {
    hide Reachable, MarksOk, CountsOk, Simple, Edge, Open;
    var h := Open(k.g, k.deleted);
    var s := d.done.Keys;
    forall v: nat | v in d.done ensures v < |k.g| && d.done[v] == |k.g[v]| { assert !OnTop(d.stack, v); }
    forall a: nat, b: nat | a in s && Edge(h, a, b) ensures b in s {
      OpenEdge(k.g, k.deleted, a, b);
      DoneEdge(k, d, a, b);
    }
    forall u: nat | Passed(k, u) ensures u in d.done { ClosedReach(h, k.start, u, s); }
  }

  lemma DoneEdge(k: Task, d: Dfs, a: nat, b: nat)
    requires DoneOk(k, d) && a in d.done && d.done[a] == |k.g[a]| && Edge(k.g, a, b)
    ensures b in d.done || (b < |k.deleted| && k.deleted[b])
  {
    hide Passed;
    var j :| 0 <= j < |k.g[a]| && k.g[a][j] == b;
  }

  lemma FinishOk(k: Task, d: Dfs)
    requires TaskOk(k) && DfsOk(k, d) && d.stack == []
    ensures Invalidated(k, d.deleted, d.falsecount)
  {
    hide Passed, Simple, StackOk;
    AllDone(k, d);
    forall u: nat | u < |k.g| ensures Counted(k.g, d.done, u) == PassedBefore(k, u) {
      forall v: nat | v in d.done ensures k.g[v][..d.done[v]] == k.g[v] { }
    }
  }

  /** The edges that have not been looked at. */
  ghost function Left(g: Graph, done: map<nat, nat>): set<(nat, nat)> {
    set v: nat, j: nat | v < |g| && j < |g[v]| && !(v in done && j < done[v]) :: (v, j)
  }

  lemma LeftShrinks(g: Graph, done: map<nat, nat>, v: nat, j: nat)
    requires v < |g| && j < |g[v]| && v in done && done[v] == j
    ensures Left(g, done[v := j + 1]) < Left(g, done)
  {
    assert (v, j) in Left(g, done) && (v, j) !in Left(g, done[v := j + 1]);
  }

  lemma LeftEntered(g: Graph, done: map<nat, nat>, w: nat)
    requires w !in done
    ensures Left(g, done[w := 0]) == Left(g, done)
  {
  }

  lemma StartPassed(k: Task)
    ensures Passed(k, k.start)
  {
    ReachRefl(Open(k.g, k.deleted), k.start);
  }
}
