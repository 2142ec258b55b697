/** Taking an invalidation back (XSB/emu/call_graph_xsb.c, propagate_no_change): a call whose
    affecting calls all turn out unchanged becomes valid again without being evaluated. */
module NoChange {
  import opened Reach
  import opened Invalidate

  // ---- termination -----------------------------------------------------------------------

  function Total(fc: seq<nat>): nat {
    if fc == [] then 0 else Total(fc[..|fc| - 1]) + fc[|fc| - 1]
  }

  lemma {:induction false} TotalUpdate(fc: seq<nat>, w: nat, x: nat)
    requires w < |fc|
    ensures Total(fc[w := x]) == Total(fc) - fc[w] + x
  {
    var n := |fc| - 1;
    if w < n {
      TotalUpdate(fc[..n], w, x);
      assert fc[w := x][..n] == fc[..n][w := x];
    } else {
      assert fc[w := x][..n] == fc[..n];
    }
  }

  lemma {:induction false} TotalLe(fc: seq<nat>, fc1: seq<nat>)
    requires |fc1| == |fc| && forall u :: 0 <= u < |fc| ==> fc1[u] <= fc[u]
    ensures Total(fc1) <= Total(fc)
  {
    if fc != [] {
      TotalLe(fc[..|fc| - 1], fc1[..|fc| - 1]);
    }
  }

  // ---- how far the news has spread -----------------------------------------------------------

  /** A graph with the counts and marks from which the call start begins to propagate. */
  datatype Base = Base(g: Graph, start: nat, fc0: seq<nat>, del0: seq<bool>)

  ghost predicate BaseOk(b: Base) {
    Closed(b.g) && Simple(b.g) && b.start < |b.g| == |b.fc0| == |b.del0|
  }

  /** The graph with one more call at the end: what start does before it is told itself. */
  ghost function Ext(b: Base): (g: Graph)
    requires b.start < |b.g|
    ensures |g| == |b.g| + 1
  {
    b.g + [b.g[b.start]]
  }

  /** done tells how many edges of each call told about so far have been followed; rank is the order in
      which the calls were told. */
  datatype Progress = Progress(done: map<nat, nat>, rank: map<nat, nat>)

  function Minus(a: nat, n: nat): nat {
    if a > n then a - n else 0
  }

  /** The calls told before v with an edge to v. */
  ghost function Earlier(g: Graph, p: Progress, v: nat): set<nat> {
    set u | u in p.done && u in p.rank && v in p.rank && p.rank[u] < p.rank[v] && Edge(g, u, v)
  }

  ghost predicate SweepCounts(b: Base, p: Progress, fc: seq<nat>) {
    b.start < |b.g| == |b.fc0| == |fc| && forall u: nat :: u < |b.g| ==> fc[u] == Minus(b.fc0[u], |Counted(Ext(b), p.done, u)|)
  }

  ghost predicate Places(b: Base, p: Progress) {
    && b.start < |b.g| && |b.g| in p.done && p.rank.Keys == p.done.Keys
    && (forall v: nat :: v in p.done ==> v <= |b.g| && p.done[v] <= |Ext(b)[v]|) && (forall v: nat :: v in p.done ==> p.rank[v] < |p.rank|)
  }

  ghost predicate SweepTold(b: Base, p: Progress, fc: seq<nat>, del: seq<bool>) {
    && Places(b, p) && |b.g| == |b.fc0| == |b.del0| == |fc| == |del|
    && (forall v: nat :: v < |b.g| ==> (v in p.done <==> b.fc0[v] > 0 && fc[v] == 0) && (del[v] <==> b.del0[v] && v !in p.done))
    && (forall v: nat :: v < |b.g| && v in p.done ==> |Earlier(Ext(b), p, v)| >= b.fc0[v])
  }

  ghost predicate Sweep(b: Base, p: Progress, fc: seq<nat>, del: seq<bool>) {
    BaseOk(b) && SweepCounts(b, p, fc) && SweepTold(b, p, fc, del)
  }

  lemma ExtOk(b: Base)
    requires BaseOk(b)
    ensures Simple(Ext(b)) && |Ext(b)| == |b.g| + 1 && Ext(b)[|b.g|] == b.g[b.start]
    ensures forall u: nat :: u < |b.g| ==> Ext(b)[u] == b.g[u]
  {
    var g := Ext(b);
    forall u | 0 <= u < |g| ensures NoDuplicates(g[u]) {
      assert g[u] == if u < |b.g| then b.g[u] else b.g[b.start];
    }
  }

  function Follow(p: Progress, c: nat): Progress
    requires c in p.done
  {
    p.(done := p.done[c := p.done[c] + 1])
  }

  function Tell(p: Progress, w: nat): Progress {
    Progress(p.done[w := 0], p.rank[w := |p.rank|])
  }

  // ---- one edge --------------------------------------------------------------------------------

  /** c is about to follow an edge to w. */
  ghost predicate AtEdge(b: Base, p: Progress, c: nat, w: nat) {
    && b.start < |b.g| && c in p.done && c <= |b.g| && p.done[c] < |Ext(b)[c]| && Ext(b)[c][p.done[c]] == w && w < |b.g|
  }

  lemma FollowCounts(b: Base, p: Progress, fc: seq<nat>, del: seq<bool>, c: nat, w: nat)
    requires Sweep(b, p, fc, del) && AtEdge(b, p, c, w)
    ensures SweepCounts(b, Follow(p, c), fc[w := Minus(fc[w], 1)])
  {
    hide SweepTold, Counted, Closed, Simple;
    ExtOk(b);
    var fc1 := fc[w := Minus(fc[w], 1)];
    forall u: nat | u < |b.g| ensures fc1[u] == Minus(b.fc0[u], |Counted(Ext(b), Follow(p, c).done, u)|) {
      CountedMore(Ext(b), p.done, c, p.done[c], u);
    }
  }

  lemma FollowTold(b: Base, p: Progress, fc: seq<nat>, del: seq<bool>, c: nat, w: nat, fc1: seq<nat>)
    requires SweepTold(b, p, fc, del) && AtEdge(b, p, c, w) && |fc1| == |fc|
    requires forall u: nat :: u < |fc| ==> (fc1[u] == 0 <==> fc[u] == 0)
    ensures SweepTold(b, Follow(p, c), fc1, del)
  {
    hide Edge, Ext, Earlier;
    var p1 := Follow(p, c);
    forall v: nat ensures Earlier(Ext(b), p1, v) == Earlier(Ext(b), p, v) { EarlierFollow(Ext(b), p, c, v); }
  }

  lemma EarlierFollow(g: Graph, p: Progress, c: nat, v: nat)
    requires c in p.done
    ensures Earlier(g, Follow(p, c), v) == Earlier(g, p, v)
  {
    hide Edge;
    forall u: nat ensures u in Follow(p, c).done <==> u in p.done { }
  }

  /** w keeps its count of 0, or has more to wait for. */
  lemma FollowOn(b: Base, p: Progress, fc: seq<nat>, del: seq<bool>, c: nat, w: nat)
    requires Sweep(b, p, fc, del) && AtEdge(b, p, c, w) && w < |fc| && fc[w] != 1
    ensures Sweep(b, Follow(p, c), fc[w := Minus(fc[w], 1)], del)
  {
    hide SweepCounts, SweepTold, Closed, Simple;
    FollowCounts(b, p, fc, del, c, w);
    FollowTold(b, p, fc, del, c, w, fc[w := Minus(fc[w], 1)]);
  }

  /** w has nothing more to wait for and is told. */
  lemma FollowTell(b: Base, p: Progress, fc: seq<nat>, del: seq<bool>, c: nat, w: nat)
    requires Sweep(b, p, fc, del) && AtEdge(b, p, c, w) && w < |fc| == |del| && fc[w] == 1
    ensures w !in p.done && w != c && Sweep(b, Tell(Follow(p, c), w), fc[w := 0], del[w := false])
  {
    hide Counted, Closed, Simple, Earlier, Ext, Edge;
    FollowCounts(b, p, fc, del, c, w);
    ToldIsDone(b, p, fc, del, w);
    TellCounts(b, Follow(p, c), fc, w);
    TellTold(b, p, fc, del, c, w);
  }

  lemma ToldIsDone(b: Base, p: Progress, fc: seq<nat>, del: seq<bool>, w: nat)
    requires SweepTold(b, p, fc, del) && w < |fc| && fc[w] == 1
    requires SweepCounts(b, p, fc)
    ensures w !in p.done && b.fc0[w] > 0
  {
    hide Earlier, Ext, Counted;
  }

  lemma TellCounts(b: Base, p1: Progress, fc: seq<nat>, w: nat)
    requires w < |fc| && SweepCounts(b, p1, fc[w := 0]) && w !in p1.done
    ensures SweepCounts(b, Tell(p1, w), fc[w := 0])
  {
    hide Counted, Ext;
    forall u: nat ensures Counted(Ext(b), Tell(p1, w).done, u) == Counted(Ext(b), p1.done, u) { CountedNew(Ext(b), p1.done, w, u); }
  }

  lemma TellTold(b: Base, p: Progress, fc: seq<nat>, del: seq<bool>, c: nat, w: nat)
    requires SweepTold(b, p, fc, del) && AtEdge(b, p, c, w) && w < |fc| && fc[w] == 1 && w !in p.done
    requires SweepCounts(b, Follow(p, c), fc[w := 0]) && b.fc0[w] > 0
    ensures SweepTold(b, Tell(Follow(p, c), w), fc[w := 0], del[w := false])
  {
    hide Counted, Earlier, Ext, Edge, SweepCounts, Places;
    var p2 := Tell(Follow(p, c), w);
    TellPlaces(b, p, c, w);
    TellHeard(b, Follow(p, c), fc, w);
    forall v: nat | v < |b.g| && v in p.done ensures Earlier(Ext(b), p2, v) == Earlier(Ext(b), p, v) { EarlierSame(b, p, c, w, v); }
    forall v: nat ensures v in p2.done <==> v in p.done || v == w { }
  }

  lemma TellPlaces(b: Base, p: Progress, c: nat, w: nat)
    requires Places(b, p) && AtEdge(b, p, c, w) && w !in p.done
    ensures Places(b, Tell(Follow(p, c), w)) && Places(b, Follow(p, c))
  {
    hide Ext, Places;
    FollowPlaces(b, p, c, w);
    TellRank(b, Follow(p, c), w);
  }

  lemma FollowPlaces(b: Base, p: Progress, c: nat, w: nat)
    requires Places(b, p) && AtEdge(b, p, c, w)
    ensures Places(b, Follow(p, c))
  {
    hide Ext;
  }

  lemma TellRank(b: Base, p: Progress, w: nat)
    requires Places(b, p) && w !in p.done && w <= |b.g|
    ensures Places(b, Tell(p, w))
  {
    hide Ext;
    var p2 := Tell(p, w);
    assert |p2.rank| == |p.rank| + 1;
    forall v: nat | v in p2.done ensures v <= |b.g| && p2.done[v] <= |Ext(b)[v]| { }
    forall v: nat | v in p2.done ensures p2.rank[v] < |p2.rank| { }
  }

  lemma TellHeard(b: Base, p1: Progress, fc: seq<nat>, w: nat)
    requires w < |fc| && SweepCounts(b, p1, fc[w := 0]) && w !in p1.done && Places(b, p1)
    ensures |Earlier(Ext(b), Tell(p1, w), w)| >= b.fc0[w]
  {
    hide Counted, Earlier, Ext, Places;
    CountedEarlier(b, p1, w);
    SizeLe(Counted(Ext(b), p1.done, w), Earlier(Ext(b), Tell(p1, w), w));
  }

  /** Whoever has followed an edge to w was told before it. */
  lemma CountedEarlier(b: Base, p: Progress, w: nat)
    requires Places(b, p) && w !in p.done
    ensures Counted(Ext(b), p.done, w) <= Earlier(Ext(b), Tell(p, w), w)
  {
  }

  lemma EarlierSame(b: Base, p: Progress, c: nat, w: nat, v: nat)
    requires Places(b, p) && c in p.done && w !in p.done && v in p.done
    ensures Earlier(Ext(b), Tell(Follow(p, c), w), v) == Earlier(Ext(b), p, v)
  {
  }

  lemma SizeLe(a: set<nat>, b: set<nat>)
    requires a <= b
    ensures |a| <= |b|
  {
    assert b == a + (b - a);
  }

  // ---- who has been told in the end ------------------------------------------------------------

  /** Everyone told has told everyone they affect. */
  ghost predicate Quiet(g: Graph, p: Progress) {
    forall v: nat :: v in p.done && v < |g| ==> p.done[v] == |g[v]|
  }

  /** How many times v hears that one of its predecessors is unchanged, when start begins and those in s go on. */
  ghost function Heard(b: Base, s: set<nat>, v: nat): nat {
    |Within(b.g, s, v)| + (if Edge(b.g, b.start, v) then 1 else 0)
  }

  ghost function Within(g: Graph, s: set<nat>, v: nat): set<nat> {
    set u | u in s && Edge(g, u, v)
  }

  /** Whoever hears it as often as its count says is in s. */
  ghost predicate TellClosed(b: Base, s: set<nat>) {
    forall v: nat :: v < |b.g| && v < |b.fc0| && b.fc0[v] > 0 && Heard(b, s, v) >= b.fc0[v] ==> v in s
  }

  /** Those whose count came down to 0. */
  ghost function ToldSet(b: Base, fc: seq<nat>): set<nat> {
    set v: nat | v < |b.g| && v < |b.fc0| && v < |fc| && b.fc0[v] > 0 && fc[v] == 0
  }

  /** The outcome, whatever the counts were: the calls told are the least set closed under hearing often enough;
      counts have gone down by what was heard; exactly the calls told have lost their mark. */
  ghost predicate Swept(b: Base, fc: seq<nat>, del: seq<bool>) {
    && |fc| == |del| == |b.g| == |b.fc0| == |b.del0|
    && TellClosed(b, ToldSet(b, fc)) && (forall s: set<nat> :: TellClosed(b, s) ==> ToldSet(b, fc) <= s)
    && (forall v: nat :: v < |b.g| ==> fc[v] == Minus(b.fc0[v], Heard(b, ToldSet(b, fc), v)))
    && (forall v: nat :: v < |b.g| ==> (del[v] <==> b.del0[v] && v !in ToldSet(b, fc)))
  }

  /** In the end what has been followed to v is what v has heard. */
  lemma HeardIs(b: Base, p: Progress, fc: seq<nat>, del: seq<bool>, v: nat)
    requires Sweep(b, p, fc, del) && Quiet(Ext(b), p) && v < |b.g|
    ensures |Counted(Ext(b), p.done, v)| == Heard(b, ToldSet(b, fc), v)
  {
    hide Closed, Simple, Earlier, SweepCounts, SweepTold, Edge, Counted, Within, Heard, Ext;
    var t := ToldSet(b, fc);
    var followed := Counted(Ext(b), p.done, v);
    var last := if Edge(b.g, b.start, v) then {|b.g|} else {};
    forall u: nat ensures u in followed <==> u in Within(b.g, t, v) + last { HeardFrom(b, p, fc, del, v, u); }
    assert followed == Within(b.g, t, v) + last;
    HeardSize(b, t, v);
  }

  lemma HeardFrom(b: Base, p: Progress, fc: seq<nat>, del: seq<bool>, v: nat, u: nat)
    requires Sweep(b, p, fc, del) && Quiet(Ext(b), p) && v < |b.g|
    ensures u in Counted(Ext(b), p.done, v) <==> u in Within(b.g, ToldSet(b, fc), v) || (u == |b.g| && Edge(b.g, b.start, v))
  {
    hide Closed, Simple, Earlier, SweepCounts, Ext, Edge;
    ExtOk(b);
    ExtEdge(b, u, v);
    EdgeIs(Ext(b), u, v);
    if u in p.done { assert Ext(b)[u][..|Ext(b)[u]|] == Ext(b)[u]; }
  }

  /** A closed set has every call that has been told, first to last. */
  lemma {:induction false} ToldIn(b: Base, p: Progress, fc: seq<nat>, del: seq<bool>, s: set<nat>, v: nat)
    requires Sweep(b, p, fc, del) && TellClosed(b, s) && v in p.done && v < |b.g|
    ensures v in s
    decreases p.rank[v]
  {
    hide Closed, Simple, SweepCounts, Ext, Edge, Heard;
    ExtOk(b);
    var n := |b.g|;
    var e := Earlier(Ext(b), p, v);
    var last := if Edge(b.g, b.start, v) then {n} else {};
    forall u: nat | u in e ensures u in Within(b.g, s, v) + last {
      if u < n { ToldIn(b, p, fc, del, s, u); }
      ExtEdge(b, u, v);
    }
    SizeLe(e, Within(b.g, s, v) + last);
    HeardSize(b, s, v);
  }

  lemma ExtEdge(b: Base, u: nat, v: nat)
    requires b.start < |b.g|
    ensures Edge(Ext(b), u, v) <==> if u == |b.g| then Edge(b.g, b.start, v) else Edge(b.g, u, v)
  {
  }

  lemma HeardSize(b: Base, s: set<nat>, v: nat)
    ensures var last := if Edge(b.g, b.start, v) then {|b.g|} else {}; |Within(b.g, s, v) + last| == Heard(b, s, v)
  {
    assert |b.g| !in Within(b.g, s, v);
  }

  lemma SweepDone(b: Base, p: Progress, fc: seq<nat>, del: seq<bool>)
    requires Sweep(b, p, fc, del) && Quiet(Ext(b), p)
    ensures Swept(b, fc, del)
  {
    hide Closed, Simple, Earlier, Counted, Heard, Ext, Quiet;
    var t := ToldSet(b, fc);
    forall v: nat | v < |b.g| ensures fc[v] == Minus(b.fc0[v], Heard(b, t, v)) { HeardIs(b, p, fc, del, v); }
    forall s: set<nat> | TellClosed(b, s) ensures t <= s {
      forall v | v in t ensures v in s { ToldIn(b, p, fc, del, s, v); }
    }
  }

  /** Nothing has been told yet but start. */
  function Beginning(n: nat): Progress {
    Progress(map[n := 0], map[n := 0])
  }

  lemma SweepBegins(b: Base)
    requires BaseOk(b)
    ensures Sweep(b, Beginning(|b.g|), b.fc0, b.del0)
  {
    hide Closed, Simple;
    var p := Beginning(|b.g|);
    forall u: nat ensures Counted(Ext(b), p.done, u) == {} { }
  }

  // ---- when everyone is restored -------------------------------------------------------------------

  /** A cycle of calls in s. */
  predicate Cycle(g: Graph, s: set<nat>, c: seq<nat>) {
    c != [] && (forall i :: 0 <= i < |c| ==> c[i] in s) && (forall i :: 0 <= i < |c| ==> CycleEdge(g, c, i))
  }

  predicate CycleEdge(g: Graph, c: seq<nat>, i: int) {
    0 <= i < |c| && Edge(g, c[i], c[if i + 1 < |c| then i + 1 else 0])
  }

  ghost predicate Restored(t: set<nat>, start: nat, fc: seq<nat>, deleted: seq<bool>) {
    forall v: nat :: v in t && v != start && v < |fc| && v < |deleted| ==> fc[v] == 0 && !deleted[v]
  }

  /** Calls in s, each affecting the next. */
  predicate Trail(g: Graph, s: set<nat>, p: seq<nat>) {
    p != [] && (forall i :: 0 <= i < |p| ==> p[i] in s) && (forall i :: 0 <= i < |p| - 1 ==> Edge(g, p[i], p[i + 1]))
  }

  ghost function NotOn(s: set<nat>, p: seq<nat>): set<nat> {
    set y | y in s && y !in p
  }

  lemma TrailMore(g: Graph, s: set<nat>, p: seq<nat>, u: nat)
    requires Trail(g, s, p) && u in s && Edge(g, u, p[0]) && u !in p
    ensures Trail(g, s, [u] + p) && NotOn(s, [u] + p) < NotOn(s, p)
  {
    hide Edge;
    var p1 := [u] + p;
    forall i | 0 <= i < |p1| - 1 ensures Edge(g, p1[i], p1[i + 1]) { assert i > 0 ==> Edge(g, p[i - 1], p[i - 1 + 1]); }
    assert u in NotOn(s, p) && u in p1;
  }

  lemma TrailCloses(g: Graph, s: set<nat>, p: seq<nat>, i: nat)
    requires Trail(g, s, p) && i < |p| && Edge(g, p[i], p[0])
    ensures Cycle(g, s, p[..i + 1])
  {
    hide Edge;
    var c := p[..i + 1];
    forall j | 0 <= j < |c| ensures CycleEdge(g, c, j) { assert j < i ==> Edge(g, p[j], p[j + 1]); }
  }

  ghost predicate Affected(g: Graph, s: set<nat>, v: nat) {
    exists u: nat :: u in s && Edge(g, u, v)
  }

  /** In a nonempty set in which everyone is affected by a member there is a cycle. */
  lemma FindCycle(g: Graph, s: set<nat>, p: seq<nat>) returns (c: seq<nat>)
    requires Trail(g, s, p) && forall v: nat :: v in s ==> Affected(g, s, v)
    ensures Cycle(g, s, c)
    decreases NotOn(s, p)
  {
    hide Edge, Cycle, NotOn;
    assert Affected(g, s, p[0]);
    var u: nat :| u in s && Edge(g, u, p[0]);
    if u in p {
      var i :| 0 <= i < |p| && p[i] == u;
      TrailCloses(g, s, p, i);
      c := p[..i + 1];
    } else {
      TrailMore(g, s, p, u);
      c := FindCycle(g, s, [u] + p);
    }
  }

  // ---- after an invalidation of a valid graph --------------------------------------------------

  ghost predicate AllValid(k: Task) {
    |k.deleted| == |k.falsecount| == |k.g| && forall u :: 0 <= u < |k.g| ==> !k.deleted[u] && k.falsecount[u] == 0
  }

  /** No call has so many passed predecessors that its count overflows. */
  ghost predicate Fits(k: Task) {
    forall u: nat :: u < |k.g| ==> (if u == k.start then 1 else 0) + |PassedBefore(k, u)| < 16384
  }

  ghost function PassedSet(k: Task): set<nat> {
    set v: nat | v < |k.g| && Passed(k, v)
  }

  /** Whether a call that is reached counts as affected afterwards: it does not if the number of its predecessors
      that were passed is a multiple of 16384. */
  lemma AffectedExactly(k: Task, deleted: seq<bool>, fc: seq<nat>, u: nat)
    requires TaskOk(k) && AllValid(k) && Invalidated(k, deleted, fc) && Passed(k, u) && u < |k.g|
    ensures fc[u] > 0 <==> ((if u == k.start then 1 else 0) + |PassedBefore(k, u)|) % 16384 != 0
    ensures Fits(k) ==> fc[u] > 0
  {
    hide Passed, Closed, Simple, Edge, Reachable;
    if u != k.start {
      var v := PassedFrom(k, u);
      assert v in PassedBefore(k, u);
    }
  }

  predicate Between(n: nat, u: nat) {
    0 < u <= n
  }

  function Numbers(n: nat): (r: seq<nat>)
    ensures |r| == n && forall i :: 0 <= i < n ==> r[i] == i + 1
  {
    seq(n, i => i + 1)
  }

  /** Call 0 affects calls 1 to n, and each of these affects call last. */
  function Wide(n: nat, last: nat): Graph {
    [Numbers(n)] + seq(n, i => [last]) + [[]]
  }

  function WideTask(n: nat, last: nat): Task {
    var false_ := seq(n + 2, _ => false);
    Task(Wide(n, last), 0, false_, seq(n + 2, _ => 0), [true] + false_[1..], false_)
  }

  lemma WideEdge(n: nat, last: nat, u: nat, v: nat)
    ensures Edge(Wide(n, last), u, v) <==> (u == 0 && Between(n, v)) || (Between(n, u) && v == last)
  {
    var g := Wide(n, last);
    assert u == 0 && Between(n, v) ==> g[0][v - 1] == v;
    assert Between(n, u) ==> g[u] == [last];
  }

  lemma WideOk(n: nat, last: nat)
    requires last == n + 1
    ensures TaskOk(WideTask(n, last)) && AllValid(WideTask(n, last))
  {
    hide Edge;
    var k := WideTask(n, last);
    assert forall u: nat :: Between(n, u) ==> k.g[u] == [last];
    forall u: nat ensures !Edge(k.g, u, 0) { WideEdge(n, last, u, 0); }
  }

  ghost function Middle(n: nat): set<nat> {
    set u: nat | u <= n && Between(n, u)
  }

  lemma {:induction false} HowMany(n: nat)
    ensures |Middle(n)| == n
  {
    if n > 0 {
      HowMany(n - 1);
      assert Middle(n) == Middle(n - 1) + {n};
    }
  }

  /** With 16384 calls between them the last call is invalidated, but its count says that it is not affected. */
  lemma WideOverflows(last: nat, deleted: seq<bool>, fc: seq<nat>)
    requires last == 16385 && Invalidated(WideTask(16384, last), deleted, fc)
    ensures |fc| == |deleted| == 16386 && Passed(WideTask(16384, last), last) && deleted[last] && fc[last] == 0
  {
    hide Passed, TaskOk, AllValid, Edge, PassedBefore;
    WideBefore(LIMIT, last);
    HowMany(LIMIT);
  }

  lemma WideBefore(n: nat, last: nat)
    requires n > 0 && last == n + 1
    ensures PassedBefore(WideTask(n, last), last) == Middle(n) && Passed(WideTask(n, last), last)
  {
    hide Passed, Wide, TaskOk, AllValid;
    var k := WideTask(n, last);
    WideOk(n, last);
    StartPassed(k);
    PassedClosed(k);
    forall u: nat | Between(n, u) ensures u in PassedBefore(k, last) {
      WideEdge(n, last, 0, u);
      WideEdge(n, last, u, last);
    }
    assert Passed(k, last) by { assert Between(n, n); assert n in PassedBefore(k, last); WideEdge(n, last, n, last); }
    forall u: nat | u in PassedBefore(k, last) ensures Between(n, u) { WideEdge(n, last, u, last); }
  }

  /** Counts and marks after an invalidation of a valid graph. */
  ghost function AfterInvalidation(k: Task): Base {
    Base(k.g, k.start, seq(|k.g|, u requires 0 <= u < |k.g| => if u < |k.falsecount| then Count(k, u, |PassedBefore(k, u)|) else 0),
         seq(|k.g|, u requires 0 <= u < |k.g| => Passed(k, u) && !(u == k.start && k.fact != [] && u < |k.fact| && k.fact[u])))
  }

  lemma AfterIs(k: Task, deleted: seq<bool>, fc: seq<nat>)
    requires TaskOk(k) && AllValid(k) && Invalidated(k, deleted, fc)
    ensures AfterInvalidation(k) == Base(k.g, k.start, fc, deleted) && BaseOk(AfterInvalidation(k))
  {
    hide Passed, Closed, Simple, PassedBefore, Count;
    var b := AfterInvalidation(k);
    assert forall u :: 0 <= u < |k.g| ==> b.fc0[u] == fc[u] && b.del0[u] == deleted[u];
  }

  /** With counts that have not overflowed: what is known of them. */
  lemma ExactCounts(k: Task, u: nat)
    requires TaskOk(k) && AllValid(k) && Fits(k) && u < |k.g|
    ensures AfterInvalidation(k).fc0[u] == |PassedBefore(k, u)| + (if u == k.start then 1 else 0)
    ensures Passed(k, u) ==> AfterInvalidation(k).fc0[u] > 0
    ensures !Passed(k, u) ==> AfterInvalidation(k).fc0[u] == 0 && PassedBefore(k, u) == {}
  {
    hide Closed, Simple, Reachable, Edge;
    StartPassed(k);
    if Passed(k, u) && u != k.start {
      var v := PassedFrom(k, u);
      assert v in PassedBefore(k, u);
    }
    if !Passed(k, u) {
      PassedClosed(k);
      forall v: nat ensures v !in PassedBefore(k, u) { EdgeIs(k.g, v, u); }
    }
  }

  lemma EdgeIs(g: Graph, u: nat, v: nat)
    ensures Edge(g, u, v) <==> u < |g| && v in g[u]
  {
  }

  /** A count that has come round to 0 is never brought down: with 16384 calls between them the last call stays
      invalid, though there is no cycle and nothing has changed. */
  lemma WideStays(last: nat, fc: seq<nat>, del: seq<bool>)
    requires last == 16385 && Swept(AfterInvalidation(WideTask(16384, last)), fc, del)
    ensures |del| == 16386 && del[last] && !Restored(PassedSet(WideTask(16384, last)), 0, fc, del)
  {
    hide Passed, PassedBefore, Edge, TellClosed, Heard;
    var k := WideTask(LIMIT, last);
    WideBefore(LIMIT, last);
    HowMany(LIMIT);
    assert last in PassedSet(k);
    assert AfterInvalidation(k).fc0[last] == 0 && AfterInvalidation(k).del0[last];
    assert last !in ToldSet(AfterInvalidation(k), fc);
  }

  /** Without overflow start is not told, and what v hears are its passed predecessors among start and s. */
  lemma HeardPassed(k: Task, s: set<nat>, v: nat)
    requires TaskOk(k) && AllValid(k) && k.start !in s && v < |k.g| && forall u: nat :: u in s ==> u < |k.g| && Passed(k, u)
    ensures Heard(AfterInvalidation(k), s, v) == |Among(k, s, v)| && Among(k, s, v) <= PassedBefore(k, v)
  {
    hide Passed, Closed, Simple, Reachable, Count;
    StartPassed(k);
    var b := AfterInvalidation(k);
    var first := if Edge(k.g, k.start, v) then {k.start} else {};
    assert Among(k, s, v) == Within(k.g, s, v) + first;
    assert k.start !in Within(k.g, s, v);
  }

  ghost function Among(k: Task, s: set<nat>, v: nat): set<nat> {
    set u | u in PassedBefore(k, v) && (u in s || u == k.start)
  }

  lemma StartNotTold(k: Task, fc: seq<nat>, del: seq<bool>)
    requires TaskOk(k) && AllValid(k) && Fits(k) && Swept(AfterInvalidation(k), fc, del)
    ensures k.start !in ToldSet(AfterInvalidation(k), fc)
    ensures forall v: nat :: v in ToldSet(AfterInvalidation(k), fc) ==> v < |k.g| && Passed(k, v)
  {
    hide Passed, Closed, Simple, Count, PassedBefore, TaskOk, AllValid, Fits, Heard, AfterInvalidation;
    var b := AfterInvalidation(k);
    var t := ToldSet(b, fc);
    BaseFields(k);
    forall v: nat | v in t ensures v < |k.g| && Passed(k, v) { ExactCounts(k, v); }
    var s := t - {k.start};
    HeardPassed(k, s, k.start);
    ExactCounts(k, k.start);
    SizeLe(Among(k, s, k.start), PassedBefore(k, k.start));
    forall v: nat | v < |b.g| && v < |b.fc0| && b.fc0[v] > 0 && Heard(b, s, v) >= b.fc0[v] ensures v in s { HeardMore(b, s, t, v); }
    assert TellClosed(b, s);
  }

  lemma BaseFields(k: Task)
    ensures var b := AfterInvalidation(k); b.g == k.g && b.start == k.start && |k.g| == |b.fc0| == |b.del0|
    ensures TaskOk(k) ==> k.start < |k.g|
  {
  }

  lemma HeardMore(b: Base, s: set<nat>, t: set<nat>, v: nat)
    requires s <= t
    ensures Heard(b, s, v) <= Heard(b, t, v)
  {
    SizeLe(Within(b.g, s, v), Within(b.g, t, v));
  }

  /** The others all become valid again exactly when they affect each other in no cycle that avoids the start. */
  lemma RestoredExactly(k: Task, fc: seq<nat>, del: seq<bool>)
    requires TaskOk(k) && AllValid(k) && Fits(k) && Swept(AfterInvalidation(k), fc, del)
    ensures Restored(PassedSet(k), k.start, fc, del) <==> forall c: seq<nat> :: !Cycle(k.g, PassedSet(k) - {k.start}, c)
  {
    hide Passed, Cycle, TaskOk, AllValid, Fits, AfterInvalidation, Swept, Restored, PassedSet, ToldSet;
    RestoredTold(k, fc, del);
    var s := Untold(k, fc);
    if s == {} {
      forall c: seq<nat> ensures !Cycle(k.g, PassedSet(k) - {k.start}, c) {
        if Cycle(k.g, PassedSet(k) - {k.start}, c) { NoCycleTold(k, fc, del, c); }
      }
    } else {
      var c := UntoldCycle(k, fc, del);
    }
  }

  /** The others that have not been told. */
  ghost function Untold(k: Task, fc: seq<nat>): set<nat> {
    set v | v in PassedSet(k) && v != k.start && v !in ToldSet(AfterInvalidation(k), fc)
  }

  lemma UntoldCycle(k: Task, fc: seq<nat>, del: seq<bool>) returns (c: seq<nat>)
    requires TaskOk(k) && AllValid(k) && Fits(k) && Swept(AfterInvalidation(k), fc, del) && Untold(k, fc) != {}
    ensures Cycle(k.g, PassedSet(k) - {k.start}, c)
  {
    hide Passed, Cycle, TaskOk, AllValid, Fits, AfterInvalidation, Swept, PassedSet, ToldSet, Untold;
    var s := Untold(k, fc);
    var x := SomeOf(s);
    forall v: nat | v in s ensures Affected(k.g, s, v) { UntoldAffected(k, fc, del, v); }
    OneTrail(k.g, s, x);
    c := FindCycle(k.g, s, [x]);
    UntoldPassed(k, fc);
    CycleMore(k.g, s, PassedSet(k) - {k.start}, c);
  }

  lemma SomeOf(s: set<nat>) returns (x: nat)
    requires s != {}
    ensures x in s
  {
    x :| x in s;
  }

  lemma UntoldPassed(k: Task, fc: seq<nat>)
    ensures Untold(k, fc) <= PassedSet(k) - {k.start}
  {
  }

  /** Call 0 affects call 1, and calls 1 and 2 affect each other. */
  function RingTask(): Task {
    var no := [false, false, false];
    Task([[1], [2], [1]], 0, no, [0, 0, 0], no, no)
  }

  /** The two calls of the ring wait for each other and stay invalid, though call 0 has not changed. */
  lemma RingStays(fc: seq<nat>, del: seq<bool>)
    requires Swept(AfterInvalidation(RingTask()), fc, del)
    ensures !Restored(PassedSet(RingTask()), 0, fc, del)
  {
    hide Passed, Swept, Restored, AfterInvalidation, PassedSet;
    var k := RingTask();
    RingOk();
    StartPassed(k);
    PassedClosed(k);
    RingEdges();
    RingFits();
    RestoredExactly(k, fc, del);
    var c: seq<nat> := [1, 2];
    assert CycleEdge(k.g, c, 0) && CycleEdge(k.g, c, 1);
    InPassed(k, 1);
    InPassed(k, 2);
    assert Cycle(k.g, PassedSet(k) - {k.start}, c);
  }

  lemma InPassed(k: Task, u: nat)
    requires Passed(k, u) && u < |k.g|
    ensures u in PassedSet(k)
  {
  }

  lemma RingOk()
    ensures TaskOk(RingTask()) && AllValid(RingTask())
  {
    var k := RingTask();
    assert k.g[0] == [1] && k.g[1] == [2] && k.g[2] == [1];
  }

  lemma RingEdges()
    ensures Edge(RingTask().g, 0, 1) && Edge(RingTask().g, 1, 2) && Edge(RingTask().g, 2, 1)
  {
    var g := RingTask().g;
    assert g[0] == [1] && g[1] == [2] && g[2] == [1];
  }

  lemma RingFits()
    ensures Fits(RingTask())
  {
    hide Passed;
    var k := RingTask();
    forall u: nat | u < |k.g| ensures |PassedBefore(k, u)| <= 3 { SizeLe(PassedBefore(k, u), {0, 1, 2}); }
  }

  lemma OneTrail(g: Graph, s: set<nat>, x: nat)
    requires x in s
    ensures Trail(g, s, [x])
  {
  }

  /** Whether counts overflowed or not, the others are all restored when they have all been told. */
  lemma RestoredTold(k: Task, fc: seq<nat>, del: seq<bool>)
    requires TaskOk(k) && AllValid(k) && Swept(AfterInvalidation(k), fc, del)
    ensures Restored(PassedSet(k), k.start, fc, del) <==> Untold(k, fc) == {}
  {
    hide Passed, TaskOk, AllValid, AfterInvalidation, TellClosed, Heard;
    BaseFields(k);
    forall v: nat | v in PassedSet(k) && v != k.start ensures AfterInvalidation(k).del0[v] { MarkedPassed(k, v); }
    if Restored(PassedSet(k), k.start, fc, del) && Untold(k, fc) != {} {
      var x := SomeOf(Untold(k, fc));
    }
    forall v: nat | v in PassedSet(k) && v != k.start ensures v !in ToldSet(AfterInvalidation(k), fc) ==> v in Untold(k, fc) { }
  }

  lemma MarkedPassed(k: Task, v: nat)
    requires v in PassedSet(k) && v != k.start
    ensures AfterInvalidation(k).del0[v]
  {
    hide Passed;
  }

  lemma UntoldAffected(k: Task, fc: seq<nat>, del: seq<bool>, v: nat)
    requires TaskOk(k) && AllValid(k) && Fits(k) && Swept(AfterInvalidation(k), fc, del) && v in Untold(k, fc)
    ensures Affected(k.g, Untold(k, fc), v)
  {
    hide Passed, TaskOk, AllValid, Fits, AfterInvalidation, Heard, Edge;
    var t := ToldSet(AfterInvalidation(k), fc);
    BaseFields(k);
    StartNotTold(k, fc, del);
    ExactCounts(k, v);
    HeardPassed(k, t, v);
    var u := Missing(Among(k, t, v), PassedBefore(k, v));
    EdgeIs(k.g, u, v);
    assert u in Untold(k, fc);
  }

  lemma Missing(a: set<nat>, b: set<nat>) returns (u: nat)
    requires a <= b && |a| < |b|
    ensures u in b && u !in a
  {
    assert a != b;
    u :| u in b && u !in a;
  }

  /** Without the calls of a cycle the calls told are closed still: nobody on the cycle is told. */
  lemma NoCycleTold(k: Task, fc: seq<nat>, del: seq<bool>, c: seq<nat>)
    requires TaskOk(k) && AllValid(k) && Fits(k) && Swept(AfterInvalidation(k), fc, del)
    requires Cycle(k.g, PassedSet(k) - {k.start}, c)
    ensures c[0] in Untold(k, fc)
  {
    hide Passed, TaskOk, AllValid, Fits, AfterInvalidation, Heard, Edge, CycleEdge, PassedBefore;
    var b := AfterInvalidation(k);
    var t := ToldSet(b, fc);
    var s := set v | v in t && v !in c;
    BaseFields(k);
    StartNotTold(k, fc, del);
    forall v: nat | v < |b.g| && v < |b.fc0| && b.fc0[v] > 0 && Heard(b, s, v) >= b.fc0[v] ensures v in s {
      HeardMore(b, s, t, v);
      if v in c {
        HeardPassed(k, s, v);
        ExactCounts(k, v);
        OnCycle(k, s, c, v);
      }
    }
    assert TellClosed(b, s);
    assert c[0] in PassedSet(k) - {k.start} && c[0] !in s;
  }

  lemma OnCycle(k: Task, s: set<nat>, c: seq<nat>, v: nat)
    requires TaskOk(k) && Cycle(k.g, PassedSet(k) - {k.start}, c) && v in c && forall u :: u in s ==> u !in c
    ensures |Among(k, s, v)| < |PassedBefore(k, v)|
  {
    hide Passed, TaskOk, Edge;
    var i :| 0 <= i < |c| && c[i] == v;
    var j := if i > 0 then i - 1 else |c| - 1;
    assert CycleEdge(k.g, c, j);
    var u := c[j];
    assert u in PassedSet(k) - {k.start};
    EdgeIs(k.g, u, v);
    assert u in PassedBefore(k, v) && u !in Among(k, s, v);
    SizeLe(Among(k, s, v), PassedBefore(k, v) - {u});
  }

  lemma CycleMore(g: Graph, s: set<nat>, s1: set<nat>, c: seq<nat>)
    requires Cycle(g, s, c) && s <= s1
    ensures Cycle(g, s1, c)
  {
  }

  lemma PassedClosed(k: Task)
    requires TaskOk(k) && AllValid(k)
    ensures forall u: nat, v: nat :: Passed(k, u) && Edge(k.g, u, v) ==> Passed(k, v) && v < |k.g|
    ensures forall u: nat :: Passed(k, u) ==> u < |k.g|
  {
    hide Reachable, Simple, Open;
    var h := Open(k.g, k.deleted);
    forall u: nat, v: nat | Passed(k, u) && Edge(k.g, u, v) ensures Passed(k, v) && v < |k.g| {
      EdgeBound(k.g, u, v);
      OpenEdge(k.g, k.deleted, u, v);
      ReachEdge(h, u, v);
      ReachTrans(h, k.start, u, v);
    }
    forall u: nat | Passed(k, u) ensures u < |k.g| { ClosedOpen(k.g, k.deleted, k.start, u); }
  }

  /** A passed call other than the start has been reached from a passed call. */
  lemma PassedFrom(k: Task, u: nat) returns (v: nat)
    requires TaskOk(k) && Passed(k, u) && u != k.start
    ensures Passed(k, v) && v < |k.g| && u in k.g[v]
  {
    var h := Open(k.g, k.deleted);
    var p :| Connects(h, p, k.start, u);
    var n := |p| - 1;
    v := p[n - 1];
    assert StepAt(h, p, n - 1);
    Pieces(h, p, n - 1);
    OpenEdge(k.g, k.deleted, v, u);
  }
}
