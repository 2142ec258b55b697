/** The edges of the incremental call graph: an outedge table per call and, as its dual, an inedge list per call
    (XSB/emu/call_graph_xsb.c, addcalledge, deleteoutedges, deleteinedges and deletecallnode). */
module CallEdges {
  import opened Invalidate

  /** The tables of outedges, by the ids of the calls; the order in a table does not matter. */
  type Tables = map<int, set<int>>

  /** The lists of inedges; an entry stands for the table of the call that it names. */
  type Lists = map<int, seq<int>>

  predicate HasOut(t: Tables, u: int, v: int) {
    u in t && v in t[u]
  }

  predicate HasIn(l: Lists, u: int, v: int) {
    v in l && u in l[v]
  }

  /** All edges. */
  ghost function Pairs(t: Tables): (r: set<(int, int)>)
    ensures forall u, v :: (u, v) in r <==> HasOut(t, u, v)
  {
    set u, v | u in t && v in t[u] :: (u, v)
  }

  function Elems(xs: seq<int>): set<int> {
    set x | x in xs
  }

  predicate Distinct(xs: seq<int>) {
    forall i, j :: 0 <= i < j < |xs| ==> xs[i] != xs[j]
  }

  /** Tables and lists say the same, about live calls only. */
  ghost predicate Dual(t: Tables, l: Lists) {
    && t.Keys == l.Keys
    && (forall u, v :: HasOut(t, u, v) <==> HasIn(l, u, v))
    && (forall v :: v in l ==> Distinct(l[v]))
  }

  /** The counts of outedges have 14 bits. */
  ghost predicate CountsOut(t: Tables, c: map<int, int>) {
    c.Keys == t.Keys && forall u :: u in t ==> c[u] == |t[u]| % 16384
  }

  // ---- adding an edge ---------------------------------------------------------------------------

  function AddedOut(t: Tables, u: int, v: int): Tables
    requires u in t
  {
    t[u := t[u] + {v}]
  }

  function AddedIn(l: Lists, u: int, v: int): Lists
    requires v in l
  {
    l[v := [u] + l[v]]
  }

  lemma AddDual(t: Tables, l: Lists, u: int, v: int)
    requires Dual(t, l) && u in t && v in t && v !in t[u]
    ensures Dual(AddedOut(t, u, v), AddedIn(l, u, v))
    ensures Pairs(AddedOut(t, u, v)) == Pairs(t) + {(u, v)} && (u, v) !in Pairs(t)
  {
    var t1, l1 := AddedOut(t, u, v), AddedIn(l, u, v);
    forall x, y ensures HasOut(t1, x, y) <==> HasOut(t, x, y) || (x == u && y == v) { }
    forall x, y ensures HasIn(l1, x, y) <==> HasIn(l, x, y) || (x == u && y == v) { InFront(l[v], u, x); }
    assert !HasIn(l, u, v);
    forall y | y in l1 ensures Distinct(l1[y]) { FrontDistinct(l[v], u); }
    assert Pairs(t1) == Pairs(t) + {(u, v)};
  }

  lemma InFront(xs: seq<int>, u: int, x: int)
    ensures x in [u] + xs <==> x == u || x in xs
  {
  }

  lemma FrontDistinct(xs: seq<int>, u: int)
    ensures u !in xs && Distinct(xs) ==> Distinct([u] + xs)
  {
  }

  // ---- taking a call out ------------------------------------------------------------------------

  /** The first occurrence of x is unlinked. */
  function Unlinked(xs: seq<int>, x: int): seq<int> {
    if xs == [] then [] else if xs[0] == x then xs[1..] else [xs[0]] + Unlinked(xs[1..], x)
  }

  lemma {:induction false} UnlinkedIs(xs: seq<int>, x: int)
    requires Distinct(xs)
    ensures Distinct(Unlinked(xs, x)) && forall y :: y in Unlinked(xs, x) <==> y in xs && y != x
  {
    if xs != [] {
      assert xs == [xs[0]] + xs[1..];
      assert Distinct(xs[1..]) && xs[0] !in xs[1..];
      UnlinkedIs(xs[1..], x);
      if xs[0] != x { FrontDistinct(Unlinked(xs[1..], x), xs[0]); }
    }
  }

  lemma {:induction false} UnlinkedAt(xs: seq<int>, x: int, i: nat)
    requires i < |xs| && xs[i] == x && x !in xs[..i]
    ensures Unlinked(xs, x) == xs[..i] + xs[i + 1..]
  {
    if i > 0 {
      assert xs[0] == xs[..i][0];
      assert xs[..i] == [xs[0]] + xs[1..][..i - 1];
      UnlinkedAt(xs[1..], x, i - 1);
    }
  }

  lemma {:induction false} UnlinkedNone(xs: seq<int>, x: int)
    requires x !in xs
    ensures Unlinked(xs, x) == xs
  {
    if xs != [] {
      assert xs == [xs[0]] + xs[1..];
      UnlinkedNone(xs[1..], x);
    }
  }

  /** What deleteoutedges leaves in the lists of the targets that it has dealt with. */
  ghost predicate OutGone(l: Lists, cn: int, dealt: set<int>, l1: Lists) {
    l1.Keys == l.Keys && forall v :: v in l ==> l1[v] == if v in dealt && v != cn then Unlinked(l[v], cn) else l[v]
  }

  /** What deleteinedges leaves in the tables of the calls that it has dealt with. */
  ghost predicate InGone(t: Tables, cn: int, dealt: set<int>, t1: Tables) {
    t1.Keys == t.Keys && forall u :: u in t ==> t1[u] == if u in dealt && u != cn then t[u] - {cn} else t[u]
  }

  ghost predicate Shorter(t: Tables, cn: int, t2: Tables) {
    t2.Keys == t.Keys - {cn} && forall u :: u in t2 ==> t2[u] == t[u] - {cn}
  }

  ghost predicate Thinner(l: Lists, cn: int, l2: Lists) {
    l2.Keys == l.Keys - {cn} && forall v :: v in l2 ==> l2[v] == Unlinked(l[v], cn)
  }

  lemma GoneShorter(t: Tables, l: Lists, cn: int, t1: Tables)
    requires Dual(t, l) && cn in t && InGone(t, cn, Elems(l[cn]), t1)
    ensures Shorter(t, cn, t1 - {cn})
  {
    hide HasOut, Distinct;
    forall u | u in t && u != cn ensures t1[u] == t[u] - {cn} { HasInOut(t, l, u, cn); }
  }

  lemma HasInOut(t: Tables, l: Lists, u: int, v: int)
    requires Dual(t, l) && u in t && v in t
    ensures v in l && (v in t[u] <==> u in l[v]) && Distinct(l[v])
  {
    assert HasOut(t, u, v) <==> HasIn(l, u, v);
  }

  lemma GoneThinner(t: Tables, l: Lists, cn: int, l1: Lists)
    requires Dual(t, l) && cn in t && OutGone(l, cn, t[cn], l1)
    ensures Thinner(l, cn, l1 - {cn})
  {
    hide HasOut, HasIn, Dual, Unlinked, Distinct;
    DualKeys(t, l);
    forall v | v in l && v != cn ensures l1[v] == Unlinked(l[v], cn) {
      HasInOut(t, l, cn, v);
      if v !in t[cn] { UnlinkedNone(l[v], cn); }
    }
  }

  lemma DualKeys(t: Tables, l: Lists)
    requires Dual(t, l)
    ensures t.Keys == l.Keys
  {
  }

  /** Without cn the two sides are dual again. */
  lemma ShorterDual(t: Tables, l: Lists, cn: int, t2: Tables, l2: Lists)
    requires Dual(t, l) && Shorter(t, cn, t2) && Thinner(l, cn, l2)
    ensures Dual(t2, l2)
  {
    hide Unlinked, Distinct;
    forall v | v in l2 ensures Distinct(l2[v]) { UnlinkedIs(l[v], cn); }
    forall u, v ensures HasOut(t2, u, v) <==> HasIn(l2, u, v) {
      ShorterOut(t, cn, t2, u, v);
      ThinnerIn(t, l, cn, l2, u, v);
      assert HasOut(t, u, v) <==> HasIn(l, u, v);
    }
  }

  lemma ShorterOut(t: Tables, cn: int, t2: Tables, u: int, v: int)
    requires Shorter(t, cn, t2)
    ensures HasOut(t2, u, v) <==> HasOut(t, u, v) && u != cn && v != cn
  {
  }

  lemma ThinnerIn(t: Tables, l: Lists, cn: int, l2: Lists, u: int, v: int)
    requires Dual(t, l) && Thinner(l, cn, l2)
    ensures HasIn(l2, u, v) <==> HasIn(l, u, v) && u != cn && v != cn
  {
    hide Unlinked, HasOut, Distinct;
    if v in l { UnlinkedIs(l[v], cn); }
  }

  // ---- how many edges there are ------------------------------------------------------------------

  ghost function Row(u: int, s: set<int>): set<(int, int)> {
    set v | v in s :: (u, v)
  }

  ghost function Column(s: set<int>, v: int): set<(int, int)> {
    set u | u in s :: (u, v)
  }

  lemma Inhabited(s: set<int>)
    requires |s| > 0
    ensures exists x :: x in s
  {
    assert (forall x :: x !in s) ==> s == {};
  }

  lemma {:induction false} RowSize(u: int, s: set<int>)
    ensures |Row(u, s)| == |s|
  {
    if |s| > 0 {
      Inhabited(s);
      var x :| x in s;
      RowSize(u, s - {x});
      assert Row(u, s) == Row(u, s - {x}) + {(u, x)};
    }
  }

  lemma {:induction false} ColumnSize(s: set<int>, v: int)
    ensures |Column(s, v)| == |s|
  {
    if |s| > 0 {
      Inhabited(s);
      var x :| x in s;
      ColumnSize(s - {x}, v);
      assert Column(s, v) == Column(s - {x}, v) + {(x, v)};
    }
  }

  lemma {:induction false} ElemsSize(xs: seq<int>)
    requires Distinct(xs)
    ensures |Elems(xs)| == |xs|
  {
    if xs != [] {
      var n := |xs| - 1;
      ElemsSize(xs[..n]);
      assert xs == xs[..n] + [xs[n]];
      assert Elems(xs) == Elems(xs[..n]) + {xs[n]};
      assert xs[n] !in xs[..n];
    }
  }

  /** Taking cn out removes its row and its column; a loop is in both. */
  lemma PairsGone(t: Tables, l: Lists, cn: int, t2: Tables)
    requires Dual(t, l) && cn in t && cn in l && Shorter(t, cn, t2)
    ensures |Pairs(t2)| == |Pairs(t)| - |t[cn]| - |Elems(l[cn]) - {cn}|
  {
    hide Shorter, Dual;
    var row, column := Row(cn, t[cn]), Column(Elems(l[cn]) - {cn}, cn);
    RowSize(cn, t[cn]);
    ColumnSize(Elems(l[cn]) - {cn}, cn);
    forall u, v ensures (u, v) in column <==> (u, v) in Pairs(t) && u != cn && v == cn {
      if v == cn { InOut(t, l, u, v); }
    }
    forall u, v ensures (u, v) in Pairs(t2) <==> (u, v) in Pairs(t) && u != cn && v != cn { ShorterOut(t, cn, t2, u, v); }
    forall u, v ensures (u, v) in row <==> (u, v) in Pairs(t) && u == cn { }
    Partition(Pairs(t), row, column, Pairs(t2), cn);
  }

  lemma InOut(t: Tables, l: Lists, u: int, v: int)
    requires Dual(t, l)
    ensures HasOut(t, u, v) <==> HasIn(l, u, v)
  {
  }

  lemma Partition(all: set<(int, int)>, row: set<(int, int)>, column: set<(int, int)>, rest: set<(int, int)>, cn: int)
    requires forall u, v :: (u, v) in column <==> (u, v) in all && u != cn && v == cn
    requires forall u, v :: (u, v) in row <==> (u, v) in all && u == cn
    requires forall u, v :: (u, v) in rest <==> (u, v) in all && u != cn && v != cn
    ensures |rest| == |all| - |row| - |column|
  {
    forall e ensures e in rest <==> e in all - row - column { var (u, v) := e; }
    assert rest == all - row - column;
    forall e | e in row ensures e in all { var (u, v) := e; }
    forall e | e in column ensures e in all - row { var (u, v) := e; }
    SizeGone(all, row, column);
  }

  lemma SizeGone(all: set<(int, int)>, row: set<(int, int)>, column: set<(int, int)>)
    requires row <= all && column <= all - row
    ensures |all - row - column| == |all| - |row| - |column|
  {
  }

  class CallGraphEdges {
    var outedges: Tables
    var inedges: Lists
    var outcount: map<int, int>
    var current_call_edge_count: int
    var current_call_node_count: int
    var total_call_node_count: int

    ghost predicate Valid()
      reads this
    {
      && Dual(outedges, inedges) && CountsOut(outedges, outcount)
      && current_call_edge_count == |Pairs(outedges)| && current_call_node_count == |outedges.Keys|
      && forall u :: u in outedges ==> u < total_call_node_count
    }

    constructor ()
      ensures Valid() && outedges == map[]
    {
      outedges, inedges, outcount := map[], map[], map[];
      current_call_edge_count, current_call_node_count, total_call_node_count := 0, 0, 0;
    }

    /** makecallnode and initoutedges. */
    method MakeCallNode() returns (cn: int)
      requires Valid()
      modifies this
      ensures Valid() && cn !in old(outedges)
      ensures outedges == old(outedges)[cn := {}] && inedges == old(inedges)[cn := []]
    {
      hide Dual, CountsOut, Pairs;
      cn := total_call_node_count;
      NewTable(outedges, inedges, outcount, cn);
      total_call_node_count := total_call_node_count + 1;
      outedges, inedges, outcount := outedges[cn := {}], inedges[cn := []], outcount[cn := 0];
      current_call_node_count := current_call_node_count + 1;
    }

    method AddCallEdge(fromcn: int, tocn: int)
      requires Valid() && fromcn in outedges && tocn in outedges
      modifies this
      ensures Valid() && outedges == AddedOut(old(outedges), fromcn, tocn)
      ensures Pairs(outedges) == old(Pairs(outedges)) + {(fromcn, tocn)}
      ensures HasOut(old(outedges), fromcn, tocn) ==> inedges == old(inedges)
      ensures !HasOut(old(outedges), fromcn, tocn) ==> tocn in old(inedges) && inedges == AddedIn(old(inedges), fromcn, tocn)
    {
      hide Dual, CountsOut, Pairs;
      SameKeys(outedges, inedges, outcount);
      if tocn !in outedges[fromcn] {
        AddDual(outedges, inedges, fromcn, tocn);
        AddCounts(outedges, outcount, fromcn, tocn);
        outedges := outedges[fromcn := outedges[fromcn] + {tocn}];
        inedges := inedges[tocn := [fromcn] + inedges[tocn]];
        current_call_edge_count := current_call_edge_count + 1;
        outcount := outcount[fromcn := (outcount[fromcn] + 1) % LIMIT];
      } else {
        AddAgain(outedges, fromcn, tocn);
      }
    }

    /** Unlinks the entry of callnode from the inedge list of cn_itr. */
    method UnlinkInedge(cn_itr: int, callnode: int)
      requires cn_itr in inedges
      modifies this`inedges
      ensures inedges == old(inedges)[cn_itr := Unlinked(old(inedges)[cn_itr], callnode)]
    {
      var list := inedges[cn_itr];
      var i := 0;
      while i < |list|
        invariant 0 <= i <= |list| && callnode !in list[..i] && inedges == old(inedges)
      {
        if list[i] == callnode {
          UnlinkedAt(list, callnode, i);
          inedges := inedges[cn_itr := list[..i] + list[i + 1..]];
          return;
        }
        i := i + 1;
      }
      assert list[..i] == list;
      UnlinkedNone(list, callnode);
      assert inedges == inedges[cn_itr := list];
    }

    /** The table of callnode itself stays; it is deallocated with the call. */
    method DeleteOutedges(callnode: int)
      requires callnode in outedges && outedges[callnode] <= inedges.Keys
      modifies this`inedges, this`outcount, this`current_call_edge_count
      ensures OutGone(old(inedges), callnode, outedges[callnode], inedges)
      ensures current_call_edge_count == old(current_call_edge_count) - |outedges[callnode]|
      ensures outcount == if outedges[callnode] == {} then old(outcount) else old(outcount)[callnode := 0]
    {
      hide OutGone, Unlinked;
      var todo := outedges[callnode];
      OutGoneNone(inedges, callnode);
      assert outedges[callnode] - todo == {};
      while |todo| > 0
        invariant todo <= outedges[callnode] && inedges.Keys == old(inedges).Keys && outcount == old(outcount)
        invariant OutGone(old(inedges), callnode, outedges[callnode] - todo, inedges)
        invariant current_call_edge_count == old(current_call_edge_count) - |outedges[callnode]| + |todo|
      {
        Inhabited(todo);
        var cn_itr :| cn_itr in todo;
        OutGoneNext(old(inedges), callnode, outedges[callnode] - todo, inedges, cn_itr);
        assert outedges[callnode] - (todo - {cn_itr}) == outedges[callnode] - todo + {cn_itr};
        if cn_itr != callnode { UnlinkInedge(cn_itr, callnode); }
        current_call_edge_count := current_call_edge_count - 1;
        todo := todo - {cn_itr};
      }
      assert outedges[callnode] - todo == outedges[callnode];
      assert |outedges[callnode]| > 0 <==> outedges[callnode] != {};
      if |outedges[callnode]| > 0 { outcount := outcount[callnode := 0]; }
    }

    /** found is false when an inedge has no counterpart, which is a bug. */
    method DeleteInedges(callnode: int) returns (found: bool)
      requires callnode in inedges && outedges.Keys == outcount.Keys && Elems(inedges[callnode]) <= outedges.Keys
      modifies this`outedges, this`outcount, this`current_call_edge_count
      ensures found <==> Matched(old(outedges), inedges[callnode], callnode)
      ensures found && Distinct(inedges[callnode]) ==>
        && InGone(old(outedges), callnode, Elems(inedges[callnode]), outedges)
        && current_call_edge_count == old(current_call_edge_count) - |Elems(inedges[callnode]) - {callnode}|
        && CountsLess(old(outcount), callnode, Elems(inedges[callnode]), outcount)
    {
      hide InGone, CountsLess, Elems, Matched, Distinct;
      ghost var l, t, c := inedges[callnode], outedges, outcount;
      NothingGone(t, c, callnode);
      assert l[..0] == [];
      var i := 0;
      while i < |inedges[callnode]|
        invariant 0 <= i <= |l| && Matched(t, l[..i], callnode)
        invariant outedges.Keys == t.Keys == outcount.Keys
        invariant InGone(t, callnode, Elems(l[..i]), outedges)
        invariant Distinct(l) ==> CountsLess(c, callnode, Elems(l[..i]), outcount)
        invariant Distinct(l) ==> current_call_edge_count == old(current_call_edge_count) - |Elems(l[..i]) - {callnode}|
      {
        var u := inedges[callnode][i];
        ElemsAt(l, i);
        MatchedNext(t, l, callnode, i, outedges);
        if Distinct(l) { NextGone(t, c, l, callnode, i, outedges, outcount); }
        if u != callnode {
          if callnode !in outedges[u] { return false; }
          NextOut(t, l, callnode, i, outedges);
          outedges := outedges[u := outedges[u] - {callnode}];
          current_call_edge_count := current_call_edge_count - 1;
          outcount := outcount[u := (outcount[u] + LIMIT - 1) % LIMIT];
        } else {
          NextOut(t, l, callnode, i, outedges);
        }
        i := i + 1;
      }
      assert l[..i] == l;
      found := true;
    }

    /** freed is false when the call still has outedges by its count, which is an error. */
    method DeleteCallNode(callnode: int) returns (freed: bool)
      requires callnode in outcount
      modifies this`outedges, this`inedges, this`outcount, this`current_call_node_count
      ensures freed <==> old(outcount)[callnode] == 0
      ensures freed ==> outedges == old(outedges) - {callnode} && inedges == old(inedges) - {callnode} && outcount == old(outcount) - {callnode}
      ensures current_call_node_count == old(current_call_node_count) - 1
    {
      current_call_node_count := current_call_node_count - 1;
      if outcount[callnode] == 0 {
        outedges, inedges, outcount := outedges - {callnode}, inedges - {callnode}, outcount - {callnode};
        freed := true;
      } else {
        freed := false;
      }
    }

    /** A call is abolished: the graph keeps exactly the edges among the others, loops included, and no error is reached. */
    method Detach(callnode: int) returns (ok: bool)
      requires Valid() && callnode in outedges
      modifies this
      ensures ok && Valid() && Shorter(old(outedges), callnode, outedges) && Thinner(old(inedges), callnode, inedges)
      ensures forall u, v :: (u, v) in Pairs(outedges) <==> (u, v) in old(Pairs(outedges)) && u != callnode && v != callnode
    {
      hide Dual, CountsOut, Pairs, OutGone, InGone, CountsLess, Matched, Shorter, Thinner, Elems, HasOut, HasIn, Distinct, Unlinked;
      ghost var t, l, c := outedges, inedges, outcount;
      SameKeys(t, l, c);
      OutInside(t, l, callnode);
      DeleteOutedges(callnode);
      ListKept(l, callnode, t[callnode], inedges);
      AllMatched(t, l, callnode);
      ghost var c1 := outcount;
      var found := DeleteInedges(callnode);
      ghost var t2, l2, c2 := outedges - {callnode}, inedges - {callnode}, outcount - {callnode};
      Detached(t, l, c, callnode, outedges, inedges, c1, outcount);
      assert forall u :: u in t2 ==> u < total_call_node_count;
      var freed := DeleteCallNode(callnode);
      ok := found && freed;
      assert outedges == t2 && inedges == l2 && outcount == c2;
    }
  }

  /** Both sides without cn, and the counts. */
  lemma Detached(t: Tables, l: Lists, c: map<int, int>, cn: int, t1: Tables, l1: Lists, c1: map<int, int>, c2: map<int, int>)
    requires Dual(t, l) && CountsOut(t, c) && cn in t && cn in l
    requires InGone(t, cn, Elems(l[cn]), t1) && OutGone(l, cn, t[cn], l1)
    requires c1 == (if t[cn] == {} then c else c[cn := 0]) && CountsLess(c1, cn, Elems(l[cn]), c2)
    ensures var t2, l2 := t1 - {cn}, l1 - {cn};
      (Shorter(t, cn, t2) && Thinner(l, cn, l2) && Dual(t2, l2) && cn in c2 && c2[cn] == 0 && CountsOut(t2, c2 - {cn}))
    ensures |Pairs(t1 - {cn})| == |Pairs(t)| - |t[cn]| - |Elems(l[cn]) - {cn}|
    ensures |(t1 - {cn}).Keys| == |t.Keys| - 1 && forall u :: u in t1 - {cn} ==> u in t
    ensures forall u, v :: (u, v) in Pairs(t1 - {cn}) <==> (u, v) in Pairs(t) && u != cn && v != cn
  {
    hide Dual, CountsOut, Pairs, OutGone, InGone, CountsLess, Matched, Elems, Thinner, HasOut, HasIn, Distinct, Unlinked;
    var t2, l2 := t1 - {cn}, l1 - {cn};
    GoneShorter(t, l, cn, t1);
    GoneThinner(t, l, cn, l1);
    CountsGone(t, l, c, cn, c1, c2, t2);
    ShorterDual(t, l, cn, t2, l2);
    PairsGone(t, l, cn, t2);
    PairsShorter(t, cn, t2);
  }

  lemma SameKeys(t: Tables, l: Lists, c: map<int, int>)
    requires Dual(t, l) && CountsOut(t, c)
    ensures t.Keys == l.Keys == c.Keys
  {
  }

  lemma NewTable(t: Tables, l: Lists, c: map<int, int>, cn: int)
    requires Dual(t, l) && CountsOut(t, c) && cn !in t
    ensures Dual(t[cn := {}], l[cn := []]) && CountsOut(t[cn := {}], c[cn := 0])
    ensures Pairs(t[cn := {}]) == Pairs(t) && |t[cn := {}].Keys| == |t.Keys| + 1
  {
    hide Distinct;
    var t1, l1 := t[cn := {}], l[cn := []];
    forall u, v ensures HasOut(t1, u, v) <==> HasOut(t, u, v) { }
    forall u, v ensures HasIn(l1, u, v) <==> HasIn(l, u, v) { }
    NoneDistinct();
    assert Pairs(t1) == Pairs(t);
    assert t1.Keys == t.Keys + {cn};
  }

  lemma NoneDistinct()
    ensures Distinct([])
  {
  }

  lemma AddCounts(t: Tables, c: map<int, int>, u: int, v: int)
    requires CountsOut(t, c) && u in t && v !in t[u]
    ensures CountsOut(AddedOut(t, u, v), c[u := (c[u] + 1) % LIMIT])
    ensures |AddedOut(t, u, v).Keys| == |t.Keys| && AddedOut(t, u, v).Keys == t.Keys
  {
    CountUp(|t[u]|);
    assert AddedOut(t, u, v).Keys == t.Keys;
  }

  lemma AddAgain(t: Tables, u: int, v: int)
    requires HasOut(t, u, v)
    ensures AddedOut(t, u, v) == t && Pairs(t) == Pairs(t) + {(u, v)}
  {
    assert t[u] + {v} == t[u];
  }

  lemma OutGoneNone(l: Lists, cn: int)
    ensures OutGone(l, cn, {}, l)
  {
  }

  lemma OutGoneNext(l: Lists, cn: int, dealt: set<int>, l1: Lists, v: int)
    requires OutGone(l, cn, dealt, l1) && v in l && v !in dealt
    ensures v in l1 && OutGone(l, cn, dealt + {v}, if v == cn then l1 else l1[v := Unlinked(l1[v], cn)])
  {
  }

  /** Each inedge from another call has its counterpart, and no other has the same. */
  ghost predicate Matched(t: Tables, l: seq<int>, cn: int) {
    && (forall u :: u in l && u != cn ==> u in t && cn in t[u])
    && forall i, j :: 0 <= i < j < |l| && l[i] != cn ==> l[i] != l[j]
  }

  lemma MatchedNext(t: Tables, l: seq<int>, cn: int, i: nat, t1: Tables)
    requires i < |l| && Matched(t, l[..i], cn) && InGone(t, cn, Elems(l[..i]), t1) && l[i] in t
    ensures l[i] in t1 && (Matched(t, l[..i + 1], cn) <==> l[i] == cn || cn in t1[l[i]])
    ensures !Matched(t, l[..i + 1], cn) ==> !Matched(t, l, cn)
  {
    var a, b := l[..i], l[..i + 1];
    assert b == a + [l[i]];
    forall x ensures x in b ==> x in l { }
    if l[i] != cn {
      if l[i] in a {
        var k :| 0 <= k < |a| && a[k] == l[i];
        assert b[k] == b[i] && l[k] == l[i];
      }
      if !Matched(t, b, cn) { assert l[i] in l; }
    }
  }

  lemma NextOut(t: Tables, l: seq<int>, cn: int, i: nat, t1: Tables)
    requires i < |l| && InGone(t, cn, Elems(l[..i]), t1) && l[i] in t
    ensures l[i] in t1 && InGone(t, cn, Elems(l[..i + 1]), if l[i] == cn then t1 else t1[l[i] := t1[l[i]] - {cn}])
  {
    hide Elems;
    ElemsAt(l, i);
  }

  /** The counts after deleteinedges has dealt with some calls. */
  ghost predicate CountsLess(c: map<int, int>, cn: int, dealt: set<int>, c1: map<int, int>) {
    c1.Keys == c.Keys && forall u :: u in c ==> c1[u] == if u in dealt && u != cn then (c[u] + LIMIT - 1) % LIMIT else c[u]
  }

  lemma NothingGone(t: Tables, c: map<int, int>, cn: int)
    ensures InGone(t, cn, Elems([]), t) && CountsLess(c, cn, Elems([]), c) && |Elems([]) - {cn}| == 0 && Matched(t, [], cn)
  {
    assert Elems([]) == {};
  }

  lemma ElemsAt(l: seq<int>, i: nat)
    requires i < |l|
    ensures l[i] in Elems(l) && Elems(l[..i + 1]) == Elems(l[..i]) + {l[i]}
    ensures Distinct(l) ==> l[i] !in Elems(l[..i])
  {
    assert l[..i + 1] == l[..i] + [l[i]];
  }

  lemma NextGone(t: Tables, c: map<int, int>, l: seq<int>, cn: int, i: nat, t1: Tables, c1: map<int, int>)
    requires Distinct(l) && i < |l| && t.Keys == c.Keys && Elems(l) <= t.Keys
    requires InGone(t, cn, Elems(l[..i]), t1) && CountsLess(c, cn, Elems(l[..i]), c1)
    ensures var u := l[i];
      (u in t1 && u in c1 && CountsLess(c, cn, Elems(l[..i + 1]), if u == cn then c1 else c1[u := (c1[u] + LIMIT - 1) % LIMIT]))
    ensures |Elems(l[..i + 1]) - {cn}| == |Elems(l[..i]) - {cn}| + (if l[i] == cn then 0 else 1)
  {
    hide Elems, Distinct;
    var u := l[i];
    ElemsAt(l, i);
    var a, b := Elems(l[..i]), Elems(l[..i + 1]);
    assert b - {cn} == if u == cn then a - {cn} else a - {cn} + {u};
  }

  lemma OutInside(t: Tables, l: Lists, cn: int)
    requires Dual(t, l) && cn in t
    ensures cn in l && t[cn] <= l.Keys && Elems(l[cn]) <= t.Keys
  {
    forall v | v in t[cn] ensures v in l { assert HasOut(t, cn, v); }
    forall u | u in Elems(l[cn]) ensures u in t { assert HasIn(l, u, cn); }
  }

  lemma ListKept(l: Lists, cn: int, out: set<int>, l1: Lists)
    requires OutGone(l, cn, out, l1) && cn in l
    ensures cn in l1 && l1[cn] == l[cn]
  {
  }

  lemma AllMatched(t: Tables, l: Lists, cn: int)
    requires Dual(t, l) && cn in l
    ensures Matched(t, l[cn], cn) && Distinct(l[cn])
  {
    forall u | u in l[cn] ensures u in t && cn in t[u] { assert HasIn(l, u, cn); }
  }

  lemma CountDown(n: int)
    requires n > 0
    ensures (n % LIMIT + LIMIT - 1) % LIMIT == (n - 1) % LIMIT
  {
  }

  lemma CountsGone(t: Tables, l: Lists, c: map<int, int>, cn: int, c1: map<int, int>, c2: map<int, int>, t2: Tables)
    requires Dual(t, l) && CountsOut(t, c) && cn in t && cn in l && Shorter(t, cn, t2)
    requires c1 == (if t[cn] == {} then c else c[cn := 0]) && CountsLess(c1, cn, Elems(l[cn]), c2)
    ensures c2.Keys == t.Keys && c2[cn] == 0 && CountsOut(t2, c2 - {cn})
  {
    hide Dual;
    assert c1.Keys == c.Keys;
    forall u | u in t2 ensures c2[u] == |t2[u]| % LIMIT {
      HasInOut(t, l, u, cn);
      if cn in t[u] {
        assert |t[u] - {cn}| == |t[u]| - 1;
        CountDown(|t[u]|);
      } else {
        assert t[u] - {cn} == t[u];
      }
    }
  }

  lemma PairsShorter(t: Tables, cn: int, t2: Tables)
    requires Shorter(t, cn, t2) && cn in t
    ensures forall u, v :: (u, v) in Pairs(t2) <==> (u, v) in Pairs(t) && u != cn && v != cn
    ensures |t2.Keys| == |t.Keys| - 1
  {
    forall u, v ensures HasOut(t2, u, v) <==> HasOut(t, u, v) && u != cn && v != cn { ShorterOut(t, cn, t2, u, v); }
  }
}
