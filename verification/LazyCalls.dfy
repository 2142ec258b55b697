/** Lazy incremental updates: which affected calls have to be evaluated before a call, and in which order
    (XSB/emu/call_graph_xsb.c, dfs_inedges). */
module LazyCalls {
  import opened Reach
  import opened Invalidate

  /** What stays fixed during a search: the calls each call depends on, facts, counts, tables that are not
      completed; and where it starts, with which calls unscheduled. */
  datatype Search = Search(g: Graph, fact: seq<bool>, falsecount: seq<nat>, incomplete: seq<bool>, root: nat, first: seq<bool>)

  predicate SearchOk(k: Search) {
    Closed(k.g) && |k.fact| == |k.falsecount| == |k.incomplete| == |k.first| == |k.g| && k.root < |k.g|
  }

  function Unaffected(k: Search): seq<bool>
    requires SearchOk(k)
  {
    seq(|k.g|, v requires 0 <= v < |k.g| => k.fact[v] || k.falsecount[v] == 0)
  }

  function Skipped(k: Search): seq<bool>
    requires SearchOk(k)
  {
    seq(|k.g|, v requires 0 <= v < |k.g| => k.fact[v] || k.falsecount[v] == 0 || !k.first[v])
  }

  /** u depends on the affected call v. */
  predicate Needs(k: Search, u: nat, v: nat) {
    SearchOk(k) && Edge(k.g, u, v) && v < |k.g| && !k.fact[v] && k.falsecount[v] > 0
  }

  /** u depends on v, directly or by way of affected calls. */
  ghost predicate NeedsMore(k: Search, u: nat, v: nat) {
    SearchOk(k) && Reachable(Open(k.g, Unaffected(k)), u, v)
  }

  /** The root depends on v by way of affected calls that were not scheduled when the search began. */
  ghost predicate Wanted(k: Search, v: nat) {
    SearchOk(k) && Reachable(Open(k.g, Skipped(k)), k.root, v)
  }

  /** A table is met that is not completed. */
  ghost predicate Blocked(k: Search, u: nat, v: nat) {
    Wanted(k, u) && Needs(k, u, v) && k.incomplete[v]
  }

  /** v is the root or an affected call that a call wanted depends on directly; facts have no table. */
  ghost predicate Met(k: Search, v: nat) {
    SearchOk(k) && ((v == k.root && !k.fact[v]) || exists u: nat :: MetFrom(k, u, v))
  }

  ghost predicate MetFrom(k: Search, u: nat, v: nat) {
    Wanted(k, u) && Needs(k, u, v)
  }

  /** No choice point reads the table of an affected call that a call on the list depends on. */
  ghost predicate Unread(k: Search, list: seq<nat>, visitors: seq<nat>) {
    |visitors| == |k.g| && forall u: nat, v: nat :: u in list && Needs(k, u, v) && v < |visitors| ==> visitors[v] == 0
  }

  /** Choice points were taken off the tables of calls that are met, and of no others. */
  ghost predicate OnlyMet(k: Search, visitors0: seq<nat>, visitors: seq<nat>) {
    |visitors| == |visitors0| == |k.g| && forall v: nat :: v < |k.g| ==> visitors[v] == visitors0[v] || (visitors[v] == 0 && Met(k, v))
  }

  lemma UnreadLess(k: Search, list: seq<nat>, visitors0: seq<nat>, visitors: seq<nat>)
    requires Unread(k, list, visitors0) && OnlyMet(k, visitors0, visitors)
    ensures Unread(k, list, visitors)
  {
    hide Met, Needs;
  }

  lemma OnlyMetTrans(k: Search, a: seq<nat>, b: seq<nat>, c: seq<nat>)
    requires OnlyMet(k, a, b) && OnlyMet(k, b, c)
    ensures OnlyMet(k, a, c)
  {
    hide Met;
  }

  lemma UnreadMore(k: Search, u: nat, list: seq<nat>, visitors: seq<nat>)
    requires Unread(k, [u], visitors) && Unread(k, list, visitors)
    ensures Unread(k, [u] + list, visitors)
  {
    hide Needs;
    assert u in [u];
    forall x | x in [u] + list ensures x in [u] || x in list { }
  }

  /** The first n calls that u depends on have been looked at. */
  ghost predicate ReadTo(k: Search, u: nat, n: nat, visitors: seq<nat>) {
    && SearchOk(k) && u < |k.g| && n <= |k.g[u]| && |visitors| == |k.g|
    && forall i :: 0 <= i < n && Needs(k, u, k.g[u][i]) ==> visitors[k.g[u][i]] == 0
  }

  lemma ReadNext(k: Search, u: nat, i: nat, visitors0: seq<nat>, visitors: seq<nat>)
    requires ReadTo(k, u, i, visitors0) && OnlyMet(k, visitors0, visitors) && i < |k.g[u]| && k.g[u][i] < |k.g|
    requires Needs(k, u, k.g[u][i]) ==> visitors[k.g[u][i]] == 0
    ensures ReadTo(k, u, i + 1, visitors)
  {
    hide Met;
  }

  lemma ReadAll(k: Search, u: nat, visitors: seq<nat>)
    requires u < |k.g| && ReadTo(k, u, |k.g[u]|, visitors)
    ensures Unread(k, [u], visitors)
  {
    forall x: nat, v: nat | x in [u] && Needs(k, x, v) && v < |visitors| ensures visitors[v] == 0 {
      var i :| 0 <= i < |k.g[u]| && k.g[u][i] == v;
    }
  }

  /** In the end the tables that are met, and no others, are read by nobody. */
  lemma MetExactly(k: Search, list: seq<nat>, visitors0: seq<nat>, visitors: seq<nat>)
    requires SearchOk(k) && OnlyMet(k, visitors0, visitors) && Unread(k, list, visitors) && Unread(k, [k.root], visitors)
    requires !k.fact[k.root] ==> visitors[k.root] == 0
    requires forall u: nat :: Wanted(k, u) ==> u in list || u == k.root
    ensures forall v: nat :: v < |k.g| ==> visitors[v] == if Met(k, v) then 0 else visitors0[v]
  {
    hide Wanted, Needs;
    forall v: nat | v < |k.g| && Met(k, v) ensures visitors[v] == 0 {
      if v != k.root || k.fact[v] {
        var u: nat :| MetFrom(k, u, v);
        assert u in list || u in [k.root];
      }
    }
  }

  lemma NeedsEdge(k: Search, u: nat, v: nat)
    requires Needs(k, u, v)
    ensures NeedsMore(k, u, v)
    ensures Wanted(k, u) && k.first[v] ==> Wanted(k, v)
  {
    OpenEdge(k.g, Unaffected(k), u, v);
    OpenEdge(k.g, Skipped(k), u, v);
    ReachEdge(Open(k.g, Unaffected(k)), u, v);
    if Wanted(k, u) && k.first[v] {
      ReachEdge(Open(k.g, Skipped(k)), u, v);
      ReachTrans(Open(k.g, Skipped(k)), k.root, u, v);
    }
  }

  lemma NeedsTrans(k: Search, u: nat, v: nat, w: nat)
    requires NeedsMore(k, u, v) && Needs(k, v, w)
    ensures NeedsMore(k, u, w)
  {
    NeedsEdge(k, v, w);
    ReachTrans(Open(k.g, Unaffected(k)), u, v, w);
  }

  // ---- the search --------------------------------------------------------------------------------

  /** v comes after position i. */
  predicate After(list: seq<nat>, i: nat, v: nat) {
    exists j :: i < j < |list| && list[j] == v
  }

  /** What holds between calls of dfs_inedges: first are the calls not scheduled, open those on the way from the root. */
  ghost predicate Sorted(k: Search, list: seq<nat>) {
    forall i: nat, v: nat :: i < |list| && Needs(k, list[i], v) && k.first[v] ==> After(list, i, v) || NeedsMore(k, v, list[i])
  }

  ghost predicate Marks(k: Search, first: seq<bool>, list: seq<nat>, open: set<nat>) {
    && SearchOk(k) && |first| == |k.g|
    && (forall v: nat :: v < |k.g| ==> (first[v] <==> k.first[v] && v !in list && v !in open))
    && (forall v: nat :: v in list ==> v < |k.g| && v !in open && !k.fact[v])
    && (forall v: nat :: v in list || v in open ==> v < |k.g| && k.first[v] && Wanted(k, v))
    && NoDuplicates(list)
  }

  ghost predicate Finished(k: Search, first: seq<bool>, u: nat) {
    SearchOk(k) && |first| == |k.g| && forall v: nat :: Needs(k, u, v) ==> !first[v] && !k.incomplete[v]
  }

  ghost predicate LazyOk(k: Search, first: seq<bool>, list: seq<nat>, open: set<nat>) {
    Marks(k, first, list, open) && Sorted(k, list) && forall u: nat :: u in list ==> Finished(k, first, u)
  }

  /** Call u is entered. */
  lemma EnterLazy(k: Search, first: seq<bool>, list: seq<nat>, open: set<nat>, u: nat)
    requires LazyOk(k, first, list, open) && u < |first| && first[u] && Wanted(k, u)
    ensures LazyOk(k, first[u := false], list, open + {u}) && u !in open && u !in list
  {
    hide Wanted, Sorted, NeedsMore;
  }

  /** Call u is finished and put in front. */
  lemma LeaveLazy(k: Search, first: seq<bool>, list: seq<nat>, open: set<nat>, u: nat)
    requires LazyOk(k, first, list, open + {u}) && u !in open && Finished(k, first, u) && u < |k.g| && !k.fact[u]
    requires forall x: nat :: x in open ==> NeedsMore(k, x, u)
    ensures LazyOk(k, first, [u] + list, open)
  {
    hide Wanted, NeedsMore, After, Closed;
    var list1 := [u] + list;
    forall i: nat, v: nat | i < |list1| && Needs(k, list1[i], v) && k.first[v] ensures After(list1, i, v) || NeedsMore(k, v, list1[i]) {
      if i > 0 {
        assert list1[i] == list[i - 1];
        AfterFront(u, list, i - 1, v);
      } else {
        NeededDone(k, first, list, open, u, v);
      }
    }
  }

  lemma AfterFront(u: nat, list: seq<nat>, i: nat, v: nat)
    ensures After(list, i, v) ==> After([u] + list, i + 1, v)
  {
    if After(list, i, v) {
      var j :| i < j < |list| && list[j] == v;
      assert ([u] + list)[j + 1] == v;
    }
  }

  lemma NeededDone(k: Search, first: seq<bool>, list: seq<nat>, open: set<nat>, u: nat, v: nat)
    requires Marks(k, first, list, open + {u}) && Finished(k, first, u) && Needs(k, u, v) && k.first[v]
    requires forall x: nat :: x in open ==> NeedsMore(k, x, u)
    ensures After([u] + list, 0, v) || NeedsMore(k, v, u)
  {
    assert v in list || v in open || v == u;
    if v in list {
      var j :| 0 <= j < |list| && list[j] == v;
      assert ([u] + list)[j + 1] == v;
    }
    if v == u { ReachRefl(Open(k.g, Unaffected(k)), u); }
  }

  ghost function FirstSet(first: seq<bool>): set<nat> {
    set v: nat | v < |first| && first[v]
  }

  lemma FirstShrinks(first: seq<bool>, first1: seq<bool>, u: nat)
    requires |first1| == |first| && u < |first| && first[u] && !first1[u] && forall v :: 0 <= v < |first| && first1[v] ==> first[v]
    ensures FirstSet(first1) < FirstSet(first)
  {
    assert u in FirstSet(first) && u !in FirstSet(first1);
  }

  class Scheduler {
    const inedges: Graph
    const fact: seq<bool>
    const incomplete: seq<bool>
    const falsecount: seq<nat>
    /** Which calls are marked COMPUTE_DEPENDENCIES_FIRST; the others are scheduled or computed directly. */
    const recomputable: array<bool>
    /** How many choice points read the completed table of each call. */
    const visitors: array<nat>
    var lazy_affected: seq<nat>

    ghost predicate Knows(k: Search)
      reads recomputable, visitors
    {
      && SearchOk(k) && k.g == inedges && k.fact == fact && k.falsecount == falsecount && k.incomplete == incomplete
      && recomputable.Length == visitors.Length == |k.g|
    }

    constructor (inedges: Graph, fact: seq<bool>, incomplete: seq<bool>, falsecount: seq<nat>)
      requires Closed(inedges) && |fact| == |incomplete| == |falsecount| == |inedges|
      ensures fresh(recomputable) && fresh(visitors) && lazy_affected == []
      ensures forall root: nat :: root < |inedges| ==> Knows(Search(inedges, fact, falsecount, incomplete, root, recomputable[..]))
    {
      this.inedges, this.fact, this.incomplete, this.falsecount := inedges, fact, incomplete, falsecount;
      recomputable := new bool[|inedges|](_ => true);
      visitors := new nat[|inedges|](_ => 0);
      lazy_affected := [];
    }

    /** ok is false when a table is met that is not completed, which is an error; nobody reads the list then. */
    method DfsInedges(call1: nat, ghost k: Search, ghost open: set<nat>) returns (ok: bool)
      requires Knows(k) && LazyOk(k, recomputable[..], lazy_affected, open) && call1 < |k.g|
      requires call1 == k.root || !fact[call1]
      requires recomputable[call1] ==> Wanted(k, call1) && forall x: nat :: x in open ==> NeedsMore(k, x, call1)
      requires (!fact[call1] ==> Met(k, call1)) && Unread(k, lazy_affected, visitors[..])
      modifies this`lazy_affected, recomputable, visitors
      ensures forall v :: 0 <= v < |k.g| && recomputable[v] ==> old(recomputable[v])
      ensures OnlyMet(k, old(visitors[..]), visitors[..])
      ensures ok ==> Unread(k, lazy_affected, visitors[..]) && (old(recomputable[call1]) ==> Unread(k, [call1], visitors[..]))
      ensures ok && !fact[call1] ==> visitors[call1] == 0
      ensures ok ==> forall v: nat :: v in lazy_affected && v < |k.g| ==> visitors[v] == 0 || v in old(lazy_affected)
      ensures ok ==> LazyOk(k, recomputable[..], lazy_affected, if fact[call1] && old(recomputable[call1]) then open + {call1} else open)
      ensures ok ==> !recomputable[call1] && (incomplete[call1] ==> fact[call1])
      ensures ok && old(recomputable[call1]) && !fact[call1] ==> lazy_affected != [] && lazy_affected[0] == call1
      ensures ok && old(recomputable[call1]) ==> Finished(k, recomputable[..], call1)
      ensures !ok ==> (incomplete[call1] && !fact[call1]) || exists u: nat, v: nat :: Blocked(k, u, v)
      decreases FirstSet(recomputable[..])
    {
      hide Wanted, NeedsMore, LazyOk, Finished, Blocked, Closed, FirstSet, Met, Unread, ReadTo;
      ghost var visitors0 := visitors[..];
      if !fact[call1] {
        if incomplete[call1] {
          lazy_affected := [];
          return false;
        }
        if visitors[call1] > 0 { visitors[call1] := 0; }
      }
      assert OnlyMet(k, visitors0, visitors[..]);
      UnreadLess(k, lazy_affected, visitors0, visitors[..]);
      if !recomputable[call1] { return true; }
      ReadNone(k, call1, visitors[..]);
      ghost var first0 := recomputable[..];
      recomputable[call1] := false;
      assert recomputable[..] == first0[call1 := false];
      EnterLazy(k, first0, lazy_affected, open, call1);
      FirstShrinks(first0, recomputable[..], call1);
      FinishedNone(k, recomputable[..], call1);
      var i := 0;
      while i < |inedges[call1]|
        invariant i <= |inedges[call1]|
        invariant LazyOk(k, recomputable[..], lazy_affected, open + {call1})
        invariant forall v :: 0 <= v < |k.g| && recomputable[v] ==> first0[v] && v != call1
        invariant FinishedUpTo(k, recomputable[..], call1, i)
        invariant OnlyMet(k, visitors0, visitors[..]) && Unread(k, lazy_affected, visitors[..]) && ReadTo(k, call1, i, visitors[..])
        invariant !fact[call1] ==> visitors[call1] == 0
        invariant forall v: nat :: v in lazy_affected && v < |k.g| ==> visitors[v] == 0 || v in old(lazy_affected)
      {
        var v := inedges[call1][i];
        EdgeTarget(k, call1, i);
        ghost var first1, visitors1 := recomputable[..], visitors[..];
        if !fact[v] && falsecount[v] > 0 {
          MetNext(k, lazy_affected, open, call1, v, first1);
          NeedsNext(k, lazy_affected, open, call1, v, first1);
          FirstShrinks(first0, first1, call1);
          ok := DfsInedges(v, k, open + {call1});
          if !ok {
            assert incomplete[v] ==> Blocked(k, call1, v) by { BlockedHere(k, call1, v); }
            OnlyMetTrans(k, visitors0, visitors1, visitors[..]);
            return false;
          }
        }
        FinishedNext(k, first1, recomputable[..], call1, i);
        OnlyMetTrans(k, visitors0, visitors1, visitors[..]);
        ReadNext(k, call1, i, visitors1, visitors[..]);
        i := i + 1;
      }
      FinishedAll(k, recomputable[..], call1);
      ReadAll(k, call1, visitors[..]);
      if !fact[call1] {
        UnreadMore(k, call1, lazy_affected, visitors[..]);
        LeaveLazy(k, recomputable[..], lazy_affected, open, call1);
        lazy_affected := [call1] + lazy_affected;
      }
      ok := true;
    }

    /** The list for the lazy evaluation of root, newest call in front. */
    method CreateLazyList(root: nat) returns (ok: bool, ghost k: Search)
      requires root < |inedges| == recomputable.Length == visitors.Length && Closed(inedges)
      requires |fact| == |incomplete| == |falsecount| == |inedges| && recomputable[root]
      modifies this`lazy_affected, recomputable, visitors
      ensures k == Search(inedges, fact, falsecount, incomplete, root, old(recomputable[..])) && SearchOk(k)
      ensures ok ==> Scheduled(k, lazy_affected) && (!fact[root] ==> lazy_affected != [] && lazy_affected[0] == root)
      ensures ok ==> forall v: nat :: v in lazy_affected && v < |inedges| ==> visitors[v] == 0
      ensures ok ==> forall v: nat :: v < |inedges| ==> visitors[v] == if Met(k, v) then 0 else old(visitors[v])
      ensures !ok ==> OnlyMet(k, old(visitors[..]), visitors[..])
      ensures ok ==> forall v: nat :: v < |inedges| ==> (recomputable[v] <==> old(recomputable[v]) && !Wanted(k, v))
      ensures ok <==> !((incomplete[root] && !fact[root]) || exists u: nat, v: nat :: Blocked(k, u, v))
    {
      hide Wanted, NeedsMore, LazyOk, Finished, Blocked, Closed, FirstSet, Scheduled, Met, OnlyMet, Unread;
      ghost var visitors0 := visitors[..];
      k := Search(inedges, fact, falsecount, incomplete, root, recomputable[..]);
      lazy_affected := [];
      BeginLazy(k);
      BeginMet(k, visitors0);
      ok := DfsInedges(root, k, {});
      if ok {
        assert {} + {root} == {root};
        EndLazy(k, recomputable[..], lazy_affected, if fact[root] then {root} else {});
        MetExactly(k, lazy_affected, visitors0, visitors[..]);
      }
    }
  }

  /** The list contains exactly the calls wanted, facts excepted, each once; a call needed by a call on the list comes
      after it unless the two need each other. */
  ghost predicate Scheduled(k: Search, list: seq<nat>) {
    && SearchOk(k) && NoDuplicates(list) && (forall v: nat :: v in list <==> Wanted(k, v) && v < |k.g| && !k.fact[v])
    && (forall i: nat, v: nat :: i < |list| && Needs(k, list[i], v) && v in list ==> After(list, i, v) || NeedsMore(k, v, list[i]))
  }

  ghost predicate FinishedUpTo(k: Search, first: seq<bool>, u: nat, n: nat) {
    && SearchOk(k) && |first| == |k.g| && u < |k.g| && n <= |k.g[u]|
    && forall i :: 0 <= i < n && Needs(k, u, k.g[u][i]) ==> !first[k.g[u][i]] && !k.incomplete[k.g[u][i]]
  }

  lemma FinishedNone(k: Search, first: seq<bool>, u: nat)
    requires SearchOk(k) && |first| == |k.g| && u < |k.g|
    ensures FinishedUpTo(k, first, u, 0)
  {
  }

  lemma FinishedNext(k: Search, first: seq<bool>, first1: seq<bool>, u: nat, i: nat)
    requires FinishedUpTo(k, first, u, i) && i < |k.g[u]| && |first1| == |first| && forall v :: 0 <= v < |first| && first1[v] ==> first[v]
    requires k.g[u][i] < |k.g| && (Needs(k, u, k.g[u][i]) ==> !first1[k.g[u][i]] && !k.incomplete[k.g[u][i]])
    ensures FinishedUpTo(k, first1, u, i + 1)
  {
  }

  lemma FinishedAll(k: Search, first: seq<bool>, u: nat)
    requires u < |k.g| && FinishedUpTo(k, first, u, |k.g[u]|)
    ensures Finished(k, first, u)
  {
    forall v: nat | Needs(k, u, v) ensures !first[v] && !k.incomplete[v] {
      var i :| 0 <= i < |k.g[u]| && k.g[u][i] == v;
    }
  }

  lemma EdgeTarget(k: Search, u: nat, i: nat)
    requires SearchOk(k) && u < |k.g| && i < |k.g[u]|
    ensures k.g[u][i] < |k.g| && (Needs(k, u, k.g[u][i]) <==> !k.fact[k.g[u][i]] && k.falsecount[k.g[u][i]] > 0)
  {
  }

  lemma NeedsNext(k: Search, list: seq<nat>, open: set<nat>, u: nat, v: nat, first: seq<bool>)
    requires LazyOk(k, first, list, open + {u}) && Needs(k, u, v) && forall x: nat :: x in open ==> NeedsMore(k, x, u)
    ensures Wanted(k, u) && (first[v] ==> Wanted(k, v)) && forall x: nat :: x in open + {u} ==> NeedsMore(k, x, v)
  {
    hide Wanted, NeedsMore, Needs, Sorted, Finished;
    assert u in open + {u};
    NeedsEdge(k, u, v);
    forall x: nat | x in open + {u} ensures NeedsMore(k, x, v) {
      if x != u { NeedsTrans(k, x, u, v); }
    }
    NeedsSize(k, u, v);
  }

  lemma BlockedHere(k: Search, u: nat, v: nat)
    requires Wanted(k, u) && Needs(k, u, v)
    ensures k.incomplete[v] ==> Blocked(k, u, v)
  {
  }

  lemma MetNext(k: Search, list: seq<nat>, open: set<nat>, u: nat, v: nat, first: seq<bool>)
    requires LazyOk(k, first, list, open + {u}) && Needs(k, u, v)
    ensures Met(k, v)
  {
    hide Wanted, NeedsMore, Sorted, Finished;
    assert u in open + {u};
    assert MetFrom(k, u, v);
  }

  lemma BeginMet(k: Search, visitors: seq<nat>)
    requires SearchOk(k) && |visitors| == |k.g|
    ensures (!k.fact[k.root] ==> Met(k, k.root)) && Unread(k, [], visitors)
  {
  }

  lemma ReadNone(k: Search, u: nat, visitors: seq<nat>)
    requires SearchOk(k) && u < |k.g| && |visitors| == |k.g|
    ensures ReadTo(k, u, 0, visitors)
  {
  }

  lemma NeedsSize(k: Search, u: nat, v: nat)
    requires Needs(k, u, v)
    ensures v < |k.g|
  {
  }

  lemma BeginLazy(k: Search)
    requires SearchOk(k) && k.first[k.root]
    ensures LazyOk(k, k.first, [], {}) && Wanted(k, k.root)
  {
    ReachRefl(Open(k.g, Skipped(k)), k.root);
  }

  lemma EndLazy(k: Search, first: seq<bool>, list: seq<nat>, open: set<nat>)
    requires SearchOk(k) && LazyOk(k, first, list, open) && Finished(k, first, k.root) && open == (if k.fact[k.root] then {k.root} else {})
    requires k.first[k.root] && !first[k.root]
    ensures Scheduled(k, list) && forall v: nat :: Wanted(k, v) ==> v in list || v == k.root
    ensures forall v: nat :: v < |k.g| ==> (first[v] <==> k.first[v] && !Wanted(k, v))
    ensures forall u: nat, v: nat :: !Blocked(k, u, v)
  {
    hide Wanted, Needs, NeedsMore, Closed;
    forall v: nat | Wanted(k, v) ensures v in list || v in open { WantedDone(k, first, list, open, v); }
  }

  /** What is wanted has been passed. */
  lemma WantedDone(k: Search, first: seq<bool>, list: seq<nat>, open: set<nat>, v: nat)
    requires LazyOk(k, first, list, open) && Finished(k, first, k.root) && Wanted(k, v) && open <= {k.root} && k.first[k.root] && !first[k.root]
    ensures v in list || v in open
  {
    hide Sorted, NeedsMore, Closed, Reachable;
    var h, s := Open(k.g, Skipped(k)), (set x: nat | x < |k.g| && (x in list || x in open));
    forall a: nat, b: nat | a in s && Edge(h, a, b) ensures b in s {
      OpenEdge(k.g, Skipped(k), a, b);
      SkippedNeeds(k, a, b);
      assert Finished(k, first, a);
    }
    ClosedReach(h, k.root, v, s);
  }

  lemma SkippedNeeds(k: Search, a: nat, b: nat)
    requires SearchOk(k) && Edge(k.g, a, b) && !(b < |k.g| && Skipped(k)[b])
    ensures Needs(k, a, b) && k.first[b]
  {
    EdgeBound(k.g, a, b);
  }

  /** Evaluated from the back, the list has every call after the calls it depends on, if these do not depend on each
      other in cycles. */
  lemma DependenciesLast(k: Search, list: seq<nat>, i: nat, j: nat)
    requires Scheduled(k, list) && i < |list| && j < |list| && Needs(k, list[i], list[j])
    requires !NeedsMore(k, list[j], list[i])
    ensures i < j
  {
    hide Wanted, NeedsMore, Needs, Closed;
    assert After(list, i, list[j]);
    var j1 :| i < j1 < |list| && list[j1] == list[j];
    assert NoDuplicates(list);
  }
}
