/** Threads that wait for each other's tables (XSB/emu/deadlock.c; the wait loop of IS_INCOMPLETE
    in XSB/emu/bineg_xsb_i.h). */
module Deadlock {

  /** Which thread each thread has recorded that it waits for; -1 for none. */
  type Waits = map<nat, int>

  predicate WaitsFor(w: Waits, t: nat, u: nat) {
    t in w && u in w && w[t] == u
  }

  /** Every wait goes to a thread of lower rank. */
  ghost predicate Ranked(w: Waits, rank: map<nat, nat>) {
    (forall t: nat :: t in w ==> t in rank) && (forall t: nat, u: nat :: WaitsFor(w, t, u) ==> rank[u] < rank[t])
  }

  predicate Trace(w: Waits, p: seq<nat>) {
    p != [] && p[0] in w && forall i :: 0 <= i < |p| - 1 ==> WaitsFor(w, p[i], p[i + 1])
  }

  /** p leads from thread t to thread u, which it meets at the end only. */
  predicate LeadsTo(w: Waits, p: seq<nat>, t: nat, u: nat) {
    Trace(w, p) && p[0] == t && p[|p| - 1] == u && forall i :: 0 <= i < |p| - 1 ==> p[i] != u
  }

  ghost predicate Reaches(w: Waits, t: nat, u: nat) {
    exists p :: LeadsTo(w, p, t, u)
  }

  /** Threads each of which waits for the next, and the last for the first. */
  predicate WaitCycle(w: Waits, c: seq<nat>) {
    c != [] && forall i :: 0 <= i < |c| ==> CycleAt(w, c, i)
  }

  predicate CycleAt(w: Waits, c: seq<nat>, i: int) {
    0 <= i < |c| && WaitsFor(w, c[i], c[if i + 1 < |c| then i + 1 else 0])
  }

  lemma {:induction false} RankFalls(w: Waits, rank: map<nat, nat>, c: seq<nat>, i: nat)
    requires Ranked(w, rank) && WaitCycle(w, c) && i < |c|
    ensures c[0] in rank && c[i] in rank && rank[c[i]] + i <= rank[c[0]]
  {
    assert CycleAt(w, c, 0);
    if i > 0 {
      RankFalls(w, rank, c, i - 1);
      assert CycleAt(w, c, i - 1);
    }
  }

  lemma RankCloses(w: Waits, rank: map<nat, nat>, c: seq<nat>)
    requires Ranked(w, rank) && WaitCycle(w, c)
    ensures c[0] in rank && c[|c| - 1] in rank && rank[c[|c| - 1]] > rank[c[0]]
  {
    assert CycleAt(w, c, |c| - 1);
  }

  /** Ranked waits have no cycle. */
  lemma NoCycle(w: Waits, rank: map<nat, nat>, c: seq<nat>)
    requires Ranked(w, rank)
    ensures !WaitCycle(w, c)
  {
    hide Ranked, WaitCycle;
    if WaitCycle(w, c) {
      CycleSize(w, c);
      RankFalls(w, rank, c, |c| - 1);
      RankCloses(w, rank, c);
    }
  }

  ghost predicate HasCycle(w: Waits) {
    exists c :: WaitCycle(w, c)
  }

  lemma RankedFree(w: Waits, rank: map<nat, nat>)
    requires Ranked(w, rank)
    ensures !HasCycle(w)
  {
    hide Ranked, WaitCycle;
    if HasCycle(w) {
      var c :| WaitCycle(w, c);
      NoCycle(w, rank, c);
    }
  }

  lemma CycleSize(w: Waits, c: seq<nat>)
    requires WaitCycle(w, c)
    ensures |c| > 0
  {
  }

  /** A trace that leads to th closes a cycle when th waits for its start. */
  lemma Closes(w: Waits, p: seq<nat>, t: nat, th: nat)
    requires LeadsTo(w, p, t, th) && th in w && t in w
    ensures WaitCycle(w[th := t], p)
  {
    var w1 := w[th := t];
    forall i | 0 <= i < |p| ensures CycleAt(w1, p, i) {
      if i < |p| - 1 { assert WaitsFor(w, p[i], p[i + 1]); }
    }
  }

  /** Ranks for the waits with th now waiting for t, when t does not lead to th. */
  ghost function Raised(w: Waits, rank: map<nat, nat>, th: nat, t: nat): map<nat, nat>
    requires t in rank
  {
    map u: nat | u in rank :: if Reaches(w, u, th) then rank[u] + rank[t] + 1 else rank[u]
  }

  lemma ReachesNext(w: Waits, u: nat, v: nat, th: nat)
    requires WaitsFor(w, u, v) && u != th
    ensures Reaches(w, u, th) <==> Reaches(w, v, th)
  {
    if Reaches(w, v, th) {
      var p :| LeadsTo(w, p, v, th);
      var q := [u] + p;
      forall i | 0 <= i < |q| - 1 ensures WaitsFor(w, q[i], q[i + 1]) && q[i] != th { if i > 0 { assert q[i] == p[i - 1] && q[i + 1] == p[i - 1 + 1]; } }
      assert LeadsTo(w, q, u, th);
    }
    if Reaches(w, u, th) {
      var p :| LeadsTo(w, p, u, th);
      assert |p| > 1 && WaitsFor(w, p[0], p[1]);
      var q := p[1..];
      forall i | 0 <= i < |q| - 1 ensures WaitsFor(w, q[i], q[i + 1]) && q[i] != th { assert q[i] == p[i + 1] && q[i + 1] == p[i + 1 + 1]; }
      assert LeadsTo(w, q, v, th);
    }
  }

  lemma RaisedRanks(w: Waits, rank: map<nat, nat>, th: nat, t: nat)
    requires Ranked(w, rank) && th in w && t in w && !Reaches(w, t, th) && t != th
    ensures Ranked(w[th := t], Raised(w, rank, th, t))
  {
    hide Reaches;
    var w1, rank1 := w[th := t], Raised(w, rank, th, t);
    SelfReaches(w, th);
    forall u: nat, v: nat | WaitsFor(w1, u, v) ensures rank1[v] < rank1[u] {
      if u != th {
        assert WaitsFor(w, u, v);
        ReachesNext(w, u, v, th);
      }
    }
  }

  lemma SelfReaches(w: Waits, th: nat)
    requires th in w
    ensures Reaches(w, th, th)
  {
    assert LeadsTo(w, [th], th, th);
  }

  /** All of p but its last thread wait directly for the last one. */
  ghost predicate Compressed(w: Waits, w1: Waits, p: seq<nat>, th: nat) {
    && w1.Keys == w.Keys
    && forall t: nat :: t in w ==> w1[t] == if t in p && t != th then th else w[t]
  }

  lemma {:induction false} TraceRank(w: Waits, rank: map<nat, nat>, p: seq<nat>, t: nat, th: nat, i: nat)
    requires Ranked(w, rank) && LeadsTo(w, p, t, th) && i < |p|
    ensures th in rank && p[i] in rank && (i < |p| - 1 ==> rank[th] < rank[p[i]])
    decreases |p| - i
  {
    if i < |p| - 1 {
      assert WaitsFor(w, p[i], p[i + 1]);
      TraceRank(w, rank, p, t, th, i + 1);
    } else if i > 0 {
      assert WaitsFor(w, p[i - 1], p[i - 1 + 1]);
    }
  }

  /** Breaking a would-be cycle leaves the ranks as good as they were. */
  lemma CompressedRanks(w: Waits, w1: Waits, rank: map<nat, nat>, p: seq<nat>, t: nat, th: nat)
    requires Ranked(w, rank) && LeadsTo(w, p, t, th) && Compressed(w, w1, p, th)
    ensures Ranked(w1, rank)
  {
    forall u: nat, v: nat | WaitsFor(w1, u, v) ensures rank[v] < rank[u] {
      if u in p && u != th {
        var i :| 0 <= i < |p| && p[i] == u;
        TraceRank(w, rank, p, t, th, i);
      } else {
        assert WaitsFor(w, u, v);
      }
    }
  }

  class WaitTable {
    var waitingFor: Waits
    ghost var rank: map<nat, nat>

    /** The recorded waits form no cycle. */
    ghost predicate Valid()
      reads this
    {
      Ranked(waitingFor, rank)
    }

    constructor (tids: set<nat>)
      ensures Valid() && waitingFor == (map t | t in tids :: -1)
    {
      waitingFor := map t | t in tids :: -1;
      rank := map t | t in tids :: 0;
    }

    /** would_deadlock: does t1 wait, through others, for t2? */
    method WouldDeadlock(t1: nat, t2: nat) returns (r: bool, ghost p: seq<nat>)
      requires Valid() && t1 in waitingFor && t2 in waitingFor
      ensures r <==> Reaches(waitingFor, t1, t2)
      ensures r <==> HasCycle(waitingFor[t2 := t1])
      ensures r ==> LeadsTo(waitingFor, p, t1, t2)
    {
      hide Ranked, Reaches, WaitCycle;
      var t, valid := t1, true;
      p := [];
      RankIn(waitingFor, rank);
      while valid
        invariant t in waitingFor && Trace(waitingFor, p + [t]) && (p + [t])[0] == t1
        invariant Reaches(waitingFor, t1, t2) <==> valid && Reaches(waitingFor, t, t2)
        invariant forall i :: 0 <= i < |p| ==> p[i] != t2
        decreases valid, rank[t]
      {
        if t == t2 {
          TraceLeads(waitingFor, p + [t], t1, t2);
          Closes(waitingFor, p + [t], t1, t2);
          return true, p + [t];
        }
        NextStep(waitingFor, rank, p, t, t2);
        var next := waitingFor[t];
        if next < 0 || next !in waitingFor {
          valid := false;
        } else {
          p := p + [t];
          t := next;
        }
      }
      SelfReaches(waitingFor, t2);
      RaisedRanks(waitingFor, rank, t2, t1);
      RankedFree(waitingFor[t2 := t1], Raised(waitingFor, rank, t2, t1));
      r := false;
    }

    /** Thread th needs a table of thread owner: either it waits, or it becomes the leader of the cycle that its
        wait would have closed, and everyone else in it waits for it. */
    method NeedTable(th: nat, owner: nat) returns (leads: bool, ghost p: seq<nat>)
      requires Valid() && th in waitingFor && owner in waitingFor && owner != th
      modifies this
      ensures Valid() && waitingFor.Keys == old(waitingFor).Keys
      ensures leads <==> HasCycle(old(waitingFor)[th := owner])
      ensures !leads ==> waitingFor == old(waitingFor)[th := owner]
      ensures leads ==> LeadsTo(old(waitingFor), p, owner, th) && Compressed(old(waitingFor), waitingFor, p, th)
    {
      hide Ranked, Reaches, WaitCycle;
      leads, p := WouldDeadlock(owner, th);
      if leads {
        ResetOtherThreads(th, owner, p);
      } else {
        RankIn(waitingFor, rank);
        RaisedRanks(waitingFor, rank, th, owner);
        rank := Raised(waitingFor, rank, th, owner);
        waitingFor := waitingFor[th := owner];
      }
    }

    /** reset_other_threads: first the chain is taken apart, then everyone on it is made to wait for th. */
    method ResetOtherThreads(th: nat, ctxt: nat, ghost p: seq<nat>)
      requires Valid() && LeadsTo(waitingFor, p, ctxt, th)
      modifies `waitingFor
      ensures Valid() && Compressed(old(waitingFor), waitingFor, p, th)
    {
      hide Ranked;
      ghost var w := waitingFor;
      var tmp: nat := ctxt;
      var chain: seq<nat> := [];
      while tmp != th
        invariant |chain| < |p| && chain == p[..|chain|] && tmp == p[|chain|]
        invariant waitingFor.Keys == w.Keys
        invariant forall t: nat :: t in w ==> waitingFor[t] == if t in chain then -1 else w[t]
        decreases |p| - |chain|
      {
        ChainNext(w, rank, p, ctxt, th, |chain|);
        chain := chain + [tmp];
        var next := waitingFor[tmp];
        waitingFor := waitingFor[tmp := -1];
        tmp := next;
      }
      ChainWhole(w, p, ctxt, th, |chain|);
      var i := 0;
      while i < |chain|
        invariant 0 <= i <= |chain| && waitingFor.Keys == w.Keys
        invariant forall t: nat :: t in w ==> waitingFor[t] == if t in chain[..i] then th else if t in chain then -1 else w[t]
      {
        assert chain[..i + 1] == chain[..i] + [chain[i]];
        ChainNext(w, rank, p, ctxt, th, i);
        waitingFor := waitingFor[chain[i] := th];
        i := i + 1;
      }
      assert chain[..i] == chain;
      CompressedRanks(w, waitingFor, rank, p, ctxt, th);
    }

    /** The table is complete, or the thread has been reset. */
    method Resume(th: nat)
      requires Valid() && th in waitingFor
      modifies `waitingFor
      ensures Valid() && waitingFor == old(waitingFor)[th := -1]
    {
      forall t: nat, u: nat | WaitsFor(waitingFor[th := -1], t, u) ensures rank[u] < rank[t] { assert WaitsFor(waitingFor, t, u); }
      waitingFor := waitingFor[th := -1];
    }
  }

  lemma RankIn(w: Waits, rank: map<nat, nat>)
    requires Ranked(w, rank)
    ensures forall t: nat :: t in w ==> t in rank
  {
  }

  lemma TraceLeads(w: Waits, p: seq<nat>, t: nat, th: nat)
    requires Trace(w, p) && p[0] == t && p[|p| - 1] == th && forall i :: 0 <= i < |p| - 1 ==> p[i] != th
    ensures Reaches(w, t, th) && LeadsTo(w, p, t, th)
  {
    assert LeadsTo(w, p, t, th);
  }

  /** The search goes on from t to the thread it waits for. */
  lemma NextStep(w: Waits, rank: map<nat, nat>, p: seq<nat>, t: nat, th: nat)
    requires Ranked(w, rank) && t in w && t != th && Trace(w, p + [t])
    ensures t in rank
    ensures w[t] >= 0 && w[t] in w ==>
      var u: nat := w[t]; (Trace(w, p + [t] + [u]) && u in rank && rank[u] < rank[t] && (Reaches(w, t, th) <==> Reaches(w, u, th)))
    ensures !(w[t] >= 0 && w[t] in w) ==> !Reaches(w, t, th)
  {
    hide Reaches;
    if w[t] >= 0 && w[t] in w {
      var u: nat := w[t];
      assert WaitsFor(w, t, u);
      ReachesNext(w, t, u, th);
      var q := p + [t];
      var q1 := q + [u];
      forall i | 0 <= i < |q1| - 1 ensures WaitsFor(w, q1[i], q1[i + 1]) {
        assert i < |q| - 1 ==> q1[i] == q[i] && q1[i + 1] == q[i + 1];
      }
    } else {
      Stops(w, t, th);
    }
  }

  lemma Stops(w: Waits, t: nat, th: nat)
    requires t in w && t != th && !(w[t] >= 0 && w[t] in w)
    ensures !Reaches(w, t, th)
  {
    forall p ensures !LeadsTo(w, p, t, th) {
      assert |p| > 1 && Trace(w, p) && p[0] == t ==> WaitsFor(w, p[0], p[0 + 1]);
    }
  }

  lemma ChainNext(w: Waits, rank: map<nat, nat>, p: seq<nat>, t: nat, th: nat, i: nat)
    requires Ranked(w, rank) && LeadsTo(w, p, t, th) && i < |p| - 1
    ensures p[i] in w && w[p[i]] == p[i + 1] && p[i] !in p[..i]
  {
    assert WaitsFor(w, p[i], p[i + 1]);
    forall j | 0 <= j < i ensures p[j] != p[i] { TraceFalls(w, rank, p, t, th, j, i); }
  }

  lemma {:induction false} TraceFalls(w: Waits, rank: map<nat, nat>, p: seq<nat>, t: nat, th: nat, j: nat, i: nat)
    requires Ranked(w, rank) && LeadsTo(w, p, t, th) && j < i < |p|
    ensures p[i] in rank && p[j] in rank && rank[p[i]] < rank[p[j]]
    decreases i
  {
    assert WaitsFor(w, p[i - 1], p[i - 1 + 1]);
    if j < i - 1 { TraceFalls(w, rank, p, t, th, j, i - 1); }
  }

  lemma ChainWhole(w: Waits, p: seq<nat>, t: nat, th: nat, n: nat)
    requires LeadsTo(w, p, t, th) && n < |p| && p[n] == th
    ensures n == |p| - 1 && forall u: nat :: u in p && u != th <==> u in p[..n]
  {
    assert p == p[..|p| - 1] + [p[|p| - 1]];
  }
}
