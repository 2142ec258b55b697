/** Bringing the dependency list of a thread up to date (XSB/emu/conc_compl.c, UpdateDeps). */
module UpdateDeps {
  import opened DepLists

  function Recorded(th: Thread): nat {
    if th.completing then th.lastAns else 0
  }

  /** The list has the current counter of thread t and, when t is blocked, accounts for all its dependencies. */
  ghost predicate Settled(subs: Subgoals, ths: Threads, me: nat, tdl: seq<ThreadDep>, leader: int, t: nat) {
    && t in ths && (exists k :: IsFor(subs, tdl, k, t) && tdl[k].last == Recorded(ths[t]))
    && (ths[t].completing ==> DepsDone(subs, me, ths[t].tdl, |ths[t].tdl|, tdl, leader))
  }

  /** A list of thread me: one entry for each of some other threads. */
  ghost predicate WellFormed(subs: Subgoals, ths: Threads, me: nat, tdl: seq<ThreadDep>) {
    Known(subs, tdl) && OnePerThread(subs, tdl) && forall t: nat :: Lists(subs, tdl, t) ==> t in ths && t != me
  }

  ghost predicate AllWellFormed(subs: Subgoals, ths: Threads) {
    && (forall t: nat :: t in ths ==> WellFormed(subs, ths, t, ths[t].tdl))
    && (forall s: nat :: s in subs ==> subs[s].tid in ths)
  }

  /** Why s is in a list: it was there before, or a blocked thread in the list depends on it. */
  ghost predicate Blocked(subs: Subgoals, ths: Threads, tdl: seq<ThreadDep>, t: nat) {
    Lists(subs, tdl, t) && t in ths && ths[t].completing
  }

  predicate HasSg(tdl: seq<ThreadDep>, s: nat) {
    exists i :: 0 <= i < |tdl| && tdl[i].sg == s
  }

  ghost predicate Reason(subs: Subgoals, ths: Threads, tdl0: seq<ThreadDep>, tdl: seq<ThreadDep>, s: nat) {
    HasSg(tdl0, s) || exists t: nat :: Blocked(subs, ths, tdl, t) && Source(subs, ths[t].tdl, s)
  }

  ghost predicate LeaderReason(subs: Subgoals, ths: Threads, me: nat, tdl: seq<ThreadDep>, leader0: int, leader: int) {
    leader == leader0 || exists t: nat, k :: Blocked(subs, ths, tdl, t) && OwnDep(subs, me, ths[t].tdl, k, leader)
  }

  // ---- setting the counter of one entry ----------------------------------------------------

  function SetLast(tdl: seq<ThreadDep>, k: nat, last: nat): seq<ThreadDep>
    requires k < |tdl|
  {
    tdl[k := ThreadDep(tdl[k].sg, last)]
  }

  lemma SetLastFacts(subs: Subgoals, tdl: seq<ThreadDep>, k: nat, last: nat)
    requires Known(subs, tdl) && OnePerThread(subs, tdl) && k < |tdl|
    ensures var tdl1 := SetLast(tdl, k, last);
      (Known(subs, tdl1) && OnePerThread(subs, tdl1) && CoversMore(subs, tdl, tdl1) && CoversMore(subs, tdl1, tdl)
      && (forall t: nat :: Lists(subs, tdl1, t) <==> Lists(subs, tdl, t)) && (forall s: nat :: HasSg(tdl1, s) <==> HasSg(tdl, s)))
  {
    var tdl1 := SetLast(tdl, k, last);
    forall i | 0 <= i < |tdl| ensures tdl1[i].sg == tdl[i].sg { }
    forall s: nat ensures Covers(subs, tdl1, s) <==> Covers(subs, tdl, s) {
      if Covers(subs, tdl, s) { var i :| CoversAt(subs, tdl, i, s); assert CoversAt(subs, tdl1, i, s); }
      if Covers(subs, tdl1, s) { var i :| CoversAt(subs, tdl1, i, s); assert CoversAt(subs, tdl, i, s); }
    }
    forall t: nat ensures Lists(subs, tdl1, t) <==> Lists(subs, tdl, t) {
      if Lists(subs, tdl, t) { var i :| IsFor(subs, tdl, i, t); assert IsFor(subs, tdl1, i, t); }
      if Lists(subs, tdl1, t) { var i :| IsFor(subs, tdl1, i, t); assert IsFor(subs, tdl, i, t); }
    }
    forall s: nat ensures HasSg(tdl1, s) <==> HasSg(tdl, s) {
      if i :| 0 <= i < |tdl| && tdl[i].sg == s { assert tdl1[i].sg == s; }
      if i :| 0 <= i < |tdl1| && tdl1[i].sg == s { assert tdl[i].sg == s; }
    }
  }

  // ---- what was settled stays settled ------------------------------------------------------

  lemma SettledGrows(subs: Subgoals, ths: Threads, me: nat, tdl: seq<ThreadDep>, leader: int, tdl1: seq<ThreadDep>, leader1: int, t: nat)
    requires Settled(subs, ths, me, tdl, leader, t) && Grows(subs, tdl, tdl1) && leader1 >= leader
    ensures Settled(subs, ths, me, tdl1, leader1, t)
  {
    hide Covers, Grows;
    var k :| IsFor(subs, tdl, k, t) && tdl[k].last == Recorded(ths[t]);
    GrowsAt(subs, tdl, tdl1, k);
    assert IsFor(subs, tdl1, k, t);
    GrowsCovers(subs, tdl, tdl1);
  }

  lemma GrowsAt(subs: Subgoals, tdl: seq<ThreadDep>, tdl1: seq<ThreadDep>, k: nat)
    requires Grows(subs, tdl, tdl1) && k < |tdl|
    ensures k < |tdl1| && SameThread(subs, tdl[k], tdl1[k])
  {
  }

  lemma SettledSetLast(subs: Subgoals, ths: Threads, me: nat, tdl: seq<ThreadDep>, leader: int, k: nat, u: nat, t: nat)
    requires Settled(subs, ths, me, tdl, leader, t) && IsFor(subs, tdl, k, u) && u in ths && Known(subs, tdl) && OnePerThread(subs, tdl)
    ensures Settled(subs, ths, me, SetLast(tdl, k, Recorded(ths[u])), leader, t)
  {
    hide Covers, OnePerThread, Known;
    var tdl1 := SetLast(tdl, k, Recorded(ths[u]));
    SetLastFacts(subs, tdl, k, Recorded(ths[u]));
    var j :| IsFor(subs, tdl, j, t) && tdl[j].last == Recorded(ths[t]);
    assert IsFor(subs, tdl1, j, t);
  }

  lemma SettledNow(subs: Subgoals, ths: Threads, me: nat, tdl: seq<ThreadDep>, leader: int, k: nat, t: nat)
    requires t in ths && IsFor(subs, tdl, k, t) && tdl[k].last == Recorded(ths[t])
    requires ths[t].completing ==> DepsDone(subs, me, ths[t].tdl, |ths[t].tdl|, tdl, leader)
    ensures Settled(subs, ths, me, tdl, leader, t)
  {
  }

  // ---- one entry of the list ---------------------------------------------------------------

  /** What handling the entry for thread t does to the new list. */
  ghost predicate Handled(subs: Subgoals, ths: Threads, me: nat, s: nat, tdl: seq<ThreadDep>, leader: int,
                          tdl1: seq<ThreadDep>, leader1: int, newDeps0: bool, newDeps: bool) {
    && s in subs && WellFormed(subs, ths, me, tdl1) && CoversMore(subs, tdl, tdl1) && Covers(subs, tdl1, s)
    && Settled(subs, ths, me, tdl1, leader1, subs[s].tid) && leader1 >= leader && (newDeps0 ==> newDeps)
    && (forall t: nat :: Settled(subs, ths, me, tdl, leader, t) ==> Settled(subs, ths, me, tdl1, leader1, t))
    && (forall t: nat :: Lists(subs, tdl, t) ==> Lists(subs, tdl1, t))
    && (!newDeps ==> forall t: nat :: Lists(subs, tdl1, t) ==> Lists(subs, tdl, t) || t == subs[s].tid)
    && (newDeps && !newDeps0 ==> Uncovered(subs, tdl1) < Uncovered(subs, tdl))
    && (forall r: nat :: HasSg(tdl1, r) ==> HasSg(tdl, r) || r == s || (ths[subs[s].tid].completing && Source(subs, ths[subs[s].tid].tdl, r)))
    && (leader1 == leader || (ths[subs[s].tid].completing && exists k :: OwnDep(subs, me, ths[subs[s].tid].tdl, k, leader1)))
  }

  /** Inserting s and setting the counter of its thread. */
  lemma InsertAndSet(subs: Subgoals, ths: Threads, me: nat, s: nat, tdl: seq<ThreadDep>, leader: int, a: seq<ThreadDep>, changed: bool, k: nat)
    requires WellFormed(subs, ths, me, tdl) && s in subs && subs[s].tid in ths && subs[s].tid != me
    requires Inserted(subs, tdl, s, a, changed) && IsFor(subs, a, k, subs[s].tid)
    ensures var b := SetLast(a, k, Recorded(ths[subs[s].tid]));
      (WellFormed(subs, ths, me, b) && CoversMore(subs, tdl, b) && Covers(subs, b, s)
      && IsFor(subs, b, k, subs[s].tid) && b[k].last == Recorded(ths[subs[s].tid])
      && (forall t: nat :: Settled(subs, ths, me, tdl, leader, t) ==> Settled(subs, ths, me, b, leader, t))
      && (forall t: nat :: Lists(subs, tdl, t) ==> Lists(subs, b, t))
      && (forall t: nat :: Lists(subs, b, t) ==> Lists(subs, tdl, t) || t == subs[s].tid)
      && (forall r: nat :: HasSg(b, r) ==> HasSg(tdl, r) || r == s))
  {
    hide Covers, Known, OnePerThread, Settled, Inserted, Uncovered, Lists, Grows, HasSg;
    var u := subs[s].tid;
    InsertFacts(subs, tdl, s, a, changed);
    InsertedNames(subs, tdl, s, a, changed);
    SetLastFacts(subs, a, k, Recorded(ths[u]));
    GrowsCovers(subs, tdl, a);
    forall t: nat | Settled(subs, ths, me, tdl, leader, t) ensures Settled(subs, ths, me, SetLast(a, k, Recorded(ths[u])), leader, t) {
      SettledGrows(subs, ths, me, tdl, leader, a, leader, t);
      SettledSetLast(subs, ths, me, a, leader, k, u, t);
    }
  }

  lemma InsertedNames(subs: Subgoals, tdl: seq<ThreadDep>, s: nat, a: seq<ThreadDep>, changed: bool)
    requires Inserted(subs, tdl, s, a, changed) && s in subs
    ensures forall t: nat :: Lists(subs, a, t) ==> Lists(subs, tdl, t) || t == subs[s].tid
    ensures forall r: nat :: HasSg(a, r) ==> HasSg(tdl, r) || r == s
  {
    hide Covers, Known, OnePerThread;
    forall t: nat | Lists(subs, a, t) && t != subs[s].tid ensures Lists(subs, tdl, t) {
      var i :| IsFor(subs, a, i, t);
      assert IsFor(subs, tdl, i, t);
    }
  }

  lemma PropagatedNames(subs: Subgoals, deps: seq<ThreadDep>, me: nat, b: seq<ThreadDep>, c: seq<ThreadDep>)
    requires Known(subs, c) && Known(subs, b)
    requires forall i :: 0 <= i < |c| ==> (i < |b| && c[i].sg == b[i].sg) || (Source(subs, deps, c[i].sg) && subs[c[i].sg].tid != me)
    ensures forall t: nat :: Lists(subs, c, t) ==> Lists(subs, b, t) || (t != me && exists s: nat :: s in subs && subs[s].tid == t)
    ensures forall r: nat :: HasSg(c, r) ==> HasSg(b, r) || Source(subs, deps, r)
  {
    hide Source;
    forall t: nat | Lists(subs, c, t) && !Lists(subs, b, t) ensures t != me && exists s: nat :: s in subs && subs[s].tid == t {
      var i :| IsFor(subs, c, i, t);
      assert i < |b| && c[i].sg == b[i].sg ==> IsFor(subs, b, i, t);
    }
  }

  method HandleDep(subs: Subgoals, ths: Threads, me: nat, s: nat, tdl: seq<ThreadDep>, leader0: int, newDeps0: bool)
    returns (ok: bool, tdl1: seq<ThreadDep>, leader: int, newDeps: bool, busy: bool)
    requires AllWellFormed(subs, ths) && WellFormed(subs, ths, me, tdl) && s in subs && subs[s].tid != me && me in ths
    ensures !ok ==> |ths| > 256
    ensures ok ==> Handled(subs, ths, me, s, tdl, leader0, tdl1, leader, newDeps0, newDeps)
    ensures ok ==> subs[s].tid in ths && (busy <==> !ths[subs[s].tid].completing)
  {
    hide Covers, OnePerThread, Settled, Inserted, Uncovered, Grows, HasSg, Lists, DepsDone, Source, Full;
    leader, newDeps, busy := leader0, newDeps0, false;
    var changed;
    ok, tdl1, changed := CheckInsSubg(subs, tdl, s);
    if !ok {
      TooMany(subs, ths, me, tdl, s);
      return;
    }
    InsertFacts(subs, tdl, s, tdl1, changed);
    CoversLists(subs, tdl1, s);
    var u := subs[s].tid;
    var k := FindTid(subs, tdl1, u);
    InsertAndSet(subs, ths, me, s, tdl, leader0, tdl1, changed, k);
    tdl1 := SetLast(tdl1, k, Recorded(ths[u]));
    ghost var b := tdl1;
    UncoveredKeeps(subs, tdl, b);
    if ths[u].completing {
      ok, tdl1, leader, newDeps := PropagateDeps(subs, me, ths[u].tdl, tdl1, leader, newDeps);
      if !ok {
        PropagatedNames(subs, ths[u].tdl, me, b, tdl1);
        ghost var x: nat :| Overflows(subs, me, tdl1, x);
        TooMany(subs, ths, me, tdl1, x);
        return;
      }
      GrowsCovers(subs, b, tdl1);
      PropagatedNames(subs, ths[u].tdl, me, b, tdl1);
      GrowsAt(subs, b, tdl1, k);
      forall t: nat | Settled(subs, ths, me, b, leader0, t) ensures Settled(subs, ths, me, tdl1, leader, t) {
        SettledGrows(subs, ths, me, b, leader0, tdl1, leader, t);
      }
    } else {
      busy := true;
    }
    SettledNow(subs, ths, me, tdl1, leader, k, u);
  }

  ghost function ThreadsOf(subs: Subgoals, tdl: seq<ThreadDep>): set<nat>
    requires Known(subs, tdl)
  {
    set i | 0 <= i < |tdl| :: subs[tdl[i].sg].tid
  }

  lemma {:induction false} EntriesCount(subs: Subgoals, tdl: seq<ThreadDep>)
    requires Known(subs, tdl) && OnePerThread(subs, tdl)
    ensures |ThreadsOf(subs, tdl)| == |tdl|
  {
    if tdl != [] {
      var n := |tdl| - 1;
      var m := tdl[..n];
      EntriesCount(subs, m);
      var t := subs[tdl[n].sg].tid;
      assert ThreadsOf(subs, tdl) == ThreadsOf(subs, m) + {t} by {
        forall x ensures x in ThreadsOf(subs, tdl) <==> x in ThreadsOf(subs, m) + {t} {
          if x in ThreadsOf(subs, m) {
            var i :| 0 <= i < |m| && x == subs[m[i].sg].tid;
            assert tdl[i] == m[i];
          }
          if x in ThreadsOf(subs, tdl) {
            var i :| 0 <= i < |tdl| && x == subs[tdl[i].sg].tid;
            assert i < n ==> m[i] == tdl[i];
          }
        }
      }
      assert t !in ThreadsOf(subs, m);
    }
  }

  /** A full list of other threads, and two threads that are not in it. */
  lemma TooMany(subs: Subgoals, ths: Threads, me: nat, tdl: seq<ThreadDep>, s: nat)
    requires AllWellFormed(subs, ths) && WellFormed(subs, ths, me, tdl) && me in ths && Overflows(subs, me, tdl, s)
    ensures |ths| > 256
  {
    EntriesCount(subs, tdl);
    var all := ThreadsOf(subs, tdl);
    forall t | t in all ensures t in ths && t != me && t != subs[s].tid {
      var i :| 0 <= i < |tdl| && t == subs[tdl[i].sg].tid;
      assert IsFor(subs, tdl, i, t);
    }
    SubsetSize(all + {me} + {subs[s].tid}, ths.Keys);
  }

  lemma SubsetSize(a: set<nat>, b: set<nat>)
    requires a <= b
    ensures |a| <= |b|
  {
    assert b == a + (b - a);
  }

  lemma CoversLists(subs: Subgoals, tdl: seq<ThreadDep>, s: nat)
    requires Covers(subs, tdl, s) && s in subs
    ensures Lists(subs, tdl, subs[s].tid)
  {
    var i :| CoversAt(subs, tdl, i, s);
    assert IsFor(subs, tdl, i, subs[s].tid);
  }

  // ---- one pass over the list ----------------------------------------------------------------

  /** The first n entries of cur have been handled; tdl is the list that is being built. */
  ghost predicate PassOk(subs: Subgoals, ths: Threads, me: nat, cur: seq<ThreadDep>, n: nat, tdl0: seq<ThreadDep>, tdl: seq<ThreadDep>,
                         leader0: int, leader: int, newDeps: bool, busy0: bool, busy: bool) {
    && n <= |cur| && WellFormed(subs, ths, me, tdl) && CoversMore(subs, tdl0, tdl) && leader >= leader0
    && (forall j :: 0 <= j < n ==> cur[j].sg in subs && Covers(subs, tdl, cur[j].sg) && Settled(subs, ths, me, tdl, leader, subs[cur[j].sg].tid))
    && (forall t: nat :: Lists(subs, tdl0, t) ==> Lists(subs, tdl, t))
    && (!newDeps ==> forall t: nat :: Lists(subs, tdl, t) ==> Lists(subs, tdl0, t) || Lists(subs, cur, t))
    && (newDeps ==> Uncovered(subs, tdl) < Uncovered(subs, tdl0))
    && (busy <==> busy0 || AnyIdle(subs, ths, cur, n))
    && (forall r: nat :: HasSg(tdl, r) ==> HasSg(tdl0, r) || Reason(subs, ths, cur, cur, r))
    && LeaderReason(subs, ths, me, cur, leader0, leader)
  }

  /** Entry j, among the first n, is for a thread that is not blocked. */
  predicate Idle(subs: Subgoals, ths: Threads, cur: seq<ThreadDep>, n: nat, j: int) {
    0 <= j < n <= |cur| && cur[j].sg in subs && subs[cur[j].sg].tid in ths && !ths[subs[cur[j].sg].tid].completing
  }

  ghost predicate AnyIdle(subs: Subgoals, ths: Threads, cur: seq<ThreadDep>, n: nat) {
    exists j :: Idle(subs, ths, cur, n, j)
  }

  lemma PassBegins(subs: Subgoals, ths: Threads, me: nat, cur: seq<ThreadDep>, tdl: seq<ThreadDep>, leader: int, busy: bool)
    requires WellFormed(subs, ths, me, tdl)
    ensures PassOk(subs, ths, me, cur, 0, tdl, tdl, leader, leader, false, busy, busy)
  {
    hide Covers, Settled, Uncovered, HasSg, Lists;
  }

  lemma PassStep(subs: Subgoals, ths: Threads, me: nat, cur: seq<ThreadDep>, n: nat, tdl0: seq<ThreadDep>, tdl: seq<ThreadDep>, tdl1: seq<ThreadDep>,
                 leader0: int, leader: int, leader1: int, newDeps: bool, newDeps1: bool, busy0: bool, busy: bool, idle: bool)
    requires PassOk(subs, ths, me, cur, n, tdl0, tdl, leader0, leader, newDeps, busy0, busy) && n < |cur|
    requires WellFormed(subs, ths, me, cur) && Handled(subs, ths, me, cur[n].sg, tdl, leader, tdl1, leader1, newDeps, newDeps1)
    requires subs[cur[n].sg].tid in ths && (idle <==> !ths[subs[cur[n].sg].tid].completing)
    ensures PassOk(subs, ths, me, cur, n + 1, tdl0, tdl1, leader0, leader1, newDeps1, busy0, busy || idle)
  {
    hide Covers, Settled, Uncovered, HasSg, Lists, Known, OnePerThread, Source, OwnDep, AnyIdle;
    var s := cur[n].sg;
    ListedAt(subs, cur, n);
    HasAt(cur, n);
    UncoveredKeeps(subs, tdl0, tdl);
    UncoveredKeeps(subs, tdl, tdl1);
    IdleMore(subs, ths, cur, n);
    StepReasons(subs, ths, me, cur, n, tdl0, tdl, tdl1, leader0, leader, leader1, newDeps, newDeps1);
  }

  lemma StepReasons(subs: Subgoals, ths: Threads, me: nat, cur: seq<ThreadDep>, n: nat, tdl0: seq<ThreadDep>, tdl: seq<ThreadDep>, tdl1: seq<ThreadDep>,
                    leader0: int, leader: int, leader1: int, newDeps: bool, newDeps1: bool)
    requires n < |cur| && Handled(subs, ths, me, cur[n].sg, tdl, leader, tdl1, leader1, newDeps, newDeps1) && subs[cur[n].sg].tid in ths
    requires forall r: nat :: HasSg(tdl, r) ==> HasSg(tdl0, r) || Reason(subs, ths, cur, cur, r)
    requires LeaderReason(subs, ths, me, cur, leader0, leader)
    ensures forall r: nat :: HasSg(tdl1, r) ==> HasSg(tdl0, r) || Reason(subs, ths, cur, cur, r)
    ensures LeaderReason(subs, ths, me, cur, leader0, leader1)
  {
    hide Covers, Settled, Uncovered, HasSg, Lists, Known, OnePerThread, Source, OwnDep, WellFormed, CoversMore;
    ListedAt(subs, cur, n);
    HasAt(cur, n);
    var u := subs[cur[n].sg].tid;
    assert ths[u].completing ==> Blocked(subs, ths, cur, u);
    forall r: nat | HasSg(tdl1, r) && !HasSg(tdl0, r) ensures Reason(subs, ths, cur, cur, r) { }
  }

  lemma ListedAt(subs: Subgoals, cur: seq<ThreadDep>, n: nat)
    requires n < |cur|
    ensures cur[n].sg in subs ==> Lists(subs, cur, subs[cur[n].sg].tid)
  {
    assert cur[n].sg in subs ==> IsFor(subs, cur, n, subs[cur[n].sg].tid);
  }

  lemma HasAt(cur: seq<ThreadDep>, n: nat)
    requires n < |cur|
    ensures HasSg(cur, cur[n].sg)
  {
  }

  lemma IdleMore(subs: Subgoals, ths: Threads, cur: seq<ThreadDep>, n: nat)
    requires n < |cur|
    ensures AnyIdle(subs, ths, cur, n + 1) <==> AnyIdle(subs, ths, cur, n) || Idle(subs, ths, cur, n + 1, n)
  {
    if AnyIdle(subs, ths, cur, n) {
      var j :| Idle(subs, ths, cur, n, j);
      assert Idle(subs, ths, cur, n + 1, j);
    }
    if AnyIdle(subs, ths, cur, n + 1) {
      var j :| Idle(subs, ths, cur, n + 1, j);
      assert j < n ==> Idle(subs, ths, cur, n, j);
    }
  }

  // ---- all passes ------------------------------------------------------------------------------

  ghost predicate SomeIdle(subs: Subgoals, ths: Threads, tdl: seq<ThreadDep>) {
    exists t: nat :: Lists(subs, tdl, t) && t in ths && !ths[t].completing
  }

  /** What UpdateDeps leaves: every original entry is covered; the counter of every entry is current; every
      dependency of every blocked thread in the list is covered too, own subgoals by the leader; nothing is
      in the list without a reason. */
  ghost predicate Updated(subs: Subgoals, ths: Threads, me: nat, tdl: seq<ThreadDep>, tdl1: seq<ThreadDep>, leader0: int, leader: int, busy: bool) {
    && WellFormed(subs, ths, me, tdl1)
    && (forall i :: 0 <= i < |tdl| ==> Covers(subs, tdl1, tdl[i].sg))
    && (forall t: nat :: Lists(subs, tdl1, t) ==> Settled(subs, ths, me, tdl1, leader, t))
    && (busy <==> SomeIdle(subs, ths, tdl1))
    && leader >= leader0 && LeaderReason(subs, ths, me, tdl1, leader0, leader)
    && (forall s: nat :: HasSg(tdl1, s) ==> Reason(subs, ths, tdl, tdl1, s))
  }

  /** What is known of the list between two passes. */
  ghost predicate Between(subs: Subgoals, ths: Threads, me: nat, orig: seq<ThreadDep>, tdl: seq<ThreadDep>, leader0: int, leader: int, busy: bool) {
    && WellFormed(subs, ths, me, tdl)
    && (forall i :: 0 <= i < |orig| ==> Covers(subs, tdl, orig[i].sg))
    && leader >= leader0 && LeaderReason(subs, ths, me, tdl, leader0, leader) && (busy ==> SomeIdle(subs, ths, tdl))
    && (forall s: nat :: HasSg(tdl, s) ==> Reason(subs, ths, orig, tdl, s))
  }

  lemma BetweenStart(subs: Subgoals, ths: Threads, me: nat, orig: seq<ThreadDep>, leader: int)
    requires WellFormed(subs, ths, me, orig)
    ensures Between(subs, ths, me, orig, orig, leader, leader, false) && WellFormed(subs, ths, me, [])
    ensures forall t: nat :: !Lists(subs, [], t)
    ensures forall s: nat :: !HasSg([], s)
  {
    forall i | 0 <= i < |orig| ensures Covers(subs, orig, orig[i].sg) { assert CoversAt(subs, orig, i, orig[i].sg); }
  }

  lemma PassLists(subs: Subgoals, ths: Threads, me: nat, cur: seq<ThreadDep>, tdl0: seq<ThreadDep>, tdl: seq<ThreadDep>,
                  leader0: int, leader: int, newDeps: bool, busy0: bool, busy: bool)
    requires PassOk(subs, ths, me, cur, |cur|, tdl0, tdl, leader0, leader, newDeps, busy0, busy) && WellFormed(subs, ths, me, cur)
    ensures forall t: nat :: Lists(subs, cur, t) ==> Lists(subs, tdl, t) && Settled(subs, ths, me, tdl, leader, t)
    ensures AnyIdle(subs, ths, cur, |cur|) ==> SomeIdle(subs, ths, tdl)
    ensures SomeIdle(subs, ths, cur) ==> AnyIdle(subs, ths, cur, |cur|)
  {
    hide Covers, Settled, Uncovered, HasSg, CoversMore, Reason, LeaderReason;
    forall t: nat | Lists(subs, cur, t) ensures Lists(subs, tdl, t) && Settled(subs, ths, me, tdl, leader, t) {
      var j :| IsFor(subs, cur, j, t);
      assert cur[j].sg in subs && Covers(subs, tdl, cur[j].sg);
      CoversLists(subs, tdl, cur[j].sg);
    }
    if AnyIdle(subs, ths, cur, |cur|) {
      var j :| Idle(subs, ths, cur, |cur|, j);
      assert IsFor(subs, cur, j, subs[cur[j].sg].tid);
    }
    if SomeIdle(subs, ths, cur) {
      var t: nat :| Lists(subs, cur, t) && t in ths && !ths[t].completing;
      var j :| IsFor(subs, cur, j, t);
      assert Idle(subs, ths, cur, |cur|, j);
    }
  }

  lemma ReasonMore(subs: Subgoals, ths: Threads, me: nat, orig: seq<ThreadDep>, cur: seq<ThreadDep>, tdl: seq<ThreadDep>, leader0: int, leader: int)
    requires forall t: nat :: Lists(subs, cur, t) ==> Lists(subs, tdl, t)
    ensures forall s: nat :: Reason(subs, ths, orig, cur, s) ==> Reason(subs, ths, orig, tdl, s)
    ensures LeaderReason(subs, ths, me, cur, leader0, leader) ==> LeaderReason(subs, ths, me, tdl, leader0, leader)
    ensures SomeIdle(subs, ths, cur) ==> SomeIdle(subs, ths, tdl)
  {
    hide Lists, HasSg, OwnDep, Source;
    forall s: nat | Reason(subs, ths, orig, cur, s) ensures Reason(subs, ths, orig, tdl, s) {
      if !HasSg(orig, s) {
        var t: nat :| Blocked(subs, ths, cur, t) && Source(subs, ths[t].tdl, s);
        assert Blocked(subs, ths, tdl, t);
      }
    }
    if LeaderReason(subs, ths, me, cur, leader0, leader) && leader != leader0 {
      var t: nat, k :| Blocked(subs, ths, cur, t) && OwnDep(subs, me, ths[t].tdl, k, leader);
      assert Blocked(subs, ths, tdl, t);
    }
  }

  lemma LeaderChain(subs: Subgoals, ths: Threads, me: nat, tdl: seq<ThreadDep>, l0: int, l1: int, l2: int)
    requires LeaderReason(subs, ths, me, tdl, l0, l1) && LeaderReason(subs, ths, me, tdl, l1, l2)
    ensures LeaderReason(subs, ths, me, tdl, l0, l2)
  {
    hide OwnDep, Blocked;
  }

  lemma PassDone(subs: Subgoals, ths: Threads, me: nat, orig: seq<ThreadDep>, cur: seq<ThreadDep>, tdl0: seq<ThreadDep>, tdl: seq<ThreadDep>,
                 leader0: int, leader: int, leader1: int, newDeps: bool, busy0: bool, busy: bool)
    requires Between(subs, ths, me, orig, cur, leader0, leader, busy0)
    requires PassOk(subs, ths, me, cur, |cur|, tdl0, tdl, leader, leader1, newDeps, busy0, busy)
    requires tdl0 == cur || ((forall t: nat :: !Lists(subs, tdl0, t)) && forall s: nat :: !HasSg(tdl0, s))
    ensures Between(subs, ths, me, orig, tdl, leader0, leader1, busy)
    ensures !newDeps ==> Updated(subs, ths, me, orig, tdl, leader0, leader1, busy)
  {
    hide Covers, Settled, Uncovered, HasSg, Lists, OwnDep, LeaderReason, SomeIdle, AnyIdle, Known, OnePerThread;
    PassLists(subs, ths, me, cur, tdl0, tdl, leader, leader1, newDeps, busy0, busy);
    ReasonMore(subs, ths, me, orig, cur, tdl, leader0, leader);
    ReasonMore(subs, ths, me, orig, cur, tdl, leader, leader1);
    LeaderChain(subs, ths, me, tdl, leader0, leader, leader1);
    PassCovers(subs, ths, me, orig, cur, tdl0, tdl, leader, leader1, newDeps, busy0, busy);
    PassReasons(subs, ths, me, orig, cur, tdl0, tdl, leader0, leader, busy0);
    if !newDeps {
      PassSettled(subs, ths, me, cur, tdl0, tdl, leader1);
    }
  }

  lemma PassCovers(subs: Subgoals, ths: Threads, me: nat, orig: seq<ThreadDep>, cur: seq<ThreadDep>, tdl0: seq<ThreadDep>, tdl: seq<ThreadDep>,
                   leader0: int, leader: int, newDeps: bool, busy0: bool, busy: bool)
    requires PassOk(subs, ths, me, cur, |cur|, tdl0, tdl, leader0, leader, newDeps, busy0, busy)
    requires forall i :: 0 <= i < |orig| ==> Covers(subs, cur, orig[i].sg)
    ensures forall i :: 0 <= i < |orig| ==> Covers(subs, tdl, orig[i].sg)
  {
    hide Settled, Uncovered, HasSg, Lists, Reason, LeaderReason, AnyIdle, CoversMore, WellFormed;
    forall i | 0 <= i < |orig| ensures Covers(subs, tdl, orig[i].sg) {
      assert Covers(subs, cur, orig[i].sg);
      var j :| CoversAt(subs, cur, j, orig[i].sg);
      assert Covers(subs, tdl, cur[j].sg);
      var k :| CoversAt(subs, tdl, k, cur[j].sg);
      assert CoversAt(subs, tdl, k, orig[i].sg);
    }
  }

  lemma PassReasons(subs: Subgoals, ths: Threads, me: nat, orig: seq<ThreadDep>, cur: seq<ThreadDep>, tdl0: seq<ThreadDep>, tdl: seq<ThreadDep>,
                    leader0: int, leader: int, busy0: bool)
    requires Between(subs, ths, me, orig, cur, leader0, leader, busy0) && forall t: nat :: Lists(subs, cur, t) ==> Lists(subs, tdl, t)
    requires tdl0 == cur || forall s: nat :: !HasSg(tdl0, s)
    requires forall r: nat :: HasSg(tdl, r) ==> HasSg(tdl0, r) || Reason(subs, ths, cur, cur, r)
    ensures forall s: nat :: HasSg(tdl, s) ==> Reason(subs, ths, orig, tdl, s)
  {
    hide Lists, HasSg, OwnDep, Source, WellFormed, Covers, LeaderReason, SomeIdle;
    ReasonMore(subs, ths, me, orig, cur, tdl, leader0, leader);
    forall s: nat | HasSg(tdl, s) ensures Reason(subs, ths, orig, tdl, s) {
      if !HasSg(cur, s) {
        var t: nat :| Blocked(subs, ths, cur, t) && Source(subs, ths[t].tdl, s);
        assert Reason(subs, ths, orig, cur, s);
      }
    }
  }

  lemma PassSettled(subs: Subgoals, ths: Threads, me: nat, cur: seq<ThreadDep>, tdl0: seq<ThreadDep>, tdl: seq<ThreadDep>, leader: int)
    requires forall t: nat :: Lists(subs, cur, t) ==> Lists(subs, tdl, t) && Settled(subs, ths, me, tdl, leader, t)
    requires forall t: nat :: Lists(subs, tdl, t) ==> Lists(subs, tdl0, t) || Lists(subs, cur, t)
    requires tdl0 == cur || forall t: nat :: !Lists(subs, tdl0, t)
    ensures forall t: nat :: Lists(subs, tdl, t) ==> Settled(subs, ths, me, tdl, leader, t)
    ensures SomeIdle(subs, ths, tdl) ==> SomeIdle(subs, ths, cur)
  {
    hide Lists, Settled;
  }

  method UpdateDeps(subs: Subgoals, ths: Threads, me: nat, leader0: int) returns (ok: bool, tdl: seq<ThreadDep>, busy: bool, leader: int)
    requires AllWellFormed(subs, ths) && me in ths
    ensures !ok ==> |ths| > 256
    ensures ok ==> Updated(subs, ths, me, ths[me].tdl, tdl, leader0, leader, busy)
  {
    hide Covers, Settled, Uncovered, HasSg, Lists, Known, OnePerThread, Between, Updated, PassOk, Handled;
    ok, busy, leader := true, false, leader0;
    tdl := ths[me].tdl;
    var newTdl: seq<ThreadDep> := [];
    BetweenStart(subs, ths, me, tdl, leader);
    var newDeps := true;
    while newDeps
      invariant Between(subs, ths, me, ths[me].tdl, tdl, leader0, leader, busy)
      invariant WellFormed(subs, ths, me, newTdl) && (newTdl == tdl || newTdl == [])
      invariant !newDeps ==> Updated(subs, ths, me, ths[me].tdl, tdl, leader0, leader, busy)
      decreases Uncovered(subs, newTdl), newDeps
    {
      ghost var start, leader1, busy1 := newTdl, leader, busy;
      newDeps := false;
      BetweenWellFormed(subs, ths, me, ths[me].tdl, tdl, leader0, leader, busy);
      PassBegins(subs, ths, me, tdl, newTdl, leader, busy);
      var i := 0;
      while i < |tdl|
        invariant 0 <= i <= |tdl| && PassOk(subs, ths, me, tdl, i, start, newTdl, leader1, leader, newDeps, busy1, busy)
      {
        PassFacts(subs, ths, me, tdl, i, start, newTdl, leader1, leader, newDeps, busy1, busy);
        EntryFacts(subs, ths, me, tdl, i);
        var newTdl1, leader2, newDeps1, idle;
        ok, newTdl1, leader2, newDeps1, idle := HandleDep(subs, ths, me, tdl[i].sg, newTdl, leader, newDeps);
        if !ok { return; }
        PassStep(subs, ths, me, tdl, i, start, newTdl, newTdl1, leader1, leader, leader2, newDeps, newDeps1, busy1, busy, idle);
        newTdl, leader, newDeps, busy := newTdl1, leader2, newDeps1, busy || idle;
        i := i + 1;
      }
      PassFacts(subs, ths, me, tdl, i, start, newTdl, leader1, leader, newDeps, busy1, busy);
      BetweenStart(subs, ths, me, ths[me].tdl, leader);
      PassDone(subs, ths, me, ths[me].tdl, tdl, start, newTdl, leader0, leader1, leader, newDeps, busy1, busy);
      tdl := newTdl;
    }
  }

  lemma BetweenWellFormed(subs: Subgoals, ths: Threads, me: nat, orig: seq<ThreadDep>, tdl: seq<ThreadDep>, leader0: int, leader: int, busy: bool)
    requires Between(subs, ths, me, orig, tdl, leader0, leader, busy)
    ensures WellFormed(subs, ths, me, tdl)
  {
  }

  lemma PassFacts(subs: Subgoals, ths: Threads, me: nat, cur: seq<ThreadDep>, n: nat, tdl0: seq<ThreadDep>, tdl: seq<ThreadDep>,
                  leader0: int, leader: int, newDeps: bool, busy0: bool, busy: bool)
    requires PassOk(subs, ths, me, cur, n, tdl0, tdl, leader0, leader, newDeps, busy0, busy)
    ensures WellFormed(subs, ths, me, tdl)
    ensures Uncovered(subs, tdl) <= Uncovered(subs, tdl0) && (newDeps ==> Uncovered(subs, tdl) < Uncovered(subs, tdl0))
  {
    hide Covers, Settled, Uncovered, HasSg, Lists, Known, OnePerThread;
    UncoveredKeeps(subs, tdl0, tdl);
  }

  lemma EntryFacts(subs: Subgoals, ths: Threads, me: nat, cur: seq<ThreadDep>, n: nat)
    requires WellFormed(subs, ths, me, cur) && n < |cur|
    ensures cur[n].sg in subs && subs[cur[n].sg].tid != me
  {
    KnownAt(subs, cur, n);
    ListedAt(subs, cur, n);
  }
}
