/** Thread dependency lists (XSB/emu/conc_compl.c, find_tid to UpdateDeps). */
module DepLists {

  const MAX_THREAD_DEPS: nat := 256

  /** cs is the position on the completion stack of the thread tid; a greater cs is an older subgoal. */
  datatype Subgoal = Subgoal(tid: nat, cs: int, completed: bool)

  datatype ThreadDep = ThreadDep(sg: nat, last: nat)

  datatype Thread = Thread(completing: bool, completed: bool, ccLeader: int, lastAns: nat, tdl: seq<ThreadDep>)

  type Subgoals = map<nat, Subgoal>
  type Threads = map<nat, Thread>

  // ---- lists of dependencies -------------------------------------------------------------

  predicate Known(subs: Subgoals, tdl: seq<ThreadDep>) {
    forall i :: 0 <= i < |tdl| ==> tdl[i].sg in subs
  }

  /** Entry i is for thread t. */
  predicate IsFor(subs: Subgoals, tdl: seq<ThreadDep>, i: int, t: nat) {
    0 <= i < |tdl| && tdl[i].sg in subs && subs[tdl[i].sg].tid == t
  }

  ghost predicate Lists(subs: Subgoals, tdl: seq<ThreadDep>, t: nat) {
    exists i :: IsFor(subs, tdl, i, t)
  }

  predicate OnePerThread(subs: Subgoals, tdl: seq<ThreadDep>) {
    forall i, j :: 0 <= i < j < |tdl| && tdl[i].sg in subs && tdl[j].sg in subs ==> subs[tdl[i].sg].tid != subs[tdl[j].sg].tid
  }

  predicate CoversAt(subs: Subgoals, tdl: seq<ThreadDep>, i: int, s: nat) {
    0 <= i < |tdl| && tdl[i].sg in subs && s in subs && subs[tdl[i].sg].tid == subs[s].tid && subs[tdl[i].sg].cs >= subs[s].cs
  }

  /** The list names the thread of s with a subgoal at least as old. */
  ghost predicate Covers(subs: Subgoals, tdl: seq<ThreadDep>, s: nat) {
    exists i :: CoversAt(subs, tdl, i, s)
  }

  method FindTid(subs: Subgoals, tdl: seq<ThreadDep>, tid: nat) returns (k: int)
    requires Known(subs, tdl)
    ensures k == -1 || IsFor(subs, tdl, k, tid)
    ensures k == -1 <==> !Lists(subs, tdl, tid)
  {
    var i := 0;
    while i < |tdl|
      invariant 0 <= i <= |tdl| && forall j :: 0 <= j < i ==> subs[tdl[j].sg].tid != tid
    {
      if subs[tdl[i].sg].tid == tid {
        assert IsFor(subs, tdl, i, tid);
        return i;
      }
      i := i + 1;
    }
    return -1;
  }

  /** s is covered afterwards, nothing that was covered is lost, no thread appears twice; only the
      entry of the thread of s may be new or another. */
  ghost predicate Inserted(subs: Subgoals, tdl: seq<ThreadDep>, s: nat, tdl1: seq<ThreadDep>, changed: bool) {
    && Known(subs, tdl1) && OnePerThread(subs, tdl1) && Covers(subs, tdl1, s)
    && |tdl| <= |tdl1| && (changed <==> !Covers(subs, tdl, s)) && (!changed ==> tdl1 == tdl)
    && (forall i :: 0 <= i < |tdl| ==>
          tdl1[i].last == tdl[i].last && (tdl1[i].sg == tdl[i].sg || (changed && tdl1[i].sg == s && CoversAt(subs, tdl1, i, tdl[i].sg))))
    && (forall i :: |tdl| <= i < |tdl1| ==> tdl1[i].sg == s && changed)
  }

  /** The list has no place for thread t. */
  ghost predicate Full(subs: Subgoals, tdl: seq<ThreadDep>, t: nat) {
    |tdl| == MAX_THREAD_DEPS - 1 && !Lists(subs, tdl, t)
  }

  /** check_ins_subg; the counter of a new entry is whatever was in memory. */
  method CheckInsSubg(subs: Subgoals, tdl: seq<ThreadDep>, s: nat) returns (ok: bool, tdl1: seq<ThreadDep>, changed: bool)
    requires Known(subs, tdl) && OnePerThread(subs, tdl) && s in subs
    ensures ok ==> Inserted(subs, tdl, s, tdl1, changed)
    ensures !ok <==> Full(subs, tdl, subs[s].tid)
  {
    tdl1 := tdl;
    var i := 0;
    while i < |tdl|
      invariant 0 <= i <= |tdl| && tdl1 == tdl && forall j :: 0 <= j < i ==> subs[tdl[j].sg].tid != subs[s].tid
    {
      if subs[tdl[i].sg].tid == subs[s].tid {
        assert IsFor(subs, tdl, i, subs[s].tid);
        if subs[s].cs > subs[tdl[i].sg].cs {
          tdl1 := tdl[i := ThreadDep(s, tdl[i].last)];
          Raised(subs, tdl, s, i);
          return true, tdl1, true;
        } else {
          assert CoversAt(subs, tdl, i, s);
          return true, tdl1, false;
        }
      }
      i := i + 1;
    }
    if |tdl| == MAX_THREAD_DEPS - 1 {
      return false, tdl1, false;
    }
    var last: nat := *;
    tdl1 := tdl + [ThreadDep(s, last)];
    assert CoversAt(subs, tdl1, |tdl|, s);
    return true, tdl1, true;
  }

  lemma Raised(subs: Subgoals, tdl: seq<ThreadDep>, s: nat, i: nat)
    requires Known(subs, tdl) && OnePerThread(subs, tdl) && s in subs && i < |tdl|
    requires subs[tdl[i].sg].tid == subs[s].tid && subs[s].cs > subs[tdl[i].sg].cs
    ensures Inserted(subs, tdl, s, tdl[i := ThreadDep(s, tdl[i].last)], true)
  {
    var tdl1 := tdl[i := ThreadDep(s, tdl[i].last)];
    assert CoversAt(subs, tdl1, i, s);
    assert CoversAt(subs, tdl1, i, tdl[i].sg);
    forall j | 0 <= j < |tdl| ensures !CoversAt(subs, tdl, j, s) {
      if j < i { assert subs[tdl[j].sg].tid != subs[tdl[i].sg].tid; }
      if i < j { assert subs[tdl[i].sg].tid != subs[tdl[j].sg].tid; }
    }
  }

  // ---- the lists only ever cover more ------------------------------------------------------

  ghost predicate CoversMore(subs: Subgoals, tdl: seq<ThreadDep>, tdl1: seq<ThreadDep>) {
    forall s: nat :: Covers(subs, tdl, s) ==> Covers(subs, tdl1, s)
  }

  lemma InsertedCovers(subs: Subgoals, tdl: seq<ThreadDep>, s: nat, tdl1: seq<ThreadDep>, changed: bool)
    requires Inserted(subs, tdl, s, tdl1, changed)
    ensures CoversMore(subs, tdl, tdl1)
  {
    forall r: nat | Covers(subs, tdl, r) ensures Covers(subs, tdl1, r) {
      var i :| CoversAt(subs, tdl, i, r);
      assert CoversAt(subs, tdl1, i, r);
    }
  }

  /** The subgoals that are not covered: what is left before no insertion changes anything. */
  ghost function Uncovered(subs: Subgoals, tdl: seq<ThreadDep>): set<nat> {
    set s | s in subs && !Covers(subs, tdl, s)
  }

  lemma UncoveredShrinks(subs: Subgoals, tdl: seq<ThreadDep>, tdl1: seq<ThreadDep>, s: nat)
    requires CoversMore(subs, tdl, tdl1) && s in subs && !Covers(subs, tdl, s) && Covers(subs, tdl1, s)
    ensures Uncovered(subs, tdl1) < Uncovered(subs, tdl)
  {
    assert s in Uncovered(subs, tdl) && s !in Uncovered(subs, tdl1);
  }

  lemma UncoveredKeeps(subs: Subgoals, tdl: seq<ThreadDep>, tdl1: seq<ThreadDep>)
    requires CoversMore(subs, tdl, tdl1)
    ensures Uncovered(subs, tdl1) <= Uncovered(subs, tdl)
  {
  }

  // ---- a list grows ------------------------------------------------------------------------

  ghost predicate SameThread(subs: Subgoals, d: ThreadDep, d1: ThreadDep) {
    d.sg in subs && d1.sg in subs && subs[d1.sg].tid == subs[d.sg].tid && subs[d1.sg].cs >= subs[d.sg].cs && d1.last == d.last
  }

  /** Entries keep their place, thread and counter, and only get older subgoals. */
  ghost predicate Grows(subs: Subgoals, tdl: seq<ThreadDep>, tdl1: seq<ThreadDep>) {
    |tdl| <= |tdl1| && forall i :: 0 <= i < |tdl| ==> SameThread(subs, tdl[i], tdl1[i])
  }

  lemma GrowsTrans(subs: Subgoals, a: seq<ThreadDep>, b: seq<ThreadDep>, c: seq<ThreadDep>)
    requires Grows(subs, a, b) && Grows(subs, b, c)
    ensures Grows(subs, a, c)
  {
    forall i | 0 <= i < |a| ensures SameThread(subs, a[i], c[i]) { assert SameThread(subs, a[i], b[i]) && SameThread(subs, b[i], c[i]); }
  }

  lemma InsertedGrows(subs: Subgoals, tdl: seq<ThreadDep>, s: nat, tdl1: seq<ThreadDep>, changed: bool)
    requires Known(subs, tdl) && Inserted(subs, tdl, s, tdl1, changed)
    ensures Grows(subs, tdl, tdl1)
  {
  }

  lemma GrowsCovers(subs: Subgoals, tdl: seq<ThreadDep>, tdl1: seq<ThreadDep>)
    requires Grows(subs, tdl, tdl1)
    ensures CoversMore(subs, tdl, tdl1)
    ensures forall t: nat :: Lists(subs, tdl, t) ==> Lists(subs, tdl1, t)
  {
    forall r: nat | Covers(subs, tdl, r) ensures Covers(subs, tdl1, r) {
      var i :| CoversAt(subs, tdl, i, r);
      assert SameThread(subs, tdl[i], tdl1[i]);
      assert CoversAt(subs, tdl1, i, r);
    }
    forall t: nat | Lists(subs, tdl, t) ensures Lists(subs, tdl1, t) {
      var i :| IsFor(subs, tdl, i, t);
      assert SameThread(subs, tdl[i], tdl1[i]);
      assert IsFor(subs, tdl1, i, t);
    }
  }

  // ---- the dependencies of a blocked thread ------------------------------------------------

  /** Every uncompleted subgoal in deps is the own thread's and at most as old as leader, or covered. */
  ghost predicate DepsDone(subs: Subgoals, me: nat, deps: seq<ThreadDep>, n: nat, tdl: seq<ThreadDep>, leader: int) {
    forall k :: 0 <= k < n && k < |deps| && deps[k].sg in subs && !subs[deps[k].sg].completed ==>
      if subs[deps[k].sg].tid == me then leader >= subs[deps[k].sg].cs else Covers(subs, tdl, deps[k].sg)
  }

  predicate OwnDep(subs: Subgoals, me: nat, deps: seq<ThreadDep>, k: int, cs: int) {
    0 <= k < |deps| && deps[k].sg in subs && !subs[deps[k].sg].completed && subs[deps[k].sg].tid == me && subs[deps[k].sg].cs == cs
  }

  /** s is an uncompleted subgoal in deps. */
  predicate Among(subs: Subgoals, deps: seq<ThreadDep>, k: int, s: nat) {
    0 <= k < |deps| && deps[k].sg == s && s in subs && !subs[s].completed
  }

  ghost predicate Source(subs: Subgoals, deps: seq<ThreadDep>, s: nat) {
    exists k :: Among(subs, deps, k, s)
  }

  /** The list has no place for the thread of s, which is not me. */
  ghost predicate Overflows(subs: Subgoals, me: nat, tdl: seq<ThreadDep>, s: nat) {
    s in subs && subs[s].tid != me && Full(subs, tdl, subs[s].tid)
  }

  method PropagateDeps(subs: Subgoals, me: nat, deps: seq<ThreadDep>, newTdl: seq<ThreadDep>, leader0: int, newDeps0: bool)
    returns (ok: bool, tdl1: seq<ThreadDep>, leader: int, newDeps: bool)
    requires Known(subs, deps) && Known(subs, newTdl) && OnePerThread(subs, newTdl)
    ensures ok ==> Known(subs, tdl1) && OnePerThread(subs, tdl1) && Grows(subs, newTdl, tdl1)
    ensures ok ==> DepsDone(subs, me, deps, |deps|, tdl1, leader)
    ensures ok ==> leader >= leader0 && (leader == leader0 || exists k :: OwnDep(subs, me, deps, k, leader))
    ensures ok ==> (newDeps0 ==> newDeps) && (!newDeps ==> tdl1 == newTdl)
    ensures ok ==> (newDeps && !newDeps0 ==> Uncovered(subs, tdl1) < Uncovered(subs, newTdl))
    ensures Known(subs, tdl1) && OnePerThread(subs, tdl1)
    ensures forall i :: 0 <= i < |tdl1| ==> (i < |newTdl| && tdl1[i].sg == newTdl[i].sg) || (Source(subs, deps, tdl1[i].sg) && subs[tdl1[i].sg].tid != me)
    ensures !ok ==> exists s: nat :: Overflows(subs, me, tdl1, s)
  {
    hide Inserted, Known, OnePerThread, Covers, Uncovered, Grows, Full;
    ok, tdl1, leader, newDeps := true, newTdl, leader0, newDeps0;
    GrowsRefl(subs, newTdl);
    var i := 0;
    while i < |deps|
      invariant 0 <= i <= |deps| && Known(subs, tdl1) && OnePerThread(subs, tdl1) && Grows(subs, newTdl, tdl1)
      invariant DepsDone(subs, me, deps, i, tdl1, leader)
      invariant leader >= leader0 && (leader == leader0 || exists k :: OwnDep(subs, me, deps, k, leader))
      invariant (newDeps0 ==> newDeps) && (!newDeps ==> tdl1 == newTdl)
      invariant newDeps && !newDeps0 ==> Uncovered(subs, tdl1) < Uncovered(subs, newTdl)
      invariant forall j :: 0 <= j < |tdl1| ==> (j < |newTdl| && tdl1[j].sg == newTdl[j].sg) || (Source(subs, deps, tdl1[j].sg) && tdl1[j].sg in subs && subs[tdl1[j].sg].tid != me)
    {
      KnownAt(subs, deps, i);
      var s := deps[i].sg;
      if !subs[s].completed {
        if subs[s].tid == me {
          if subs[s].cs > leader {
            leader := subs[s].cs;
            assert OwnDep(subs, me, deps, i, leader);
          }
        } else {
          var tdl2, changed;
          ok, tdl2, changed := CheckInsSubg(subs, tdl1, s);
          if !ok {
            assert Overflows(subs, me, tdl1, s);
            return;
          }
          InsertFacts(subs, tdl1, s, tdl2, changed);
          GrowsTrans(subs, newTdl, tdl1, tdl2);
          assert Among(subs, deps, i, s);
          if changed { newDeps := true; }
          DepsKept(subs, me, deps, i, tdl1, tdl2, leader);
          tdl1 := tdl2;
        }
      }
      i := i + 1;
    }
  }

  lemma GrowsRefl(subs: Subgoals, tdl: seq<ThreadDep>)
    requires Known(subs, tdl)
    ensures Grows(subs, tdl, tdl)
  {
  }

  lemma KnownAt(subs: Subgoals, tdl: seq<ThreadDep>, i: nat)
    requires Known(subs, tdl) && i < |tdl|
    ensures tdl[i].sg in subs
  {
  }

  /** What an insertion tells its caller. */
  lemma InsertFacts(subs: Subgoals, tdl: seq<ThreadDep>, s: nat, tdl1: seq<ThreadDep>, changed: bool)
    requires Inserted(subs, tdl, s, tdl1, changed) && Known(subs, tdl) && s in subs
    ensures Known(subs, tdl1) && OnePerThread(subs, tdl1) && Grows(subs, tdl, tdl1) && CoversMore(subs, tdl, tdl1) && Covers(subs, tdl1, s)
    ensures !changed ==> tdl1 == tdl
    ensures Uncovered(subs, tdl1) <= Uncovered(subs, tdl) && (changed ==> Uncovered(subs, tdl1) < Uncovered(subs, tdl))
    ensures forall i :: 0 <= i < |tdl1| ==> (i < |tdl| && tdl1[i].sg == tdl[i].sg) || tdl1[i].sg == s
  {
    hide Covers, Uncovered;
    InsertedGrows(subs, tdl, s, tdl1, changed);
    InsertedCovers(subs, tdl, s, tdl1, changed);
    UncoveredKeeps(subs, tdl, tdl1);
    if changed { UncoveredShrinks(subs, tdl, tdl1, s); }
  }

  lemma DepsKept(subs: Subgoals, me: nat, deps: seq<ThreadDep>, n: nat, tdl: seq<ThreadDep>, tdl1: seq<ThreadDep>, leader: int)
    requires DepsDone(subs, me, deps, n, tdl, leader) && CoversMore(subs, tdl, tdl1)
    ensures DepsDone(subs, me, deps, n, tdl1, leader)
  {
    hide Covers;
  }
}
