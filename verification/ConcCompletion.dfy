/** Completion of mutually dependent threads (XSB/emu/complete_xsb_i.h, the concurrent branch of
    check_complete; XSB/emu/conc_compl.c, MayHaveAnswers to CompleteTop). Every method is one
    stretch of the protocol during which the completion mutex is held. */
module ConcCompletion {
  import opened DepLists
  import opened UpdateDeps

  // ---- when a set of threads may be completed ----------------------------------------------

  /** Every counter that list t recorded is at least the present one. */
  predicate NothingNew(subs: Subgoals, ths: Threads, tdl: seq<ThreadDep>, n: nat) {
    forall i :: 0 <= i < n && i < |tdl| && tdl[i].sg in subs && subs[tdl[i].sg].tid in ths ==> tdl[i].last >= ths[subs[tdl[i].sg].tid].lastAns
  }

  /** No counter has been recorded that has not been reached. */
  predicate NotAhead(subs: Subgoals, ths: Threads, tdl: seq<ThreadDep>) {
    forall i :: 0 <= i < |tdl| && tdl[i].sg in subs && subs[tdl[i].sg].tid in ths ==> tdl[i].last <= ths[subs[tdl[i].sg].tid].lastAns
  }

  predicate Current(subs: Subgoals, ths: Threads, tdl: seq<ThreadDep>) {
    forall i :: 0 <= i < |tdl| && tdl[i].sg in subs && subs[tdl[i].sg].tid in ths ==> tdl[i].last == ths[subs[tdl[i].sg].tid].lastAns
  }

  /** Each thread in the first n entries of list a, itself left out, is in list b. */
  ghost predicate Within(subs: Subgoals, a: seq<ThreadDep>, n: nat, self: nat, b: seq<ThreadDep>) {
    forall i :: 0 <= i < n && i < |a| && a[i].sg in subs && subs[a[i].sg].tid != self ==> Lists(subs, b, subs[a[i].sg].tid)
  }

  /** The thread of entry d is a member of the set of me: its leader is old enough and it names the same threads. */
  ghost predicate Member(subs: Subgoals, ths: Threads, me: nat, tdl: seq<ThreadDep>, d: ThreadDep) {
    d.sg in subs && subs[d.sg].tid in ths &&
    var t := subs[d.sg].tid;
    (ths[t].ccLeader >= subs[d.sg].cs && Within(subs, ths[t].tdl, |ths[t].tdl|, me, tdl) && Within(subs, tdl, |tdl|, t, ths[t].tdl))
  }

  ghost predicate AllMembers(subs: Subgoals, ths: Threads, me: nat, tdl: seq<ThreadDep>, n: nat) {
    forall i :: 0 <= i < n && i < |tdl| ==> Member(subs, ths, me, tdl, tdl[i])
  }

  /** CompleteTop: all subgoals of thread t from the leader on are completed. */
  function Finished(subs: Subgoals, t: nat, leader: int): Subgoals {
    map s | s in subs :: if subs[s].tid == t && subs[s].cs <= leader then subs[s].(completed := true) else subs[s]
  }

  /** Only completion marks are set, and only where allowed. */
  ghost predicate OnlyCompletes(subs: Subgoals, subs1: Subgoals) {
    && subs1.Keys == subs.Keys
    && forall s: nat :: s in subs ==> subs1[s].tid == subs[s].tid && subs1[s].cs == subs[s].cs && (subs[s].completed ==> subs1[s].completed)
  }

  lemma FinishedOnly(subs: Subgoals, t: nat, leader: int)
    ensures OnlyCompletes(subs, Finished(subs, t, leader))
  {
  }

  lemma OnlyTrans(a: Subgoals, b: Subgoals, c: Subgoals)
    requires OnlyCompletes(a, b) && OnlyCompletes(b, c)
    ensures OnlyCompletes(a, c)
  {
  }

  /** Lists mean the same when only completion marks differ. */
  lemma OnlyLists(subs: Subgoals, subs1: Subgoals, tdl: seq<ThreadDep>)
    requires OnlyCompletes(subs, subs1)
    ensures forall t: nat :: Lists(subs1, tdl, t) <==> Lists(subs, tdl, t)
    ensures Known(subs, tdl) ==> Known(subs1, tdl) && (OnePerThread(subs, tdl) ==> OnePerThread(subs1, tdl))
  {
    forall t: nat ensures Lists(subs1, tdl, t) <==> Lists(subs, tdl, t) {
      if Lists(subs, tdl, t) { var i :| IsFor(subs, tdl, i, t); assert IsFor(subs1, tdl, i, t); }
      if Lists(subs1, tdl, t) { var i :| IsFor(subs1, tdl, i, t); assert IsFor(subs, tdl, i, t); }
    }
  }

  lemma OnlyWellFormed(subs: Subgoals, subs1: Subgoals, ths: Threads)
    requires OnlyCompletes(subs, subs1) && AllWellFormed(subs, ths)
    ensures AllWellFormed(subs1, ths)
  {
    hide Lists, Known, OnePerThread;
    forall t: nat | t in ths ensures WellFormed(subs1, ths, t, ths[t].tdl) { OnlyLists(subs, subs1, ths[t].tdl); }
  }

  // ---- what holds when a set of threads is completed -------------------------------------------

  /** tdl is the list of thread me, which is about to complete its set from leader on. */
  ghost predicate MayComplete(subs: Subgoals, ths: Threads, me: nat, tdl: seq<ThreadDep>, leader: int) {
    && WellFormed(subs, ths, me, tdl)
    && (forall t: nat :: Lists(subs, tdl, t) ==> ths[t].completing)
    && AllMembers(subs, ths, me, tdl, |tdl|)
    && Current(subs, ths, tdl)
    && (forall t: nat :: Lists(subs, tdl, t) ==> Current(subs, ths, ths[t].tdl))
    && (forall t: nat :: Lists(subs, tdl, t) ==> DepsDone(subs, me, ths[t].tdl, |ths[t].tdl|, tdl, leader))
  }

  /** Thread t is blocked with this subgoal in its part of the stack. */
  predicate InPart(subs: Subgoals, ths: Threads, t: nat, s: nat) {
    s in subs && subs[s].tid == t && t in ths && subs[s].cs <= ths[t].ccLeader
  }

  /** The parts of the threads in the first n entries are completed, all of them and nothing else. */
  ghost predicate FinishedTo(subs: Subgoals, subs1: Subgoals, ths: Threads, tdl: seq<ThreadDep>, n: nat) {
    && OnlyCompletes(subs, subs1)
    && forall s: nat :: s in subs ==>
      (subs1[s].completed <==> subs[s].completed || (ListsTo(subs, tdl, n, subs[s].tid) && InPart(subs, ths, subs[s].tid, s)))
  }

  ghost predicate ListsTo(subs: Subgoals, tdl: seq<ThreadDep>, n: nat, t: nat) {
    exists i :: i < n && IsFor(subs, tdl, i, t)
  }

  lemma FinishedStep(subs: Subgoals, subs1: Subgoals, ths: Threads, tdl: seq<ThreadDep>, n: nat)
    requires FinishedTo(subs, subs1, ths, tdl, n) && n < |tdl| && tdl[n].sg in subs && subs[tdl[n].sg].tid in ths
    ensures FinishedTo(subs, Finished(subs1, subs[tdl[n].sg].tid, ths[subs[tdl[n].sg].tid].ccLeader), ths, tdl, n + 1)
  {
    hide Lists, ListsTo;
    var t := subs[tdl[n].sg].tid;
    var subs2 := Finished(subs1, t, ths[t].ccLeader);
    ListsNext(subs, tdl, n);
    FinishedOnly(subs1, t, ths[t].ccLeader);
    OnlyTrans(subs, subs1, subs2);
  }

  /** In the end nothing that a member of the set depends on is left incomplete. */
  ghost predicate AllCompleted(subs1: Subgoals, deps: seq<ThreadDep>) {
    forall i :: 0 <= i < |deps| && deps[i].sg in subs1 ==> subs1[deps[i].sg].completed
  }

  /** A subgoal covered by the list of a set that may be completed is in the part of its thread. */
  lemma CoveredInPart(subs: Subgoals, ths: Threads, me: nat, tdl: seq<ThreadDep>, leader: int, s: nat) returns (i: nat)
    requires MayComplete(subs, ths, me, tdl, leader) && s in subs && Covers(subs, tdl, s)
    ensures i < |tdl| && tdl[i].sg in subs && InPart(subs, ths, subs[tdl[i].sg].tid, s) && ListsTo(subs, tdl, |tdl|, subs[tdl[i].sg].tid)
  {
    hide Current, DepsDone, Within, Lists, Known, OnePerThread;
    var k :| CoversAt(subs, tdl, k, s);
    assert Member(subs, ths, me, tdl, tdl[k]);
    i := k;
    assert IsFor(subs, tdl, k, subs[tdl[k].sg].tid);
  }

  lemma AllSettled(subs: Subgoals, subs1: Subgoals, ths: Threads, me: nat, tdl: seq<ThreadDep>, leader: int)
    requires MayComplete(subs, ths, me, tdl, leader) && FinishedTo(subs, subs1, ths, tdl, |tdl|) && AllWellFormed(subs, ths)
    ensures var subs2 := Finished(subs1, me, leader);
      AllCompleted(subs2, tdl) && forall t: nat :: Lists(subs, tdl, t) ==> t in ths && AllCompleted(subs2, ths[t].tdl)
  {
    hide Current, Within, Lists, ListsTo, Known, OnePerThread, Covers, MayComplete, WellFormed;
    var subs2 := Finished(subs1, me, leader);
    FinishedOnly(subs1, me, leader);
    MayFacts(subs, ths, me, tdl, leader);
    forall i | 0 <= i < |tdl| && tdl[i].sg in subs2 ensures subs2[tdl[i].sg].completed {
      CoversSelf(subs, tdl, i);
      var k := CoveredInPart(subs, ths, me, tdl, leader, tdl[i].sg);
    }
    forall t: nat | Lists(subs, tdl, t) ensures t in ths && AllCompleted(subs2, ths[t].tdl) {
      forall i | 0 <= i < |ths[t].tdl| && ths[t].tdl[i].sg in subs2 ensures subs2[ths[t].tdl[i].sg].completed {
        var s := ths[t].tdl[i].sg;
        if !subs[s].completed && subs[s].tid != me {
          assert Covers(subs, tdl, s);
          var k := CoveredInPart(subs, ths, me, tdl, leader, s);
        }
      }
    }
  }

  lemma CoversSelf(subs: Subgoals, tdl: seq<ThreadDep>, i: nat)
    requires i < |tdl| && tdl[i].sg in subs
    ensures Covers(subs, tdl, tdl[i].sg)
  {
    assert CoversAt(subs, tdl, i, tdl[i].sg);
  }

  lemma MayFacts(subs: Subgoals, ths: Threads, me: nat, tdl: seq<ThreadDep>, leader: int)
    requires MayComplete(subs, ths, me, tdl, leader)
    ensures forall t: nat :: Lists(subs, tdl, t) ==> t in ths && t != me && DepsDone(subs, me, ths[t].tdl, |ths[t].tdl|, tdl, leader)
  {
    hide Current, Within, Lists, DepsDone, Known, OnePerThread;
  }

  // ---- one round of the loop -----------------------------------------------------------------

  /** Lists are well formed, and a blocked thread has recorded no counter that was never reached. */
  ghost predicate Sound(subs: Subgoals, ths: Threads) {
    AllWellFormed(subs, ths) && forall t: nat :: t in ths && ths[t].completing ==> NotAhead(subs, ths, ths[t].tdl)
  }

  /** The two tables differ in the list and the flags of thread me only. */
  predicate OnlyMe(ths: Threads, ths1: Threads, me: nat) {
    ths1.Keys == ths.Keys && forall t: nat :: t in ths ==> ths1[t].lastAns == ths[t].lastAns && (t != me ==> ths1[t] == ths[t])
  }

  lemma OnlyMeSound(subs: Subgoals, ths: Threads, ths1: Threads, me: nat)
    requires Sound(subs, ths) && OnlyMe(ths, ths1, me) && me in ths && WellFormed(subs, ths, me, ths1[me].tdl)
    requires ths1[me].completing ==> NotAhead(subs, ths, ths1[me].tdl)
    ensures Sound(subs, ths1)
  {
    hide Known, OnePerThread, Lists;
    forall t: nat | t in ths1 ensures WellFormed(subs, ths1, t, ths1[t].tdl) { assert WellFormed(subs, ths, t, ths[t].tdl); }
  }

  /** Entries of a list that has been brought up to date carry the counters of the blocked threads. */
  lemma UpdatedLast(subs: Subgoals, ths: Threads, me: nat, tdl0: seq<ThreadDep>, tdl: seq<ThreadDep>, leader0: int, leader: int, busy: bool, i: nat)
    requires Updated(subs, ths, me, tdl0, tdl, leader0, leader, busy) && i < |tdl| && tdl[i].sg in subs
    ensures subs[tdl[i].sg].tid in ths && tdl[i].last == Recorded(ths[subs[tdl[i].sg].tid])
  {
    hide Covers, DepsDone, Reason, LeaderReason, SomeIdle;
    var t := subs[tdl[i].sg].tid;
    ListedAt(subs, tdl, i);
    var k :| IsFor(subs, tdl, k, t) && tdl[k].last == Recorded(ths[t]);
    SameEntry(subs, tdl, i, k);
  }

  lemma SameEntry(subs: Subgoals, tdl: seq<ThreadDep>, i: nat, k: nat)
    requires OnePerThread(subs, tdl) && i < |tdl| && k < |tdl| && tdl[i].sg in subs && tdl[k].sg in subs && subs[tdl[i].sg].tid == subs[tdl[k].sg].tid
    ensures i == k
  {
  }

  lemma UpdatedAhead(subs: Subgoals, ths: Threads, me: nat, tdl0: seq<ThreadDep>, tdl: seq<ThreadDep>, leader0: int, leader: int, busy: bool)
    requires Updated(subs, ths, me, tdl0, tdl, leader0, leader, busy)
    ensures NotAhead(subs, ths, tdl) && WellFormed(subs, ths, me, tdl) && Current(subs, Blockers(ths), tdl) && leader >= leader0
    ensures !busy ==> Current(subs, ths, tdl) && forall t: nat :: Lists(subs, tdl, t) ==> t in ths && ths[t].completing
  {
    hide Covers, DepsDone, Reason, LeaderReason, Settled, Known, OnePerThread, Lists;
    forall i: nat | i < |tdl| && tdl[i].sg in subs ensures subs[tdl[i].sg].tid in ths && tdl[i].last == Recorded(ths[subs[tdl[i].sg].tid]) {
      UpdatedLast(subs, ths, me, tdl0, tdl, leader0, leader, busy, i);
    }
    if !busy {
      forall i: nat | i < |tdl| && tdl[i].sg in subs ensures ths[subs[tdl[i].sg].tid].completing { ListedAt(subs, tdl, i); }
    }
  }

  /** When every check has been passed the set may be completed. */
  lemma ChecksPassed(subs: Subgoals, ths: Threads, me: nat, tdl: seq<ThreadDep>, leader: int)
    requires Sound(subs, ths) && me in ths && Updated(subs, ths, me, ths[me].tdl, tdl, leader, leader, false)
    requires var ths1 := ths[me := ths[me].(tdl := tdl)];
      AllMembers(subs, ths1, me, tdl, |tdl|) && forall t: nat :: Lists(subs, tdl, t) ==> t in ths1 && NothingNew(subs, ths1, ths1[t].tdl, |ths1[t].tdl|)
    ensures MayComplete(subs, ths[me := ths[me].(tdl := tdl)], me, tdl, leader)
  {
    hide Covers, DepsDone, Reason, LeaderReason, Known, OnePerThread, Lists, AllMembers;
    var ths1 := ths[me := ths[me].(tdl := tdl)];
    UpdatedAhead(subs, ths, me, ths[me].tdl, tdl, leader, leader, false);
    forall t: nat | Lists(subs, tdl, t) ensures Current(subs, ths1, ths1[t].tdl) {
      assert t in ths && ths[t].completing && ths1[t] == ths[t];
    }
  }

  /** The threads that are not blocked count as having reached nothing. */
  function Blockers(ths: Threads): Threads {
    map t | t in ths :: if ths[t].completing then ths[t] else ths[t].(lastAns := 0)
  }

  // ---- the protocol ----------------------------------------------------------------------------

  datatype Outcome = MoreAnswers | LeaderChanged(leader: int) | NoDependencies | SetCompleted | Blocks | TooManyDeps

  class Completion {
    var subs: Subgoals
    var threads: Threads

    /** Lists are well formed, and a blocked thread has recorded no counter that was never reached. */
    ghost predicate Valid()
      reads this
    {
      Sound(subs, threads)
    }

    constructor (tids: set<nat>)
      ensures Valid() && threads.Keys == tids && subs == map[]
    {
      subs := map[];
      threads := map t | t in tids :: Thread(false, false, 0, 0, []);
      new;
      forall t: nat | t in threads ensures WellFormed(subs, threads, t, threads[t].tdl) { }
    }

    method MayHaveAnswers(me: nat) returns (rc: bool)
      requires Valid() && me in threads
      ensures !rc <==> forall t: nat :: Lists(subs, threads[me].tdl, t) ==> NothingNew(subs, threads, threads[t].tdl, |threads[t].tdl|)
    {
      hide Lists, Known, OnePerThread;
      rc := false;
      var tdl := threads[me].tdl;
      var i := 0;
      while i < |tdl|
        invariant 0 <= i <= |tdl|
        invariant !rc <==> forall j :: 0 <= j < i && tdl[j].sg in subs && subs[tdl[j].sg].tid in threads ==>
          NothingNew(subs, threads, threads[subs[tdl[j].sg].tid].tdl, |threads[subs[tdl[j].sg].tid].tdl|)
      {
        OwnEntry(subs, threads, me, i);
        var deps := threads[subs[tdl[i].sg].tid].tdl;
        var k := 0;
        ghost var rc0 := rc;
        while k < |deps|
          invariant 0 <= k <= |deps| && (!rc <==> !rc0 && NothingNew(subs, threads, deps, k))
        {
          OwnEntry(subs, threads, subs[tdl[i].sg].tid, k);
          var tid1 := subs[deps[k].sg].tid;
          if deps[k].last < threads[tid1].lastAns {
            rc := true;
          }
          k := k + 1;
        }
        i := i + 1;
      }
      EachListed(subs, threads, tdl, me);
    }
  
    method CheckForSCC(me: nat) returns (rc: bool)
      requires Valid() && me in threads
      ensures rc <==> AllMembers(subs, threads, me, threads[me].tdl, |threads[me].tdl|)
    {
      hide Lists, Known, OnePerThread, WellFormed;
      var tdl := threads[me].tdl;
      var i := 0;
      while i < |tdl|
        invariant 0 <= i <= |tdl| && AllMembers(subs, threads, me, tdl, i)
      {
        OwnEntry(subs, threads, me, i);
        var t := subs[tdl[i].sg].tid;
        if threads[t].ccLeader < subs[tdl[i].sg].cs {
          assert !Member(subs, threads, me, tdl, tdl[i]);
          return false;
        }
        OwnKnown(subs, threads, t);
        var inside := ListWithin(t, threads[t].tdl, me, tdl);
        if inside {
          inside := ListWithin(me, tdl, t, threads[t].tdl);
        }
        if !inside {
          assert !Member(subs, threads, me, tdl, tdl[i]);
          return false;
        }
        i := i + 1;
      }
      rc := true;
    }

    /** All threads in list a of thread ta, except self, are in list b. */
    method ListWithin(ghost ta: nat, a: seq<ThreadDep>, self: nat, b: seq<ThreadDep>) returns (rc: bool)
      requires Known(subs, a) && Known(subs, b)
      ensures rc <==> Within(subs, a, |a|, self, b)
    {
      var i := 0;
      while i < |a|
        invariant 0 <= i <= |a| && Within(subs, a, i, self, b)
      {
        var tid1 := subs[a[i].sg].tid;
        if tid1 != self {
          var k := FindTid(subs, b, tid1);
          if k == -1 { return false; }
        }
        i := i + 1;
      }
      rc := true;
    }

    method CompleteOtherThreads(me: nat, ghost leader: int)
      requires Valid() && me in threads && MayComplete(subs, threads, me, threads[me].tdl, leader)
      modifies this
      ensures FinishedTo(old(subs), subs, old(threads), old(threads[me].tdl), |old(threads[me].tdl)|)
      ensures threads.Keys == old(threads).Keys
      ensures forall t: nat :: t in threads ==>
        threads[t] == old(threads)[t].(completed := old(threads)[t].completed || Lists(old(subs), old(threads)[me].tdl, t))
    {
      hide Lists, Known, OnePerThread, WellFormed, AllWellFormed, FinishedTo, MayComplete;
      var tdl := threads[me].tdl;
      ghost var subs0, threads0 := subs, threads;
      FinishedNone(subs, threads, tdl);
      var i := 0;
      while i < |tdl|
        invariant 0 <= i <= |tdl| && FinishedTo(subs0, subs, threads0, tdl, i)
        invariant threads.Keys == threads0.Keys
        invariant forall t: nat :: t in threads ==>
          threads[t] == threads0[t].(completed := threads0[t].completed || ListsTo(subs0, tdl, i, t))
      {
        OwnEntry(subs0, threads0, me, i);
        FinishedStep(subs0, subs, threads0, tdl, i);
        FinishedFacts(subs0, subs, threads0, tdl, i);
        ListsNext(subs0, tdl, i);
        var t := subs[tdl[i].sg].tid;
        subs := Finished(subs, t, threads[t].ccLeader);
        threads := threads[t := threads[t].(completed := true)];
        i := i + 1;
      }
      ListsAll(subs0, tdl);
    }

    /** The two checks, and the completion of the set when both are passed; threads0 are the threads before the list
        of me was brought up to date. */
    method CompleteSet(me: nat, cs: int, ghost threads0: Threads) returns (done: bool)
      requires Valid() && me in threads0 && me in threads && threads == threads0[me := threads0[me].(tdl := threads[me].tdl)] && threads[me].tdl != []
      requires Sound(subs, threads0) && Updated(subs, threads0, me, threads0[me].tdl, threads[me].tdl, cs, cs, false)
      modifies this
      ensures Valid() && threads.Keys == old(threads).Keys
      ensures done <==> Passes(old(subs), threads0, old(threads)[me].tdl, me)
      ensures !done ==> subs == old(subs) && threads == old(threads)
      ensures done ==> threads[me].tdl == old(threads)[me].tdl && SetIsCompleted(old(subs), threads0, subs, threads, me, cs)
    {
      hide Lists, Known, OnePerThread, WellFormed, AllWellFormed, FinishedTo, MayComplete, Updated, AllMembers, NotAhead, Current, Sound, SetIsCompleted, NothingNew, Blockers, Finished, Passes;
      ghost var subs0, tdl := subs, threads[me].tdl;
      done := false;
      PassesIs(subs0, threads0, tdl, me);
      ListedKnown(subs0, threads0, me, tdl, cs, cs);
      var more := MayHaveAnswers(me);
      if !more {
        var scc := CheckForSCC(me);
        if scc {
          ChecksPassed(subs0, threads0, me, tdl, cs);
          CompleteOtherThreads(me, cs);
          AllDone(subs0, threads0, subs, threads, me, tdl, cs);
          subs := Finished(subs, me, cs);
          done := true;
        }
      }
    }

    /** One round of the completion loop for thread me, whose leader is at cs. moreAnswers is what
        check_fixpoint found. */
    method CheckComplete(me: nat, cs: int, moreAnswers: bool) returns (r: Outcome, ghost leader: int, ghost busy: bool)
      requires Valid() && me in threads && !threads[me].completing
      modifies this
      ensures Valid() && threads.Keys == old(threads).Keys
      ensures r == MoreAnswers <==> moreAnswers
      ensures r.TooManyDeps? ==> !moreAnswers && |threads| > 256
      ensures !moreAnswers && !r.TooManyDeps? ==> Decided(old(subs), old(threads), threads[me].tdl, me, cs, leader, busy, r)
      ensures !r.SetCompleted? ==> subs == old(subs) && threads == old(threads)[me := After(old(threads)[me], threads[me].tdl, cs, r)]
      ensures r.Blocks? ==> Current(subs, Blockers(old(threads)), threads[me].tdl)
      ensures r.SetCompleted? ==> SetIsCompleted(old(subs), old(threads), subs, threads, me, cs)
    {
      hide Lists, Known, OnePerThread, WellFormed, AllWellFormed, NotAhead, Current, Sound, SetIsCompleted, Blockers, Decided;
      leader, busy := cs, false;
      SoundFacts(subs, threads, me);
      if moreAnswers {
        ghost var threads0 := threads;
        threads := threads[me := threads[me].(lastAns := threads[me].lastAns + 1)];
        AnswerSound(subs, threads0, me);
        return MoreAnswers, leader, busy;
      }
      r, leader, busy := Round(me, cs);
    }

    /** The rest of the round: the list is brought up to date and the set completed, or the thread blocks. */
    method Round(me: nat, cs: int) returns (r: Outcome, ghost leader: int, ghost busy: bool)
      requires Valid() && me in threads && !threads[me].completing
      modifies this
      ensures Valid() && threads.Keys == old(threads).Keys && !r.MoreAnswers?
      ensures r.TooManyDeps? ==> |threads| > 256
      ensures !r.TooManyDeps? ==> Decided(old(subs), old(threads), threads[me].tdl, me, cs, leader, busy, r)
      ensures !r.SetCompleted? ==> subs == old(subs) && threads == old(threads)[me := After(old(threads)[me], threads[me].tdl, cs, r)]
      ensures r.Blocks? ==> Current(subs, Blockers(old(threads)), threads[me].tdl)
      ensures r.SetCompleted? ==> SetIsCompleted(old(subs), old(threads), subs, threads, me, cs)
    {
      hide Lists, Known, OnePerThread, WellFormed, AllWellFormed, FinishedTo, MayComplete, Updated, AllMembers, NotAhead, Current, Sound, SetIsCompleted, NothingNew, Blockers, Finished, Passes, Decided;
      ghost var subs0, threads0 := subs, threads;
      leader, busy := cs, false;
      SoundFacts(subs, threads, me);
      var ok, tdl, busy1, leader1 := UpdateDeps.UpdateDeps(subs, threads, me, cs);
      if !ok { return TooManyDeps, leader, busy; }
      leader, busy := leader1, busy1;
      UpdatedAhead(subs, threads, me, threads[me].tdl, tdl, cs, leader, busy);
      threads := threads[me := threads[me].(tdl := tdl)];
      OnlyMeSound(subs, threads0, threads, me);
      AheadSame(subs, threads0, threads, tdl);
      Decision(subs0, threads0, tdl, me, cs, leader, busy);
      if leader1 > cs { return LeaderChanged(leader1), leader, busy; }
      if tdl == [] { return NoDependencies, leader, busy; }
      if !busy1 {
        var done := CompleteSet(me, cs, threads0);
        if done { return SetCompleted, leader, busy; }
      }
      Block(me, cs);
      return Blocks, leader, busy;
    }

    /** Thread me goes to sleep. */
    method Block(me: nat, cs: int)
      requires Valid() && me in threads && NotAhead(subs, threads, threads[me].tdl)
      modifies `threads
      ensures Valid() && threads == old(threads)[me := old(threads)[me].(completing := true, completed := false, ccLeader := cs)]
    {
      hide AllWellFormed, NotAhead, WellFormed, Sound;
      ghost var threads0 := threads;
      SoundFacts(subs, threads, me);
      threads := threads[me := threads[me].(completing := true, completed := false, ccLeader := cs)];
      AheadSame(subs, threads0, threads, threads[me].tdl);
      OnlyMeSound(subs, threads0, threads, me);
    }

    /** The thread has been signalled and has the mutex again; done tells that others completed its subgoals. */
    method Wake(me: nat) returns (done: bool)
      requires Valid() && me in threads && threads[me].completing
      modifies this
      ensures Valid() && subs == old(subs) && done == old(threads)[me].completed
      ensures threads == old(threads)[me := old(threads)[me].(completing := false)]
    {
      hide AllWellFormed, NotAhead, WellFormed;
      SoundFacts(subs, threads, me);
      ghost var threads0 := threads;
      threads := threads[me := threads[me].(completing := false)];
      OnlyMeSound(subs, threads0, threads, me);
      done := threads[me].completed;
    }

    /** sched_external: a running thread meets a subgoal of another thread. */
    method SchedExternal(me: nat, s: nat) returns (ok: bool)
      requires Valid() && me in threads && !threads[me].completing && s in subs && subs[s].tid != me
      modifies this
      ensures !ok ==> |threads| > 256
      ensures ok ==> Valid() && subs == old(subs) && OnlyMe(old(threads), threads, me)
      ensures ok && !subs[s].completed ==> Covers(subs, threads[me].tdl, s) && CoversMore(subs, old(threads)[me].tdl, threads[me].tdl)
      ensures ok && !subs[s].completed ==>
        exists changed: bool :: Inserted(subs, old(threads)[me].tdl, s, threads[me].tdl, changed)
      ensures threads == if ok && !subs[s].completed then old(threads)[me := old(threads)[me].(tdl := threads[me].tdl)] else old(threads)
    {
      hide NotAhead, WellFormed, Covers, Known, OnePerThread, Inserted, Uncovered;
      ok := true;
      if !subs[s].completed {
        ghost var threads0 := threads;
        OwnKnown(subs, threads, me);
        var tdl, changed;
        ok, tdl, changed := CheckInsSubg(subs, threads[me].tdl, s);
        if !ok {
          TooMany(subs, threads, me, threads[me].tdl, s);
          return;
        }
        InsertFacts(subs, threads[me].tdl, s, tdl, changed);
        InsertWellFormed(subs, threads, me, threads[me].tdl, s, tdl, changed);
        threads := threads[me := threads[me].(tdl := tdl)];
        OnlyMeSound(subs, threads0, threads, me);
      }
    }

    /** A running thread starts on a new subgoal. */
    method NewSubgoal(me: nat, s: nat, cs: int)
      requires Valid() && me in threads && !threads[me].completing && s !in subs
      modifies `subs
      ensures Valid() && subs == old(subs)[s := Subgoal(me, cs, false)]
    {
      hide NotAhead, AllWellFormed;
      NewSound(subs, threads, s, Subgoal(me, cs, false));
      subs := subs[s := Subgoal(me, cs, false)];
    }
  }

  lemma AheadSame(subs: Subgoals, ths: Threads, ths1: Threads, tdl: seq<ThreadDep>)
    requires ths1.Keys == ths.Keys && forall t: nat :: t in ths ==> ths1[t].lastAns == ths[t].lastAns
    ensures NotAhead(subs, ths1, tdl) <==> NotAhead(subs, ths, tdl)
  {
  }

  /** What a round leaves of the thread itself, unless its set was completed. */
  function After(th: Thread, tdl: seq<ThreadDep>, cs: int, r: Outcome): Thread {
    match r
    case MoreAnswers => th.(lastAns := th.lastAns + 1)
    case Blocks => th.(tdl := tdl, completing := true, completed := false, ccLeader := cs)
    case TooManyDeps => th
    case _ => th.(tdl := tdl)
  }

  /** The two checks on the dependency list of thread me: no listed thread has missed answers, and all are members. */
  ghost predicate Passes(subs: Subgoals, ths: Threads, tdl: seq<ThreadDep>, me: nat) {
    me in ths &&
    var ths1 := ths[me := ths[me].(tdl := tdl)];
    && AllMembers(subs, ths1, me, tdl, |tdl|)
    && forall t: nat :: Lists(subs, tdl, t) ==> t in ths1 && NothingNew(subs, ths1, ths1[t].tdl, |ths1[t].tdl|)
  }

  /** tdl is the list brought up to date; what the round comes to depends on it and on the checks alone. */
  ghost predicate Decided(subs: Subgoals, ths: Threads, tdl: seq<ThreadDep>, me: nat, cs: int, leader: int, busy: bool, r: Outcome) {
    && me in ths && Updated(subs, ths, me, ths[me].tdl, tdl, cs, leader, busy)
    && (leader > cs ==> r == LeaderChanged(leader))
    && (leader <= cs && tdl == [] ==> r == NoDependencies)
    && (leader <= cs && tdl != [] && !busy && Passes(subs, ths, tdl, me) ==> r == SetCompleted)
    && (leader <= cs && tdl != [] && !(!busy && Passes(subs, ths, tdl, me)) ==> r == Blocks)
  }

  lemma Decision(subs: Subgoals, ths: Threads, tdl: seq<ThreadDep>, me: nat, cs: int, leader: int, busy: bool)
    requires me in ths && Updated(subs, ths, me, ths[me].tdl, tdl, cs, leader, busy)
    ensures leader > cs ==> Decided(subs, ths, tdl, me, cs, leader, busy, LeaderChanged(leader))
    ensures leader <= cs && tdl == [] ==> Decided(subs, ths, tdl, me, cs, leader, busy, NoDependencies)
    ensures leader <= cs && tdl != [] && !busy && Passes(subs, ths, tdl, me) ==> Decided(subs, ths, tdl, me, cs, leader, busy, SetCompleted)
    ensures leader <= cs && tdl != [] && !(!busy && Passes(subs, ths, tdl, me)) ==> Decided(subs, ths, tdl, me, cs, leader, busy, Blocks)
  {
    hide Updated, Passes;
  }

  lemma PassesIs(subs: Subgoals, ths: Threads, tdl: seq<ThreadDep>, me: nat)
    requires me in ths
    ensures var ths1 := ths[me := ths[me].(tdl := tdl)];
      Passes(subs, ths, tdl, me) <==>
        (AllMembers(subs, ths1, me, tdl, |tdl|) && forall t: nat :: Lists(subs, tdl, t) ==> t in ths1 && NothingNew(subs, ths1, ths1[t].tdl, |ths1[t].tdl|))
  {
    hide AllMembers, Lists, NothingNew;
  }

  lemma SoundFacts(subs: Subgoals, ths: Threads, me: nat)
    requires Sound(subs, ths) && me in ths
    ensures AllWellFormed(subs, ths) && WellFormed(subs, ths, me, ths[me].tdl)
  {
    hide Lists, Known, OnePerThread, NotAhead;
  }

  lemma AnswerSound(subs: Subgoals, ths: Threads, me: nat)
    requires Sound(subs, ths) && me in ths && !ths[me].completing
    ensures Sound(subs, ths[me := ths[me].(lastAns := ths[me].lastAns + 1)])
  {
    hide Lists, Known, OnePerThread;
    var ths1 := ths[me := ths[me].(lastAns := ths[me].lastAns + 1)];
    forall t: nat | t in ths1 ensures WellFormed(subs, ths1, t, ths1[t].tdl) { assert WellFormed(subs, ths, t, ths[t].tdl); }
  }

  lemma ListedKnown(subs: Subgoals, ths: Threads, me: nat, tdl: seq<ThreadDep>, leader0: int, leader: int)
    requires me in ths && Updated(subs, ths, me, ths[me].tdl, tdl, leader0, leader, false)
    ensures forall t: nat :: Lists(subs, tdl, t) ==> t in ths && t != me
  {
    hide Lists, Known, OnePerThread, Covers, Settled, Reason, LeaderReason, SomeIdle;
  }

  lemma InsertWellFormed(subs: Subgoals, ths: Threads, me: nat, tdl: seq<ThreadDep>, s: nat, tdl1: seq<ThreadDep>, changed: bool)
    requires AllWellFormed(subs, ths) && me in ths && WellFormed(subs, ths, me, tdl) && s in subs && subs[s].tid != me && Inserted(subs, tdl, s, tdl1, changed)
    ensures WellFormed(subs, ths, me, tdl1)
  {
    hide Lists, Known, OnePerThread, Covers;
    InsertFacts(subs, tdl, s, tdl1, changed);
    InsertedNames(subs, tdl, s, tdl1, changed);
  }

  lemma NewSound(subs: Subgoals, ths: Threads, s: nat, g: Subgoal)
    requires Sound(subs, ths) && s !in subs && g.tid in ths
    ensures Sound(subs[s := g], ths)
  {
    hide Lists, OnePerThread, Known, NotAhead;
    var subs1 := subs[s := g];
    forall t: nat | t in ths ensures WellFormed(subs1, ths, t, ths[t].tdl) && (NotAhead(subs, ths, ths[t].tdl) ==> NotAhead(subs1, ths, ths[t].tdl)) {
      assert WellFormed(subs, ths, t, ths[t].tdl);
      NewLists(subs, ths[t].tdl, s, g, ths);
    }
  }

  lemma NewLists(subs: Subgoals, tdl: seq<ThreadDep>, s: nat, g: Subgoal, ths: Threads)
    requires Known(subs, tdl) && s !in subs
    ensures Known(subs[s := g], tdl) && (OnePerThread(subs, tdl) ==> OnePerThread(subs[s := g], tdl))
    ensures forall t: nat :: Lists(subs[s := g], tdl, t) <==> Lists(subs, tdl, t)
    ensures NotAhead(subs, ths, tdl) ==> NotAhead(subs[s := g], ths, tdl)
  {
    var subs1 := subs[s := g];
    forall t: nat ensures Lists(subs1, tdl, t) <==> Lists(subs, tdl, t) {
      if Lists(subs, tdl, t) { var i :| IsFor(subs, tdl, i, t); assert IsFor(subs1, tdl, i, t); }
      if Lists(subs1, tdl, t) { var i :| IsFor(subs1, tdl, i, t); assert IsFor(subs, tdl, i, t); }
    }
  }

  /** After the set has been completed. */
  lemma AllDone(subs: Subgoals, ths: Threads, subs1: Subgoals, ths1: Threads, me: nat, tdl: seq<ThreadDep>, leader: int)
    requires Sound(subs, ths) && me in ths && tdl != [] && Updated(subs, ths, me, ths[me].tdl, tdl, leader, leader, false)
    requires var t1 := ths[me := ths[me].(tdl := tdl)];
      (Sound(subs, t1) && MayComplete(subs, t1, me, tdl, leader) && FinishedTo(subs, subs1, t1, tdl, |tdl|) && ths1.Keys == t1.Keys
      && forall t: nat :: t in ths1 ==> ths1[t] == t1[t].(completed := t1[t].completed || Lists(subs, tdl, t)))
    ensures Sound(Finished(subs1, me, leader), ths1)
    ensures SetIsCompleted(subs, ths, Finished(subs1, me, leader), ths1, me, leader)
  {
    hide Lists, Known, OnePerThread, Sound, OnlyCompletes, MayComplete, Updated, FinishedTo, Finished, AllCompleted, InPart, SetIsCompleted, OwnPart;
    var t1 := ths[me := ths[me].(tdl := tdl)];
    var subs2 := Finished(subs1, me, leader);
    FinishedOnly(subs1, me, leader);
    FinishedFacts(subs, subs1, t1, tdl, |tdl|);
    OnlyTrans(subs, subs1, subs2);
    MayFacts(subs, t1, me, tdl, leader);
    SoundFacts(subs, t1, me);
    AllSettled(subs, subs1, t1, me, tdl, leader);
    DoneSound(subs, t1, subs2, ths1);
    FinishedKeys(subs, subs2);
    forall s: nat | s in subs
      ensures subs2[s].completed <==>
        subs[s].completed || OwnPart(subs, me, leader, s) || (Lists(subs, tdl, subs[s].tid) && InPart(subs, ths, subs[s].tid, s))
    {
      DoneChange(subs, subs1, t1, me, tdl, leader, s);
      SamePart(subs, ths, me, tdl, subs[s].tid, s);
    }
    SetBuilt(subs, ths, subs2, ths1, me, tdl, leader);
  }

  lemma FinishedKeys(subs: Subgoals, subs1: Subgoals)
    requires OnlyCompletes(subs, subs1)
    ensures subs1.Keys == subs.Keys
  {
  }

  lemma SamePart(subs: Subgoals, ths: Threads, me: nat, tdl: seq<ThreadDep>, t: nat, s: nat)
    requires me in ths
    ensures InPart(subs, ths[me := ths[me].(tdl := tdl)], t, s) <==> InPart(subs, ths, t, s)
  {
  }

  lemma SetBuilt(subs: Subgoals, ths: Threads, subs2: Subgoals, ths1: Threads, me: nat, tdl: seq<ThreadDep>, leader: int)
    requires me in ths && ths1.Keys == ths.Keys && OnlyCompletes(subs, subs2) && tdl != [] && subs2.Keys == subs.Keys
    requires Updated(subs, ths, me, ths[me].tdl, tdl, leader, leader, false)
    requires var t1 := ths[me := ths[me].(tdl := tdl)];
      (MayComplete(subs, t1, me, tdl, leader) && AllCompleted(subs2, tdl)
      && (forall t: nat :: Lists(subs, tdl, t) ==> t in t1 && t != me && AllCompleted(subs2, t1[t].tdl))
      && forall t: nat :: t in ths1 ==> ths1[t] == t1[t].(completed := t1[t].completed || Lists(subs, tdl, t)))
    requires forall s: nat :: s in subs ==>
      (subs2[s].completed <==> subs[s].completed || OwnPart(subs, me, leader, s) || (Lists(subs, tdl, subs[s].tid) && InPart(subs, ths, subs[s].tid, s)))
    ensures SetIsCompleted(subs, ths, subs2, ths1, me, leader)
  {
    hide Lists, MayComplete, Updated, AllCompleted, InPart, OnlyCompletes, OwnPart;
    assert ths1[me].tdl == tdl;
  }

  lemma DoneChange(subs: Subgoals, subs1: Subgoals, ths: Threads, me: nat, tdl: seq<ThreadDep>, leader: int, s: nat)
    requires FinishedTo(subs, subs1, ths, tdl, |tdl|) && s in subs && s in Finished(subs1, me, leader)
    ensures Finished(subs1, me, leader)[s].completed <==>
      subs[s].completed || OwnPart(subs, me, leader, s) || (Lists(subs, tdl, subs[s].tid) && InPart(subs, ths, subs[s].tid, s))
  {
    hide Lists, ListsTo;
    ListsAll(subs, tdl);
  }

  lemma DoneSound(subs: Subgoals, ths: Threads, subs1: Subgoals, ths1: Threads)
    requires Sound(subs, ths) && OnlyCompletes(subs, subs1) && ths1.Keys == ths.Keys
    requires forall t: nat :: t in ths ==> ths1[t].lastAns == ths[t].lastAns && ths1[t].tdl == ths[t].tdl && ths1[t].completing == ths[t].completing
    ensures Sound(subs1, ths1)
  {
    hide Lists, Known, OnePerThread;
    OnlyWellFormed(subs, subs1, ths);
    forall t: nat | t in ths1 ensures WellFormed(subs1, ths1, t, ths1[t].tdl) { assert WellFormed(subs1, ths, t, ths[t].tdl); }
  }

  /** The list tdl, brought up to date, named a set that may be completed, and all of it has been. */
  ghost predicate SetIsCompleted(subs: Subgoals, ths: Threads, subs1: Subgoals, ths1: Threads, me: nat, leader: int) {
    && me in ths && me in ths1 && ths1.Keys == ths.Keys && OnlyCompletes(subs, subs1)
    && var tdl := ths1[me].tdl;
    && tdl != [] && Updated(subs, ths, me, ths[me].tdl, tdl, leader, leader, false)
    && MayComplete(subs, ths[me := ths[me].(tdl := tdl)], me, tdl, leader)
    && AllCompleted(subs1, tdl)
    && (forall t: nat :: Lists(subs, tdl, t) ==> t in ths1 && t in ths && ths1[t] == ths[t].(completed := true) && AllCompleted(subs1, ths1[t].tdl))
    && (forall t: nat :: t in ths && t != me && !Lists(subs, tdl, t) ==> ths1[t] == ths[t]) && ths1[me] == ths[me].(tdl := tdl)
    && forall s: nat :: s in subs ==>
      (subs1[s].completed <==> subs[s].completed || OwnPart(subs, me, leader, s) || (Lists(subs, tdl, subs[s].tid) && InPart(subs, ths, subs[s].tid, s)))
  }

  /** A subgoal of thread me itself that is not older than the leader. */
  predicate OwnPart(subs: Subgoals, me: nat, leader: int, s: nat) {
    s in subs && subs[s].tid == me && subs[s].cs <= leader
  }

  lemma ListsNext(subs: Subgoals, tdl: seq<ThreadDep>, n: nat)
    requires n < |tdl| && tdl[n].sg in subs
    ensures forall t: nat :: ListsTo(subs, tdl, n + 1, t) <==> ListsTo(subs, tdl, n, t) || t == subs[tdl[n].sg].tid
    ensures n == 0 ==> forall t: nat :: !ListsTo(subs, tdl, n, t)
  {
    forall t: nat ensures ListsTo(subs, tdl, n + 1, t) <==> ListsTo(subs, tdl, n, t) || t == subs[tdl[n].sg].tid {
      if t == subs[tdl[n].sg].tid { assert IsFor(subs, tdl, n, t); }
    }
  }

  lemma ListsAll(subs: Subgoals, tdl: seq<ThreadDep>)
    ensures forall t: nat :: ListsTo(subs, tdl, |tdl|, t) <==> Lists(subs, tdl, t)
  {
  }

  lemma FinishedNone(subs: Subgoals, ths: Threads, tdl: seq<ThreadDep>)
    ensures FinishedTo(subs, subs, ths, tdl, 0)
    ensures forall t: nat :: !ListsTo(subs, tdl, 0, t)
  {
  }

  lemma FinishedFacts(subs: Subgoals, subs1: Subgoals, ths: Threads, tdl: seq<ThreadDep>, n: nat)
    requires FinishedTo(subs, subs1, ths, tdl, n)
    ensures OnlyCompletes(subs, subs1)
  {
  }

  lemma OwnEntry(subs: Subgoals, ths: Threads, t: nat, i: nat)
    requires AllWellFormed(subs, ths) && t in ths && i < |ths[t].tdl|
    ensures ths[t].tdl[i].sg in subs && subs[ths[t].tdl[i].sg].tid in ths && subs[ths[t].tdl[i].sg].tid != t
    ensures Known(subs, ths[t].tdl)
  {
    assert WellFormed(subs, ths, t, ths[t].tdl);
    EntryFacts(subs, ths, t, ths[t].tdl, i);
  }

  lemma OwnKnown(subs: Subgoals, ths: Threads, t: nat)
    requires AllWellFormed(subs, ths) && t in ths
    ensures Known(subs, ths[t].tdl) && WellFormed(subs, ths, t, ths[t].tdl)
  {
  }

  /** Going through the entries is going through the threads listed. */
  lemma EachListed(subs: Subgoals, ths: Threads, tdl: seq<ThreadDep>, me: nat)
    requires AllWellFormed(subs, ths) && WellFormed(subs, ths, me, tdl)
    ensures (forall j :: 0 <= j < |tdl| && tdl[j].sg in subs && subs[tdl[j].sg].tid in ths ==>
        NothingNew(subs, ths, ths[subs[tdl[j].sg].tid].tdl, |ths[subs[tdl[j].sg].tid].tdl|))
      <==> (forall t: nat :: Lists(subs, tdl, t) ==> NothingNew(subs, ths, ths[t].tdl, |ths[t].tdl|))
  {
    hide NothingNew, Known, OnePerThread;
    forall j | 0 <= j < |tdl| && tdl[j].sg in subs ensures Lists(subs, tdl, subs[tdl[j].sg].tid) { ListedAt(subs, tdl, j); }
  }
}
