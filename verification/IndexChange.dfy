/** What an assert and a physical deletion change in the shape of an index, and what they need of the records
    at the ends of chains and beside the cells that choice points rest on. */
module IndexChange {
  import opened Chains
  import opened IndexShape
  import opened IndexTree

  // ---- chains only gain cells, at one end -----------------------------------------------------

  /** xs has become ys by additions at the end (az) or in front. */
  predicate Longer(xs: seq<Loc>, ys: seq<Loc>, az: bool) {
    |xs| <= |ys| && xs == if az then ys[..|xs|] else ys[|ys| - |xs|..]
  }

  ghost predicate Extended(sh0: Shape, sh1: Shape, az: bool) {
    && (forall x :: x in sh0.home ==> x in sh1.home && sh1.home[x] == sh0.home[x])
    && (forall o :: o in sh0.chains ==> o in sh1.chains && Longer(sh0.chains[o], sh1.chains[o], az))
  }

  lemma ExtendedSame(sh0: Shape, sh1: Shape, az: bool)
    requires sh1.home == sh0.home && sh1.chains == sh0.chains
    ensures Extended(sh0, sh1, az)
  {
  }

  lemma LongerTrans(xs: seq<Loc>, ys: seq<Loc>, zs: seq<Loc>, az: bool)
    requires Longer(xs, ys, az) && Longer(ys, zs, az)
    ensures Longer(xs, zs, az)
  {
    if az {
      assert zs[..|ys|][..|xs|] == zs[..|xs|];
    } else {
      assert zs[|zs| - |ys|..][|ys| - |xs|..] == zs[|zs| - |xs|..];
    }
  }

  lemma ExtendedTrans(sh0: Shape, sh1: Shape, sh2: Shape, az: bool)
    requires Extended(sh0, sh1, az) && Extended(sh1, sh2, az)
    ensures Extended(sh0, sh2, az)
  {
    hide Longer;
    forall o | o in sh0.chains ensures o in sh2.chains && Longer(sh0.chains[o], sh2.chains[o], az) {
      LongerTrans(sh0.chains[o], sh1.chains[o], sh2.chains[o], az);
    }
  }

  lemma ExtendedLinked(sh0: Shape, sh1: Shape, o: Loc, az: bool, x: Loc)
    requires o in sh0.chains && x !in sh0.home
    requires sh1.chains == Linked(sh0, o, az, x).chains && sh1.home == Linked(sh0, o, az, x).home
    ensures Extended(sh0, sh1, az)
  {
    hide Longer;
    LongerOne(sh0.chains[o], x, az);
    forall q | q in sh0.chains ensures Longer(sh0.chains[q], sh0.chains[q], az) { LongerSame(sh0.chains[q], az); }
  }

  lemma LongerOne(xs: seq<Loc>, x: Loc, az: bool)
    ensures Longer(xs, Add(az, xs, x), az)
  {
    assert (xs + [x])[..|xs|] == xs && ([x] + xs)[1..] == xs;
  }

  lemma LongerSame(xs: seq<Loc>, az: bool)
    ensures Longer(xs, xs, az)
  {
  }

  lemma ExtendedWithSob(sh0: Shape, s: nat, size: nat, lvl: nat, az: bool)
    requires NoSob(sh0, s)
    ensures Extended(sh0, WithSob(sh0, s, size, lvl), az)
  {
    hide WithSob;
    WithSobIs(sh0, s, size, lvl);
  }

  // ---- records only come in addition -----------------------------------------------------------------

  /** No record has changed but in its count, none has failed, and the records that have joined a chain are new. */
  ghost predicate Recorded(st0: Store, sh0: Shape, st1: Store, sh1: Shape) {
    && (forall s :: s in st0.sobs ==> s in st1.sobs && st1.sobs[s] == st0.sobs[s].(count := st1.sobs[s].count))
    && (forall s :: s in st1.sobs && s !in st0.sobs ==> !st1.sobs[s].failed)
    && (forall s :: SobCell(s) in sh1.home && SobCell(s) !in sh0.home ==> s !in st0.sobs)
  }

  lemma RecordedSame(st0: Store, sh0: Shape, st1: Store, sh1: Shape)
    requires st1.sobs == st0.sobs && forall s :: SobCell(s) in sh1.home ==> SobCell(s) in sh0.home
    ensures Recorded(st0, sh0, st1, sh1)
  {
  }

  lemma RecordedStep(st0: Store, sh0: Shape, st1: Store, sh1: Shape, o: Loc)
    requires SobsStep(st0.sobs, st1.sobs, o, 0) || SobsStep(st0.sobs, st1.sobs, o, 1)
    requires forall s :: SobCell(s) in sh1.home ==> SobCell(s) in sh0.home
    ensures Recorded(st0, sh0, st1, sh1)
  {
  }

  lemma RecordedNew(st0: Store, sh0: Shape, st1: Store, sh1: Shape, s: nat, r: SobRec, f: Loc)
    requires s !in st0.sobs && st1.sobs == st0.sobs[s := r] && !r.failed && sh1.home == sh0.home[SobCell(s) := f]
    ensures Recorded(st0, sh0, st1, sh1)
  {
  }

  lemma RecordedTrans(st0: Store, sh0: Shape, st1: Store, sh1: Shape, st2: Store, sh2: Shape)
    requires Recorded(st0, sh0, st1, sh1) && Recorded(st1, sh1, st2, sh2)
    ensures Recorded(st0, sh0, st2, sh2)
  {
  }

  lemma RecordedIs(st0: Store, sh0: Shape, st1: Store, sh1: Shape)
    requires Recorded(st0, sh0, st1, sh1)
    ensures forall s :: s in st0.sobs ==> s in st1.sobs && st1.sobs[s].size == st0.sobs[s].size
  {
  }

  /** The table size for level l of a clause, when an assert begins with the given one. */
  function SizeAt(index: seq<nat>, head: seq<Sym>, size: nat, l: nat): nat {
    if l == 0 || l > |index| then size
    else if index[l - 1] < |head| && head[index[l - 1]].Var? then 1
    else SizeAt(index, head, size, l - 1)
  }

  /** Clause c is in a bucket of record s at level l, which has the given size. */
  ghost predicate InRecord(st: Store, sh: Shape, c: nat, l: nat, s: nat, size: nat) {
    && IndCell(c, l) in sh.home && sh.home[IndCell(c, l)].Bucket? && sh.home[IndCell(c, l)].sob == s
    && s in st.sobs && st.sobs[s].size == size
  }

  /** The records of clause c down to level n have the sizes that the assert gave them. */
  ghost predicate Sized(st: Store, sh: Shape, c: nat, head: seq<Sym>, size: nat, n: nat) {
    forall l :: 1 <= l <= n ==> InRecord(st, sh, c, l, SobAt(sh, c, l), SizeAt(sh.index, head, size, l))
  }

  lemma SizedKept(st0: Store, sh0: Shape, st1: Store, sh1: Shape, az: bool, c: nat, head: seq<Sym>, size: nat, n: nat)
    requires Sized(st0, sh0, c, head, size, n) && Extended(sh0, sh1, az) && Recorded(st0, sh0, st1, sh1) && sh1.index == sh0.index
    ensures Sized(st1, sh1, c, head, size, n)
  {
    hide Recorded, Longer;
    RecordedIs(st0, sh0, st1, sh1);
  }

  lemma SizedMore(st0: Store, sh0: Shape, st1: Store, sh1: Shape, az: bool, c: nat, head: seq<Sym>, size: nat, n: nat, s: nat)
    requires Sized(st0, sh0, c, head, size, n) && Extended(sh0, sh1, az) && Recorded(st0, sh0, st1, sh1) && sh1.index == sh0.index
    requires InRecord(st1, sh1, c, n + 1, s, SizeAt(sh1.index, head, size, n + 1))
    ensures Sized(st1, sh1, c, head, size, n + 1)
  {
    hide Recorded, Extended;
    SizedKept(st0, sh0, st1, sh1, az, c, head, size, n);
  }

  // ---- where an assert reads the record at the end of a chain ------------------------------------

  /** The record at the near end of the chain of o. */
  ghost function Near(sh: Shape, o: Loc, az: bool): nat {
    if o in sh.chains && sh.chains[o] != [] then
      var e := sh.chains[o][if az then |sh.chains[o]| - 1 else 0];
      if e.SobCell? then e.sob else 0
    else 0
  }

  ghost predicate NearOk(st: Store, sh: Shape, o: Loc, az: bool) {
    o in sh.chains && sh.chains[o] != [] && Near(sh, o, az) in st.sobs
  }

  ghost predicate NearFailed(st: Store, sh: Shape, o: Loc, az: bool) {
    NearOk(st, sh, o, az) && st.sobs[Near(sh, o, az)].failed
  }

  /** The code would put a clause into the record at the near end. */
  ghost predicate NearFits(st: Store, sh: Shape, o: Loc, az: bool, ind: nat, size: nat) {
    NearOk(st, sh, o, az) && st.sobs[Near(sh, o, az)].size == size && st.sobs[Near(sh, o, az)].arg == ind
  }

  lemma NearIs(st: Store, sh: Shape, o: Loc, az: bool, d: nat)
    requires Storage(st, sh) && o in sh.chains && IsSob(sh, o) && LevelOf(sh, o) == d
    ensures o in st.preds && (st.preds[o].op == Fail <==> sh.chains[o] == [])
    ensures st.preds[o].op != Fail ==>
      var e := if az then st.preds[o].last else st.preds[o].first;
      e.SobCell? && e.sob in st.sobs && e.sob == Near(sh, o, az) && NearOk(st, sh, o, az)
  {
    hide Storage, IsChain, IsSob;
    EndChild(st, sh, o, d);
    var xs := sh.chains[o];
    if xs != [] { assert xs[0] in xs && xs[|xs| - 1] in xs; }
  }

  /** On its way down from o at level l an assert meets a failed record, whose words it would have to read. */
  ghost predicate AddBlocked(st: Store, sh: Shape, o: Loc, l: nat, size: nat, az: bool, head: seq<Sym>)
    decreases |sh.index| + 1 - l
  {
    && 1 <= l <= |sh.index| && sh.index[l - 1] < |head|
    && var z := if head[sh.index[l - 1]].Var? then 1 else size;
      (NearFailed(st, sh, o, az)
       || (NearFits(st, sh, o, az, sh.index[l - 1], z) && AddBlocked(st, sh, SubPred(Near(sh, o, az)), l + 1, z, az, head)))
  }

  /** The records are the same, but for their counts. */
  ghost predicate SameRecords(st: Store, st1: Store) {
    && st1.sobs.Keys == st.sobs.Keys
    && forall s :: s in st.sobs ==> st1.sobs[s] == st.sobs[s].(count := st1.sobs[s].count)
  }

  ghost predicate SameSobChains(sh: Shape, sh1: Shape) {
    && sh1.index == sh.index
    && forall o: Loc :: !o.Bucket? ==> (o in sh1.chains <==> o in sh.chains) && (o in sh.chains ==> sh1.chains[o] == sh.chains[o])
  }

  lemma {:induction false} BlockedSame(st: Store, sh: Shape, st1: Store, sh1: Shape, o: Loc, l: nat, size: nat, az: bool, head: seq<Sym>)
    requires SameRecords(st, st1) && SameSobChains(sh, sh1) && !o.Bucket?
    ensures AddBlocked(st1, sh1, o, l, size, az, head) == AddBlocked(st, sh, o, l, size, az, head)
    decreases |sh.index| + 1 - l
  {
    if 1 <= l <= |sh.index| && sh.index[l - 1] < |head| {
      var z := if head[sh.index[l - 1]].Var? then 1 else size;
      BlockedSame(st, sh, st1, sh1, SubPred(Near(sh, o, az)), l + 1, z, az, head);
    }
  }

  /** Nothing is in the way below an empty chain. */
  lemma NotBlocked(st: Store, sh: Shape, o: Loc, l: nat, size: nat, az: bool, head: seq<Sym>)
    requires o in sh.chains && sh.chains[o] == []
    ensures !AddBlocked(st, sh, o, l, size, az, head)
  {
  }

  /** Beyond the last level there are no records. */
  lemma BlockedEnd(st: Store, sh: Shape, o: Loc, l: nat, size: nat, az: bool, head: seq<Sym>)
    requires l > |sh.index|
    ensures !AddBlocked(st, sh, o, l, size, az, head)
  {
  }

  /** The size for a variable does not depend on the size so far. */
  lemma BlockedSize(st: Store, sh: Shape, o: Loc, l: nat, size: nat, az: bool, head: seq<Sym>)
    requires 1 <= l <= |sh.index| && sh.index[l - 1] < |head| && head[sh.index[l - 1]].Var?
    ensures AddBlocked(st, sh, o, l, size, az, head) == AddBlocked(st, sh, o, l, 1, az, head)
  {
  }

  lemma NearBlocked(st: Store, sh: Shape, o: Loc, l: nat, size: nat, az: bool, head: seq<Sym>)
    requires 1 <= l <= |sh.index| && sh.index[l - 1] < |head| && (head[sh.index[l - 1]].Var? ==> size == 1)
    ensures NearFailed(st, sh, o, az) ==> AddBlocked(st, sh, o, l, size, az, head)
    ensures !NearFailed(st, sh, o, az) && NearFits(st, sh, o, az, sh.index[l - 1], size) ==>
      AddBlocked(st, sh, o, l, size, az, head) == AddBlocked(st, sh, SubPred(Near(sh, o, az)), l + 1, size, az, head)
    ensures !NearFailed(st, sh, o, az) && !NearFits(st, sh, o, az, sh.index[l - 1], size) ==> !AddBlocked(st, sh, o, l, size, az, head)
  {
  }

  /** s is the record at the near end if the clause fits, and an empty new one otherwise. */
  ghost predicate Chosen(st0: Store, sh0: Shape, st1: Store, sh1: Shape, o: Loc, az: bool, ind: nat, size: nat, s: nat) {
    if NearFits(st0, sh0, o, az, ind, size) then s == Near(sh0, o, az) && st1 == st0 && sh1 == sh0
    else SubPred(s) in sh1.chains && sh1.chains[SubPred(s)] == [] && Started(st0, sh0, sh1, o, az, s)
  }

  /** s is a new record at the near end of the chain of o; chains of other records and the levels are the same. */
  ghost predicate Started(st0: Store, sh0: Shape, sh1: Shape, o: Loc, az: bool, s: nat) {
    && s !in st0.sobs && o in sh0.chains && o in sh1.chains && sh1.chains[o] == Add(az, sh0.chains[o], SobCell(s))
    && SameOthers(sh0, sh1, o)
  }

  ghost predicate SameOthers(sh0: Shape, sh1: Shape, o: Loc) {
    && (forall q: Loc :: q in sh0.chains && !q.Bucket? && q != o ==> q in sh1.chains && sh1.chains[q] == sh0.chains[q])
    && (forall t :: t in sh0.level ==> t in sh1.level && sh1.level[t] == sh0.level[t]) && sh1.index == sh0.index
  }

  lemma NearTests(st: Store, sh: Shape, o: Loc, az: bool, ind: nat, size: nat)
    requires NearOk(st, sh, o, az)
    ensures var r := st.sobs[Near(sh, o, az)];
      (NearFailed(st, sh, o, az) <==> r.failed) && (NearFits(st, sh, o, az, ind, size) <==> r.size == size && r.arg == ind)
  {
  }

  lemma NearNone(st: Store, sh: Shape, o: Loc, az: bool, ind: nat, size: nat)
    requires o in sh.chains && sh.chains[o] == []
    ensures !NearFailed(st, sh, o, az) && !NearFits(st, sh, o, az, ind, size)
  {
  }

  lemma ChosenOld(st: Store, sh: Shape, o: Loc, az: bool, ind: nat, size: nat)
    requires NearFits(st, sh, o, az, ind, size)
    ensures Chosen(st, sh, st, sh, o, az, ind, size, Near(sh, o, az))
  {
  }

  /** A new record has been put at the end of the chain of f. */
  lemma ChosenNew(st0: Store, sh0: Shape, sh1: Shape, st2: Store, sh2: Shape, f: Loc, az: bool, ind: nat, s: nat, size: nat, lvl: nat)
    requires f in sh0.chains && NoSob(sh0, s) && sh1 == WithSob(sh0, s, size, lvl) && f in sh1.chains && sh2 == Linked(sh1, f, az, SobCell(s))
    requires !NearFits(st0, sh0, f, az, ind, size) && s !in st0.sobs && s !in sh0.level
    ensures Extended(sh0, sh2, az) && Chosen(st0, sh0, st2, sh2, f, az, ind, size, s)
  {
    hide Extended, WithSob, NearFits;
    WithSobIs(sh0, s, size, lvl);
    ExtendedWithSob(sh0, s, size, lvl, az);
    ExtendedLinked(sh1, sh2, f, az, SobCell(s));
    ExtendedTrans(sh0, sh1, sh2, az);
  }

  /** One level of an assert either meets a failed record or leaves what is in the way further down as it is. */
  ghost predicate BlockStep(st0: Store, sh0: Shape, st1: Store, sh1: Shape, o: Loc, s: nat, l: nat, size: nat, az: bool, head: seq<Sym>, wild: bool) {
    if wild then AddBlocked(st0, sh0, o, l, size, az, head)
    else AddBlocked(st1, sh1, SubPred(s), l + 1, size, az, head) == AddBlocked(st0, sh0, o, l, size, az, head)
  }

  lemma BlockStepIs(st0: Store, sh0: Shape, st1: Store, sh1: Shape, o: Loc, s: nat, l: nat, size: nat, az: bool, head: seq<Sym>, wild: bool)
    requires BlockStep(st0, sh0, st1, sh1, o, s, l, size, az, head, wild)
    ensures wild ==> AddBlocked(st0, sh0, o, l, size, az, head)
    ensures !wild ==> AddBlocked(st1, sh1, SubPred(s), l + 1, size, az, head) == AddBlocked(st0, sh0, o, l, size, az, head)
  {
  }

  lemma BlockedWild(st0: Store, sh0: Shape, st1: Store, sh1: Shape, o: Loc, s: nat, l: nat, size: nat, az: bool, head: seq<Sym>)
    requires 1 <= l <= |sh0.index| && sh0.index[l - 1] < |head| && (head[sh0.index[l - 1]].Var? ==> size == 1) && NearFailed(st0, sh0, o, az)
    ensures BlockStep(st0, sh0, st1, sh1, o, s, l, size, az, head, true)
  {
  }

  lemma BlockedNext(st0: Store, sh0: Shape, st1: Store, sh1: Shape, st2: Store, sh2: Shape, o: Loc, s: nat, l: nat, size: nat, az: bool, head: seq<Sym>)
    requires 1 <= l <= |sh0.index| && sh0.index[l - 1] < |head| && (head[sh0.index[l - 1]].Var? ==> size == 1)
    requires !NearFailed(st0, sh0, o, az) && Chosen(st0, sh0, st1, sh1, o, az, sh0.index[l - 1], size, s)
    requires AddBlocked(st2, sh2, SubPred(s), l + 1, size, az, head) == AddBlocked(st1, sh1, SubPred(s), l + 1, size, az, head)
    ensures BlockStep(st0, sh0, st2, sh2, o, s, l, size, az, head, false)
  {
    hide AddBlocked, NearFailed, NearFits;
    NearBlocked(st0, sh0, o, l, size, az, head);
    if !NearFits(st0, sh0, o, az, sh0.index[l - 1], size) { NotBlocked(st1, sh1, SubPred(s), l + 1, size, az, head); }
  }

  /** The clause has entered a bucket of s: the chains of records are the same. */
  lemma DescendSteps(st0: Store, sh0: Shape, st1: Store, sh1: Shape, p: Pend, s: nat, h: nat, size: nat, head: seq<Sym>)
    requires p.Adding? && Bucket(s, h) in sh0.chains && SubPred(s) in sh0.under && sh1 == Descended(sh0, p, s, h)
    requires IndCell(p.clause, p.depth + 1) !in sh0.home
    requires SobsStep(st0.sobs, st1.sobs, Bucket(s, h), 0) || SobsStep(st0.sobs, st1.sobs, Bucket(s, h), 1)
    ensures Extended(sh0, sh1, p.az)
    ensures AddBlocked(st1, sh1, SubPred(s), p.depth + 2, size, p.az, head) == AddBlocked(st0, sh0, SubPred(s), p.depth + 2, size, p.az, head)
  {
    hide Extended, Linked;
    DescendedIs(sh0, p, s, h);
    assert SameRecords(st0, st1) && SameSobChains(sh0, sh1);
    DescendExtended(sh0, sh1, p, s, h);
    BlockedSame(st0, sh0, st1, sh1, SubPred(s), p.depth + 2, size, p.az, head);
  }

  lemma DescendExtended(sh0: Shape, sh1: Shape, p: Pend, s: nat, h: nat)
    requires p.Adding? && Bucket(s, h) in sh0.chains && SubPred(s) in sh0.under && sh1 == Descended(sh0, p, s, h)
    requires IndCell(p.clause, p.depth + 1) !in sh0.home
    ensures Extended(sh0, sh1, p.az)
  {
    ExtendedLinked(sh0, sh1, Bucket(s, h), p.az, IndCell(p.clause, p.depth + 1));
  }

  // ---- what a physical deletion leaves alone --------------------------------------------------------

  /** No marked record becomes the first of its chain when record s goes. */
  ghost predicate SobSafe(sh: Shape, marked: set<Loc>, s: nat) {
    SobCell(s) in sh.home && sh.home[SobCell(s)] in sh.chains ==>
      var xs := sh.chains[sh.home[SobCell(s)]];
      |xs| > 1 && xs[0] == SobCell(s) ==> xs[1] !in marked
  }

  /** Every record that has left its chain had not failed and could go safely. */
  ghost predicate Dropped(st0: Store, sh0: Shape, sh1: Shape, marked: set<Loc>) {
    forall s :: SobCell(s) in sh0.home && SobCell(s) !in sh1.home ==>
      s in st0.sobs && !st0.sobs[s].failed && SobCell(s) !in marked && SobSafe(sh0, marked, s)
  }

  /** A failed record stays failed, and no table changes its size. */
  ghost predicate FailedStay(st0: Store, st1: Store) {
    forall s :: s in st0.sobs ==> s in st1.sobs && st1.sobs[s].size == st0.sobs[s].size && (st0.sobs[s].failed ==> st1.sobs[s].failed)
  }

  /** Chains of records above level l are as they were. */
  ghost predicate UpperKept(sh0: Shape, sh1: Shape, l: nat) {
    forall o :: o in sh0.chains && !o.Bucket? && LevelOf(sh0, o) < l ==> o in sh1.chains && sh1.chains[o] == sh0.chains[o]
  }

  /** The records that have left their chains were at level l. */
  ghost predicate GoneAt(sh0: Shape, sh1: Shape, l: nat) {
    forall s :: SobCell(s) in sh0.home && SobCell(s) !in sh1.home ==>
      var o := sh0.home[SobCell(s)]; o in sh0.chains && !o.Bucket? && LevelOf(sh0, o) + 1 == l
  }

  /** Every record that has newly failed and is still on its chain could not go safely. */
  ghost predicate FailedRightly(st0: Store, sh0: Shape, st1: Store, sh1: Shape, marked: set<Loc>) {
    forall s :: NewlyFailed(st0, st1, sh1, s) ==> SobCell(s) in marked || !SobSafe(sh0, marked, s)
  }

  ghost predicate NewlyFailed(st0: Store, st1: Store, sh1: Shape, s: nat) {
    s in st0.sobs && s in st1.sobs && !st0.sobs[s].failed && st1.sobs[s].failed && SobCell(s) in sh1.home
  }

  ghost predicate FailedAt(st0: Store, sh0: Shape, st1: Store, sh1: Shape, l: nat) {
    forall s :: NewlyFailed(st0, st1, sh1, s) ==>
      SobCell(s) in sh0.home && var o := sh0.home[SobCell(s)]; o in sh0.chains && !o.Bucket? && LevelOf(sh0, o) + 1 == l
  }

  lemma FailedTrans(st0: Store, sh0: Shape, st1: Store, sh1: Shape, st2: Store, sh2: Shape, marked: set<Loc>, l: nat)
    requires FailedRightly(st0, sh0, st1, sh1, marked) && FailedRightly(st1, sh1, st2, sh2, marked) && FailedAt(st1, sh1, st2, sh2, l)
    requires UpperKept(sh0, sh1, l) && FailedStay(st0, st1) && Shrunk(sh0, sh1) && Shrunk(sh1, sh2) && st1.sobs.Keys == st0.sobs.Keys
    ensures FailedRightly(st0, sh0, st2, sh2, marked)
  {
    hide Kept, LevelOf;
    forall s | NewlyFailed(st0, st2, sh2, s) ensures SobCell(s) in marked || !SobSafe(sh0, marked, s) {
      if st1.sobs[s].failed {
        assert NewlyFailed(st0, st1, sh1, s);
      } else {
        assert NewlyFailed(st1, st2, sh2, s);
        LevelSame(sh0, sh1, sh1.home[SobCell(s)]);
      }
    }
  }

  lemma NoneFailed(st0: Store, sh0: Shape, st1: Store, sh1: Shape, marked: set<Loc>, l: nat)
    requires forall s :: s in st0.sobs && s in st1.sobs ==> st1.sobs[s].failed == st0.sobs[s].failed
    ensures FailedRightly(st0, sh0, st1, sh1, marked) && FailedAt(st0, sh0, st1, sh1, l)
  {
  }

  lemma DroppedTrans(st0: Store, sh0: Shape, st1: Store, sh1: Shape, sh2: Shape, marked: set<Loc>, l: nat)
    requires Dropped(st0, sh0, sh1, marked) && Dropped(st1, sh1, sh2, marked) && GoneAt(sh1, sh2, l)
    requires UpperKept(sh0, sh1, l) && FailedStay(st0, st1) && Shrunk(sh0, sh1) && st1.sobs.Keys == st0.sobs.Keys
    ensures Dropped(st0, sh0, sh2, marked)
  {
    hide Kept, LevelOf;
    forall s | SobCell(s) in sh0.home && SobCell(s) !in sh2.home
      ensures s in st0.sobs && !st0.sobs[s].failed && SobCell(s) !in marked && SobSafe(sh0, marked, s)
    {
      if SobCell(s) in sh1.home {
        var o := sh1.home[SobCell(s)];
        LevelSame(sh0, sh1, o);
        assert o in sh1.chains && LevelOf(sh1, o) + 1 == l;
        assert o in sh0.chains;
      }
    }
  }

  lemma LevelSame(sh0: Shape, sh1: Shape, o: Loc)
    requires sh1.level == sh0.level
    ensures LevelOf(sh1, o) == LevelOf(sh0, o)
  {
  }

  lemma UpperTrans(sh0: Shape, sh1: Shape, sh2: Shape, l: nat)
    requires UpperKept(sh0, sh1, l + 1) && UpperKept(sh1, sh2, l) && sh1.level == sh0.level
    ensures UpperKept(sh0, sh2, l)
  {
  }

  lemma GoneNone(st0: Store, sh0: Shape, sh1: Shape, marked: set<Loc>, l: nat)
    requires forall s :: SobCell(s) in sh0.home ==> SobCell(s) in sh1.home
    ensures Dropped(st0, sh0, sh1, marked) && GoneAt(sh0, sh1, l)
  {
  }

  lemma DroppedSame(st0: Store, sh0: Shape, st1: Store, sh1: Shape, st2: Store, sh2: Shape, marked: set<Loc>)
    requires Dropped(st0, sh0, sh1, marked) && FailedRightly(st0, sh0, st1, sh1, marked) && sh2.home == sh1.home && st2.sobs == st1.sobs
    ensures Dropped(st0, sh0, sh2, marked) && FailedRightly(st0, sh0, st2, sh2, marked)
  {
    assert forall s :: NewlyFailed(st0, st2, sh2, s) ==> NewlyFailed(st0, st1, sh1, s);
    hide SobSafe;
  }

  /** The words of a record header say whether dropping it would make a marked record the first of its chain. */
  lemma OpeningRecord(st: Store, sh: Shape, s: nat, marked: set<Loc>)
    requires Storage(st, sh) && SobCell(s) in sh.home
    ensures SobCell(s) in st.cells
    ensures var x := st.cells[SobCell(s)];
      SobSafe(sh, marked, s) <==> !((x.op == Trymeelse || x.op == Dyntrymeelse) && x.next in marked)
  {
    hide Storage, IsChain, KindOk, Distinct, IsSob, OwnerOk, SobOk, HomeOk;
    HomeOf(st, sh);
    HomeKind(sh, SobCell(s));
    var o := sh.home[SobCell(s)];
    var xs := sh.chains[o];
    var k :| 0 <= k < |xs| && xs[k] == SobCell(s);
    ChildFacts(st, sh, o, s);
    OwnerChain(st, sh, o);
    PlaceOf(st.cells, xs, IsSob(sh, o), Before(sh, o), IndexShape.After(sh, o), k);
    ChainDistinct(st, sh, o);
    FirstOnly(xs, k);
  }

  lemma FirstOnly(xs: seq<Loc>, k: nat)
    requires Distinct(xs) && k < |xs|
    ensures xs[0] == xs[k] ==> k == 0
  {
  }

  // ---- the steps of a deletion -----------------------------------------------------------------------

  lemma StartSteps(st0: Store, sh0: Shape, st1: Store, sh1: Shape, s: nat, k: nat, marked: set<Loc>)
    requires Storage(st0, sh0) && SubPred(s) in sh0.chains && !IsSob(sh0, SubPred(s)) && k < |sh0.chains[SubPred(s)]|
    requires sh0.chains[SubPred(s)][k].ClauseCell? && sh1 == Unlinked(sh0, SubPred(s), k) && st1.sobs == st0.sobs
    ensures UpperKept(sh0, sh1, sh0.Depth()) && FailedStay(st0, st1) && Dropped(st0, sh0, sh1, marked)
    ensures FailedRightly(st0, sh0, st1, sh1, marked)
  {
    hide OwnerOk, HomeOk;
    RecordOf(st0, sh0, SubPred(s));
    SobPositive(st0, sh0, s);
    GoneNone(st0, sh0, sh1, marked, 0);
    NoneFailed(st0, sh0, st1, sh1, marked, 0);
  }

  lemma AscendSteps(st0: Store, sh0: Shape, st1: Store, sh1: Shape, p: Pend, s: nat, h: nat, k: nat, marked: set<Loc>)
    requires p.Removing? && p.depth > 0 && Bucket(s, h) in sh0.chains && k < |sh0.chains[Bucket(s, h)]| && sh0.chains[Bucket(s, h)][k].IndCell?
    requires SubPred(s) in sh0.under && sh1 == Ascended(sh0, p.clause, s, h, k)
    requires SobsStep(st0.sobs, st1.sobs, Bucket(s, h), 0) || SobsStep(st0.sobs, st1.sobs, Bucket(s, h), -1)
    ensures UpperKept(sh0, sh1, p.depth - 1) && GoneAt(sh0, sh1, p.depth) && FailedStay(st0, st1) && Dropped(st0, sh0, sh1, marked)
    ensures st1.sobs.Keys == st0.sobs.Keys && sh1.level == sh0.level
    ensures FailedRightly(st0, sh0, st1, sh1, marked) && FailedAt(st0, sh0, st1, sh1, p.depth)
    ensures forall t :: t in st0.sobs ==> st1.sobs[t].failed == st0.sobs[t].failed
    ensures forall o :: o in sh0.chains && !o.Bucket? ==> o in sh1.chains && sh1.chains[o] == sh0.chains[o]
    ensures forall t :: SobCell(t) in sh0.home <==> SobCell(t) in sh1.home
  {
    AscendedIs(sh0, p.clause, s, h, k);
    GoneNone(st0, sh0, sh1, marked, p.depth);
    NoneFailed(st0, sh0, st1, sh1, marked, p.depth);
  }

  /** The record of the clause at level l and the owner of the chain it is on. */
  lemma LevelAbove(st: Store, sh: Shape, f: Loc, s: nat, h: nat, x: Loc)
    requires Storage(st, sh) && SobCell(s) in sh.home && sh.home[SobCell(s)] == f && Bucket(s, h) in sh.chains && x in sh.chains[Bucket(s, h)]
    ensures x.IndCell? && LevelOf(sh, f) + 1 == x.level && f in sh.chains && !f.Bucket?
  {
    hide OwnerOk, SobOk;
    HomeKind(sh, SobCell(s));
    assert KindOk(sh, Bucket(s, h), x);
  }

  /** After the bucket: the record s, at level i below f, has failed or has gone. */
  lemma DropSteps(st0: Store, sh0: Shape, st1: Store, sh1: Shape, st2: Store, sh2: Shape, f: Loc, s: nat, i: nat, marked: set<Loc>)
    requires Shrunk(sh0, sh1) && Shrunk(sh1, sh2) && FailedStay(st0, st1) && st1.sobs.Keys == st0.sobs.Keys && s in st1.sobs && !st1.sobs[s].failed
    requires forall o :: o in sh0.chains && !o.Bucket? ==> o in sh1.chains && sh1.chains[o] == sh0.chains[o]
    requires forall t :: SobCell(t) in sh0.home <==> SobCell(t) in sh1.home
    requires SobCell(s) in sh1.home && sh1.home[SobCell(s)] == f && f in sh1.chains && !f.Bucket? && f in sh0.chains && LevelOf(sh0, f) == i - 1
    requires st2.sobs == Flagged(st1, s).sobs
    requires forall t :: t in st0.sobs ==> st1.sobs[t].failed == st0.sobs[t].failed
    requires if SobCell(s) !in marked && SobSafe(sh1, marked, s) then sh2.home == sh1.home - {SobCell(s)} else sh2 == sh1
    requires forall o :: o in sh1.chains && o != f ==> o in sh2.chains && sh2.chains[o] == sh1.chains[o]
    ensures Shrunk(sh0, sh2) && UpperKept(sh0, sh2, i - 1) && GoneAt(sh0, sh2, i)
    ensures FailedStay(st0, st2) && st2.sobs.Keys == st0.sobs.Keys && Dropped(st0, sh0, sh2, marked)
    ensures FailedRightly(st0, sh0, st2, sh2, marked) && FailedAt(st0, sh0, st2, sh2, i)
  {
    hide Shrunk, FailedRightly, FailedAt, NewlyFailed;
    ShrunkTrans(sh0, sh1, sh2);
    ShrunkHome(sh0, sh1);
    DropFails(st0, sh0, st1, sh1, st2, sh2, f, s, i, marked);
  }

  lemma DropFails(st0: Store, sh0: Shape, st1: Store, sh1: Shape, st2: Store, sh2: Shape, f: Loc, s: nat, i: nat, marked: set<Loc>)
    requires Shrunk(sh0, sh1) && st1.sobs.Keys == st0.sobs.Keys && s in st1.sobs
    requires forall o :: o in sh0.chains && !o.Bucket? ==> o in sh1.chains && sh1.chains[o] == sh0.chains[o]
    requires SobCell(s) in sh1.home && sh1.home[SobCell(s)] == f && f in sh1.chains && !f.Bucket? && f in sh0.chains && LevelOf(sh0, f) == i - 1
    requires st2.sobs == Flagged(st1, s).sobs && forall t :: t in st0.sobs ==> st1.sobs[t].failed == st0.sobs[t].failed
    requires if SobCell(s) !in marked && SobSafe(sh1, marked, s) then sh2.home == sh1.home - {SobCell(s)} else sh2 == sh1
    ensures FailedRightly(st0, sh0, st2, sh2, marked) && FailedAt(st0, sh0, st2, sh2, i)
  {
    hide Shrunk, LevelOf;
    ShrunkHome(sh0, sh1);
  }

  lemma ShrunkHome(sh0: Shape, sh1: Shape)
    requires Shrunk(sh0, sh1)
    ensures forall x :: x in sh1.home ==> x in sh0.home && sh0.home[x] == sh1.home[x]
    ensures sh1.level == sh0.level
  {
  }

  lemma StaySame(st0: Store, st1: Store, st2: Store)
    requires FailedStay(st0, st1) && st2.sobs == st1.sobs
    ensures FailedStay(st0, st2)
  {
  }

  lemma StayTrans(st0: Store, st1: Store, st2: Store)
    requires FailedStay(st0, st1) && FailedStay(st1, st2)
    ensures FailedStay(st0, st2)
  {
  }

  lemma LoopSteps(st0: Store, sh0: Shape, st1: Store, sh1: Shape, st2: Store, sh2: Shape, i: nat, marked: set<Loc>)
    requires i > 0 && Shrunk(sh0, sh1) && UpperKept(sh0, sh1, i) && FailedStay(st0, st1) && st1.sobs.Keys == st0.sobs.Keys
    requires Dropped(st0, sh0, sh1, marked) && FailedRightly(st0, sh0, st1, sh1, marked)
    requires FailedRightly(st1, sh1, st2, sh2, marked) && FailedAt(st1, sh1, st2, sh2, i)
    requires Shrunk(sh1, sh2) && UpperKept(sh1, sh2, i - 1) && GoneAt(sh1, sh2, i) && FailedStay(st1, st2) && st2.sobs.Keys == st1.sobs.Keys
    requires Dropped(st1, sh1, sh2, marked)
    ensures Shrunk(sh0, sh2) && UpperKept(sh0, sh2, i - 1) && FailedStay(st0, st2) && st2.sobs.Keys == st0.sobs.Keys
    ensures Dropped(st0, sh0, sh2, marked) && FailedRightly(st0, sh0, st2, sh2, marked)
  {
    hide Shrunk, Dropped, UpperKept, GoneAt, FailedRightly, FailedAt, FailedStay;
    ShrunkTrans(sh0, sh1, sh2);
    ShrunkHome(sh0, sh1);
    DroppedTrans(st0, sh0, st1, sh1, sh2, marked, i);
    FailedTrans(st0, sh0, st1, sh1, st2, sh2, marked, i);
    StayTrans(st0, st1, st2);
    UpperTrans(sh0, sh1, sh2, i - 1);
  }
}
