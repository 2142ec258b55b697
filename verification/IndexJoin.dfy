/** Which records an assert joins and which it starts, level by level. */
module IndexJoin {
  import opened Chains
  import opened IndexShape
  import opened IndexTree
  import opened IndexChange

  /** One level of an assert below o: the record at the near end if it fits, and otherwise a new one there. */
  ghost predicate LevelStep(st0: Store, sh0: Shape, sh1: Shape, o: Loc, az: bool, ind: nat, size: nat, s: nat) {
    && o in sh0.chains && o in sh1.chains && SameOthers(sh0, sh1, o)
    && if NearFits(st0, sh0, o, az, ind, size) then s == Near(sh0, o, az) && sh1.chains[o] == sh0.chains[o]
       else Started(st0, sh0, sh1, o, az, s) && SubPred(s) in sh1.chains && sh1.chains[SubPred(s)] == []
  }

  lemma LevelStepOf(st0: Store, sh0: Shape, st1: Store, sh1: Shape, sh2: Shape, o: Loc, az: bool, ind: nat, size: nat, s: nat)
    requires Chosen(st0, sh0, st1, sh1, o, az, ind, size, s) && o in sh0.chains && !o.Bucket? && SameSobChains(sh1, sh2) && sh2.level == sh1.level
    ensures LevelStep(st0, sh0, sh2, o, az, ind, size, s)
  {
    hide NearFits, Near;
  }

  /** What became of the near end below o in the whole assert: s is the record there if it fits, and otherwise a new one. */
  ghost predicate Joins(st0: Store, sh0: Shape, sh1: Shape, az: bool, o: Loc, s: nat, ind: nat, size: nat) {
    && o in sh1.chains
    && if NearFits(st0, sh0, o, az, ind, size) then s == Near(sh0, o, az) && o in sh0.chains && sh1.chains[o] == sh0.chains[o]
       else s !in st0.sobs && sh1.chains[o] == Add(az, if o in sh0.chains then sh0.chains[o] else [], SobCell(s))
  }

  /** So on the first n levels of clause c. */
  ghost predicate AllJoin(st0: Store, sh0: Shape, sh1: Shape, c: nat, head: seq<Sym>, size: nat, az: bool, n: nat) {
    forall l :: 1 <= l <= n && l <= |sh0.index| ==>
      Joins(st0, sh0, sh1, az, OwnerAt(sh1, c, l - 1), SobAt(sh1, c, l), sh0.index[l - 1], SizeAt(sh0.index, head, size, l))
  }

  /** On its way the assert stands below o at level l; the chains of records from there on are as at the beginning. */
  ghost predicate Below(st0: Store, sh0: Shape, sh1: Shape, c: nat, o: Loc, l: nat) {
    && o == OwnerAt(sh1, c, l) && o in sh1.chains && !o.Bucket? && sh1.index == sh0.index
    && (if o in sh0.chains then sh1.chains[o] == sh0.chains[o] else sh1.chains[o] == [])
    && (forall q: Loc :: q in sh0.chains && !q.Bucket? && LevelOf(sh0, q) >= l ==> q in sh1.chains && sh1.chains[q] == sh0.chains[q])
    && (forall t :: t in sh0.level ==> t in sh1.level && sh1.level[t] == sh0.level[t])
    && (forall i :: 1 <= i <= l ==> IndCell(c, i) in sh1.home && sh1.home[IndCell(c, i)].Bucket?)
  }

  lemma BelowRoot(st0: Store, sh0: Shape, sh1: Shape, c: nat, head: seq<Sym>, size: nat, az: bool)
    requires Root in sh0.chains && sh1.chains == sh0.chains && sh1.level == sh0.level && sh1.index == sh0.index
    ensures Below(st0, sh0, sh1, c, Root, 0) && AllJoin(st0, sh0, sh1, c, head, size, az, 0)
  {
  }

  /** The level of the record of c at level l. */
  lemma OwnerLevel(st: Store, sh: Shape, c: nat, l: nat)
    requires Storage(st, sh) && (l > 0 ==> IndCell(c, l) in sh.home && sh.home[IndCell(c, l)].Bucket?)
    ensures LevelOf(sh, OwnerAt(sh, c, l)) == l && !OwnerAt(sh, c, l).Bucket?
    ensures l > 0 ==> SobAt(sh, c, l) in st.sobs
  {
    hide OwnerOk, SobOk;
    if l > 0 {
      var o := sh.home[IndCell(c, l)];
      assert IndCell(c, l) in sh.chains[o] && KindOk(sh, o, IndCell(c, l));
    }
  }

  /** The near end below o is what it was. */
  lemma SameNear(st0: Store, sh0: Shape, st1: Store, sh1: Shape, o: Loc, az: bool, ind: nat, size: nat, l: nat)
    requires Storage(st0, sh0) && Recorded(st0, sh0, st1, sh1) && o in sh1.chains && (o in sh0.chains ==> LevelOf(sh0, o) == l < sh0.Depth())
    requires !o.Bucket? && if o in sh0.chains then sh1.chains[o] == sh0.chains[o] else sh1.chains[o] == []
    ensures NearFits(st1, sh1, o, az, ind, size) == NearFits(st0, sh0, o, az, ind, size)
    ensures NearFits(st0, sh0, o, az, ind, size) ==> Near(sh1, o, az) == Near(sh0, o, az) && Near(sh0, o, az) in st0.sobs && o in sh0.chains
    ensures NearFits(st0, sh0, o, az, ind, size) ==> SubPred(Near(sh0, o, az)) in sh0.chains && LevelOf(sh0, SubPred(Near(sh0, o, az))) == l + 1
  {
    hide Storage, IsChain;
    if o in sh0.chains && sh0.chains[o] != [] {
      NearHere(st0, sh0, o, az, l);
    }
  }

  lemma NearHere(st: Store, sh: Shape, o: Loc, az: bool, l: nat)
    requires Storage(st, sh) && o in sh.chains && !o.Bucket? && LevelOf(sh, o) == l < sh.Depth() && sh.chains[o] != []
    ensures Near(sh, o, az) in st.sobs && SubPred(Near(sh, o, az)) in sh.chains && LevelOf(sh, SubPred(Near(sh, o, az))) == l + 1
  {
    hide Storage, IsChain;
    OwnedBySob(st, sh, o);
    EndChild(st, sh, o, l);
    var e := sh.chains[o][if az then |sh.chains[o]| - 1 else 0];
    assert e in sh.chains[o];
    ChildFacts(st, sh, o, e.sob);
  }

  lemma OwnedBySob(st: Store, sh: Shape, o: Loc)
    requires Storage(st, sh) && o in sh.chains && !o.Bucket? && LevelOf(sh, o) < sh.Depth()
    ensures IsSob(sh, o)
  {
    hide OwnerOk, SobOk, HomeOk;
  }

  /** One level further down. */
  lemma JoinNext(st0: Store, sh0: Shape, sti: Store, shi: Shape, st1: Store, sh1: Shape, c: nat, head: seq<Sym>, size: nat, az: bool, o: Loc, l: nat, s: nat)
    requires Storage(st0, sh0) && Storage(sti, shi) && Recorded(st0, sh0, sti, shi) && l < sh0.Depth()
    requires Below(st0, sh0, shi, c, o, l) && AllJoin(st0, sh0, shi, c, head, size, az, l)
    requires LevelStep(sti, shi, sh1, o, az, sh0.index[l], SizeAt(sh0.index, head, size, l + 1), s) && Extended(shi, sh1, az)
    requires InRecord(st1, sh1, c, l + 1, s, SizeAt(sh0.index, head, size, l + 1))
    ensures Below(st0, sh0, sh1, c, SubPred(s), l + 1) && AllJoin(st0, sh0, sh1, c, head, size, az, l + 1)
  {
    hide Storage, NearFits, Near, SizeAt, Longer, Recorded, Joins, Extended, AllJoin, Below, LevelStep, LevelOf, InRecord;
    var z := SizeAt(sh0.index, head, size, l + 1);
    BelowIs(st0, sh0, shi, c, o, l);
    StepIs(sti, shi, sh1, o, az, sh0.index[l], z, s);
    OwnersKept(st0, sh0, shi, sh1, c, o, az, l);
    OwnerLevel(sti, shi, c, l);
    LevelBefore(st0, sh0, sti, shi, o, l);
    SameNear(st0, sh0, sti, shi, o, az, sh0.index[l], z, l);
    NewInOld(st0, sh0, sti, shi, s);
    JoinHere(st0, sh0, sti, shi, sh1, az, o, s, sh0.index[l], z);
    BelowNext(st0, sh0, sti, shi, st1, sh1, c, o, l, s, az, z);
    JoinsAbove(st0, sh0, sti, shi, sh1, c, head, size, az, o, l);
    RecordIs(st1, sh1, c, l + 1, s, z);
    JoinsMore(st0, sh0, sh1, c, head, size, az, l, o, s);
  }

  lemma BelowIs(st0: Store, sh0: Shape, sh1: Shape, c: nat, o: Loc, l: nat)
    requires Below(st0, sh0, sh1, c, o, l)
    ensures o == OwnerAt(sh1, c, l) && o in sh1.chains && !o.Bucket?
    ensures if o in sh0.chains then sh1.chains[o] == sh0.chains[o] else sh1.chains[o] == []
    ensures forall t :: t in sh0.level ==> t in sh1.level && sh1.level[t] == sh0.level[t]
    ensures l > 0 ==> IndCell(c, l) in sh1.home && sh1.home[IndCell(c, l)].Bucket?
  {
  }

  lemma StepIs(st0: Store, sh0: Shape, sh1: Shape, o: Loc, az: bool, ind: nat, size: nat, s: nat)
    requires LevelStep(st0, sh0, sh1, o, az, ind, size, s)
    ensures SameOthers(sh0, sh1, o)
  {
    hide NearFits, Near, Started;
  }

  lemma RecordIs(st: Store, sh: Shape, c: nat, l: nat, s: nat, size: nat)
    requires InRecord(st, sh, c, l, s, size)
    ensures SobAt(sh, c, l) == s
  {
  }

  lemma JoinsMore(st0: Store, sh0: Shape, sh1: Shape, c: nat, head: seq<Sym>, size: nat, az: bool, l: nat, o: Loc, s: nat)
    requires AllJoin(st0, sh0, sh1, c, head, size, az, l) && l < |sh0.index| && o == OwnerAt(sh1, c, l) && s == SobAt(sh1, c, l + 1)
    requires Joins(st0, sh0, sh1, az, o, s, sh0.index[l], SizeAt(sh0.index, head, size, l + 1))
    ensures AllJoin(st0, sh0, sh1, c, head, size, az, l + 1)
  {
    hide Joins, SizeAt, SobAt, OwnerAt;
  }

  lemma BelowNext(st0: Store, sh0: Shape, sti: Store, shi: Shape, st1: Store, sh1: Shape, c: nat, o: Loc, l: nat, s: nat, az: bool, z: nat)
    requires Below(st0, sh0, shi, c, o, l) && l < sh0.Depth() && LevelStep(sti, shi, sh1, o, az, sh0.index[l], z, s)
    requires InRecord(st1, sh1, c, l + 1, s, z) && (s !in sti.sobs ==> SubPred(s) !in sh0.chains)
    requires forall i :: 1 <= i <= l ==> IndCell(c, i) in sh1.home && sh1.home[IndCell(c, i)].Bucket?
    requires o in sh0.chains ==> LevelOf(sh0, o) == l
    requires NearFits(sti, shi, o, az, sh0.index[l], z) ==>
      SubPred(Near(shi, o, az)) in sh0.chains && LevelOf(sh0, SubPred(Near(shi, o, az))) == l + 1
    ensures Below(st0, sh0, sh1, c, SubPred(s), l + 1)
  {
    hide NearFits, Near;
  }

  lemma OwnersKept(st0: Store, sh0: Shape, shi: Shape, sh1: Shape, c: nat, o: Loc, az: bool, l: nat)
    requires Below(st0, sh0, shi, c, o, l) && Extended(shi, sh1, az)
    ensures forall i: nat :: i <= l ==> OwnerAt(sh1, c, i) == OwnerAt(shi, c, i)
    ensures forall i :: 1 <= i <= l ==> SobAt(sh1, c, i) == SobAt(shi, c, i) && IndCell(c, i) in sh1.home && sh1.home[IndCell(c, i)].Bucket?
  {
    hide Longer;
  }

  lemma LevelBefore(st0: Store, sh0: Shape, sti: Store, shi: Shape, o: Loc, l: nat)
    requires Storage(st0, sh0) && LevelOf(shi, o) == l && !o.Bucket? && o in shi.chains
    requires forall t :: t in sh0.level ==> t in shi.level && shi.level[t] == sh0.level[t]
    ensures o in sh0.chains ==> LevelOf(sh0, o) == l
  {
    hide OwnerOk, SobOk, HomeOk;
  }

  lemma NewInOld(st0: Store, sh0: Shape, sti: Store, shi: Shape, s: nat)
    requires Storage(st0, sh0) && Recorded(st0, sh0, sti, shi)
    ensures s !in sti.sobs ==> s !in st0.sobs && SubPred(s) !in sh0.chains
  {
    hide OwnerOk, SobOk, HomeOk;
  }

  lemma JoinHere(st0: Store, sh0: Shape, sti: Store, shi: Shape, sh1: Shape, az: bool, o: Loc, s: nat, ind: nat, size: nat)
    requires LevelStep(sti, shi, sh1, o, az, ind, size, s) && (s !in sti.sobs ==> s !in st0.sobs)
    requires if o in sh0.chains then shi.chains[o] == sh0.chains[o] else shi.chains[o] == []
    requires NearFits(sti, shi, o, az, ind, size) == NearFits(st0, sh0, o, az, ind, size)
    requires NearFits(st0, sh0, o, az, ind, size) ==> Near(shi, o, az) == Near(sh0, o, az) && o in sh0.chains
    ensures Joins(st0, sh0, sh1, az, o, s, ind, size)
  {
    hide NearFits, Near;
  }

  lemma JoinKept(st0: Store, sh0: Shape, shi: Shape, sh1: Shape, az: bool, o: Loc, q: Loc, s: nat, ind: nat, size: nat)
    requires Joins(st0, sh0, shi, az, q, s, ind, size) && SameOthers(shi, sh1, o) && q != o && !q.Bucket?
    ensures Joins(st0, sh0, sh1, az, q, s, ind, size)
  {
    hide NearFits, Near;
  }

  /** A change on the chain of o leaves what was said about the levels above. */
  lemma JoinsAbove(st0: Store, sh0: Shape, sti: Store, shi: Shape, sh1: Shape, c: nat, head: seq<Sym>, size: nat, az: bool, o: Loc, n: nat)
    requires Storage(sti, shi) && Below(st0, sh0, shi, c, o, n) && AllJoin(st0, sh0, shi, c, head, size, az, n)
    requires Extended(shi, sh1, az) && SameOthers(shi, sh1, o)
    ensures AllJoin(st0, sh0, sh1, c, head, size, az, n)
  {
    hide Storage, NearFits, Near, SizeAt, Longer, Joins, Extended, SameOthers, LevelOf, OwnerAt, SobAt;
    OwnersKept(st0, sh0, shi, sh1, c, o, az, n);
    OwnerLevel(sti, shi, c, n);
    forall i | 1 <= i <= n && i <= |sh0.index|
      ensures Joins(st0, sh0, sh1, az, OwnerAt(sh1, c, i - 1), SobAt(sh1, c, i), sh0.index[i - 1], SizeAt(sh0.index, head, size, i))
    {
      OwnerLevel(sti, shi, c, i - 1);
      JoinKept(st0, sh0, shi, sh1, az, o, OwnerAt(shi, c, i - 1), SobAt(shi, c, i), sh0.index[i - 1], SizeAt(sh0.index, head, size, i));
    }
  }

  lemma AllJoinSame(st0: Store, sh0: Shape, st1: Store, sh1: Shape, sh2: Shape, c: nat, head: seq<Sym>, size: nat, az: bool, n: nat)
    requires AllJoin(st1, sh1, sh2, c, head, size, az, n) && st1.sobs == st0.sobs && sh1.chains == sh0.chains && sh1.index == sh0.index
    ensures AllJoin(st0, sh0, sh2, c, head, size, az, n)
  {
    hide SizeAt, Joins, OwnerAt, SobAt;
    forall l | 1 <= l <= n && l <= |sh0.index|
      ensures Joins(st0, sh0, sh2, az, OwnerAt(sh2, c, l - 1), SobAt(sh2, c, l), sh0.index[l - 1], SizeAt(sh0.index, head, size, l))
    {
      JoinsSame(st0, sh0, st1, sh1, sh2, az, OwnerAt(sh2, c, l - 1), SobAt(sh2, c, l), sh0.index[l - 1], SizeAt(sh0.index, head, size, l));
    }
  }

  lemma JoinsSame(st0: Store, sh0: Shape, st1: Store, sh1: Shape, sh2: Shape, az: bool, o: Loc, s: nat, ind: nat, size: nat)
    requires Joins(st1, sh1, sh2, az, o, s, ind, size) && st1.sobs == st0.sobs && sh1.chains == sh0.chains
    ensures Joins(st0, sh0, sh2, az, o, s, ind, size)
  {
  }
}
