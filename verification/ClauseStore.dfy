/** The words of one dynamic predicate and the operations that relink its chains. */
module ClauseStore {
  import opened Chains
  import opened IndexShape
  import opened IndexTree
  import opened IndexChange
  import opened IndexJoin

  class DynPred {
    var cells: Mem
    var preds: map<Loc, PredRec>
    var slots: map<Loc, Loc>
    var sobs: map<nat, SobRec>
    var heads: map<nat, seq<Sym>>
    const index: seq<nat>   // the arguments indexed, outermost first
    var fresh_: nat         // next unused address
    ghost var sh: Shape

    ghost function St(): Store
      reads this
    {
      Store(cells, preds, slots, sobs, heads)
    }

    /** a predicate without clauses */
    constructor (index: seq<nat>)
      requires index != []
      ensures Valid() && this.index == index && heads == map[] && sobs == map[] && Clauses() == []
    {
      this.index := index;
      cells, slots, sobs, heads, fresh_ := map[], map[], map[], map[], 0;
      preds := map[Root := PredRec(Fail, Root, Root)];
      sh := Shape(index, map[Root := []], map[], map[], map[Root := []]);
      new;
      EmptyTree(St(), sh);
    }

    /** add newClause in front of the chain that starts with first */
    method PrefixToChain(ifSob: bool, first: Loc, newCell: Loc, ghost xs: seq<Loc>, ghost before: Loc, ghost after: Loc)
      requires IsChain(cells, xs, ifSob, before, after) && xs != [] && xs[0] == first
      requires newCell in cells && newCell !in xs
      modifies this`cells
      ensures IsChain(cells, [newCell] + xs, ifSob, before, after)
      ensures Untouched(old(cells), cells, xs, newCell)
    {
      hide IsChain, CellOk, Distinct;
      ghost var m0 := cells;
      HeadCell(cells, xs, ifSob, before, after);
      cells := cells[newCell := cells[newCell].(op := if ifSob then Trymeelse else Dyntrymeelse, next := first)];
      if cells[first].op == Dynnoop || cells[first].op == Noop {
        cells := cells[first := cells[first].(op := Dyntrustmeelsefail)];
      } else {
        cells := cells[first := cells[first].(op := Dynretrymeelse)];
      }
      cells := cells[newCell := cells[newCell].(prev := cells[first].prev)];
      cells := cells[first := cells[first].(prev := newCell)];
      PrefixedChain(m0, cells, xs, newCell, ifSob, before, after);
    }

    /** add newClause behind last */
    method AppendToChain(last: Loc, newCell: Loc, ghost xs: seq<Loc>, ghost isSob: bool, ghost before: Loc, ghost after: Loc)
      requires IsChain(cells, xs, isSob, before, after) && xs != [] && xs[|xs| - 1] == last
      requires newCell in cells && newCell !in xs
      modifies this`cells
      ensures IsChain(cells, xs + [newCell], isSob, before, after)
      ensures Untouched(old(cells), cells, xs, newCell)
    {
      hide IsChain, CellOk, Distinct;
      ghost var m0 := cells;
      TailCell(cells, xs, isSob, before, after);
      cells := cells[newCell := Cell(Dyntrustmeelsefail, last, cells[last].next)];
      if cells[last].op == Dynnoop {
        cells := cells[last := cells[last].(op := Dyntrymeelse, next := newCell)];
      } else if cells[last].op == Noop {
        cells := cells[last := cells[last].(op := Trymeelse, next := newCell)];
      } else {
        cells := cells[last := cells[last].(op := Dynretrymeelse, next := newCell)];
      }
      AppendedChain(m0, cells, xs, newCell, isSob, before, after);
    }

    /** the generic unlinking step; the anchors of the chain are left to the caller */
    method DeleteFromChain(pc: Loc, ghost xs: seq<Loc>, ghost k: nat, ghost isSob: bool, ghost before: Loc, ghost after: Loc)
      requires IsChain(cells, xs, isSob, before, after) && k < |xs| && xs[k] == pc && pc in cells
      modifies this`cells
      ensures DropWrites(old(cells), cells, xs, k, isSob, before, after)
      ensures cells.Keys == old(cells.Keys) && cells[pc] == old(cells[pc])
    {
      hide IsChain, CellOk, Distinct, Drop, DropWrites;
      PlaceOf(cells, xs, isSob, before, after, k);
      Neighbours(cells, xs, isSob, before, after, k);
      var p, n := cells[pc].prev, cells[pc].next;
      match cells[pc].op {
        case Noop => WroteNone(cells, xs, isSob, before, after);
        case Dynnoop => WroteNone(cells, xs, isSob, before, after);
        case Trymeelse =>
          var o := if cells[n].op == Dynretrymeelse then Trymeelse else Noop;
          WroteFirst(cells, xs, isSob, before, after, o);
          cells := cells[n := Cell(o, p, cells[n].next)];
        case Dyntrymeelse =>
          var o := if cells[n].op == Dynretrymeelse then Dyntrymeelse else Dynnoop;
          WroteFirst(cells, xs, isSob, before, after, o);
          cells := cells[n := Cell(o, p, cells[n].next)];
        case Dynretrymeelse =>
          WroteMiddle(cells, xs, k, isSob, before, after);
          cells := cells[n := cells[n].(prev := p)][p := cells[p].(next := n)];
        case Dyntrustmeelsefail =>
          var o := if cells[p].op == Dynretrymeelse then Dyntrustmeelsefail
                   else if cells[p].op == Trymeelse then Noop else Dynnoop;
          WroteLast(cells, xs, isSob, before, after, o);
          cells := cells[p := Cell(o, cells[p].prev, n)];
      }
    }

    /** put record s on the chain of the predicate reference o */
    method DbAddBuff(s: nat, o: Loc, az: bool)
      requires Storage(St(), sh) && o in sh.chains && IsSob(sh, o)
      requires SobCell(s) in cells && SobCell(s) !in sh.home && KindOk(sh, o, SobCell(s))
      modifies this`cells, this`preds, this`sh
      ensures Storage(St(), sh) && sh == Linked(old(sh), o, az, SobCell(s))
      ensures Untouched(old(cells), cells, old(sh).chains[o], SobCell(s))
    {
      hide Storage, OwnerOk, KindOk, HomeOk, IsChain, CellOk, Distinct, PosOp, SobOk, Nonempty, IsOwner, DropWrites, Linked, Untouched;
      ghost var x, xs, st0 := SobCell(s), sh.chains[o], St();
      OwnerChain(St(), sh, o);
      OwnerCells(St(), sh, o);
      if preds[o].op == Fail {
        cells := cells[SobCell(s) := Cell(Noop, o, o)];
        preds := preds[o := PredRec(Jump, SobCell(s), SobCell(s))];
        SingleChain(cells, x, true, o, o);
        Touch(st0.cells, xs, x, Cell(Noop, o, o));
        assert Add(az, xs, x) == [x];
      } else if !az {
        PrefixToChain(true, preds[o].first, SobCell(s), xs, o, o);
        preds := preds[o := preds[o].(first := SobCell(s))];
      } else {
        AppendToChain(preds[o].last, SobCell(s), xs, true, o, o);
        preds := preds[o := preds[o].(last := SobCell(s))];
      }
      ghost var st1 := St();
      LinkWords(st0, st1, sh, o, az, x);
      sh := Linked(sh, o, az, x);
    }

    /** put a clause on the all-chain of the leaf record s */
    method AddToAllChain(az: bool, c: nat, s: nat)
      requires Storage(St(), sh) && SubPred(s) in sh.chains && !IsSob(sh, SubPred(s))
      requires ClauseCell(c) in cells && ClauseCell(c) !in sh.home && KindOk(sh, SubPred(s), ClauseCell(c))
      modifies this`cells, this`preds, this`sh
      ensures Storage(St(), sh) && sh == Linked(old(sh), SubPred(s), az, ClauseCell(c))
      ensures Untouched(old(cells), cells, old(sh).chains[SubPred(s)], ClauseCell(c))
    {
      hide Storage, OwnerOk, KindOk, HomeOk, IsChain, CellOk, Distinct, PosOp, SobOk, Nonempty, IsOwner, DropWrites, Linked, Untouched;
      ghost var xs, st0 := sh.chains[SubPred(s)], St();
      OwnerChain(St(), sh, SubPred(s));
      OwnerCells(St(), sh, SubPred(s));
      if preds[SubPred(s)].op == Fail {
        cells := cells[ClauseCell(c) := Cell(Dynnoop, SobCell(s), SobCell(s))];
        preds := preds[SubPred(s) := PredRec(Jump, ClauseCell(c), ClauseCell(c))];
        SingleChain(cells, ClauseCell(c), false, SobCell(s), SobCell(s));
        Touch(st0.cells, xs, ClauseCell(c), Cell(Dynnoop, SobCell(s), SobCell(s)));
        assert Add(az, xs, ClauseCell(c)) == [ClauseCell(c)];
      } else if !az {
        var first := preds[SubPred(s)].first;
        PrefixToChain(false, first, ClauseCell(c), xs, SobCell(s), SobCell(s));
        preds := preds[SubPred(s) := preds[SubPred(s)].(first := ClauseCell(c))];
      } else {
        var last := preds[SubPred(s)].last;
        AppendToChain(last, ClauseCell(c), xs, false, SobCell(s), SobCell(s));
        preds := preds[SubPred(s) := preds[SubPred(s)].(last := ClauseCell(c))];
      }
      ghost var st1 := St();
      LinkWords(st0, st1, sh, SubPred(s), az, ClauseCell(c));
      sh := Linked(sh, SubPred(s), az, ClauseCell(c));
    }

    /** walk a bucket chain from its first cell and hook x behind its last one */
    method AppendToBucket(first: Loc, x: Loc, s: nat, ghost xs: seq<Loc>, ghost before: Loc)
      requires IsChain(cells, xs, false, before, SobCell(s)) && xs != [] && xs[0] == first
      requires x in cells && x !in xs
      modifies this`cells
      ensures IsChain(cells, xs + [x], false, before, SobCell(s))
      ensures Untouched(old(cells), cells, xs, x)
    {
      ghost var m0 := cells;
      ghost var n := |xs|;
      assert CellOk(m0, xs, false, before, SobCell(s), 0);
      cells := cells[x := cells[x].(op := Dyntrustmeelsefail, next := SobCell(s))];
      var oldInd := first;
      if cells[oldInd].op == Dynnoop {
        cells := cells[oldInd := cells[oldInd].(op := Dyntrymeelse, next := x)];
      } else {
        ghost var i := 0;
        while cells[oldInd].op != Dyntrustmeelsefail
          invariant i < n && oldInd == xs[i] && oldInd in cells && n > 1
          invariant cells == m0[x := m0[x].(op := Dyntrustmeelsefail, next := SobCell(s))]
          invariant CellOk(m0, xs, false, before, SobCell(s), i)
          decreases n - i
        {
          assert CellOk(m0, xs, false, before, SobCell(s), i + 1);
          oldInd := cells[oldInd].next;
          i := i + 1;
        }
        assert i == n - 1;
        cells := cells[oldInd := cells[oldInd].(op := Dynretrymeelse, next := x)];
      }
      cells := cells[x := cells[x].(prev := oldInd)];
      AppendedChain(m0, cells, xs, x, false, before, SobCell(s));
    }

    /** put x on the bucket chain xs, at either end */
    method InsertInBucket(az: bool, h: nat, s: nat, x: Loc, ghost xs: seq<Loc>) returns (wasEmpty: bool)
      requires IsChain(cells, xs, false, Bucket(s, h), SobCell(s)) && (xs != [] ==> xs[0] != Dynfail)
      requires Bucket(s, h) in slots && slots[Bucket(s, h)] == if xs == [] then Dynfail else xs[0]
      requires x in cells && x !in xs && cells[x].op == Dynnoop
      modifies this`cells, this`slots
      ensures IsChain(cells, Add(az, xs, x), false, Bucket(s, h), SobCell(s))
      ensures wasEmpty <==> xs == []
      ensures slots == old(slots)[Bucket(s, h) := Add(az, xs, x)[0]]
      ensures Untouched(old(cells), cells, xs, x)
    {
      hide CellOk, Distinct, PosOp, IsChain;
      var oldInd := slots[Bucket(s, h)];
      wasEmpty := oldInd == Dynfail;
      if wasEmpty {
        slots := slots[Bucket(s, h) := x];
        cells := cells[x := cells[x].(prev := Bucket(s, h), next := SobCell(s))];
        SingleChain(cells, x, false, Bucket(s, h), SobCell(s));
        assert Add(az, xs, x) == [x];
      } else if !az {
        PrefixToChain(false, oldInd, x, xs, Bucket(s, h), SobCell(s));
        slots := slots[Bucket(s, h) := x];
        HeadCell(cells, [x] + xs, false, Bucket(s, h), SobCell(s));
        assert cells == cells[x := cells[x].(prev := Bucket(s, h))];
        cells := cells[x := cells[x].(prev := Bucket(s, h))];
      } else {
        AppendToBucket(oldInd, x, s, xs, Bucket(s, h));
        assert slots == slots[Bucket(s, h) := xs[0]];
      }
    }

    /** put the index cell x of a clause on bucket h of record s */
    method AddToHashChain(az: bool, h: nat, s: nat, x: Loc)
      requires Storage(St(), sh) && Bucket(s, h) in sh.chains
      requires x in cells && x !in sh.home && KindOk(sh, Bucket(s, h), x) && cells[x].op == Dynnoop
      modifies this`cells, this`slots, this`sobs, this`sh
      ensures Storage(St(), sh) && sh == Linked(old(sh), Bucket(s, h), az, x)
      ensures Untouched(old(cells), cells, old(sh).chains[Bucket(s, h)], x)
      ensures SobsStep(old(sobs), sobs, Bucket(s, h), if old(sh).chains[Bucket(s, h)] == [] then 1 else 0)
    {
      hide Storage, OwnerOk, KindOk, HomeOk, IsChain, CellOk, Distinct, PosOp, SobOk, Nonempty, IsOwner, DropWrites, Linked, Untouched;
      ghost var o := Bucket(s, h);
      ghost var xs, st0 := sh.chains[o], St();
      OwnerChain(St(), sh, o);
      OwnerCells(St(), sh, o);
      BucketFacts(St(), sh, s, h);
      assert xs != [] ==> xs[0] in xs;
      var wasEmpty := InsertInBucket(az, h, s, x, xs);
      if wasEmpty {
        sobs := sobs[s := sobs[s].(count := sobs[s].count + 1)];
      }
      ghost var st1 := St();
      assert SobsStep(st0.sobs, st1.sobs, o, if xs == [] then 1 else 0);
      LinkWords(st0, st1, sh, o, az, x);
      sh := Linked(sh, o, az, x);
    }

    /** take clause c off the all-chain of its leaf record */
    method DeleteFromAllChain(c: nat, ghost s: nat, ghost k: nat)
      requires Storage(St(), sh) && SubPred(s) in sh.chains && !IsSob(sh, SubPred(s))
      requires k < |sh.chains[SubPred(s)]| && sh.chains[SubPred(s)][k] == ClauseCell(c)
      modifies this`cells, this`preds, this`sh
      ensures Storage(St(), sh) && sh == Unlinked(old(sh), SubPred(s), k)
      ensures Untouched(old(cells), cells, old(sh).chains[SubPred(s)], ClauseCell(c))
    {
      hide Storage, OwnerOk, KindOk, HomeOk, IsChain, Distinct, SobOk, Nonempty, IsOwner, DropWrites, Unlinked, Untouched, CellOk;
      ghost var xs, st0 := sh.chains[SubPred(s)], St();
      OwnerChain(St(), sh, SubPred(s));
      PlaceOf(cells, xs, false, SobCell(s), SobCell(s), k);
      var op := cells[ClauseCell(c)].op;
      DeleteFromChain(ClauseCell(c), xs, k, false, SobCell(s), SobCell(s));
      var prev, next := cells[ClauseCell(c)].prev, cells[ClauseCell(c)].next;
      match op {
        case Dynnoop =>
          var pred := SubPred(prev.sob);
          preds := preds[pred := PredRec(Fail, pred, pred)];
        case Dyntrymeelse =>
          var pred := SubPred(prev.sob);
          preds := preds[pred := preds[pred].(first := next)];
        case Dyntrustmeelsefail =>
          var pred := SubPred(next.sob);
          preds := preds[pred := preds[pred].(last := prev)];
        case _ =>
      }
      ghost var st1 := St();
      DroppedChain(st0.cells, st1.cells, xs, k, false, SobCell(s), SobCell(s));
      DroppedUntouched(st0.cells, st1.cells, xs, k, false, SobCell(s), SobCell(s));
      DroppedEnds(xs, k);
      UnlinkWords(st0, st1, sh, SubPred(s), k);
      sh := Unlinked(sh, SubPred(s), k);
    }

    /** take record s off the chain of its parent o */
    method DeleteFromSobChain(s: nat, ghost o: Loc, ghost k: nat)
      requires Storage(St(), sh) && o in sh.chains && IsSob(sh, o)
      requires k < |sh.chains[o]| && sh.chains[o][k] == SobCell(s)
      modifies this`cells, this`preds, this`sh
      ensures Storage(St(), sh) && sh == Unlinked(old(sh), o, k)
      ensures Untouched(old(cells), cells, old(sh).chains[o], SobCell(s))
    {
      hide Storage, OwnerOk, KindOk, HomeOk, IsChain, Distinct, SobOk, Nonempty, IsOwner, DropWrites, Unlinked, Untouched, CellOk;
      ghost var xs, st0 := sh.chains[o], St();
      OwnerChain(St(), sh, o);
      PlaceOf(cells, xs, true, o, o, k);
      var op := cells[SobCell(s)].op;
      DeleteFromChain(SobCell(s), xs, k, true, o, o);
      var prev, next := cells[SobCell(s)].prev, cells[SobCell(s)].next;
      match op {
        case Noop =>
          preds := preds[prev := PredRec(Fail, prev, prev)];
        case Trymeelse =>
          preds := preds[prev := preds[prev].(first := next)];
        case Dyntrustmeelsefail =>
          preds := preds[next := preds[next].(last := prev)];
        case _ =>
      }
      ghost var st1 := St();
      DroppedChain(st0.cells, st1.cells, xs, k, true, o, o);
      DroppedUntouched(st0.cells, st1.cells, xs, k, true, o, o);
      DroppedEnds(xs, k);
      UnlinkWords(st0, st1, sh, o, k);
      sh := Unlinked(sh, o, k);
    }

    /** take the index cell pi off its bucket chain; sob is the record when the bucket empties */
    method DeleteFromHashChain(pi: Loc, sob: Loc, ghost s: nat, ghost h: nat, ghost k: nat)
      requires Storage(St(), sh) && Bucket(s, h) in sh.chains
      requires k < |sh.chains[Bucket(s, h)]| && sh.chains[Bucket(s, h)][k] == pi
      requires |sh.chains[Bucket(s, h)]| == 1 ==> sob == SobCell(s)
      modifies this`cells, this`slots, this`sobs, this`sh
      ensures Storage(St(), sh) && sh == Unlinked(old(sh), Bucket(s, h), k)
      ensures Untouched(old(cells), cells, old(sh).chains[Bucket(s, h)], pi)
      ensures SobsStep(old(sobs), sobs, Bucket(s, h), if |old(sh).chains[Bucket(s, h)]| == 1 then -1 else 0)
    {
      hide Storage, OwnerOk, KindOk, HomeOk, IsChain, Distinct, SobOk, Nonempty, IsOwner, DropWrites, Unlinked, Untouched, CellOk;
      ghost var o := Bucket(s, h);
      ghost var xs, st0 := sh.chains[o], St();
      OwnerChain(St(), sh, o);
      BucketFacts(St(), sh, s, h);
      PlaceOf(cells, xs, false, o, SobCell(s), k);
      DeleteFromChain(pi, xs, k, false, o, SobCell(s));
      var prev, next := cells[pi].prev, cells[pi].next;
      if cells[pi].op == Dynnoop {
        slots := slots[prev := Dynfail];
        sobs := sobs[sob.sob := sobs[sob.sob].(count := sobs[sob.sob].count - 1)];
      } else if cells[pi].op == Dyntrymeelse {
        slots := slots[prev := next];
      }
      ghost var st1 := St();
      DroppedChain(st0.cells, st1.cells, xs, k, false, o, SobCell(s));
      DroppedUntouched(st0.cells, st1.cells, xs, k, false, o, SobCell(s));
      DroppedEnds(xs, k);
      UnlinkWords(st0, st1, sh, o, k);
      sh := Unlinked(sh, o, k);
    }

    ghost predicate Allocated()
      reads this
    {
      && sh.index == index
      && (forall s :: s in sobs ==> s < fresh_)
      && (forall c :: c in heads ==> c < fresh_)
    }

    /** The invariant between operations. */
    ghost predicate Valid()
      reads this
    {
      Storage(St(), sh) && Tree(St(), sh, Settled, {}) && Allocated()
    }

    /** The clauses of the predicate, in order. */
    ghost function Clauses(): seq<nat>
      reads this
    {
      All(sh)
    }

    /** an empty index record for the given argument, off any chain */
    method NewSobBlock(size: nat, ind: nat, ghost lvl: nat) returns (s: nat)
      requires Storage(St(), sh) && Allocated() && size > 0 && 1 <= lvl <= |index| && ind == index[lvl - 1]
      modifies this`cells, this`preds, this`slots, this`sobs, this`fresh_, this`sh
      ensures s !in old(sobs) && NoSob(old(sh), s) && s == old(fresh_) && Allocated()
      ensures Storage(St(), sh) && sh == WithSob(old(sh), s, size, lvl)
      ensures sobs == old(sobs)[s := SobRec(ind, size, 0, false)]
      ensures SobCell(s) in cells
      ensures forall x :: x in old(cells) && x != SobCell(s) ==> x in cells && cells[x] == old(cells)[x]
    {
      hide Storage, NoSob, WithSob;
      ghost var st0 := St();
      s := fresh_;
      fresh_ := fresh_ + 1;
      cells := cells[SobCell(s) := Cell(Noop, SobCell(s), SobCell(s))];
      preds := preds[SubPred(s) := PredRec(Fail, SubPred(s), SubPred(s))];
      sobs := sobs[s := SobRec(ind, size, 0, false)];
      for i := 0 to size
        modifies this`slots
        invariant forall o :: o in st0.slots && !IsOf(o, s) ==> o in slots && slots[o] == st0.slots[o]
        invariant forall h: nat :: h < i ==> Bucket(s, h) in slots && slots[Bucket(s, h)] == Dynfail
      {
        slots := slots[Bucket(s, i) := Dynfail];
      }
      NewSobStorage(st0, St(), sh, s, ind, size, lvl);
      sh := WithSob(sh, s, size, lvl);
    }

    /** the record for a clause below pred: the one at the near end if its table fits, else a new one; wild tells that
        the one at the near end has failed, so that the code reads words that are not there any more */
    method ChooseSob(az: bool, pred: Loc, ind: nat, size: nat, ghost c: nat, ghost d: nat) returns (s: nat, wild: bool)
      requires Storage(St(), sh) && Allocated() && pred in sh.chains && IsSob(sh, pred) && size > 0
      requires d < |index| && ind == index[d] && LevelOf(sh, pred) == d
      requires Tree(St(), sh, Adding(pred, d, c, az), {pred})
      modifies this`cells, this`preds, this`slots, this`sobs, this`fresh_, this`sh
      ensures wild <==> NearFailed(old(St()), old(sh), pred, az)
      ensures !wild ==> Storage(St(), sh) && Allocated() && Extended(old(sh), sh, az)
      ensures !wild ==> pred in sh.chains && AtEnd(sh, pred, az, s)
      ensures !wild ==> Tree(St(), sh, Adding(pred, d, c, az), {pred, SubPred(s)})
      ensures !wild ==> s in sobs && sobs[s].size == size && sobs[s].arg == ind && !sobs[s].failed && s in sh.level && sh.level[s] == d + 1
      ensures All(sh) == All(old(sh)) && OtherWords(old(cells), old(sh), cells, sh)
      ensures !wild ==> Chosen(old(St()), old(sh), St(), sh, pred, az, ind, size, s) && Recorded(old(St()), old(sh), St(), sh)
    {
      hide Storage, Tree, AtEnd, NoSob, WithSob, WithChild, Linked, IsChain, IsSob, KindOk, All, Untouched, Allocated, Extended, NearFailed, NearFits, NearOk, Near, Chosen, OtherWords, Recorded;
      ghost var p, sh0, st0 := Adding(pred, d, c, az), sh, St();
      EndChild(St(), sh, pred, d);
      NearIs(st0, sh0, pred, az, d);
      AllocatedIs();
      if preds[pred].op != Fail {
        s := (if az then preds[pred].last else preds[pred].first).sob;
        EndSob(St(), sh, pred, az, s, p);
        NearTests(st0, sh0, pred, az, ind, size);
        SameWords(cells, sh);
        if sobs[s].failed {
          return s, true;
        }
        if sobs[s].size == size && sobs[s].arg == ind {
          ExtendedSame(sh0, sh, az);
          ChosenOld(st0, sh0, pred, az, ind, size);
          RecordedSame(st0, sh0, St(), sh);
          return s, false;
        }
      } else {
        NearNone(st0, sh0, pred, az, ind, size);
      }
      wild := false;
      s := StartRecord(az, pred, ind, size, c, d);
    }

    /** a new record at the near end of the chain of pred */
    method StartRecord(az: bool, pred: Loc, ind: nat, size: nat, ghost c: nat, ghost d: nat) returns (s: nat)
      requires Storage(St(), sh) && Allocated() && pred in sh.chains && IsSob(sh, pred) && size > 0
      requires d < |index| && ind == index[d] && LevelOf(sh, pred) == d
      requires Tree(St(), sh, Adding(pred, d, c, az), {pred}) && !NearFits(St(), sh, pred, az, ind, size)
      modifies this`cells, this`preds, this`slots, this`sobs, this`fresh_, this`sh
      ensures Storage(St(), sh) && Allocated() && Extended(old(sh), sh, az) && pred in sh.chains && AtEnd(sh, pred, az, s)
      ensures Tree(St(), sh, Adding(pred, d, c, az), {pred, SubPred(s)})
      ensures s in sobs && sobs[s] == SobRec(ind, size, 0, false) && s in sh.level && sh.level[s] == d + 1
      ensures All(sh) == All(old(sh)) && OtherWords(old(cells), old(sh), cells, sh)
      ensures Chosen(old(St()), old(sh), St(), sh, pred, az, ind, size, s) && Recorded(old(St()), old(sh), St(), sh)
    {
      hide Storage, Tree, AtEnd, NoSob, WithSob, WithChild, Linked, IsChain, IsSob, KindOk, All, Untouched, Allocated, Extended, NearFits, NearOk, Near, Chosen, OtherWords, Recorded;
      ghost var p, sh0, st0 := Adding(pred, d, c, az), sh, St();
      AllocatedIs();
      LevelKeys(st0, sh0);
      s := NewSobBlock(size, ind, d + 1);
      ghost var st1, sh1 := St(), sh;
      WithSobAllowed(st0, sh0, pred, s, size, d);
      AllocatedIs();
      DbAddBuff(s, pred, az);
      ChooseTree(st0, sh0, St(), sh, p, s, ind, size);
      ChosenNew(st0, sh0, sh1, St(), sh, pred, az, ind, s, size, d + 1);
      UntouchedCells(st1.cells, cells, sh1.chains[pred], SobCell(s), st1, sh1, pred);
      NewWords(st0.cells, sh0, st1.cells, cells, sh, s, pred);
      NewSobHome(sh0, sh1, sh, s, size, d + 1, pred, az);
      RecordedNew(st0, sh0, St(), sh, s, SobRec(ind, size, 0, false), pred);
      AllocatedIs();
    }

    /** one level of db_addbuff_i: pick the record below pred and put the clause in its bucket */
    method AddAtLevel(az: bool, pred: Loc, ind: nat, size: nat, hashval: nat, c: nat, inum: nat, ghost head: seq<Sym>) returns (s: nat, wild: bool)
      requires Allocated() && AddReady(St(), sh, az, pred, c, inum) && IsSob(sh, pred) && size > 0
      requires c in heads && heads[c] == head && AddFits(sh, head, ind, size, hashval, inum)
      modifies this`cells, this`preds, this`slots, this`sobs, this`fresh_, this`sh
      ensures !wild ==> Allocated() && AddReady(St(), sh, az, SubPred(s), c, inum + 1)
      ensures !wild ==> (IsSob(sh, SubPred(s)) <==> inum < |sh.index|)
      ensures !wild ==> All(sh) == All(old(sh)) && Extended(old(sh), sh, az)
      ensures !wild ==> Recorded(old(St()), old(sh), St(), sh) && InRecord(St(), sh, c, inum, s, size)
      ensures !wild ==> LevelStep(old(St()), old(sh), sh, pred, az, ind, size, s)
      ensures BlockStep(old(St()), old(sh), St(), sh, pred, s, inum, size, az, head, wild)
    {
      hide Storage, Tree, AtEnd, NoSob, WithSob, WithChild, Linked, IsChain, IsSob, KindOk, All, Untouched, Allocated, InSlot, Descended, OwnerAt, Path, ClauseOk, LevelOf, Extended, AddBlocked, NearFailed, NearFits, Chosen, BlockStep, Recorded, InRecord, LevelStep, SameSobChains;
      AllocatedIs();
      PendingCells(St(), sh, Adding(pred, inum - 1, c, az), inum);
      s, wild := ChooseSob(az, pred, ind, size, c, inum - 1);
      AllocatedIs();
      if wild {
        BlockedWild(old(St()), old(sh), St(), sh, pred, s, inum, size, az, head);
        return;
      }
      ghost var st1, sh1 := St(), sh;
      WordsStay(old(cells), old(sh), cells, sh, c, inum, |index|);
      EnterRecord(az, pred, ind, size, hashval, s, c, inum, head);
      ExtendedTrans(old(sh), sh1, sh, az);
      RecordedTrans(old(St()), old(sh), st1, sh1, St(), sh);
      SobOwner(old(sh), pred);
      LevelStepOf(old(St()), old(sh), st1, sh1, sh, pred, az, ind, size, s);
      BlockedNext(old(St()), old(sh), st1, sh1, St(), sh, pred, s, inum, size, az, head);
      AllocatedIs();
    }

    /** the clause joins its bucket in record s */
    method EnterRecord(az: bool, pred: Loc, ind: nat, size: nat, hashval: nat, s: nat, c: nat, inum: nat, ghost head: seq<Sym>)
      requires Storage(St(), sh) && Allocated() && 1 <= inum && pred in sh.chains && AtEnd(sh, pred, az, s) && WordsFree(cells, sh, c, inum, |index|)
      requires Tree(St(), sh, Adding(pred, inum - 1, c, az), {pred, SubPred(s)})
      requires s in sobs && sobs[s].size == size && sobs[s].arg == ind && !sobs[s].failed && s in sh.level && sh.level[s] == inum
      requires c in heads && heads[c] == head && AddFits(sh, head, ind, size, hashval, inum)
      modifies this`cells, this`slots, this`sobs, this`sh
      ensures Allocated() && AddReady(St(), sh, az, SubPred(s), c, inum + 1)
      ensures (IsSob(sh, SubPred(s)) <==> inum < |sh.index|) && All(sh) == All(old(sh)) && Extended(old(sh), sh, az)
      ensures Recorded(old(St()), old(sh), St(), sh) && InRecord(St(), sh, c, inum, s, size)
      ensures SameSobChains(old(sh), sh) && sh.level == old(sh).level
      ensures AddBlocked(St(), sh, SubPred(s), inum + 1, size, az, head) == AddBlocked(old(St()), old(sh), SubPred(s), inum + 1, size, az, head)
    {
      hide Storage, Tree, AtEnd, Linked, IsChain, IsSob, KindOk, All, Untouched, Allocated, InSlot, Descended, Path, ClauseOk, LevelOf, Extended, AddBlocked, Recorded, InRecord, SameSobChains;
      AllocatedIs();
      ghost var st0, sh0, p := St(), sh, Adding(pred, inum - 1, c, az);
      SlotAllowed(st0, sh0, p, s, hashval, ind, size);
      AddToHashChain(az, hashval, s, IndCell(c, inum));
      ghost var sh1 := sh;
      DescendTree(st0, St(), sh0, p, s, hashval, {pred, SubPred(s)});
      sh := Descended(sh0, p, s, hashval);
      DescendStorage(St(), sh0, sh1, p, s, hashval);
      DescendSteps(st0, sh0, St(), sh, p, s, hashval, size, head);
      EnteredRecord(st0, sh0, St(), sh, p, s, hashval, size);
      UntouchedCells(st0.cells, cells, sh0.chains[Bucket(s, hashval)], IndCell(c, inum), st0, sh0, Bucket(s, hashval));
      WordsKept(old(cells), old(sh), cells, sh, c, inum, |index|);
      AllocatedIs();
    }

    /** space for a clause: its words are on no chain yet and say dynnoop */
    method MakeClRef(head: seq<Sym>) returns (c: nat)
      requires Valid() && HeadOk(index, head)
      modifies this`cells, this`heads, this`fresh_
      ensures c == old(fresh_) && c !in old(heads) && heads == old(heads)[c := head] && fresh_ == old(fresh_) + 1
      ensures Storage(St(), sh) && Allocated()
      ensures WordsFree(cells, sh, c, 1, |index|) && forall l :: IndCell(c, l) !in sh.home
      ensures forall x :: x in old(cells) && x in sh.home ==> x in cells && cells[x] == old(cells)[x]
    {
      hide Storage, Tree, HeadOk;
      ghost var st0 := St();
      c := fresh_;
      fresh_ := fresh_ + 1;
      HomeHeads(st0, sh, c);
      heads := heads[c := head];
      cells := cells[ClauseCell(c) := Cell(Dynnoop, Dynfail, Dynfail)];
      for i := 1 to |index| + 1
        modifies this`cells
        invariant ClauseCell(c) in cells
        invariant forall x :: x in st0.cells && x in sh.home ==> x in cells && cells[x] == st0.cells[x]
        invariant forall l :: 1 <= l < i ==> IndCell(c, l) in cells && cells[IndCell(c, l)].op == Dynnoop
      {
        cells := cells[IndCell(c, i) := Cell(Dynnoop, Dynfail, Dynfail)];
      }
      StorageCells(st0, St(), sh);
    }

    /** the end of db_addbuff_i: below the last record the clause joins the chain of all clauses */
    method LinkInAll(az: bool, c: nat, pred: Loc)
      requires Storage(St(), sh) && Allocated() && pred in sh.chains && !IsSob(sh, pred) && LevelOf(sh, pred) == |index|
      requires Tree(St(), sh, Adding(pred, |index|, c, az), {pred})
      requires WordsFree(cells, sh, c, |index| + 1, |index|)
      modifies this`cells, this`preds, this`slots, this`sobs, this`fresh_, this`sh
      ensures Valid() && Clauses() == All(old(sh)) && Extended(old(sh), sh, az) && Recorded(old(St()), old(sh), St(), sh)
      ensures SameOthers(old(sh), sh, pred)
    {
      hide SameOthers, Storage, Tree, Recorded, Extended, Linked, IsChain, IsSob, KindOk, All, Untouched, Allocated, SlotOf, HashVal, LevelOf, HeadOk;
      AllocatedIs();
      LeafFacts(St(), sh, Adding(pred, |index|, c, az));
      ghost var st1, sh1 := St(), sh;
      AddToAllChain(az, c, pred.sob);
      FinishTree(st1, sh1, Adding(pred, |index|, c, az), pred.sob);
      TreeOfStore(st1, St(), sh, Settled, {});
      FinishAll(sh1, sh, pred.sob, az, c);
      ExtendedLinked(sh1, sh, pred, az, ClauseCell(c));
      LinkedHome(sh1, pred, az, c);
      LinkedOthers(sh1, pred, az, ClauseCell(c));
      RecordedSame(st1, sh1, St(), sh);
      AllocatedIs();
    }

    /** assert: add a clause in front of (az false) or behind (az true) all others; wild tells that a failed record was
        in the way, whose words are not there any more */
    method DbAddBuffI(az: bool, head: seq<Sym>, hashTabSize: nat) returns (c: nat, wild: bool)
      requires Valid() && HeadOk(index, head)
      modifies this
      ensures wild <==> AddBlocked(old(St()), old(sh), Root, 1, FirstSize(old(St()), old(sh), az, hashTabSize), az, head)
      ensures !wild ==> Valid() && c !in old(heads) && heads == old(heads)[c := head] && Extended(old(sh), sh, az)
      ensures !wild ==> Clauses() == if az then old(Clauses()) + [c] else [c] + old(Clauses())
      ensures !wild ==> Recorded(old(St()), old(sh), St(), sh)
      ensures !wild ==> Sized(St(), sh, c, head, FirstSize(old(St()), old(sh), az, hashTabSize), |index|)
      ensures !wild ==> AllJoin(old(St()), old(sh), sh, c, head, FirstSize(old(St()), old(sh), az, hashTabSize), az, |index|)
    {
      hide AllJoin, Recorded, Sized, Storage, Tree, Linked, IsChain, IsSob, KindOk, All, Untouched, Allocated, SlotOf, HashVal, LevelOf, HeadOk, AddBlocked, BlockStep, Extended, FirstSize;
      AllocatedIs();
      ghost var st0, sh0 := St(), sh;
      RootFacts(st0, sh0);
      FirstSizeIs(st0, sh0, az, hashTabSize, head);
      c := MakeClRef(head);
      AllocatedIs();
      RootFacts(St(), sh);
      var isEmpty := preds[Root].op == Fail;
      var rec := if isEmpty then SobRec(0, 1, 0, false) else sobs[(if az then preds[Root].last else preds[Root].first).sob];
      if rec.failed { return c, true; }
      var thisTabSize := HashResize(isEmpty, rec.size, rec.count, hashTabSize);
      StartAdding(st0, sh0, c, head, az);
      sh := sh.(under := sh.under[Root := Add(az, All(sh), c)]);
      StartStorage(st0, St(), sh0, sh, c, head, az);
      BlockedSame(st0, sh0, St(), sh, Root, 1, thisTabSize, az, head);
      ExtendedSame(sh0, sh, az);
      AllocatedIs();
      ghost var st1, sh1 := St(), sh;
      wild := AddLevels(az, head, c, thisTabSize);
      if !wild {
        ExtendedTrans(sh0, sh1, sh, az);
        RecordedSame(st0, sh0, st1, sh1);
        RecordedTrans(st0, sh0, st1, sh1, St(), sh);
        AllJoinSame(st0, sh0, st1, sh1, sh, c, head, thisTabSize, az, |index|);
      }
    }

    /** the levels of db_addbuff_i, from the predicate down */
    method AddLevels(az: bool, head: seq<Sym>, c: nat, hashTabSize: nat) returns (wild: bool)
      requires Allocated() && AddReady(St(), sh, az, Root, c, 1) && IsSob(sh, Root) && hashTabSize > 0
      requires c in heads && heads[c] == head && HeadOk(index, head)
      modifies this`cells, this`preds, this`slots, this`sobs, this`fresh_, this`sh
      ensures wild <==> AddBlocked(old(St()), old(sh), Root, 1, hashTabSize, az, head)
      ensures !wild ==> Valid() && Clauses() == All(old(sh)) && Extended(old(sh), sh, az)
      ensures !wild ==> Recorded(old(St()), old(sh), St(), sh) && Sized(St(), sh, c, head, hashTabSize, |index|)
      ensures !wild ==> AllJoin(old(St()), old(sh), sh, c, head, hashTabSize, az, |index|)
    {
      hide AllJoin, Below, LevelStep, SameOthers, Recorded, Sized, InRecord, SizeAt, Storage, Tree, Linked, IsChain, IsSob, KindOk, All, Untouched, Allocated, SlotOf, HashVal, LevelOf, HeadOk, AddBlocked, BlockStep, Extended, AddReady;
      ghost var st0, sh0 := St(), sh;
      var thisTabSize := hashTabSize;
      AllocatedIs();
      AddReadyIs(st0, sh0, az, Root, c, 1);
      RootFacts(st0, sh0);
      ExtendedSame(sh0, sh, az);
      RecordedSame(st0, sh0, St(), sh);
      SizedNone(st0, sh0, c, head, hashTabSize);
      BelowRoot(st0, sh0, sh, c, head, hashTabSize, az);
      var pred := Root;
      var inum := 1;
      while inum <= |index|
        invariant 1 <= inum <= |index| + 1 && thisTabSize > 0
        invariant Allocated() && AddReady(St(), sh, az, pred, c, inum)
        invariant IsSob(sh, pred) <==> inum <= |index|
        invariant All(sh) == All(sh0) && Extended(sh0, sh, az) && Recorded(st0, sh0, St(), sh)
        invariant Below(st0, sh0, sh, c, pred, inum - 1) && AllJoin(st0, sh0, sh, c, head, hashTabSize, az, inum - 1)
        invariant Sized(St(), sh, c, head, hashTabSize, inum - 1) && thisTabSize == SizeAt(index, head, hashTabSize, inum - 1)
        invariant AddBlocked(St(), sh, pred, inum, thisTabSize, az, head) <==> AddBlocked(st0, sh0, Root, 1, hashTabSize, az, head)
      {
        HeadAt(index, head, inum - 1);
        var ind := index[inum - 1];
        SlotIs(ind, head, thisTabSize);
        SizeNext(index, head, hashTabSize, inum);
        AllocatedIs();
        var hashval := HashVal(ind, head, thisTabSize);
        if hashval == -1 {
          BlockedSize(St(), sh, pred, inum, thisTabSize, az, head);
          hashval := 0;
          thisTabSize := 1;
        }
        ghost var sti, shi := St(), sh;
        var s;
        s, wild := AddAtLevel(az, pred, ind, thisTabSize, hashval, c, inum, head);
        BlockStepIs(sti, shi, St(), sh, pred, s, inum, thisTabSize, az, head, wild);
        if wild { return; }
        ExtendedTrans(sh0, shi, sh, az);
        AllocatedIs();
        AddReadyIs(sti, shi, az, pred, c, inum);
        AddReadyIs(St(), sh, az, SubPred(s), c, inum + 1);
        JoinNext(st0, sh0, sti, shi, St(), sh, c, head, hashTabSize, az, pred, inum - 1, s);
        RecordedTrans(st0, sh0, sti, shi, St(), sh);
        SizedMore(sti, shi, St(), sh, az, c, head, hashTabSize, inum - 1, s);
        pred := SubPred(s);
        inum := inum + 1;
      }
      AllocatedIs();
      AddReadyIs(St(), sh, az, pred, c, inum);
      BlockedEnd(St(), sh, pred, inum, thisTabSize, az, head);
      ghost var sti, shi := St(), sh;
      LinkInAll(az, c, pred);
      ExtendedTrans(sh0, shi, sh, az);
      RecordedTrans(st0, sh0, sti, shi, St(), sh);
      AllocatedIs();
      JoinsAbove(st0, sh0, sti, shi, sh, c, head, hashTabSize, az, pred, |index|);
      SizedKept(sti, shi, St(), sh, az, c, head, hashTabSize, |index|);
      wild := false;
    }

    /** determine_if_sob_safe_to_delete; marked are the clauses and records that choice points rest on */
    method SobSafeToDelete(s: nat, marked: set<Loc>) returns (safe: bool)
      requires Storage(St(), sh) && SobCell(s) in sh.home
      ensures safe <==> SobCell(s) !in marked && SobSafe(sh, marked, s)
    {
      hide Storage, SobSafe;
      if SobCell(s) in marked { return false; }
      OpeningRecord(St(), sh, s, marked);
      var op := cells[SobCell(s)].op;
      return !((op == Trymeelse || op == Dyntrymeelse) && cells[SobCell(s)].next in marked);
    }

    /** one level of really_delete_clause: leave the bucket, and drop the record when it empties, or let it fail
        when a choice point needs it */
    method RemoveAtLevel(c: nat, i: nat, marked: set<Loc>, ghost f: Loc)
      requires Storage(St(), sh) && Allocated() && 1 <= i <= |index|
      requires Tree(St(), sh, Removing(f, i, c), {f})
      modifies this`cells, this`preds, this`slots, this`sobs, this`sh
      ensures Storage(St(), sh) && Allocated() && All(sh) == All(old(sh))
      ensures exists g :: g == OwnerAt(old(sh), c, i - 1) && Tree(St(), sh, Removing(g, i - 1, c), {g})
      ensures Shrunk(old(sh), sh) && UpperKept(old(sh), sh, i - 1) && GoneAt(old(sh), sh, i)
      ensures FailedStay(old(St()), St()) && sobs.Keys == old(sobs.Keys) && Dropped(old(St()), old(sh), sh, marked)
      ensures FailedRightly(old(St()), old(sh), St(), sh, marked) && FailedAt(old(St()), old(sh), St(), sh, i)
    {
      hide Storage, Tree, Unlinked, IsChain, IsSob, KindOk, All, Untouched, Allocated, Ascended, OwnerAt, Path, ClauseOk, Without, Item, UnderOk, SobTree, Shrunk, UpperKept, GoneAt, FailedStay, Dropped, SobSafe, LevelOf, FailedRightly, FailedAt;
      ghost var st0, sh0, p := St(), sh, Removing(f, i, c);
      AllocatedIs();
      ghost var s, h, k := LevelFacts(st0, sh0, p);
      var pi := IndCell(c, i);
      LevelAbove(st0, sh0, OwnerAt(sh0, c, i - 1), s, h, pi);
      var sob := if cells[pi].op == Dynnoop then cells[pi].next else Dynfail;
      DeleteFromHashChain(pi, sob, s, h, k);
      ghost var sh1, q := sh, Removing(OwnerAt(sh0, c, i - 1), i - 1, c);
      AscendTree(st0, St(), sh0, p, s, h, k);
      sh := Ascended(sh0, c, s, h, k);
      AscendStorage(St(), sh0, sh1, p, s, h, k);
      ShrunkUnlinked(st0, sh0, sh, Bucket(s, h), k);
      ghost var st2, sh2 := St(), sh;
      AscendSteps(st0, sh0, st2, sh2, p, s, h, k, marked);
      AllocatedIs();
      EmptyFacts(St(), sh, q, s);
      if sob != Dynfail && sobs[sob.sob].count == 0 {
        var safe := SobSafeToDelete(sob.sob, marked);
        sobs := sobs[sob.sob := sobs[sob.sob].(failed := true)];
        assert St() == Flagged(st2, s);
        FlagTree(st2, sh2, q, s);
        FlagStorage(st2, sh2, s);
        AllocatedIs();
        if safe {
          DropSob(sob.sob, c, i - 1, q.at);
        } else {
          ShrunkSame(St(), sh, sh);
        }
        DropSteps(st0, sh0, st2, sh2, St(), sh, q.at, s, i, marked);
      } else {
        SpareNone(St(), sh, q, s);
      }
    }

    /** unlink an emptied record and give it back: what is left of its words is not read any more */
    method DropSob(s: nat, ghost c: nat, ghost d: nat, ghost f: Loc)
      requires Storage(St(), sh) && Allocated() && s in sobs && sobs[s].failed
      requires Tree(St(), sh, Removing(f, d, c), {f}) && SubPred(s) in sh.under && sh.under[SubPred(s)] == []
      requires f in sh.chains && SobCell(s) in sh.chains[f]
      modifies this`cells, this`preds, this`sh
      ensures Storage(St(), sh) && Allocated() && All(sh) == All(old(sh))
      ensures Tree(St(), sh, Removing(f, d, c), {f})
      ensures Shrunk(old(sh), sh) && sh.home == old(sh).home - {SobCell(s)}
      ensures forall o :: o in old(sh).chains && o != f ==> o in sh.chains && sh.chains[o] == old(sh).chains[o]
    {
      hide Storage, Tree, Unlinked, IsChain, IsSob, KindOk, All, Untouched, Allocated, OwnerAt, Path, ClauseOk, Without, SobTree, Shrunk;
      AllocatedIs();
      ghost var st0, sh0, p := St(), sh, Removing(f, d, c);
      ghost var k :| 0 <= k < |sh.chains[f]| && sh.chains[f][k] == SobCell(s);
      ChildFacts(st0, sh0, f, s);
      DeleteFromSobChain(s, f, k);
      UnchainTree(st0, sh0, p, s, f, k);
      TreeOfStore(st0, St(), sh, p, {f});
      UnlinkedIs(sh0, f, k);
      ShrunkUnlinked(st0, sh0, sh, f, k);
      ghost var st1 := St();
      cells := cells - {SobCell(s)};
      StorageCells(st1, St(), sh);
      TreeOfStore(st1, St(), sh, p, {f});
      AllocatedIs();
    }

    /** physically delete a clause */
    method ReallyDeleteClause(c: nat, marked: set<Loc>)
      requires Valid() && c in heads
      modifies this
      ensures Valid() && heads == old(heads) - {c}
      ensures Clauses() == Without(old(Clauses()), c)
      ensures Shrunk(old(sh), sh) && Dropped(old(St()), old(sh), sh, marked) && FailedRightly(old(St()), old(sh), St(), sh, marked)
      ensures FailedStay(old(St()), St())
    {
      hide Shrunk, Storage, Tree, Unlinked, IsChain, IsSob, KindOk, All, Untouched, Allocated, OwnerAt, Path, ClauseOk, Without, UpperKept, GoneAt, FailedStay, Dropped, SobSafe, LevelOf, FailedRightly, FailedAt;
      AllocatedIs();
      ghost var st0, sh0 := St(), sh;
      ghost var s, k := LeafPlace(st0, sh0, c);
      DeleteFromAllChain(c, s, k);
      StartRemoving(st0, sh0, c, s, k);
      ghost var f := SubPred(s);
      TreeOfStore(st0, St(), sh, Removing(f, sh0.Depth(), c), {f});
      UnlinkedIs(sh0, f, k);
      ShrunkUnlinked(st0, sh0, sh, f, k);
      StartSteps(st0, sh0, St(), sh, s, k, marked);
      AllocatedIs();
      var i := |index|;
      while i >= 1
        invariant 0 <= i <= |index|
        invariant Storage(St(), sh) && Allocated() && heads == old(heads) && All(sh) == All(sh0)
        invariant Tree(St(), sh, Removing(f, i, c), {f})
        invariant Shrunk(sh0, sh) && UpperKept(sh0, sh, i)
        invariant FailedStay(st0, St()) && sobs.Keys == st0.sobs.Keys && Dropped(st0, sh0, sh, marked)
        invariant FailedRightly(st0, sh0, St(), sh, marked)
        modifies this`cells, this`preds, this`slots, this`sobs, this`sh
      {
        ghost var g, sti, shi := OwnerAt(sh, c, i - 1), St(), sh;
        RemoveAtLevel(c, i, marked, f);
        LoopSteps(st0, sh0, sti, shi, St(), sh, i, marked);
        f := g;
        i := i - 1;
      }
      AllocatedIs();
      ghost var p := Removing(f, 0, c);
      ghost var st1, sh1 := St(), sh;
      FinishRemoving(st1, sh1, p);
      sh := sh.(under := sh.under[Root := Without(All(sh), c)]);
      heads := heads - {c};
      cells := map x | x in cells && !((x.ClauseCell? || x.IndCell?) && x.clause == c) :: cells[x];
      StorageUnder(st1, sh1, sh.under);
      ShrunkSame(st1, sh1, sh);
      ShrunkTrans(sh0, sh1, sh);
      DroppedSame(st0, sh0, st1, sh1, St(), sh, marked);
      StaySame(st0, st1, St());
      StorageCells(st1, St(), sh);
      TreeOfStore(st1.(heads := st1.heads - {c}), St(), sh, Settled, {});
      AllIs(sh);
      AllocatedIs();
    }

    lemma AllocatedIs()
      ensures Allocated() <==> (sh.index == index && (forall s :: s in sobs ==> s < fresh_) && (forall c :: c in heads ==> c < fresh_))
    {
    }
  }

  /** some primes for hash table sizes */
  const HASH_SIZES: seq<nat> := [17, 389, 6151, 49157, 196613, 393241, 786433, 1572869,
                                 3145739, 6291469, 12582917, 25165843, 50331653, 50331653, 50331653, 50331653]

  /** A table size big enough: larger than least, or equal to it unless strict. */
  predicate BigEnough(size: nat, least: nat, strict: bool) {
    size > least || (!strict && size == least)
  }

  /** First table size that passes the test, or the last one. */
  function PickSize(i: nat, least: nat, strict: bool): (r: nat)
    requires i < |HASH_SIZES|
    ensures r in HASH_SIZES && r > 0
    ensures BigEnough(r, least, strict) || r == HASH_SIZES[|HASH_SIZES| - 1]
    ensures forall j :: i <= j < |HASH_SIZES| && BigEnough(HASH_SIZES[j], least, strict) ==> r <= HASH_SIZES[j]
    decreases |HASH_SIZES| - i
  {
    if HASH_SIZES[i] > least || (!strict && HASH_SIZES[i] == least) || i == |HASH_SIZES| - 1 then HASH_SIZES[i]
    else PickSize(i + 1, least, strict)
  }

  /** the words of clause c for the levels from i to n are on no chain and say dynnoop */
  ghost predicate WordsFree(cells: Mem, sh: Shape, c: nat, i: nat, n: nat) {
    && ClauseCell(c) in cells && ClauseCell(c) !in sh.home
    && forall l :: i <= l <= n ==> IndCell(c, l) in cells && IndCell(c, l) !in sh.home && cells[IndCell(c, l)].op == Dynnoop
  }

  /** The clause c waits below pred for its word at level l. */
  ghost predicate AddReady(st: Store, sh: Shape, az: bool, pred: Loc, c: nat, l: nat) {
    && Storage(st, sh) && pred in sh.chains && 1 <= l && LevelOf(sh, pred) == l - 1
    && Tree(st, sh, Adding(pred, l - 1, c, az), {pred}) && WordsFree(st.cells, sh, c, l, |sh.index|)
  }

  /** The argument ind of the clause hashes to the given slot at level l. */
  predicate AddFits(sh: Shape, head: seq<Sym>, ind: nat, size: nat, hashval: nat, l: nat) {
    && 1 <= l <= |sh.index| && ind == sh.index[l - 1] && ind < |head| && size > 0
    && hashval == SlotOf(ind, head, size) && (head[ind].Var? ==> size == 1)
  }

  /** Words of clauses that are on no chain are on none afterwards and are the same. */
  ghost predicate OtherWords(cells: Mem, sh: Shape, cells1: Mem, sh1: Shape) {
    forall x :: x in cells && !x.SobCell? ==> x in cells1 && (x !in sh.home ==> x !in sh1.home && cells1[x] == cells[x])
  }

  lemma SameWords(cells: Mem, sh: Shape)
    ensures OtherWords(cells, sh, cells, sh)
  {
  }

  lemma LevelKeys(st: Store, sh: Shape)
    requires Storage(st, sh)
    ensures sh.level.Keys == st.sobs.Keys
  {
  }

  lemma NewSobHome(sh0: Shape, sh1: Shape, sh2: Shape, s: nat, size: nat, lvl: nat, o: Loc, az: bool)
    requires NoSob(sh0, s) && sh1 == WithSob(sh0, s, size, lvl) && o in sh1.chains && sh2 == Linked(sh1, o, az, SobCell(s))
    ensures sh2.home == sh0.home[SobCell(s) := o]
  {
    hide WithSob;
    WithSobIs(sh0, s, size, lvl);
  }

  lemma SobOwner(sh: Shape, o: Loc)
    requires IsSob(sh, o)
    ensures !o.Bucket?
  {
  }

  lemma LinkedOthers(sh: Shape, o: Loc, az: bool, x: Loc)
    requires o in sh.chains
    ensures SameOthers(sh, Linked(sh, o, az, x), o)
  {
  }

  lemma LinkedHome(sh: Shape, o: Loc, az: bool, c: nat)
    requires o in sh.chains
    ensures forall s :: SobCell(s) in Linked(sh, o, az, ClauseCell(c)).home ==> SobCell(s) in sh.home
  {
  }

  /** The clause stands in record s, and the other records are as they were. */
  lemma EnteredRecord(st0: Store, sh0: Shape, st1: Store, sh1: Shape, p: Pend, s: nat, h: nat, size: nat)
    requires p.Adding? && Bucket(s, h) in sh0.chains && SubPred(s) in sh0.under && sh1 == Descended(sh0, p, s, h)
    requires SobsStep(st0.sobs, st1.sobs, Bucket(s, h), 0) || SobsStep(st0.sobs, st1.sobs, Bucket(s, h), 1)
    requires s in st0.sobs && st0.sobs[s].size == size
    ensures Recorded(st0, sh0, st1, sh1) && InRecord(st1, sh1, p.clause, p.depth + 1, s, size)
    ensures SameSobChains(sh0, sh1) && sh1.level == sh0.level
  {
    hide Recorded;
    DescendedIs(sh0, p, s, h);
    RecordedStep(st0, sh0, st1, sh1, Bucket(s, h));
  }

  lemma SizedNone(st: Store, sh: Shape, c: nat, head: seq<Sym>, size: nat)
    ensures Sized(st, sh, c, head, size, 0) && SizeAt(sh.index, head, size, 0) == size
  {
  }

  lemma SizeNext(index: seq<nat>, head: seq<Sym>, size: nat, l: nat)
    requires 1 <= l <= |index| && index[l - 1] < |head|
    ensures SizeAt(index, head, size, l) == if head[index[l - 1]].Var? then 1 else SizeAt(index, head, size, l - 1)
  {
  }

  lemma NewWords(m0: Mem, sh0: Shape, m1: Mem, m2: Mem, sh2: Shape, s: nat, o: Loc)
    requires forall x :: x in m0 && x != SobCell(s) ==> x in m1 && m1[x] == m0[x]
    requires forall x :: x in m1 ==> x in m2 && (x !in sh0.home && x != SobCell(s) ==> m2[x] == m1[x])
    requires sh2.home == sh0.home[SobCell(s) := o]
    ensures OtherWords(m0, sh0, m2, sh2)
  {
  }

  lemma WordsStay(cells: Mem, sh: Shape, cells1: Mem, sh1: Shape, c: nat, i: nat, n: nat)
    requires WordsFree(cells, sh, c, i, n)
    requires OtherWords(cells, sh, cells1, sh1)
    ensures WordsFree(cells1, sh1, c, i, n)
  {
  }

  lemma AddReadyIs(st: Store, sh: Shape, az: bool, pred: Loc, c: nat, l: nat)
    ensures AddReady(st, sh, az, pred, c, l) <==>
      && Storage(st, sh) && pred in sh.chains && 1 <= l && LevelOf(sh, pred) == l - 1
      && Tree(st, sh, Adding(pred, l - 1, c, az), {pred}) && WordsFree(st.cells, sh, c, l, |sh.index|)
  {
  }

  lemma WordsKept(cells: Mem, sh: Shape, cells1: Mem, sh1: Shape, c: nat, i: nat, n: nat)
    requires WordsFree(cells, sh, c, i, n)
    requires forall x :: x in cells && !x.SobCell? && x != IndCell(c, i) ==> x in cells1 && (x !in sh.home ==> x !in sh1.home && cells1[x] == cells[x])
    ensures WordsFree(cells1, sh1, c, i + 1, n)
  {
  }

  /** Table size for the next clause: tables are never rehashed, a bigger one is started
      beside a record whose buckets are three quarters full. */
  function HashResize(isEmpty: bool, sobSize: nat, sobCount: int, oldTabSize: nat): (r: nat)
    requires !isEmpty ==> sobSize > 0
    ensures r > 0
    ensures !isEmpty && sobCount <= sobSize / 4 * 3 ==> r == if sobSize >= oldTabSize then sobSize else oldTabSize
    ensures !isEmpty && sobCount > sobSize / 4 * 3 ==> exists n: nat :: NextSize(n, sobSize) && r == if n >= oldTabSize then n else oldTabSize
    ensures isEmpty ==> FirstSizeOf(r, oldTabSize)
  {
    if !isEmpty then
      var size := if sobCount > sobSize / 4 * 3
                  then (if sobSize >= HASH_SIZES[|HASH_SIZES| - 1] then sobSize + 2 else PickSize(0, sobSize, true))
                  else sobSize;
      assert sobCount > sobSize / 4 * 3 ==> NextSize(size, sobSize);
      if size > oldTabSize then size else oldTabSize
    else PickSize(0, oldTabSize, false)
  }

  /** n is the least size in the table that is larger, or two more when there is none. */
  predicate NextSize(n: nat, size: nat) {
    if size >= HASH_SIZES[|HASH_SIZES| - 1] then n == size + 2
    else n in HASH_SIZES && n > size && forall j :: 0 <= j < |HASH_SIZES| && HASH_SIZES[j] > size ==> n <= HASH_SIZES[j]
  }

  /** n is the least size in the table that is not smaller, or the last one. */
  predicate FirstSizeOf(n: nat, size: nat) {
    if size > HASH_SIZES[|HASH_SIZES| - 1] then n == HASH_SIZES[|HASH_SIZES| - 1]
    else n in HASH_SIZES && n >= size && forall j :: 0 <= j < |HASH_SIZES| && HASH_SIZES[j] >= size ==> n <= HASH_SIZES[j]
  }

  /** Three quarters of 17, rounded as the code rounds, are 12. */
  lemma SmallTables(old_: nat)
    requires old_ <= 17
    ensures HashResize(true, 0, 0, old_) == 17 && HashResize(false, 17, 12, old_) == 17 && HashResize(false, 17, 13, old_) == 389
    ensures HashResize(false, 50331653, 37748740, old_) == 50331655
  {
  }

  /** The table size with which an assert begins. */
  ghost function FirstSize(st: Store, sh: Shape, az: bool, hashTabSize: nat): (z: nat)
    ensures z > 0
  {
    if Root in sh.chains && sh.chains[Root] != [] && NearOk(st, sh, Root, az) then
      var r := st.sobs[Near(sh, Root, az)];
      HashResize(false, if r.size > 0 then r.size else 1, r.count, hashTabSize)
    else HashResize(true, 1, 0, hashTabSize)
  }

  lemma FirstSizeIs(st: Store, sh: Shape, az: bool, hashTabSize: nat, head: seq<Sym>)
    requires Storage(st, sh) && HeadOk(sh.index, head)
    ensures Root in st.preds
    ensures st.preds[Root].op == Fail ==> FirstSize(st, sh, az, hashTabSize) == HashResize(true, 1, 0, hashTabSize)
    ensures st.preds[Root].op != Fail ==>
      var e := if az then st.preds[Root].last else st.preds[Root].first;
      && e.SobCell? && e.sob in st.sobs && st.sobs[e.sob].size > 0
      && FirstSize(st, sh, az, hashTabSize) == HashResize(false, st.sobs[e.sob].size, st.sobs[e.sob].count, hashTabSize)
      && (st.sobs[e.sob].failed ==> AddBlocked(st, sh, Root, 1, FirstSize(st, sh, az, hashTabSize), az, head))
  {
    hide IsChain, HomeOk, SobOk, HashResize;
    RootFacts(st, sh);
    EndChild(st, sh, Root, 0);
    NearIs(st, sh, Root, az, 0);
  }

  /** Where an assert puts the clause at the first level. With a variable there it joins the record at the near end if
      that has one slot. Otherwise it joins it if at most three quarters of the buckets are used and no bigger table is
      wished for, and starts a bigger one if not. */
  lemma FirstLevel(st: Store, sh: Shape, sh1: Shape, c: nat, head: seq<Sym>, az: bool, hashTabSize: nat)
    requires Storage(st, sh) && HeadOk(sh.index, head) && Root in sh.chains && sh.chains[Root] != []
    requires AllJoin(st, sh, sh1, c, head, FirstSize(st, sh, az, hashTabSize), az, |sh.index|)
    ensures Near(sh, Root, az) in st.sobs && sh.Depth() > 0 && Root in sh1.chains
    ensures var r := st.sobs[Near(sh, Root, az)];
      var fits := if head[sh.index[0]].Var? then r.size == 1 else r.count <= r.size / 4 * 3 && hashTabSize <= r.size;
      if fits then SobAt(sh1, c, 1) == Near(sh, Root, az) && sh1.chains[Root] == sh.chains[Root]
      else SobAt(sh1, c, 1) !in st.sobs && sh1.chains[Root] == Add(az, sh.chains[Root], SobCell(SobAt(sh1, c, 1)))
    ensures var r, z := st.sobs[Near(sh, Root, az)], FirstSize(st, sh, az, hashTabSize);
      && (r.count <= r.size / 4 * 3 ==> z == if r.size >= hashTabSize then r.size else hashTabSize)
      && (r.count > r.size / 4 * 3 ==> z > r.size && exists n: nat :: NextSize(n, r.size) && z == if n >= hashTabSize then n else hashTabSize)
  {
    hide Storage, HashResize, SobAt, NextSize;
    RootFacts(st, sh);
    NearHere(st, sh, Root, az, 0);
    NearArg(st, sh, az);
    var r, z := st.sobs[Near(sh, Root, az)], FirstSize(st, sh, az, hashTabSize);
    FirstSizeOfNear(st, sh, az, hashTabSize);
    SizeNext(sh.index, head, z, 1);
    SizedNone(st, sh, c, head, z);
    assert Joins(st, sh, sh1, az, OwnerAt(sh1, c, 0), SobAt(sh1, c, 1), sh.index[0], SizeAt(sh.index, head, z, 1));
  }

  lemma FirstSizeOfNear(st: Store, sh: Shape, az: bool, hashTabSize: nat)
    requires Root in sh.chains && sh.chains[Root] != [] && Near(sh, Root, az) in st.sobs && st.sobs[Near(sh, Root, az)].size > 0
    ensures var r, z := st.sobs[Near(sh, Root, az)], FirstSize(st, sh, az, hashTabSize);
      && (r.count <= r.size / 4 * 3 ==> z == if r.size >= hashTabSize then r.size else hashTabSize)
      && (r.count > r.size / 4 * 3 ==> z > r.size && exists n: nat :: NextSize(n, r.size) && z == if n >= hashTabSize then n else hashTabSize)
  {
    hide PickSize;
  }

  lemma NearArg(st: Store, sh: Shape, az: bool)
    requires Storage(st, sh) && Root in sh.chains && sh.chains[Root] != [] && Near(sh, Root, az) in st.sobs
    ensures LevelOf(sh, SubPred(Near(sh, Root, az))) == 1 ==> st.sobs[Near(sh, Root, az)].arg == sh.index[0] && st.sobs[Near(sh, Root, az)].size > 0
  {
    hide Storage;
    SobPositive(st, sh, Near(sh, Root, az));
  }
}
