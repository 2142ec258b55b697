/** What a resumed call enters: of a record at the level of its index only the bucket of its own key. */
module RetractCalls {
  import opened Chains
  import opened IndexShape
  import opened IndexTree
  import opened IndexOrder
  import opened IndexChange
  import opened IndexSmooth
  import opened RetractSafety

  /** The clauses that a call with the given key enters through the cells xs, of which records are at level l; its
      index is the one at level kl, 0 if it has none. */
  ghost function Entered(st: Store, sh: Shape, key: Key, kl: nat, xs: seq<Loc>, l: nat): seq<nat>
    decreases WalkLevel(sh, kl) - l, |xs|, 1
  {
    if xs == [] then [] else EnteredAt(st, sh, key, kl, xs[0], l) + Entered(st, sh, key, kl, xs[1..], l)
  }

  ghost function EnteredAt(st: Store, sh: Shape, key: Key, kl: nat, x: Loc, l: nat): seq<nat>
    decreases WalkLevel(sh, kl) - l, 0
  {
    match x
    case SobCell(s) =>
      if l < WalkLevel(sh, kl) then (if SubPred(s) in sh.chains then Entered(st, sh, key, kl, sh.chains[SubPred(s)], l + 1) else [])
      else if kl == 0 then Item(x, sh.under)
      else EnteredBucket(st, sh, key, kl, s)
    case ClauseCell(c) => [c]
    case IndCell(c, _) => [c]
    case _ => []
  }

  /** The bucket of the key. */
  ghost function EnteredBucket(st: Store, sh: Shape, key: Key, kl: nat, s: nat): seq<nat> {
    if 0 < kl <= sh.Depth() && s in st.sobs && st.sobs[s].size > 0 && key.Head? && sh.index[kl - 1] < |key.args| then
      var b := Bucket(s, SlotOf(sh.index[kl - 1], key.args, st.sobs[s].size));
      if b in sh.chains then Ids(sh.chains[b]) else []
    else []
  }

  /** A cell that a choice point of the call may come to: a record no deeper than its index, a word of its bucket, or
      without an index a clause. */
  ghost predicate OfCall(st: Store, sh: Shape, key: Key, kl: nat, x: Loc, l: nat) {
    match x
    case SobCell(s) => SobCell(s) in sh.home && s in sh.level && sh.level[s] == l <= WalkLevel(sh, kl)
    case ClauseCell(c) => kl == 0
    case IndCell(c, i) => Matches(st, sh, key, kl, c)
    case _ => false
  }

  /** Whoever resumes the call enters the candidates among the clauses that the cells stand for. */
  lemma {:induction false} EnteredIs(st: Store, sh: Shape, key: Key, kl: nat, xs: seq<Loc>, l: nat)
    requires Storage(st, sh) && Tree(st, sh, Settled, {}) && KeyOk(sh.index, key) && kl == Usable(sh.index, key, 0)
    requires forall x :: x in xs ==> OfCall(st, sh, key, kl, x, l)
    ensures Entered(st, sh, key, kl, xs, l) == Cands(st, sh, key, kl, Tried(sh, xs))
    decreases WalkLevel(sh, kl) - l, |xs|, 1
  {
    hide Storage, Tree, Cands, OfCall, EnteredAt, TriedAt;
    if xs == [] {
      CandsEmpty(st, sh, key, kl);
    } else {
      EnteredAtIs(st, sh, key, kl, xs[0], l);
      EnteredIs(st, sh, key, kl, xs[1..], l);
      CandsConcat(st, sh, key, kl, TriedAt(sh, xs[0]), Tried(sh, xs[1..]));
    }
  }

  lemma CandsEmpty(st: Store, sh: Shape, key: Key, kl: nat)
    ensures Cands(st, sh, key, kl, []) == []
  {
  }

  lemma {:induction false} EnteredAtIs(st: Store, sh: Shape, key: Key, kl: nat, x: Loc, l: nat)
    requires Storage(st, sh) && Tree(st, sh, Settled, {}) && KeyOk(sh.index, key) && kl == Usable(sh.index, key, 0)
    requires OfCall(st, sh, key, kl, x, l)
    ensures EnteredAt(st, sh, key, kl, x, l) == Cands(st, sh, key, kl, TriedAt(sh, x))
    decreases WalkLevel(sh, kl) - l, 0
  {
    hide Storage, Tree, Cands, Entered, Matches, Ids, KindOk, SlotOf;
    match x {
      case SobCell(s) =>
        RecordHere(st, sh, s);
        if l < WalkLevel(sh, kl) {
          ChildrenOf(st, sh, key, kl, s, l);
          EnteredIs(st, sh, key, kl, sh.chains[SubPred(s)], l + 1);
          ChildrenTried(st, sh, s);
        } else if kl == 0 {
          CandsAll(st, sh, key, Item(x, sh.under));
        } else {
          BucketIsCands(st, sh, key, s, SlotOf(sh.index[kl - 1], key.args, st.sobs[s].size));
        }
      case ClauseCell(c) => CandsAll(st, sh, key, [c]);
      case IndCell(c, _) => OneCand(st, sh, key, kl, c);
      case _ =>
    }
  }

  lemma OneCand(st: Store, sh: Shape, key: Key, kl: nat, c: nat)
    requires Matches(st, sh, key, kl, c)
    ensures Cands(st, sh, key, kl, [c]) == [c]
  {
    hide Matches;
    CandsEmpty(st, sh, key, kl);
    assert [c][1..] == [];
  }

  lemma RecordHere(st: Store, sh: Shape, s: nat)
    requires Storage(st, sh) && Tree(st, sh, Settled, {}) && SobCell(s) in sh.home
    ensures s in st.sobs && st.sobs[s].size > 0 && s in sh.level && 1 <= sh.level[s] <= sh.Depth()
    ensures SubPred(s) in sh.chains && SubPred(s) in sh.under
  {
    hide Storage, Tree;
    ChainedSob(st, sh, s);
    SobPositive(st, sh, s);
    FailedEmpty(st, sh, s);
  }

  /** The records below one above the last level. */
  lemma ChildrenOf(st: Store, sh: Shape, key: Key, kl: nat, s: nat, l: nat)
    requires Storage(st, sh) && s in st.sobs && s in sh.level && sh.level[s] == l < WalkLevel(sh, kl) <= sh.Depth() && SubPred(s) in sh.chains
    ensures forall x :: x in sh.chains[SubPred(s)] ==> OfCall(st, sh, key, kl, x, l + 1)
  {
    hide Storage;
    EndChild(st, sh, SubPred(s), l);
    forall x | x in sh.chains[SubPred(s)] ensures OfCall(st, sh, key, kl, x, l + 1) { ChildFacts(st, sh, SubPred(s), x.sob); }
  }

  lemma ChildrenTried(st: Store, sh: Shape, s: nat)
    requires Storage(st, sh) && Tree(st, sh, Settled, {}) && s in st.sobs && SubPred(s) in sh.chains
    requires s in sh.level && sh.level[s] < sh.Depth()
    ensures SubPred(s) in sh.under && Tried(sh, sh.chains[SubPred(s)]) == sh.under[SubPred(s)]
  {
    hide Storage, Tree;
    UnderSettled(st, sh, SubPred(s));
    EndChild(st, sh, SubPred(s), sh.level[s]);
    RecordsTried(sh, sh.chains[SubPred(s)]);
  }

  lemma {:induction false} RecordsTried(sh: Shape, xs: seq<Loc>)
    requires forall x :: x in xs ==> x.SobCell?
    ensures Tried(sh, xs) == Flat(xs, sh.under)
  {
    if xs != [] { RecordsTried(sh, xs[1..]); }
  }

  // ---- after a deletion ------------------------------------------------------------------------------

  /** A resumed call enters after a deletion what it would have entered, in the same order, without the deleted clause. */
  lemma CallKept(st0: Store, sh0: Shape, st1: Store, sh1: Shape, c: nat, x: Loc, key: Key, l: nat)
    requires Deleted(st0, sh0, st1, sh1, c) && FailedStay(st0, st1) && Resumable(sh0, x) && Resumable(sh1, x)
    requires Rest(sh1, x) == Kept(Rest(sh0, x), sh1.home) && Tried(sh1, Rest(sh1, x)) == Without(Tried(sh0, Rest(sh0, x)), c)
    requires KeyOk(sh0.index, key) && forall y :: y in Rest(sh0, x) ==> OfCall(st0, sh0, key, Usable(sh0.index, key, 0), y, l)
    ensures var kl := Usable(sh0.index, key, 0);
      Entered(st1, sh1, key, kl, Rest(sh1, x), l) == Without(Entered(st0, sh0, key, kl, Rest(sh0, x), l), c)
  {
    hide Storage, Tree, Shrunk, Cands, Matches, Rest, Resumable, Tried, Without, OfCall, Entered, Kept, Usable, KeyOk;
    var kl := Usable(sh0.index, key, 0);
    KeptSub(Rest(sh0, x), sh1.home);
    forall y | y in Rest(sh1, x) ensures OfCall(st1, sh1, key, kl, y, l) { OfCallKept(st0, sh0, st1, sh1, c, key, kl, y, l); }
    EnteredIs(st0, sh0, key, kl, Rest(sh0, x), l);
    EnteredIs(st1, sh1, key, kl, Rest(sh1, x), l);
    CandsWithout(st0, sh0, st1, sh1, c, key, kl, Tried(sh0, Rest(sh0, x)));
  }

  lemma OfCallKept(st0: Store, sh0: Shape, st1: Store, sh1: Shape, c: nat, key: Key, kl: nat, y: Loc, l: nat)
    requires Deleted(st0, sh0, st1, sh1, c) && FailedStay(st0, st1) && OfCall(st0, sh0, key, kl, y, l) && y in sh1.home
    ensures OfCall(st1, sh1, key, kl, y, l)
  {
    hide Storage, Tree, Matches, HomeOk;
    if y.IndCell? {
      if y.clause == c { HomeHeads(st1, sh1, c); }
      MatchesKept(st0, sh0, st1, sh1, c, key, kl, y.clause);
    }
  }

  lemma MatchesKept(st0: Store, sh0: Shape, st1: Store, sh1: Shape, c: nat, key: Key, kl: nat, d: nat)
    requires Deleted(st0, sh0, st1, sh1, c) && FailedStay(st0, st1) && d != c
    ensures Matches(st1, sh1, key, kl, d) == Matches(st0, sh0, key, kl, d)
  {
    hide Storage, Tree, HomeOk;
    if d in st0.heads && 0 < kl <= sh0.Depth() {
      CellHome(st0, sh0, d, kl);
      OthersStay(st0, sh0, st1, sh1, c, IndCell(d, kl));
      LevelSlot(st0, sh0, d, kl);
    }
  }

  lemma {:induction false} CandsWithout(st0: Store, sh0: Shape, st1: Store, sh1: Shape, c: nat, key: Key, kl: nat, cs: seq<nat>)
    requires Deleted(st0, sh0, st1, sh1, c) && FailedStay(st0, st1)
    ensures Cands(st1, sh1, key, kl, Without(cs, c)) == Without(Cands(st0, sh0, key, kl, cs), c)
  {
    hide Deleted, FailedStay, Matches;
    if cs != [] {
      CandsWithout(st0, sh0, st1, sh1, c, key, kl, cs[1..]);
      CandsTail(st1, sh1, key, kl, cs, c);
      CandsHead(st0, sh0, key, kl, cs, c);
      if cs[0] != c { MatchesKept(st0, sh0, st1, sh1, c, key, kl, cs[0]); }
    } else {
      CandsEmpty(st1, sh1, key, kl);
      CandsEmpty(st0, sh0, key, kl);
    }
  }

  lemma CandsTail(st: Store, sh: Shape, key: Key, kl: nat, cs: seq<nat>, c: nat)
    requires cs != []
    ensures Cands(st, sh, key, kl, Without(cs, c)) ==
      (if cs[0] != c && Matches(st, sh, key, kl, cs[0]) then [cs[0]] else []) + Cands(st, sh, key, kl, Without(cs[1..], c))
  {
    hide Matches;
    if cs[0] != c {
      assert Without(cs, c)[0] == cs[0] && Without(cs, c)[1..] == Without(cs[1..], c);
    } else {
      assert Without(cs, c) == Without(cs[1..], c);
    }
  }

  lemma CandsHead(st: Store, sh: Shape, key: Key, kl: nat, cs: seq<nat>, c: nat)
    requires cs != []
    ensures Without(Cands(st, sh, key, kl, cs), c) ==
      (if cs[0] != c && Matches(st, sh, key, kl, cs[0]) then [cs[0]] else []) + Without(Cands(st, sh, key, kl, cs[1..]), c)
  {
    hide Matches;
    if Matches(st, sh, key, kl, cs[0]) {
      assert Cands(st, sh, key, kl, cs)[0] == cs[0] && Cands(st, sh, key, kl, cs)[1..] == Cands(st, sh, key, kl, cs[1..]);
    } else {
      assert Cands(st, sh, key, kl, cs) == Cands(st, sh, key, kl, cs[1..]);
    }
  }
}
