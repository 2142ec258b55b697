/** first_clref, next_clref, previous_clref and clref_to_prref: walking the index tree. */
module ClauseWalk {
  import opened Chains
  import opened IndexShape
  import opened IndexTree
  import opened IndexOrder
  import opened IndexSmooth
  import opened ClauseStore

  /** Where the search for the next record ends; Wild is a word that is not part of a record any more. */
  datatype Step = Done | Wild | AtSob(sob: nat, level: nat) | AtClause(clause: nat)

  /** What the words of the index cell of a matching clause say about the candidates after it. */
  lemma IndexWords(st: Store, sh: Shape, key: Key, l: nat, c: nat) returns (s: nat, h: nat, k: nat)
    requires Storage(st, sh) && Tree(st, sh, Settled, {}) && KeyOk(sh.index, key) && l == Usable(sh.index, key, 0) && l > 0
    requires c in st.heads && Matches(st, sh, key, l, c)
    ensures IndCell(c, l) in st.cells && s in st.sobs && s in sh.level && sh.level[s] == l
    ensures Bucket(s, h) in sh.chains && k < |sh.chains[Bucket(s, h)]| && sh.chains[Bucket(s, h)][k] == IndCell(c, l)
    ensures var x := st.cells[IndCell(c, l)];
      var rest := Cands(st, sh, key, l, Later(All(sh), c));
      if k < |sh.chains[Bucket(s, h)]| - 1 then
        && (x.op == Dyntrymeelse || x.op == Dynretrymeelse)
        && x.next.IndCell? && rest != [] && rest[0] == x.next.clause
      else
        && x.op != Dyntrymeelse && x.op != Dynretrymeelse
        && x.next == SobCell(s) && rest == Cands(st, sh, key, l, Post(sh, SubPred(s), l))
  {
    hide UnderPart, SobPart, ClausePart, FullPart, AllPart, Storage, IsChain, Flat, Post, Pre, Distinct, KindOk, Later, Cands, SobAt, InSlot, SlotOf, Ids;
    LevelSlot(st, sh, c, l);
    s, h := SobAt(sh, c, l), sh.home[IndCell(c, l)].slot;
    IndexCellHome(st, sh, c, l);
    KeySlot(st, sh, key, l, c, s, h);
    var xs := sh.chains[Bucket(s, h)];
    k :| 0 <= k < |xs| && xs[k] == IndCell(c, l);
    OwnerChain(st, sh, Bucket(s, h));
    PlaceOf(st.cells, xs, false, Bucket(s, h), SobCell(s), k);
    BucketFacts(st, sh, s, h);
    ChainDistinct(st, sh, Bucket(s, h));
    BucketIsCands(st, sh, key, s, h);
    IdsCut(xs, k, l);
    BucketCut(st, sh, key, l, c, s, xs, k);
  }

  /** The slot a matching clause sits in is the slot of the call. */
  lemma KeySlot(st: Store, sh: Shape, key: Key, l: nat, c: nat, s: nat, h: nat)
    requires KeyOk(sh.index, key) && 0 < l <= sh.Depth() && s == SobAt(sh, c, l) && Matches(st, sh, key, l, c)
    requires s in st.sobs && InSlot(st.heads, sh.index[l - 1], st.sobs[s].size, h, c)
    ensures h == SlotOf(sh.index[l - 1], key.args, st.sobs[s].size)
  {
  }

  lemma IdsCut(xs: seq<Loc>, k: nat, l: nat)
    requires k < |xs| && Distinct(xs) && forall x :: x in xs ==> x.IndCell? && x.level == l
    ensures |Ids(xs)| == |xs| && Ids(xs)[k] == xs[k].clause && xs[k].clause !in Ids(xs)[..k]
    ensures k + 1 < |xs| ==> Ids(xs)[k + 1] == xs[k + 1].clause
  {
    IdsAt(xs, k);
    if k + 1 < |xs| { IdsAt(xs, k + 1); }
    forall i | 0 <= i < k ensures Ids(xs)[i] != xs[k].clause {
      IdsAt(xs, i);
      assert xs[i] != xs[k] && xs[i] in xs && xs[k] in xs;
    }
  }

  lemma BucketCut(st: Store, sh: Shape, key: Key, l: nat, c: nat, s: nat, xs: seq<Loc>, k: nat)
    requires Storage(st, sh) && Tree(st, sh, Settled, {}) && s in st.sobs && s in sh.level && sh.level[s] == l && SubPred(s) in sh.under
    requires c in sh.under[SubPred(s)] && Matches(st, sh, key, l, c)
    requires k < |xs| && |Ids(xs)| == |xs| && Ids(xs)[k] == c && c !in Ids(xs)[..k]
    requires Ids(xs) == Cands(st, sh, key, l, sh.under[SubPred(s)])
    ensures Cands(st, sh, key, l, Later(All(sh), c)) == Ids(xs)[k + 1..] + Cands(st, sh, key, l, Post(sh, SubPred(s), l))
  {
    hide UnderPart, SobPart, ClausePart, FullPart, Storage, Post, Pre, Distinct, Later, Cands, Ids, Matches;
    FailedEmpty(st, sh, s);
    Cut(st, sh, SubPred(s));
    var cs := sh.under[SubPred(s)];
    var i :| 0 <= i < |cs| && cs[i] == c;
    var pre, post := Pre(sh, SubPred(s), l), Post(sh, SubPred(s), l);
    assert cs == cs[..i] + [c] + cs[i + 1..];
    assert All(sh) == (pre + cs[..i]) + [c] + (cs[i + 1..] + post);
    DistinctMiddle(pre + cs[..i], c, cs[i + 1..] + post);
    LaterAt(pre + cs[..i], c, cs[i + 1..] + post);
    CandsConcat(st, sh, key, l, cs[i + 1..], post);
    CandsConcat(st, sh, key, l, cs[..i] + [c], cs[i + 1..]);
    CandsConcat(st, sh, key, l, cs[..i], [c]);
    CandsOne(st, sh, key, l, c);
    CandsSub(st, sh, key, l, cs[..i]);
    SameCut(Cands(st, sh, key, l, cs[..i]), c, Cands(st, sh, key, l, cs[i + 1..]), k);
  }

  lemma CandsOne(st: Store, sh: Shape, key: Key, l: nat, c: nat)
    requires Matches(st, sh, key, l, c)
    ensures Cands(st, sh, key, l, [c]) == [c]
  {
    CandsNone(st, sh, key, l);
    assert [c][1..] == [];
  }

  lemma CandsSub(st: Store, sh: Shape, key: Key, l: nat, cs: seq<nat>)
    ensures forall d :: d in Cands(st, sh, key, l, cs) <==> d in cs && Matches(st, sh, key, l, d)
  {
    if cs != [] {
      CandsSub(st, sh, key, l, cs[1..]);
      assert cs == [cs[0]] + cs[1..];
    }
  }

  lemma SameCut(a: seq<nat>, c: nat, b: seq<nat>, k: nat)
    requires c !in a && k < |a + [c] + b| && (a + [c] + b)[k] == c && c !in (a + [c] + b)[..k]
    ensures k == |a| && (a + [c] + b)[k + 1..] == b
  {
    var u := a + [c] + b;
    assert u[|a|] == c;
    forall i | 0 <= i < |a| ensures u[i] != c { assert u[i] == a[i]; }
    forall i | 0 <= i < k ensures u[i] != c { assert u[..k][i] in u[..k]; }
  }

  // ---- what the words of a record or a clause say ----------------------------------

  lemma SobWords(st: Store, sh: Shape, s: nat) returns (f: Loc, k: nat)
    requires Storage(st, sh) && Tree(st, sh, Settled, {}) && Attached(st, sh, s)
    ensures f in sh.chains && k < |sh.chains[f]| && sh.chains[f][k] == SobCell(s)
    ensures Alive(st, f) && IsSob(sh, f)
    ensures s in sh.level && LevelOf(sh, f) == sh.level[s] - 1 && sh.level[s] <= sh.Depth() && f == Parent(sh, SubPred(s))
    ensures SobCell(s) in st.cells && st.cells[SobCell(s)].op == PosOp(true, k, |sh.chains[f]|)
    ensures st.cells[SobCell(s)].next == (if k == |sh.chains[f]| - 1 then f else sh.chains[f][k + 1])
    ensures st.cells[SobCell(s)].prev == (if k == 0 then f else sh.chains[f][k - 1])
    ensures forall x :: x in sh.chains[f] ==> x.SobCell? && x.sob in st.sobs
    ensures LevelOf(sh, f) == 0 ==> f == Root
  {
    hide Storage, Tree, IsChain, KindOk, Flat, Distinct;
    Place(st, sh, s);
    f := Parent(sh, SubPred(s));
    k :| 0 <= k < |sh.chains[f]| && sh.chains[f][k] == SobCell(s);
    OwnerChain(st, sh, f);
    PlaceOf(st.cells, sh.chains[f], true, f, f, k);
    EndChild(st, sh, f, LevelOf(sh, f));
    LevelZero(st, sh, f);
  }

  /** The records of one chain are attached alike. */
  lemma SameChain(st: Store, sh: Shape, f: Loc, k: nat, s: nat)
    requires Storage(st, sh) && Tree(st, sh, Settled, {}) && f in sh.chains && k < |sh.chains[f]| && sh.chains[f][k] == SobCell(s) && Alive(st, f)
    ensures Attached(st, sh, s) && s in sh.level && sh.level[s] == LevelOf(sh, f) + 1 && SubPred(s) in sh.under
    ensures st.sobs[s].failed <==> sh.under[SubPred(s)] == []
  {
    hide Storage, Tree, IsChain, KindOk, Flat, Distinct;
    assert sh.chains[f][k] in sh.chains[f];
    ChildFacts(st, sh, f, s);
    ParentIs(st, sh, f, s);
    Place(st, sh, s);
  }

  lemma LevelZero(st: Store, sh: Shape, f: Loc)
    requires Storage(st, sh) && (f == Root || (f.SubPred? && f.sob in st.sobs))
    ensures LevelOf(sh, f) == 0 ==> f == Root
  {
    hide OwnerOk, HomeOk;
    if f.SubPred? { SobPositive(st, sh, f.sob); }
  }

  /** Record s at level l, where the walk may stand: it has not failed, or is to be skipped at the level looked into. */
  ghost predicate At(st: Store, sh: Shape, s: nat, l: nat, kl: nat) {
    && Attached(st, sh, s) && s in sh.level && sh.level[s] == l && SubPred(s) in sh.under
    && (st.sobs[s].failed ==> l == kl && Skippable(st, sh, s, l) && sh.under[SubPred(s)] == [])
  }

  /** The head pointer of a record leads to its first child, or to its first clause. */
  lemma DownWords(st: Store, sh: Shape, s: nat)
    requires Storage(st, sh) && Tree(st, sh, Settled, {}) && Attached(st, sh, s) && !st.sobs[s].failed
    ensures s in sh.level && 1 <= sh.level[s] <= sh.Depth() && SubPred(s) in st.preds && SubPred(s) in sh.under
    ensures st.sobs[s].arg == sh.index[sh.level[s] - 1] && st.sobs[s].size > 0
    ensures var x := st.preds[SubPred(s)].first;
      && (sh.level[s] < sh.Depth() ==>
            && x.SobCell? && Attached(st, sh, x.sob) && x.sob in sh.level && sh.level[x.sob] == sh.level[s] + 1 && SubPred(x.sob) in sh.under
            && (st.sobs[x.sob].failed ==> sh.under[SubPred(x.sob)] == [])
            && sh.under[SubPred(s)] + Post(sh, SubPred(s), sh.level[s]) == sh.under[SubPred(x.sob)] + Post(sh, SubPred(x.sob), sh.level[x.sob]))
      && (sh.level[s] == sh.Depth() ==>
            x.ClauseCell? && sh.under[SubPred(s)] != [] && sh.under[SubPred(s)][0] == x.clause)
  {
    hide Storage, UnderPart, SobPart, ClausePart, AllPart, IsChain, KindOk, Flat, Distinct, OwnerOk;
    SobPositive(st, sh, s);
    Place(st, sh, s);
    OwnerChain(st, sh, SubPred(s));
    FailedEmpty(st, sh, s);
    var x := sh.chains[SubPred(s)][0];
    if sh.level[s] < sh.Depth() {
      EndChild(st, sh, SubPred(s), sh.level[s]);
      assert x in sh.chains[SubPred(s)];
      FirstBelow(st, sh, SubPred(s), x.sob);
      SameChain(st, sh, SubPred(s), 0, x.sob);
    } else {
      LeafFirst(st, sh, s);
    }
  }

  /** The same about what can be walked. */
  lemma DownSmooth(st: Store, sh: Shape, s: nat, kl: nat)
    requires Storage(st, sh) && Tree(st, sh, Settled, {}) && Attached(st, sh, s) && !st.sobs[s].failed
    requires s in sh.level && sh.level[s] < WalkLevel(sh, kl) <= sh.Depth()
    ensures SubPred(s) in st.preds
    ensures var x, l := st.preds[SubPred(s)].first, sh.level[s];
      && x.SobCell? && Attached(st, sh, x.sob)
      && (!st.sobs[x.sob].failed ==> (Smooth(st, sh, s, l, kl) <==> Smooth(st, sh, x.sob, l + 1, kl)))
      && (st.sobs[x.sob].failed ==> (Smooth(st, sh, s, l, kl) <==> !Blind(kl, l + 1) && Smooth(st, sh, x.sob, l + 1, kl)))
      && (st.sobs[x.sob].failed ==> Skippable(st, sh, x.sob, l + 1))
      && FailsFrom(st, sh, s, l, kl) == FailsFrom(st, sh, x.sob, l + 1, kl)
  {
    hide Storage, UnderPart, SobPart, ClausePart, AllPart, IsChain, KindOk, Flat, Distinct, OwnerOk, SmoothBelow, SmoothAfter, Skippable, FailsBelow, FailsAfter;
    DownWords(st, sh, s);
    SobPositive(st, sh, s);
    OwnerChain(st, sh, SubPred(s));
    FailedEmpty(st, sh, s);
    var x := sh.chains[SubPred(s)][0];
    SmoothDown(st, sh, SubPred(s), x.sob, sh.level[s], kl);
    if FailedCell(st, x) { FirstSkippable(st, sh, SubPred(s), x.sob); }
  }

  lemma LeafFirst(st: Store, sh: Shape, s: nat)
    requires Storage(st, sh) && Tree(st, sh, Settled, {}) && s in st.sobs && s in sh.level && sh.level[s] == sh.Depth()
    requires SubPred(s) in sh.chains && sh.chains[SubPred(s)] != []
    ensures sh.chains[SubPred(s)][0].ClauseCell? && SubPred(s) in sh.under && sh.under[SubPred(s)] != []
    ensures sh.under[SubPred(s)][0] == sh.chains[SubPred(s)][0].clause
  {
    hide UnderPart, SobPart, ClausePart, AllPart, Storage, Flat, KindOk;
    var xs := sh.chains[SubPred(s)];
    assert xs[0] in xs;
    LeafCell(st, sh, s, xs[0]);
    SettledAt(sh, SubPred(s));
    FlatDrop(xs, 0, sh.under);
    FlatEmpty(sh.under);
    assert xs[..0] == [];
  }

  // ---- find_usable_index -----------------------------------------------------------

  /** What find_usable_index has found below record s at level 1: the record at the level of the index, or a clause. */
  ghost predicate FoundFrom(st: Store, sh: Shape, s: nat, r: Loc, kl: nat) {
    && SubPred(s) in sh.under
    && var all := sh.under[SubPred(s)] + Post(sh, SubPred(s), 1);
      if kl > 0 then
        && r.SobCell? && At(st, sh, r.sob, kl, kl) && all == sh.under[SubPred(r.sob)] + Post(sh, SubPred(r.sob), kl)
        && (Smooth(st, sh, s, 1, kl) <==> Smooth(st, sh, r.sob, kl, kl)) && FailsFrom(st, sh, s, 1, kl) == FailsFrom(st, sh, r.sob, kl, kl)
      else
        && r.ClauseCell? && all != [] && all[0] == r.clause
        && (Smooth(st, sh, s, 1, kl) <==> AfterClause(st, sh, r.clause, kl)) && FailsFrom(st, sh, s, 1, kl) == FailsSince(st, sh, r.clause, kl)
  }

  /** walk down from a first-level record to the first record whose argument is bound in the call; stale tells that a
      word of a failed record has been read that was given back */
  method FindUsableIndex(p: DynPred, key: Key, s: nat) returns (r: Loc, level: nat, wild: bool, stale: bool)
    requires p.Valid() && KeyOk(p.index, key) && At(p.St(), p.sh, s, 1, 0) && !p.sobs[s].failed
    ensures wild ==> !Smooth(p.St(), p.sh, s, 1, Usable(p.index, key, 0)) && stale && FailsFrom(p.St(), p.sh, s, 1, Usable(p.index, key, 0)) > 0
    ensures !wild ==> level == Usable(p.index, key, 0) && FoundFrom(p.St(), p.sh, s, r, level)
    ensures !wild ==> (stale <==> r.SobCell? && r.sob in p.sobs && p.sobs[r.sob].failed)
  {
    hide Storage, Tree, Flat, Post, KindOk, Smooth, AfterClause, Skippable, FailsFrom, FailsSince, FailsAfter, FailsBelow, SmoothBelow, SmoothAfter;
    ghost var st, sh, kl := p.St(), p.sh, Usable(p.index, key, 0);
    r := SobCell(s);
    DownWords(st, sh, s);
    ghost var all := sh.under[SubPred(s)] + Post(sh, SubPred(s), 1);
    var i := 1;
    while r.SobCell?
      invariant 1 <= i <= |p.index| + 1 && (r.SobCell? || r.ClauseCell?) && (i == 1 ==> r == SobCell(s))
      invariant r.SobCell? ==>
        && Attached(st, sh, r.sob) && r.sob in sh.level && sh.level[r.sob] == i && SubPred(r.sob) in sh.under && i <= |p.index|
        && all == sh.under[SubPred(r.sob)] + Post(sh, SubPred(r.sob), i)
        && (p.sobs[r.sob].failed ==> Skippable(st, sh, r.sob, i) && sh.under[SubPred(r.sob)] == [])
        && (Smooth(st, sh, s, 1, kl) <==> !(p.sobs[r.sob].failed && Blind(kl, i)) && Smooth(st, sh, r.sob, i, kl))
      invariant r.ClauseCell? ==> i == |p.index| + 1 && all != [] && all[0] == r.clause && kl == 0
      invariant r.ClauseCell? ==> (Smooth(st, sh, s, 1, kl) <==> AfterClause(st, sh, r.clause, kl))
      invariant r.SobCell? ==> FailsFrom(st, sh, s, 1, kl) == FailsFrom(st, sh, r.sob, i, kl)
      invariant r.ClauseCell? ==> FailsFrom(st, sh, s, 1, kl) == FailsSince(st, sh, r.clause, kl)
      invariant kl == Usable(p.index, key, i - 1) && (kl == 0 || i <= kl)
      decreases |p.index| + 1 - i
    {
      SobPositive(st, sh, r.sob);
      if key.Head? {
        var ind := p.sobs[r.sob].arg;
        if HashVal(ind, key.args, 1) >= 0 {
          return r, i, false, p.sobs[r.sob].failed;
        }
      }
      if p.sobs[r.sob].failed {
        FailedCounts(st, sh, r.sob, i, kl);
        return r, 0, true, true;
      }
      DownWords(st, sh, r.sob);
      if i < |p.index| { DownSmooth(st, sh, r.sob, kl); } else { DownClause(st, sh, r.sob); }
      r := p.preds[SubPred(r.sob)].first;
      i := i + 1;
    }
    return r, 0, false, false;
  }

  lemma FailedCounts(st: Store, sh: Shape, s: nat, l: nat, kl: nat)
    requires s in st.sobs && st.sobs[s].failed
    ensures FailsFrom(st, sh, s, l, kl) == 1 + FailsAfter(st, sh, SubPred(s), l, kl)
  {
    hide FailsBelow, FailsAfter;
  }

  /** The first clause of a leaf: the walk goes on after the leaf. */
  lemma DownClause(st: Store, sh: Shape, s: nat)
    requires Storage(st, sh) && Tree(st, sh, Settled, {}) && Attached(st, sh, s) && !st.sobs[s].failed
    requires s in sh.level && sh.level[s] == sh.Depth()
    ensures SubPred(s) in st.preds && st.preds[SubPred(s)].first.ClauseCell?
    ensures Smooth(st, sh, s, sh.Depth(), 0) <==> AfterClause(st, sh, st.preds[SubPred(s)].first.clause, 0)
    ensures FailsFrom(st, sh, s, sh.Depth(), 0) == FailsSince(st, sh, st.preds[SubPred(s)].first.clause, 0)
  {
    hide Storage, Tree, IsChain, KindOk, Flat, Distinct, OwnerOk, SmoothBelow, SmoothAfter, FailsAfter, FailsBelow;
    DownWords(st, sh, s);
    SmoothLeaf(st, sh, s, sh.Depth(), 0);
    var c := st.preds[SubPred(s)].first.clause;
    FailedEmpty(st, sh, s);
    assert c in sh.under[SubPred(s)];
    SobTreeAt(st, sh, s);
    BelowAt(st, sh, s, c);
  }

  lemma SobTreeAt(st: Store, sh: Shape, s: nat)
    requires Tree(st, sh, Settled, {}) && s in st.sobs
    ensures SobTree(st, sh, s)
  {
    hide UnderPart, FullPart, ClausePart, AllPart, SobTree;
  }

  // ---- NextSOB ---------------------------------------------------------------------

  /** What NextSOB makes of record s at the level that is looked into. */
  ghost predicate NextFrom(st: Store, sh: Shape, s: nat, cur: nat, kl: nat, step: Step, stale: bool) {
    var rest, smooth, fails := Post(sh, SubPred(s), cur), SmoothAfter(st, sh, SubPred(s), cur, kl), FailsAfter(st, sh, SubPred(s), cur, kl);
    match step
    case Done => rest == [] && smooth && fails == 0 && !stale
    case Wild => !smooth && fails > 0 && stale
    case AtSob(t, l) =>
      && At(st, sh, t, l, kl) && l <= cur && (kl == 0 ==> l > 1) && rest == sh.under[SubPred(t)] + Post(sh, SubPred(t), l)
      && (smooth <==> Smooth(st, sh, t, l, kl))
      && (Skippable(st, sh, s, cur) ==> l == cur && !st.sobs[t].failed)
      && PassedTo(fails, FailsFrom(st, sh, t, l, kl), st.sobs[t].failed, stale)
    case AtClause(d) =>
      && kl == 0 && rest != [] && rest[0] == d && (smooth <==> AfterClause(st, sh, d, kl))
      && PassedTo(fails, FailsSince(st, sh, d, kl), false, stale)
  }

  /** Of fails failed records ahead left are still ahead, and stale tells whether one has been read; here tells that the
      walk stands on one that it has read. */
  predicate PassedTo(fails: nat, left: nat, here: bool, stale: bool) {
    left <= fails && (stale <==> left < fails || here)
  }

  /** the first record from sob on that has not failed; wild if the chain ends before; stale if a failed one was read */
  method SkipFailed(p: DynPred, s: nat, level: nat, ghost f: Loc, ghost k: nat, ghost rest: seq<nat>, ghost smooth: bool, ghost kl: nat)
    returns (sob: nat, wild: bool, stale: bool)
    requires p.Valid() && s in p.sobs && level > 0
    requires f in p.sh.chains && k < |p.sh.chains[f]| && p.sh.chains[f][k] == SobCell(s) && Alive(p.St(), f) && IsSob(p.sh, f)
    requires LevelOf(p.sh, f) == level - 1 && SubPred(s) in p.sh.under && rest == p.sh.under[SubPred(s)] + Post(p.sh, SubPred(s), level)
    requires p.sobs[s].failed ==> smooth == (k + 1 < |p.sh.chains[f]| && SmoothAfter(p.St(), p.sh, SubPred(s), level, kl))
    requires !p.sobs[s].failed ==> smooth == Smooth(p.St(), p.sh, s, level, kl)
    ensures wild ==> !smooth && stale && FailsFrom(p.St(), p.sh, s, level, kl) > 0
    ensures !wild ==> Attached(p.St(), p.sh, sob) && !p.sobs[sob].failed && sob in p.sh.level && p.sh.level[sob] == level && SubPred(sob) in p.sh.under
    ensures !wild ==> rest == p.sh.under[SubPred(sob)] + Post(p.sh, SubPred(sob), level) && smooth == Smooth(p.St(), p.sh, sob, level, kl)
    ensures !wild ==> PassedTo(FailsFrom(p.St(), p.sh, s, level, kl), FailsFrom(p.St(), p.sh, sob, level, kl), false, stale)
    ensures p.sobs[s].failed ==> stale
  {
    hide Storage, Tree, Flat, Post, KindOk, Smooth, SmoothAfter, FailsFrom, FailsAfter;
    ghost var st, sh, i := p.St(), p.sh, k;
    ghost var fails := FailsFrom(st, sh, s, level, kl);
    sob, stale := s, false;
    SameChain(st, sh, f, k, s);
    while p.sobs[sob].failed
      invariant Attached(st, sh, sob) && sob in sh.level && sh.level[sob] == level && SubPred(sob) in sh.under
      invariant i < |sh.chains[f]| && sh.chains[f][i] == SobCell(sob)
      invariant rest == sh.under[SubPred(sob)] + Post(sh, SubPred(sob), level)
      invariant p.sobs[sob].failed ==> sh.under[SubPred(sob)] == []
      invariant p.sobs[sob].failed ==> smooth == (i + 1 < |sh.chains[f]| && SmoothAfter(st, sh, SubPred(sob), level, kl))
      invariant !p.sobs[sob].failed ==> smooth == Smooth(st, sh, sob, level, kl)
      invariant PassedTo(fails, FailsFrom(st, sh, sob, level, kl), false, stale)
      invariant p.sobs[s].failed ==> stale || sob == s
      decreases |sh.chains[f]| - i
    {
      ghost var g: Loc, j: nat := SobWords(st, sh, sob);
      SamePlace(st, sh, f, i, g, j);
      NotSobCell(st, f);
      FailedCounts(st, sh, sob, level, kl);
      stale := true;
      if !p.cells[SobCell(sob)].next.SobCell? { return sob, true, true; }
      assert sh.chains[f][i + 1] in sh.chains[f];
      ghost var last := sob;
      sob := p.cells[SobCell(sob)].next.sob;
      NextSibling(st, sh, f, i, last, sob);
      SmoothNext(st, sh, f, i, last, sob, level, kl);
      SameChain(st, sh, f, i + 1, sob);
      i := i + 1;
    }
    wild := false;
  }

  /** the record to search next: up while at the end of a chain, then across, then down to the index level */
  method NextSob(p: DynPred, s: nat, cur: nat, key: Key, indLevel: nat) returns (step: Step, stale: bool)
    requires p.Valid() && KeyOk(p.index, key) && indLevel == Usable(p.index, key, 0)
    requires Attached(p.St(), p.sh, s) && s in p.sh.level && p.sh.level[s] == cur == WalkLevel(p.sh, indLevel)
    ensures NextFrom(p.St(), p.sh, s, cur, indLevel, step, stale)
  {
    hide Storage, Tree, Flat, Post, KindOk, Smooth, SmoothAfter, AfterClause, NextFrom, FoundFrom, FailsFrom, FailsAfter, FailsSince, PassedTo;
    ghost var st, sh := p.St(), p.sh;
    ghost var rest, smooth, fails := Post(sh, SubPred(s), cur), SmoothAfter(st, sh, SubPred(s), cur, indLevel), FailsAfter(st, sh, SubPred(s), cur, indLevel);
    var sob, level := s, cur;
    ghost var f: Loc, k: nat := SobWords(st, sh, sob);
    while p.cells[SobCell(sob)].op == Dyntrustmeelsefail || p.cells[SobCell(sob)].op == Noop
      invariant Attached(st, sh, sob) && sob in sh.level && sh.level[sob] == level <= cur && (sob == s || level < cur)
      invariant ChainAt(st, sh, f, k, sob, level)
      invariant rest == Post(sh, SubPred(sob), level) && smooth == SmoothAfter(st, sh, SubPred(sob), level, indLevel)
      invariant fails == FailsAfter(st, sh, SubPred(sob), level, indLevel)
      invariant level < cur ==> !Skippable(st, sh, s, cur)
      decreases level
    {
      LastSibling(st, sh, f, sob);
      SmoothLast(st, sh, f, sob, level, indLevel);
      NotSkippable(st, sh, f, k, sob, s, level, cur);
      if level == 1 {
        PostRoot(sh);
        RootAfter(st, sh, indLevel);
        NextDone(st, sh, s, cur, indLevel);
        return Done, false;
      }
      sob := p.cells[SobCell(sob)].next.sob;
      level := level - 1;
      AliveAttached(st, sh, sob);
      f, k := SobWords(st, sh, sob);
    }
    step, stale := AcrossSob(p, s, cur, key, indLevel, sob, level, f, k);
  }

  /** across from record sob, which is not the last of its chain, and down again */
  method AcrossSob(p: DynPred, ghost s: nat, ghost cur: nat, key: Key, indLevel: nat, last: nat, level: nat, ghost f: Loc, ghost k: nat)
    returns (step: Step, stale: bool)
    requires p.Valid() && KeyOk(p.index, key) && indLevel == Usable(p.index, key, 0) && 0 < level <= cur == WalkLevel(p.sh, indLevel)
    requires ChainAt(p.St(), p.sh, f, k, last, level) && k + 1 < |p.sh.chains[f]| && (level < cur ==> !Skippable(p.St(), p.sh, s, cur))
    requires level == 1 ==> !Skippable(p.St(), p.sh, s, cur)
    requires Post(p.sh, SubPred(s), cur) == Post(p.sh, SubPred(last), level) && last in p.sh.level && p.sh.level[last] == level
    requires SmoothAfter(p.St(), p.sh, SubPred(s), cur, indLevel) == SmoothAfter(p.St(), p.sh, SubPred(last), level, indLevel)
    requires FailsAfter(p.St(), p.sh, SubPred(s), cur, indLevel) == FailsAfter(p.St(), p.sh, SubPred(last), level, indLevel)
    ensures NextFrom(p.St(), p.sh, s, cur, indLevel, step, stale)
  {
    hide Storage, Tree, Flat, Post, KindOk, Smooth, SmoothAfter, AfterClause, NextFrom, FoundFrom, FailsFrom, FailsAfter, FailsSince, PassedTo;
    ghost var st, sh := p.St(), p.sh;
    ghost var rest, smooth := Post(sh, SubPred(s), cur), SmoothAfter(st, sh, SubPred(s), cur, indLevel);
    assert sh.chains[f][k + 1] in sh.chains[f];
    var sob := p.cells[SobCell(last)].next.sob;
    NextSibling(st, sh, f, k, last, sob);
    SmoothNext(st, sh, f, k, last, sob, level, indLevel);
    SameChain(st, sh, f, k + 1, sob);
    var wild;
    sob, wild, stale := SkipFailed(p, sob, level, f, k + 1, rest, smooth, indLevel);
    if wild {
      NextWild(st, sh, s, cur, indLevel);
      return Wild, true;
    }
    if level == 1 {
      var r, l, stale1;
      r, l, wild, stale1 := FindUsableIndex(p, key, sob);
      if wild {
        PassedOn(FailsAfter(st, sh, SubPred(s), cur, indLevel), FailsFrom(st, sh, sob, 1, indLevel), stale);
        NextWild(st, sh, s, cur, indLevel);
        return Wild, true;
      }
      FoundWalk(st, sh, key, indLevel, sob, r);
      NextFound(st, sh, s, cur, indLevel, sob, r, stale, stale1);
      stale := stale || stale1;
      if l == 0 {
        return AtClause(r.clause), stale;
      }
      return AtSob(r.sob, l), stale;
    }
    NextAt(st, sh, s, cur, indLevel, sob, level, stale);
    return AtSob(sob, level), stale;
  }

  lemma PassedOn(fails: nat, left: nat, stale: bool)
    requires PassedTo(fails, left, false, stale)
    ensures left <= fails
  {
  }

  ghost predicate ChainAt(st: Store, sh: Shape, f: Loc, k: nat, s: nat, l: nat) {
    && f in sh.chains && k < |sh.chains[f]| && sh.chains[f][k] == SobCell(s) && Alive(st, f) && IsSob(sh, f)
    && LevelOf(sh, f) == l - 1 && f == Parent(sh, SubPred(s)) && (LevelOf(sh, f) == 0 ==> f == Root)
    && SobCell(s) in st.cells && st.cells[SobCell(s)].op == PosOp(true, k, |sh.chains[f]|)
    && st.cells[SobCell(s)].next == (if k == |sh.chains[f]| - 1 then f else sh.chains[f][k + 1])
    && forall x :: x in sh.chains[f] ==> x.SobCell? && x.sob in st.sobs
  }

  lemma AliveAttached(st: Store, sh: Shape, s: nat)
    requires Storage(st, sh) && Tree(st, sh, Settled, {}) && Alive(st, SubPred(s))
    ensures Attached(st, sh, s)
  {
    hide Storage, Tree;
    AliveParent(st, sh, s);
  }

  lemma NotSobCell(st: Store, f: Loc)
    requires Alive(st, f)
    ensures !f.SobCell?
  {
  }

  /** The last record of a chain is not to be skipped. */
  lemma NotSkippable(st: Store, sh: Shape, f: Loc, k: nat, sob: nat, s: nat, l: nat, cur: nat)
    requires ChainAt(st, sh, f, k, sob, l) && k == |sh.chains[f]| - 1 && (sob == s || !Skippable(st, sh, s, cur))
    ensures !Skippable(st, sh, s, cur)
  {
  }

  lemma NextDone(st: Store, sh: Shape, s: nat, cur: nat, kl: nat)
    requires Post(sh, SubPred(s), cur) == [] && SmoothAfter(st, sh, SubPred(s), cur, kl) && FailsAfter(st, sh, SubPred(s), cur, kl) == 0
    ensures NextFrom(st, sh, s, cur, kl, Done, false)
  {
  }

  lemma NextWild(st: Store, sh: Shape, s: nat, cur: nat, kl: nat)
    requires !SmoothAfter(st, sh, SubPred(s), cur, kl) && FailsAfter(st, sh, SubPred(s), cur, kl) > 0
    ensures NextFrom(st, sh, s, cur, kl, Wild, true)
  {
  }

  lemma NextAt(st: Store, sh: Shape, s: nat, cur: nat, kl: nat, t: nat, l: nat, stale: bool)
    requires Attached(st, sh, t) && t in sh.level && sh.level[t] == l && SubPred(t) in sh.under && !st.sobs[t].failed && 1 < l <= cur
    requires Post(sh, SubPred(s), cur) == sh.under[SubPred(t)] + Post(sh, SubPred(t), l)
    requires SmoothAfter(st, sh, SubPred(s), cur, kl) == Smooth(st, sh, t, l, kl) && (l == cur || !Skippable(st, sh, s, cur))
    requires PassedTo(FailsAfter(st, sh, SubPred(s), cur, kl), FailsFrom(st, sh, t, l, kl), false, stale)
    ensures NextFrom(st, sh, s, cur, kl, AtSob(t, l), stale)
  {
    hide Skippable, Smooth, SmoothAfter, Post, FailsAfter, FailsFrom;
  }

  lemma NextFound(st: Store, sh: Shape, s: nat, cur: nat, kl: nat, t: nat, r: Loc, stale: bool, stale1: bool)
    requires FoundFrom(st, sh, t, r, kl) && kl <= cur && SubPred(t) in sh.under
    requires Post(sh, SubPred(s), cur) == sh.under[SubPred(t)] + Post(sh, SubPred(t), 1)
    requires SmoothAfter(st, sh, SubPred(s), cur, kl) == Smooth(st, sh, t, 1, kl) && !Skippable(st, sh, s, cur)
    requires PassedTo(FailsAfter(st, sh, SubPred(s), cur, kl), FailsFrom(st, sh, t, 1, kl), false, stale)
    requires stale1 <==> r.SobCell? && r.sob in st.sobs && st.sobs[r.sob].failed
    ensures NextFrom(st, sh, s, cur, kl,
      if kl == 0 then AtClause(if r.ClauseCell? then r.clause else 0) else AtSob(if r.SobCell? then r.sob else 0, kl), stale || stale1)
  {
    hide Skippable, Smooth, SmoothAfter, Post, AfterClause, FailsAfter, FailsFrom, FailsSince;
  }

  lemma PostRoot(sh: Shape)
    ensures Post(sh, Root, 0) == []
  {
  }

  // ---- FirstClauseSOB --------------------------------------------------------------

  /** What the rest of the walk comes to: a candidate, none, or a word outside of all records. */
  ghost predicate WalkTo(st: Store, sh: Shape, key: Key, kl: nat, rest: seq<nat>, smooth: bool, fails: nat, r: Option<nat>, wild: bool, stale: bool) {
    if wild then !smooth && fails > 0 && stale
    else
      && r == First(Cands(st, sh, key, kl, rest)) && (smooth <==> r.None? || AfterClause(st, sh, r.value, kl))
      && PassedTo(fails, if r.None? then 0 else FailsSince(st, sh, r.value, kl), false, stale)
  }

  /** first candidate at or after record s */
  method FirstClauseSob(p: DynPred, s: nat, cur: nat, key: Key, indLevel: nat) returns (r: Option<nat>, wild: bool, stale: bool)
    requires p.Valid() && KeyOk(p.index, key) && indLevel == Usable(p.index, key, 0) && indLevel > 0
    requires At(p.St(), p.sh, s, cur, indLevel) && cur <= indLevel
    ensures WalkTo(p.St(), p.sh, key, indLevel, p.sh.under[SubPred(s)] + Post(p.sh, SubPred(s), cur),
      Smooth(p.St(), p.sh, s, cur, indLevel), FailsFrom(p.St(), p.sh, s, cur, indLevel), r, wild, stale)
    ensures p.sobs[s].failed ==> stale
  {
    hide Storage, Tree, Flat, Post, KindOk, Cands, Ids, SlotOf, Smooth, SmoothAfter, AfterClause, Skippable, SmoothBelow, FailsFrom, FailsAfter, FailsSince;
    ghost var st, sh := p.St(), p.sh;
    var sob: nat, level: nat := s, cur;
    ghost var all := sh.under[SubPred(s)] + Post(sh, SubPred(s), cur);
    ghost var rest, smooth, fails := all, Smooth(st, sh, s, cur, indLevel), FailsFrom(st, sh, s, cur, indLevel);
    stale := false;
    while true
      invariant At(st, sh, sob, level, indLevel) && level <= indLevel
      invariant FailsFrom(st, sh, sob, level, indLevel) <= fails && (FailsFrom(st, sh, sob, level, indLevel) < fails ==> stale)
      invariant stale ==> FailsFrom(st, sh, sob, level, indLevel) < fails || p.sobs[sob].failed
      invariant p.sobs[s].failed ==> stale || sob == s
      invariant rest == sh.under[SubPred(sob)] + Post(sh, SubPred(sob), level)
      invariant First(Cands(st, sh, key, indLevel, all)) == First(Cands(st, sh, key, indLevel, rest))
      invariant smooth == Smooth(st, sh, sob, level, indLevel)
      decreases |rest|, indLevel - level, if sob in p.sobs && p.sobs[sob].failed then 1 else 0
    {
      if level < indLevel {
        DownWords(st, sh, sob);
        DownSmooth(st, sh, sob, indLevel);
        sob := p.preds[SubPred(sob)].first.sob;
        level := level + 1;
        if p.sobs[sob].failed && level < indLevel {
          FailedCounts(st, sh, sob, level, indLevel);
          return None, true, true;
        }
      } else {
        SmoothLeaf(st, sh, sob, level, indLevel);
        stale := stale || p.sobs[sob].failed;
        ghost var post := Post(sh, SubPred(sob), level);
        if !p.sobs[sob].failed {
          DownWords(st, sh, sob);
          var ind := p.sobs[sob].arg;
          KeyHash(p.index, key, indLevel, p.sobs[sob].size);
          var h := HashVal(ind, key.args, p.sobs[sob].size);
          BucketIsCands(st, sh, key, sob, h);
          OwnerChain(st, sh, Bucket(sob, h));
          var cl := p.slots[Bucket(sob, h)];
          CandsConcat(st, sh, key, indLevel, sh.under[SubPred(sob)], post);
          BucketFirst(st, sh, sob, h);
          if cl != Dynfail {
            AfterIsSob(st, sh, cl.clause, sob, indLevel);
            return Some(cl.clause), false, stale;
          }
          assert Cands(st, sh, key, indLevel, rest) == Cands(st, sh, key, indLevel, post);
          FailedEmpty(st, sh, sob);
        } else {
          assert rest == post;
        }
        var step, stale1 := NextSob(p, sob, level, key, indLevel);
        stale := stale || stale1;
        if step.Wild? { return None, true, true; }
        if step.Done? {
          CandsNone(st, sh, key, indLevel);
          return None, false, stale;
        }
        rest := post;
        sob, level := step.sob, step.level;
      }
    }
  }

  lemma CandsNone(st: Store, sh: Shape, key: Key, l: nat)
    ensures Cands(st, sh, key, l, []) == []
  {
  }

  lemma KeyHash(index: seq<nat>, key: Key, l: nat, size: nat)
    requires KeyOk(index, key) && l == Usable(index, key, 0) && l > 0 && size > 0
    ensures key.Head? && index[l - 1] < |key.args|
    ensures HashVal(index[l - 1], key.args, size) == SlotOf(index[l - 1], key.args, size)
  {
  }

  lemma AfterIsSob(st: Store, sh: Shape, c: nat, s: nat, kl: nat)
    requires WalkLevel(sh, kl) > 0 && SobAt(sh, c, WalkLevel(sh, kl)) == s
    ensures AfterClause(st, sh, c, kl) == SmoothAfter(st, sh, SubPred(s), WalkLevel(sh, kl), kl)
    ensures FailsSince(st, sh, c, kl) == FailsAfter(st, sh, SubPred(s), WalkLevel(sh, kl), kl)
  {
  }

  lemma BucketFirst(st: Store, sh: Shape, s: nat, h: nat)
    requires Storage(st, sh) && Bucket(s, h) in sh.chains && AnchorOk(st, Bucket(s, h), sh.chains[Bucket(s, h)])
    ensures st.slots[Bucket(s, h)] == Dynfail ==> Ids(sh.chains[Bucket(s, h)]) == []
    ensures st.slots[Bucket(s, h)] != Dynfail ==>
      && st.slots[Bucket(s, h)].IndCell? && Ids(sh.chains[Bucket(s, h)]) != []
      && Ids(sh.chains[Bucket(s, h)])[0] == st.slots[Bucket(s, h)].clause
      && s in sh.level && SobAt(sh, st.slots[Bucket(s, h)].clause, sh.level[s]) == s
  {
    hide Storage;
    BucketFacts(st, sh, s, h);
    var xs := sh.chains[Bucket(s, h)];
    if xs != [] {
      ChainCellsOf(st, sh, Bucket(s, h));
      assert xs[0] in xs;
      IdsAt(xs, 0);
    }
  }

  // ---- first_clref and next_clref --------------------------------------------------

  /** first clause the call can match */
  method FirstClref(p: DynPred, key: Key) returns (r: Option<nat>, wild: bool, stale: bool)
    requires p.Valid() && KeyOk(p.index, key)
    ensures var kl := Usable(p.index, key, 0);
      WalkTo(p.St(), p.sh, key, kl, All(p.sh), Walkable(p.St(), p.sh, kl), FailsBelow(p.St(), p.sh, Root, 0, kl), r, wild, stale)
  {
    hide Storage, Tree, Flat, Post, KindOk, Cands, Smooth, SmoothAfter, AfterClause, Skippable, FoundFrom, Walkable, FailsFrom, FailsAfter, FailsSince, FailsBelow;
    ghost var st, sh, kl := p.St(), p.sh, Usable(p.index, key, 0);
    RootFacts(st, sh);
    RootUnder(st, sh, kl);
    if p.preds[Root].op == Fail {
      CandsNone(st, sh, key, kl);
      return None, false, false;
    }
    var sob := p.preds[Root].first.sob;
    RootFirst(st, sh, kl);
    sob, wild, stale := SkipFailed(p, sob, 1, Root, 0, All(sh), Walkable(st, sh, kl), kl);
    if wild { return None, true, true; }
    var loc, level, stale1;
    loc, level, wild, stale1 := FindUsableIndex(p, key, sob);
    if wild { return None, true, true; }
    FoundWalk(st, sh, key, kl, sob, loc);
    if level == 0 {
      CandsAll(st, sh, key, All(sh));
      return Some(loc.clause), false, stale;
    }
    stale := stale || stale1;
    r, wild, stale1 := FirstClauseSob(p, loc.sob, level, key, level);
    stale := stale || stale1;
  }

  lemma FoundWalk(st: Store, sh: Shape, key: Key, kl: nat, s: nat, r: Loc)
    requires FoundFrom(st, sh, s, r, kl)
    ensures SubPred(s) in sh.under
    ensures var all := sh.under[SubPred(s)] + Post(sh, SubPred(s), 1);
      if kl > 0 then r.SobCell? && At(st, sh, r.sob, kl, kl) && all == sh.under[SubPred(r.sob)] + Post(sh, SubPred(r.sob), kl)
        && (Smooth(st, sh, s, 1, kl) <==> Smooth(st, sh, r.sob, kl, kl)) && FailsFrom(st, sh, s, 1, kl) == FailsFrom(st, sh, r.sob, kl, kl)
      else
        && r.ClauseCell? && First(all) == Some(r.clause) && (Smooth(st, sh, s, 1, kl) <==> AfterClause(st, sh, r.clause, kl))
        && FailsFrom(st, sh, s, 1, kl) == FailsSince(st, sh, r.clause, kl)
  {
    hide Smooth, AfterClause, At, Post, FailsFrom, FailsSince;
  }

  lemma RootUnder(st: Store, sh: Shape, kl: nat)
    requires Storage(st, sh) && Tree(st, sh, Settled, {})
    ensures Root in sh.chains && st.preds[Root].op == Fail ==> All(sh) == [] && Walkable(st, sh, kl) && FailsBelow(st, sh, Root, 0, kl) == 0
  {
    hide SobPart, ClausePart, FullPart, SobOk, HomeOk, IsChain;
    assert OwnerOk(st, sh, Root);
    assert UnderOk(sh, Settled, Root);
    FlatEmpty(sh.under);
  }

  lemma RootFirst(st: Store, sh: Shape, kl: nat)
    requires Storage(st, sh) && Tree(st, sh, Settled, {}) && Root in sh.chains && st.preds[Root].op != Fail && kl <= sh.Depth()
    ensures st.preds[Root].first.SobCell?
    ensures var s := st.preds[Root].first.sob;
      && sh.chains[Root] != [] && sh.chains[Root][0] == SobCell(s)
      && s in st.sobs && s in sh.level && sh.level[s] == 1 && SubPred(s) in sh.under
      && All(sh) == sh.under[SubPred(s)] + Post(sh, SubPred(s), 1)
      && (!st.sobs[s].failed ==> Walkable(st, sh, kl) == Smooth(st, sh, s, 1, kl))
      && (st.sobs[s].failed ==> Walkable(st, sh, kl) == (|sh.chains[Root]| > 1 && SmoothAfter(st, sh, SubPred(s), 1, kl)))
      && FailsBelow(st, sh, Root, 0, kl) == FailsFrom(st, sh, s, 1, kl)
  {
    hide UnderPart, SobPart, ClausePart, FullPart, AllPart, SobOk, HomeOk, IsChain, OwnerOk, Flat, KindOk, SmoothBelow, SmoothAfter, FailsBelow, FailsAfter;
    RootFacts(st, sh);
    EndChild(st, sh, Root, 0);
    var s := st.preds[Root].first.sob;
    FirstBelow(st, sh, Root, s);
    PostRoot(sh);
    RootAfter(st, sh, kl);
    SmoothDown(st, sh, Root, s, 0, kl);
    assert All(sh) + [] == All(sh);
  }

  /** clause the call can match after clause c, which was found through the same index */
  method NextClref(p: DynPred, c: nat, key: Key, indLevel: nat) returns (r: Option<nat>, wild: bool, stale: bool)
    requires p.Valid() && KeyOk(p.index, key) && indLevel == Usable(p.index, key, 0)
    requires c in p.heads && Matches(p.St(), p.sh, key, indLevel, c)
    ensures WalkTo(p.St(), p.sh, key, indLevel, Later(All(p.sh), c),
      AfterClause(p.St(), p.sh, c, indLevel), FailsSince(p.St(), p.sh, c, indLevel), r, wild, stale)
  {
    hide Storage, Tree, Flat, Post, KindOk, Cands, IsChain, Distinct, Smooth, SmoothAfter, AfterClause, SmoothBelow, Skippable, LeafSays, SobAt, FailsFrom, FailsAfter, FailsSince;
    ghost var st, sh := p.St(), p.sh;
    RootFacts(st, sh);
    if indLevel == 0 {
      CandsAll(st, sh, key, Later(All(sh), c));
      ghost var s, k := ClauseWords(st, sh, c);
      LeafNext(st, sh, c, s, k);
      if p.cells[ClauseCell(c)].op == Dyntrymeelse || p.cells[ClauseCell(c)].op == Dynretrymeelse {
        return Some(p.cells[ClauseCell(c)].next.clause), false, false;
      }
      r, wild, stale := NextLeaf(p, p.cells[ClauseCell(c)].next.sob, key);
    } else {
      ghost var s, h, k := IndexWords(st, sh, key, indLevel, c);
      BucketNext(st, sh, s, h, k, c, indLevel);
      if p.cells[IndCell(c, indLevel)].op == Dyntrymeelse || p.cells[IndCell(c, indLevel)].op == Dynretrymeelse {
        return Some(p.cells[IndCell(c, indLevel)].next.clause), false, false;
      }
      var sob := p.cells[IndCell(c, indLevel)].next.sob;
      var step;
      step, stale := NextSob(p, sob, indLevel, key, indLevel);
      if step.Wild? { return None, true, true; }
      if step.Done? {
        CandsNone(st, sh, key, indLevel);
        return None, false, stale;
      }
      var stale1;
      r, wild, stale1 := FirstClauseSob(p, step.sob, step.level, key, indLevel);
      stale := stale || stale1;
    }
  }

  /** the first clause after leaf s, in the chains of all clauses */
  method NextLeaf(p: DynPred, s: nat, key: Key) returns (r: Option<nat>, wild: bool, stale: bool)
    requires p.Valid() && KeyOk(p.index, key) && Usable(p.index, key, 0) == 0
    requires Attached(p.St(), p.sh, s) && s in p.sh.level && p.sh.level[s] == p.sh.Depth()
    ensures WalkTo(p.St(), p.sh, key, 0, Post(p.sh, SubPred(s), p.sh.Depth()),
      SmoothAfter(p.St(), p.sh, SubPred(s), p.sh.Depth(), 0), FailsAfter(p.St(), p.sh, SubPred(s), p.sh.Depth(), 0), r, wild, stale)
  {
    hide Storage, Tree, Flat, Post, KindOk, Cands, Smooth, SmoothAfter, AfterClause, SmoothBelow, Skippable, FailsFrom, FailsAfter, FailsSince;
    ghost var st, sh := p.St(), p.sh;
    ghost var rest, smooth := Post(sh, SubPred(s), sh.Depth()), SmoothAfter(st, sh, SubPred(s), sh.Depth(), 0);
    CandsAll(st, sh, key, rest);
    var step;
    step, stale := NextSob(p, s, |p.index|, key, 0);
    match step {
      case Done => return None, false, stale;
      case Wild => return None, true, true;
      case AtClause(d) => return Some(d), false, stale;
      case AtSob(t, l) =>
        var cur := t;
        var level := l;
        while level < |p.index|
          invariant At(st, sh, cur, level, 0) && level <= |p.index|
          invariant rest == sh.under[SubPred(cur)] + Post(sh, SubPred(cur), level) && smooth == Smooth(st, sh, cur, level, 0)
          invariant PassedTo(FailsAfter(st, sh, SubPred(s), sh.Depth(), 0), FailsFrom(st, sh, cur, level, 0), false, stale)
        {
          DownWords(st, sh, cur);
          DownSmooth(st, sh, cur, 0);
          cur := p.preds[SubPred(cur)].first.sob;
          level := level + 1;
          if p.sobs[cur].failed {
            FailedCounts(st, sh, cur, level, 0);
            return None, true, true;
          }
        }
        DownWords(st, sh, cur);
        DownClause(st, sh, cur);
        return Some(p.preds[SubPred(cur)].first.clause), false, stale;
    }
  }

  /** The clauses of one leaf are followed by the same records. */
  lemma LeafNext(st: Store, sh: Shape, c: nat, s: nat, k: nat)
    requires Storage(st, sh) && Tree(st, sh, Settled, {}) && LeafSays(st, sh, c, s, k) && c in st.heads
    ensures Attached(st, sh, s) && s in sh.level && sh.level[s] == sh.Depth() > 0 && ClauseCell(c) in st.cells
    ensures AfterClause(st, sh, c, 0) == SmoothAfter(st, sh, SubPred(s), sh.Depth(), 0)
    ensures FailsSince(st, sh, c, 0) == FailsAfter(st, sh, SubPred(s), sh.Depth(), 0)
    ensures var x := st.cells[ClauseCell(c)];
      if x.op == Dyntrymeelse || x.op == Dynretrymeelse then
        && x.next.ClauseCell? && First(Later(All(sh), c)) == Some(x.next.clause)
        && AfterClause(st, sh, x.next.clause, 0) == AfterClause(st, sh, c, 0) && FailsSince(st, sh, x.next.clause, 0) == FailsSince(st, sh, c, 0)
      else x.next == SobCell(s) && Later(All(sh), c) == Post(sh, SubPred(s), sh.Depth())
  {
    hide Storage, Tree, Later, Post, SmoothAfter, IsChain, SobAt, FailsAfter;
    var xs := sh.chains[SubPred(s)];
    SobPositive(st, sh, s);
    assert xs[k] in xs;
    LeafAttached(st, sh, s, c);
    LeafClauseAt(st, sh, s, c);
    AfterIsSob(st, sh, c, s, 0);
    if k < |xs| - 1 {
      assert xs[k + 1] in xs;
      LeafNextCell(st, sh, c, s, k);
      LeafClauseAt(st, sh, s, xs[k + 1].clause);
      AfterIsSob(st, sh, xs[k + 1].clause, s, 0);
    }
  }

  lemma LeafNextCell(st: Store, sh: Shape, c: nat, s: nat, k: nat)
    requires Storage(st, sh) && LeafSays(st, sh, c, s, k) && k < |sh.chains[SubPred(s)]| - 1
    ensures st.cells[ClauseCell(c)].next == sh.chains[SubPred(s)][k + 1]
  {
    hide Storage, IsChain, Later, Post;
    LeafIs(st, sh, s);
    OwnerChain(st, sh, SubPred(s));
    PlaceOf(st.cells, sh.chains[SubPred(s)], false, SobCell(s), SobCell(s), k);
  }

  lemma LeafIs(st: Store, sh: Shape, s: nat)
    requires Storage(st, sh) && s in sh.level && sh.level[s] == sh.Depth()
    ensures !IsSob(sh, SubPred(s)) && Before(sh, SubPred(s)) == SobCell(s) && IndexShape.After(sh, SubPred(s)) == SobCell(s)
  {
  }

  /** A clause on the chain of leaf s has its record there. */
  lemma LeafClauseAt(st: Store, sh: Shape, s: nat, c: nat)
    requires Storage(st, sh) && Tree(st, sh, Settled, {}) && SubPred(s) in sh.chains && ClauseCell(c) in sh.chains[SubPred(s)]
    requires s in st.sobs && SubPred(s) in sh.under
    ensures SobAt(sh, c, sh.Depth()) == s && c in st.heads
  {
    hide UnderPart, SobPart, FullPart, AllPart, Storage, Path, SobAt;
    ChainCellsOf(st, sh, SubPred(s));
    if c !in st.heads { HomeHeads(st, sh, c); }
    assert ClauseOk(sh, Settled, c);
    DepthPositive(st, sh);
  }

  lemma DepthPositive(st: Store, sh: Shape)
    requires Storage(st, sh)
    ensures sh.Depth() > 0
  {
  }

  lemma LeafAttached(st: Store, sh: Shape, s: nat, c: nat)
    requires Storage(st, sh) && Tree(st, sh, Settled, {}) && s in st.sobs && SubPred(s) in sh.chains && ClauseCell(c) in sh.chains[SubPred(s)]
    ensures Attached(st, sh, s) && !st.sobs[s].failed && SubPred(s) in sh.under
  {
    hide Storage, Tree, Flat;
    FailedEmpty(st, sh, s);
    UnderSettled(st, sh, SubPred(s));
    var k :| 0 <= k < |sh.chains[SubPred(s)]| && sh.chains[SubPred(s)][k] == ClauseCell(c);
    FlatMember(sh.chains[SubPred(s)], k, sh.under, c);
    AliveParent(st, sh, s);
  }

  /** The clauses of one bucket are followed by the same records. */
  lemma BucketNext(st: Store, sh: Shape, s: nat, h: nat, k: nat, c: nat, l: nat)
    requires Storage(st, sh) && Tree(st, sh, Settled, {}) && s in st.sobs && s in sh.level && sh.level[s] == l > 0
    requires Bucket(s, h) in sh.chains && k < |sh.chains[Bucket(s, h)]| && sh.chains[Bucket(s, h)][k] == IndCell(c, l)
    ensures Attached(st, sh, s) && AfterClause(st, sh, c, l) == SmoothAfter(st, sh, SubPred(s), l, l) && IndCell(c, l) in st.cells
    ensures FailsSince(st, sh, c, l) == FailsAfter(st, sh, SubPred(s), l, l)
    ensures k < |sh.chains[Bucket(s, h)]| - 1 ==>
      var x := st.cells[IndCell(c, l)].next;
      x.IndCell? && AfterClause(st, sh, x.clause, l) == AfterClause(st, sh, c, l) && FailsSince(st, sh, x.clause, l) == FailsSince(st, sh, c, l)
  {
    hide Storage, Tree, SmoothAfter, FailsAfter, IsChain, SobTree, InSlot;
    var xs := sh.chains[Bucket(s, h)];
    ChainCellsOf(st, sh, Bucket(s, h));
    BucketFacts(st, sh, s, h);
    assert xs[k] in xs;
    OwnerChain(st, sh, Bucket(s, h));
    PlaceOf(st.cells, xs, false, Bucket(s, h), SobCell(s), k);
    AfterIsSob(st, sh, c, s, l);
    SobTreeAt(st, sh, s);
    FailedEmpty(st, sh, s);
    BucketClause(st, sh, Bucket(s, h), c, l);
    AliveParent(st, sh, s);
    if k < |xs| - 1 {
      assert xs[k + 1] in xs;
      AfterIsSob(st, sh, xs[k + 1].clause, s, l);
    }
  }

  /** Clause c is the k-th word on the all-chain of leaf s. */
  ghost predicate LeafAt(st: Store, sh: Shape, c: nat, s: nat, k: nat) {
    && ClauseCell(c) in st.cells && s in st.sobs && s in sh.level && sh.level[s] == sh.Depth()
    && SubPred(s) in sh.chains && k < |sh.chains[SubPred(s)]| && sh.chains[SubPred(s)][k] == ClauseCell(c)
    && st.cells[ClauseCell(c)].prev == (if k == 0 then SobCell(s) else sh.chains[SubPred(s)][k - 1])
    && (forall x :: x in sh.chains[SubPred(s)] ==> x.ClauseCell?)
  }

  /** What the words of a clause on its all-chain say about the clauses around it. */
  ghost predicate LeafSays(st: Store, sh: Shape, c: nat, s: nat, k: nat) {
    LeafAt(st, sh, c, s, k) &&
    var x, xs := st.cells[ClauseCell(c)], sh.chains[SubPred(s)];
    && (if k < |xs| - 1 then
          && (x.op == Dyntrymeelse || x.op == Dynretrymeelse)
          && x.next.ClauseCell? && Later(All(sh), c) != [] && Later(All(sh), c)[0] == x.next.clause
        else
          && x.op != Dyntrymeelse && x.op != Dynretrymeelse
          && x.next == SobCell(s) && Later(All(sh), c) == Post(sh, SubPred(s), sh.level[s]))
    && (k > 0 ==> AtIndex(All(sh), xs[k - 1].clause, c))
    && (k == 0 ==> All(sh) == Pre(sh, SubPred(s), sh.level[s]) + [c] + Later(All(sh), c))
  }

  lemma ClauseWords(st: Store, sh: Shape, c: nat) returns (s: nat, k: nat)
    requires Storage(st, sh) && Tree(st, sh, Settled, {}) && c in st.heads
    ensures LeafSays(st, sh, c, s, k)
  {
    hide UnderPart, SobPart, ClausePart, FullPart, AllPart, Storage, IsChain, Flat, Post, Pre, Distinct, KindOk, Later;
    s, k := LeafPlace(st, sh, c);
    var xs := sh.chains[SubPred(s)];
    LeafLevel(st, sh, s);
    OwnerChain(st, sh, SubPred(s));
    PlaceOf(st.cells, xs, false, SobCell(s), SobCell(s), k);
    assert xs[k] in xs;
    LeafCells(sh, s, c);
    LeafCut(st, sh, s, k, c);
    FlatClauses(xs[k + 1..], sh.under);
    FlatClauses(xs[..k], sh.under);
    if k > 0 {
      var a := Pre(sh, SubPred(s), sh.level[s]) + Flat(xs[..k], sh.under);
      assert All(sh)[|a|] == c && All(sh)[|a| - 1] == xs[k - 1].clause by {
        assert All(sh) == a + [c] + Later(All(sh), c);
        assert xs[..k][k - 1] == xs[k - 1];
      }
    } else {
      assert Flat(xs[..0], sh.under) == [];
    }
  }

  /** d stands immediately before c. */
  ghost predicate AtIndex(cs: seq<nat>, d: nat, c: nat) {
    exists i :: 0 < i < |cs| && cs[i - 1] == d && cs[i] == c
  }

  lemma LeafLevel(st: Store, sh: Shape, s: nat)
    requires Storage(st, sh) && SubPred(s) in sh.chains && !IsSob(sh, SubPred(s))
    ensures s in st.sobs && s in sh.level && sh.level[s] == sh.Depth() && HomeOk(sh)
    ensures Before(sh, SubPred(s)) == SobCell(s) && IndexShape.After(sh, SubPred(s)) == SobCell(s)
  {
    hide OwnerOk;
    SobPositive(st, sh, s);
  }

  lemma LeafCut(st: Store, sh: Shape, s: nat, k: nat, c: nat)
    requires Storage(st, sh) && Tree(st, sh, Settled, {}) && s in st.sobs && s in sh.level && sh.level[s] == sh.Depth()
    requires SubPred(s) in sh.chains && k < |sh.chains[SubPred(s)]| && sh.chains[SubPred(s)][k] == ClauseCell(c)
    requires forall x :: x in sh.chains[SubPred(s)] ==> x.ClauseCell?
    ensures var xs := sh.chains[SubPred(s)];
      && Later(All(sh), c) == Flat(xs[k + 1..], sh.under) + Post(sh, SubPred(s), sh.level[s])
      && All(sh) == Pre(sh, SubPred(s), sh.level[s]) + Flat(xs[..k], sh.under) + [c] + Later(All(sh), c)
  {
    hide SobPart, ClausePart, FullPart, Storage, IsChain, Post, Pre, KindOk, Flat, Later;
    var xs := sh.chains[SubPred(s)];
    assert UnderOk(sh, Settled, SubPred(s));
    assert xs[k] in xs;
    LeafAttached(st, sh, s, c);
    Cut(st, sh, SubPred(s));
    FlatDrop(xs, k, sh.under);
    var a := Pre(sh, SubPred(s), sh.level[s]) + Flat(xs[..k], sh.under);
    var b := Flat(xs[k + 1..], sh.under) + Post(sh, SubPred(s), sh.level[s]);
    assert Item(xs[k], sh.under) == [c];
    assert All(sh) == a + [c] + b;
    DistinctMiddle(a, c, b);
    LaterAt(a, c, b);
  }

  lemma DistinctMiddle(a: seq<nat>, c: nat, b: seq<nat>)
    requires Distinct(a + [c] + b)
    ensures c !in a
  {
    forall i | 0 <= i < |a| ensures a[i] != c {
      assert (a + [c] + b)[i] != (a + [c] + b)[|a|];
    }
  }

  lemma FlatClauses(xs: seq<Loc>, under: map<Loc, seq<nat>>)
    requires forall x :: x in xs ==> x.ClauseCell?
    ensures |Flat(xs, under)| == |xs|
    ensures forall i :: 0 <= i < |xs| ==> Flat(xs, under)[i] == xs[i].clause
  {
    if xs != [] {
      assert forall x :: x in xs[1..] ==> x in xs;
      assert xs[0] in xs;
      FlatClauses(xs[1..], under);
    }
  }

  // ---- the whole enumeration -------------------------------------------------------

  /** collect what first_clref and then next_clref return; wild if they leave the records on the way, stale if they
      read words of a failed record that were given back */
  method Enumerate(p: DynPred, key: Key) returns (cs: seq<nat>, wild: bool, stale: bool)
    requires p.Valid() && KeyOk(p.index, key)
    ensures wild <==> !Walkable(p.St(), p.sh, Usable(p.index, key, 0))
    ensures stale <==> MeetsFailed(p.St(), p.sh, Usable(p.index, key, 0))
    ensures wild ==> stale
    ensures !wild ==> cs == Cands(p.St(), p.sh, key, Usable(p.index, key, 0), All(p.sh))
  {
    hide Storage, Tree, Cands, Matches, Later, Distinct, First, Walkable, AfterClause, FailsBelow, FailsSince, MeetsFailed, WalkTo, All, SlotOf, Usable, KeyOk;
    ghost var st, sh, l := p.St(), p.sh, Usable(p.index, key, 0);
    var level := Usable(p.index, key, 0);
    cs := [];
    var r;
    r, wild, stale := FirstClref(p, key);
    ghost var all, rest, fails := All(sh), All(sh), FailsBelow(st, sh, Root, 0, l);
    ghost var j := 0;
    AllFacts(st, sh);
    CountIs(st, sh, l);
    while r.Some? && !wild
      invariant 0 <= j <= |all| && rest == all[j..]
      invariant WalkTo(st, sh, key, l, rest, Walkable(st, sh, l), fails, r, wild, stale)
      invariant cs + Cands(st, sh, key, l, rest) == Cands(st, sh, key, l, all)
      decreases |rest|, if wild then 0 else 1
    {
      WalkFound(st, sh, key, l, rest, Walkable(st, sh, l), fails, r, stale);
      ghost var k := EnumStep(st, sh, key, l, all, j, cs, r.value);
      cs := cs + [r.value];
      var r1, stale1;
      r1, wild, stale1 := NextClref(p, r.value, key, level);
      WalkOn(st, sh, key, l, rest, all[j + k + 1..], fails, r.value, stale, r1, wild, stale1);
      r, stale := r1, stale || stale1;
      j, rest := j + k + 1, all[j + k + 1..];
    }
    WalkEnd(st, sh, key, l, rest, fails, r, wild, stale);
  }

  lemma WalkFound(st: Store, sh: Shape, key: Key, kl: nat, rest: seq<nat>, smooth: bool, fails: nat, r: Option<nat>, stale: bool)
    requires WalkTo(st, sh, key, kl, rest, smooth, fails, r, false, stale)
    ensures First(Cands(st, sh, key, kl, rest)) == r
  {
  }

  /** From one candidate to the next. */
  lemma WalkOn(st: Store, sh: Shape, key: Key, kl: nat, rest: seq<nat>, rest1: seq<nat>, fails: nat, c: nat, stale: bool,
               r: Option<nat>, wild: bool, stale1: bool)
    requires WalkTo(st, sh, key, kl, rest, Walkable(st, sh, kl), fails, Some(c), false, stale)
    requires WalkTo(st, sh, key, kl, rest1, AfterClause(st, sh, c, kl), FailsSince(st, sh, c, kl), r, wild, stale1)
    ensures WalkTo(st, sh, key, kl, rest1, Walkable(st, sh, kl), fails, r, wild, stale || stale1)
  {
    hide Cands, First, Walkable, AfterClause, FailsSince;
  }

  lemma WalkEnd(st: Store, sh: Shape, key: Key, kl: nat, rest: seq<nat>, fails: nat, r: Option<nat>, wild: bool, stale: bool)
    requires WalkTo(st, sh, key, kl, rest, Walkable(st, sh, kl), fails, r, wild, stale) && (r.None? || wild)
    ensures (wild <==> !Walkable(st, sh, kl)) && (stale <==> fails > 0) && (wild ==> stale)
    ensures !wild ==> Cands(st, sh, key, kl, rest) == []
  {
    hide Cands, Walkable, AfterClause, FailsSince;
    FirstNone(Cands(st, sh, key, kl, rest));
  }

  lemma FirstNone(cs: seq<nat>)
    ensures First(cs) == None <==> cs == []
  {
  }

  /** The first candidate of what is left, and what is left after it. */
  lemma EnumStep(st: Store, sh: Shape, key: Key, l: nat, all: seq<nat>, j: nat, cs: seq<nat>, c: nat) returns (k: nat)
    requires j <= |all| && First(Cands(st, sh, key, l, all[j..])) == Some(c) && Distinct(all)
    requires cs + Cands(st, sh, key, l, all[j..]) == Cands(st, sh, key, l, all)
    ensures j + k < |all| && all[j + k] == c && Matches(st, sh, key, l, c) && Later(all, c) == all[j + k + 1..]
    ensures cs + [c] + Cands(st, sh, key, l, all[j + k + 1..]) == Cands(st, sh, key, l, all)
  {
    hide Matches, Distinct, Later, Cands;
    k := CandsFirst(st, sh, key, l, all[j..]);
    assert all[j..][k + 1..] == all[j + k + 1..] && all[j..][k] == all[j + k];
    LaterSuffix(all, j + k);
    assert cs + [c] + Cands(st, sh, key, l, all[j + k + 1..]) == cs + ([c] + Cands(st, sh, key, l, all[j + k + 1..]));
  }

  lemma AllFacts(st: Store, sh: Shape)
    requires Tree(st, sh, Settled, {})
    ensures Distinct(All(sh)) && forall c :: c in All(sh) ==> c in st.heads
  {
  }

  lemma CandsFirst(st: Store, sh: Shape, key: Key, l: nat, cs: seq<nat>) returns (k: nat)
    requires Cands(st, sh, key, l, cs) != []
    ensures k < |cs| && Matches(st, sh, key, l, cs[k]) && cs[k] == Cands(st, sh, key, l, cs)[0]
    ensures Cands(st, sh, key, l, cs) == [cs[k]] + Cands(st, sh, key, l, cs[k + 1..])
  {
    if Matches(st, sh, key, l, cs[0]) {
      k := 0;
    } else {
      k := CandsFirst(st, sh, key, l, cs[1..]);
      assert cs[1..][k + 1..] == cs[k + 2..];
      k := k + 1;
    }
  }

  lemma LaterSuffix(cs: seq<nat>, k: nat)
    requires Distinct(cs) && k < |cs|
    ensures Later(cs, cs[k]) == cs[k + 1..]
  {
    assert cs == cs[..k] + [cs[k]] + cs[k + 1..];
    LaterAt(cs[..k], cs[k], cs[k + 1..]);
  }

  // ---- previous_clref --------------------------------------------------------------

  /** The last record below s, on some level, has failed. */
  ghost predicate LastBad(st: Store, sh: Shape, s: nat, l: nat)
    decreases sh.Depth() - l
  {
    s in st.sobs &&
    (st.sobs[s].failed ||
     (l < sh.Depth() && SubPred(s) in sh.chains && sh.chains[SubPred(s)] != [] &&
      var xs := sh.chains[SubPred(s)]; xs[|xs| - 1].SobCell? && LastBad(st, sh, xs[|xs| - 1].sob, l + 1)))
  }

  /** The walk back from record s, at level l, meets a failed record. */
  ghost predicate PrevBad(st: Store, sh: Shape, s: nat, l: nat)
    decreases l
  {
    l > 0 && Parent(sh, SubPred(s)) in sh.chains &&
    var f := Parent(sh, SubPred(s)); var xs := sh.chains[f]; var k := Pos(xs, SobCell(s));
    k < |xs| &&
    (if k > 0 then xs[k - 1].SobCell? && LastBad(st, sh, xs[k - 1].sob, l) else f.SubPred? && PrevBad(st, sh, f.sob, l - 1))
  }

  /** Going back from c leaves the records: c is the first of its leaf, and back from there a failed record is met. */
  ghost predicate PrevWild(st: Store, sh: Shape, c: nat) {
    var s := SobAt(sh, c, sh.Depth());
    SubPred(s) in sh.chains && sh.chains[SubPred(s)] != [] && sh.chains[SubPred(s)][0] == ClauseCell(c) && PrevBad(st, sh, s, sh.Depth())
  }

  lemma PrevFirst(st: Store, sh: Shape, f: Loc, j: nat, s: nat, l: nat)
    requires ChainAt(st, sh, f, j, s, l) && l > 0 && Distinct(sh.chains[f])
    ensures j == 0 ==> (PrevBad(st, sh, s, l) <==> f.SubPred? && PrevBad(st, sh, f.sob, l - 1))
    ensures j > 0 ==> (PrevBad(st, sh, s, l) <==> sh.chains[f][j - 1].SobCell? && LastBad(st, sh, sh.chains[f][j - 1].sob, l))
  {
    hide LastBad;
    PosUnique(sh.chains[f], j);
  }

  /** clause before c in the whole predicate, or nothing at its beginning; wild if a failed record is in the way */
  method PreviousClref(p: DynPred, c: nat) returns (r: Option<nat>, wild: bool)
    requires p.Valid() && c in p.heads
    ensures wild <==> PrevWild(p.St(), p.sh, c)
    ensures !wild && r.Some? ==> AtIndex(All(p.sh), r.value, c)
    ensures !wild && r.None? ==> All(p.sh) != [] && All(p.sh)[0] == c
  {
    hide Storage, Tree, Flat, Post, Pre, KindOk, IsChain, Distinct, Later, PrevBad, LastBad, PrevWild;
    ghost var st, sh := p.St(), p.sh;
    ghost var s, k := ClauseWords(st, sh, c);
    ClauseOpening(st, sh, c, s, k);
    PrevWildIs(st, sh, c, s, k);
    var op := p.cells[ClauseCell(c)].op;
    if op == Dynnoop || op == Dyntrymeelse || op == Noop || op == Trymeelse {
      r, wild := PreviousLeaf(p, p.cells[ClauseCell(c)].prev.sob, c, All(sh), Later(All(sh), c));
      return;
    }
    return Some(p.cells[ClauseCell(c)].prev.clause), false;
  }

  lemma PrevWildIs(st: Store, sh: Shape, c: nat, s: nat, k: nat)
    requires Storage(st, sh) && Tree(st, sh, Settled, {}) && LeafSays(st, sh, c, s, k)
    ensures PrevWild(st, sh, c) <==> k == 0 && PrevBad(st, sh, s, sh.Depth())
    ensures Attached(st, sh, s)
  {
    hide Storage, Tree, Later, Post, IsChain, SobAt, PrevBad, Distinct;
    var xs := sh.chains[SubPred(s)];
    assert xs[k] in xs;
    LeafAttached(st, sh, s, c);
    LeafClauseAt(st, sh, s, c);
    ChainDistinct(st, sh, SubPred(s));
    FirstOnly(xs, k);
  }

  lemma FirstOnly(xs: seq<Loc>, k: nat)
    requires Distinct(xs) && k < |xs|
    ensures xs[0] == xs[k] ==> k == 0
  {
  }

  /** the last clause before leaf s, whose first clause is c */
  method PreviousLeaf(p: DynPred, s: nat, c: nat, ghost all: seq<nat>, ghost rest: seq<nat>) returns (r: Option<nat>, wild: bool)
    requires p.Valid() && Attached(p.St(), p.sh, s) && s in p.sh.level && p.sh.level[s] == p.sh.Depth()
    requires all == Pre(p.sh, SubPred(s), p.sh.Depth()) + [c] + rest
    ensures wild <==> PrevBad(p.St(), p.sh, s, p.sh.Depth())
    ensures !wild && r.Some? ==> AtIndex(all, r.value, c)
    ensures !wild && r.None? ==> all != [] && all[0] == c
  {
    hide Storage, Tree, Flat, Post, Pre, KindOk, IsChain, Distinct, PrevBad, LastBad;
    ghost var st, sh := p.St(), p.sh;
    var numInds := |p.index|;
    var sob := s;
    ghost var f: Loc, j: nat := SobWords(st, sh, sob);
    var op := p.cells[SobCell(sob)].op;
    while op == Dynnoop || op == Dyntrymeelse || op == Noop || op == Trymeelse
      invariant Attached(st, sh, sob) && sob in sh.level && sh.level[sob] == numInds && 1 <= numInds <= |p.index|
      invariant ChainAt(st, sh, f, j, sob, numInds) && op == p.cells[SobCell(sob)].op
      invariant p.cells[SobCell(sob)].prev == (if j == 0 then f else sh.chains[f][j - 1])
      invariant all == Pre(sh, SubPred(sob), numInds) + [c] + rest
      invariant PrevBad(st, sh, s, sh.Depth()) <==> PrevBad(st, sh, sob, numInds)
      decreases numInds
    {
      PreFirst(st, sh, f, sob, j);
      ChainDistinct(st, sh, f);
      PrevFirst(st, sh, f, j, sob, numInds);
      numInds := numInds - 1;
      if numInds == 0 {
        PreRoot(sh);
        return None, false;
      }
      sob := p.cells[SobCell(sob)].prev.sob;
      AliveAttached(st, sh, sob);
      f, j := SobWords(st, sh, sob);
      op := p.cells[SobCell(sob)].op;
    }
    NotFirst(j, |sh.chains[f]|);
    ChainDistinct(st, sh, f);
    PrevFirst(st, sh, f, j, sob, numInds);
    assert sh.chains[f][j - 1] in sh.chains[f];
    SameChain(st, sh, f, j - 1, sh.chains[f][j - 1].sob);
    ghost var pre := Pre(sh, SubPred(sob), numInds);
    if !p.sobs[p.cells[SobCell(sob)].prev.sob].failed { PrevSibling(st, sh, f, j, sob); }
    var x := p.cells[SobCell(sob)].prev;
    LastLevel(st, sh, x.sob, numInds);
    while x.SobCell?
      invariant x.SobCell? || x.ClauseCell?
      invariant x.SobCell? ==> Attached(st, sh, x.sob) && x.sob in sh.level && SubPred(x.sob) in sh.under && numInds <= sh.level[x.sob] <= sh.Depth()
      invariant x.SobCell? ==> (PrevBad(st, sh, s, sh.Depth()) <==> LastBad(st, sh, x.sob, sh.level[x.sob]))
      invariant x.SobCell? && !p.sobs[x.sob].failed ==> EndsLike(pre, sh, x.sob)
      invariant x.ClauseCell? ==> EndsWith(pre, x.clause) && !PrevBad(st, sh, s, sh.Depth())
      decreases if x.SobCell? && x.sob in sh.level then |p.index| + 1 - sh.level[x.sob] else 0
    {
      LastLevel(st, sh, x.sob, sh.level[x.sob]);
      if p.sobs[x.sob].failed { return None, true; }
      LastBelow(st, sh, x.sob);
      x := p.preds[SubPred(x.sob)].last;
      if x.SobCell? { LastLevel(st, sh, x.sob, sh.level[x.sob]); }
    }
    assert all[|pre|] == c && all[|pre| - 1] == x.clause;
    return Some(x.clause), false;
  }

  /** cs ends with the last clause below record s. */
  ghost predicate EndsLike(cs: seq<nat>, sh: Shape, s: nat) {
    SubPred(s) in sh.under && sh.under[SubPred(s)] != [] && EndsWith(cs, sh.under[SubPred(s)][|sh.under[SubPred(s)]| - 1])
  }

  lemma NotFirst(j: nat, n: nat)
    requires j < n && PosOp(true, j, n) != Dynnoop && PosOp(true, j, n) != Dyntrymeelse && PosOp(true, j, n) != Noop && PosOp(true, j, n) != Trymeelse
    ensures j > 0 && (PosOp(true, j, n) == Dynretrymeelse || PosOp(true, j, n) == Dyntrustmeelsefail)
  {
  }

  lemma LastLevel(st: Store, sh: Shape, s: nat, l: nat)
    requires Storage(st, sh) && Tree(st, sh, Settled, {}) && Attached(st, sh, s) && s in sh.level && sh.level[s] == l
    ensures 1 <= l <= sh.Depth()
    ensures st.sobs[s].failed ==> LastBad(st, sh, s, l)
    ensures SubPred(s) in sh.under && (st.sobs[s].failed <==> sh.under[SubPred(s)] == [])
  {
    hide Storage, Tree;
    SobPositive(st, sh, s);
    FailedEmpty(st, sh, s);
  }

  ghost predicate EndsWith(cs: seq<nat>, c: nat) {
    cs != [] && cs[|cs| - 1] == c
  }

  lemma PreRoot(sh: Shape)
    ensures Pre(sh, Root, 0) == []
  {
  }

  /** The opcode of a clause tells whether it is the first one of its record. */
  lemma ClauseOpening(st: Store, sh: Shape, c: nat, s: nat, k: nat)
    requires Storage(st, sh) && SubPred(s) in sh.chains && k < |sh.chains[SubPred(s)]| && sh.chains[SubPred(s)][k] == ClauseCell(c)
    requires s in sh.level && sh.level[s] == sh.Depth()
    ensures ClauseCell(c) in st.cells
    ensures var op := st.cells[ClauseCell(c)].op; (op == Dynnoop || op == Dyntrymeelse || op == Noop || op == Trymeelse) <==> k == 0
  {
    hide Storage, IsChain;
    OwnerChain(st, sh, SubPred(s));
    PlaceOf(st.cells, sh.chains[SubPred(s)], false, SobCell(s), SobCell(s), k);
  }

  /** Nothing precedes the first record of a chain but what precedes its parent. */
  lemma PreFirst(st: Store, sh: Shape, f: Loc, s: nat, j: nat)
    requires Storage(st, sh) && Tree(st, sh, Settled, {}) && f in sh.chains && j < |sh.chains[f]| && sh.chains[f][j] == SobCell(s)
    requires s in st.sobs && s in sh.level && LevelOf(sh, f) == sh.level[s] - 1 && f == Parent(sh, SubPred(s))
    requires PosOp(true, j, |sh.chains[f]|) == Noop || PosOp(true, j, |sh.chains[f]|) == Trymeelse
    ensures j == 0 && Pre(sh, SubPred(s), sh.level[s]) == Pre(sh, f, LevelOf(sh, f))
  {
    hide Tree, Storage, Flat, KindOk, Distinct, IsSob, Pre, PosOp, LevelOf;
    OpensFirst(j, |sh.chains[f]|);
    PreOnChain(st, sh, f, 0, s);
    FlatEmpty(sh.under);
    assert sh.chains[f][..0] == [];
  }

  lemma OpensFirst(j: nat, n: nat)
    requires j < n && (PosOp(true, j, n) == Noop || PosOp(true, j, n) == Trymeelse)
    ensures j == 0
  {
  }

  /** What precedes a later record ends with what is below the record before it. */
  lemma PrevSibling(st: Store, sh: Shape, f: Loc, j: nat, s: nat)
    requires Storage(st, sh) && Tree(st, sh, Settled, {}) && f in sh.chains && 0 < j < |sh.chains[f]| && sh.chains[f][j] == SobCell(s)
    requires s in st.sobs && s in sh.level && LevelOf(sh, f) == sh.level[s] - 1 && f == Parent(sh, SubPred(s)) && IsSob(sh, f)
    ensures sh.chains[f][j - 1].SobCell? && sh.chains[f][j - 1].sob in st.sobs
    ensures !st.sobs[sh.chains[f][j - 1].sob].failed ==> EndsLike(Pre(sh, SubPred(s), sh.level[s]), sh, sh.chains[f][j - 1].sob)
  {
    hide UnderPart, SobPart, FullPart, ClausePart, AllPart, Storage, Flat, KindOk, Distinct, IsSob;
    ChildFacts(st, sh, f, s);
    Place(st, sh, s);
    PosUnique(sh.chains[f], j);
    EndChild(st, sh, f, LevelOf(sh, f));
    var xs := sh.chains[f][..j];
    assert xs[j - 1] == sh.chains[f][j - 1] && sh.chains[f][j - 1] in sh.chains[f];
    ChildFacts(st, sh, f, xs[j - 1].sob);
    Place(st, sh, xs[j - 1].sob);
    FlatLast(xs, sh.under);
  }

  lemma FlatLast(xs: seq<Loc>, under: map<Loc, seq<nat>>)
    requires xs != []
    ensures Flat(xs, under) == Flat(xs[..|xs| - 1], under) + Item(xs[|xs| - 1], under)
  {
    FlatDrop(xs, |xs| - 1, under);
    assert xs[|xs| - 1 + 1..] == [];
  }

  /** The tail pointer of a record leads to its last child, or to its last clause. */
  lemma LastBelow(st: Store, sh: Shape, s: nat)
    requires Storage(st, sh) && Tree(st, sh, Settled, {}) && Attached(st, sh, s) && !st.sobs[s].failed
    ensures s in sh.level && 1 <= sh.level[s] <= sh.Depth() && SubPred(s) in st.preds && SubPred(s) in sh.under && sh.under[SubPred(s)] != []
    ensures var x := st.preds[SubPred(s)].last; var us := sh.under[SubPred(s)];
      && (x.SobCell? || x.ClauseCell?)
      && (x.SobCell? ==>
            && Attached(st, sh, x.sob) && x.sob in sh.level && sh.level[x.sob] == sh.level[s] + 1
            && (!st.sobs[x.sob].failed ==> EndsLike(us, sh, x.sob))
            && (LastBad(st, sh, s, sh.level[s]) <==> LastBad(st, sh, x.sob, sh.level[x.sob])))
      && (x.ClauseCell? ==> us[|us| - 1] == x.clause && !LastBad(st, sh, s, sh.level[s]))
  {
    hide Storage, UnderPart, SobPart, ClausePart, AllPart, IsChain, KindOk, Flat, Distinct, UnderOk;
    SobPositive(st, sh, s);
    Place(st, sh, s);
    OwnerChain(st, sh, SubPred(s));
    FailedEmpty(st, sh, s);
    var xs := sh.chains[SubPred(s)];
    var x := xs[|xs| - 1];
    assert x in xs;
    assert UnderPart(sh, Settled);
    SettledAt(sh, SubPred(s));
    FlatLast(xs, sh.under);
    if sh.level[s] < sh.Depth() {
      EndChild(st, sh, SubPred(s), sh.level[s]);
      SameChain(st, sh, SubPred(s), |xs| - 1, x.sob);
    } else {
      LeafCell(st, sh, s, x);
    }
  }

  lemma SettledAt(sh: Shape, o: Loc)
    requires UnderPart(sh, Settled) && o in sh.chains && !o.Bucket?
    ensures o in sh.under && sh.under[o] == Flat(sh.chains[o], sh.under)
  {
    assert UnderOk(sh, Settled, o);
  }

  lemma LeafCell(st: Store, sh: Shape, s: nat, x: Loc)
    requires Storage(st, sh) && SubPred(s) in sh.chains && x in sh.chains[SubPred(s)] && s in sh.level && sh.level[s] == sh.Depth()
    ensures x.ClauseCell?
  {
    hide OwnerOk, SobOk;
    assert KindOk(sh, SubPred(s), x);
  }

  // ---- clref_to_prref --------------------------------------------------------------

  /** predicate reference at the ends of the chain that record s is on */
  method SobToPrref(p: DynPred, s: nat) returns (o: Loc)
    requires p.Valid() && Attached(p.St(), p.sh, s)
    ensures o == Parent(p.sh, SubPred(s))
  {
    hide Storage, Tree, IsChain, KindOk;
    ghost var st, sh := p.St(), p.sh;
    var sob := s;
    ghost var f: Loc, k: nat := SobWords(st, sh, sob);
    ghost var f0 := f;
    while p.cells[SobCell(sob)].op == Dynretrymeelse
      invariant Attached(st, sh, sob) && f == f0 && f in sh.chains && k < |sh.chains[f]| && sh.chains[f][k] == SobCell(sob) && Alive(st, f)
      invariant SobCell(sob) in p.cells && p.cells[SobCell(sob)].op == PosOp(true, k, |sh.chains[f]|)
      invariant p.cells[SobCell(sob)].prev == (if k == 0 then f else sh.chains[f][k - 1])
      invariant p.cells[SobCell(sob)].next == (if k == |sh.chains[f]| - 1 then f else sh.chains[f][k + 1])
      invariant forall x :: x in sh.chains[f] ==> x.SobCell? && x.sob in p.sobs
      decreases k
    {
      assert sh.chains[f][k - 1] in sh.chains[f];
      sob := p.cells[SobCell(sob)].prev.sob;
      SameChain(st, sh, f, k - 1, sob);
      ghost var g: Loc, j: nat := SobWords(st, sh, sob);
      SamePlace(st, sh, f, k - 1, g, j);
      f, k := g, j;
    }
    if p.cells[SobCell(sob)].op == Dyntrustmeelsefail {
      return p.cells[SobCell(sob)].next;
    }
    return p.cells[SobCell(sob)].prev;
  }

  lemma SamePlace(st: Store, sh: Shape, f: Loc, k: nat, g: Loc, j: nat)
    requires Storage(st, sh) && f in sh.chains && g in sh.chains && k < |sh.chains[f]| && j < |sh.chains[g]|
    requires sh.chains[f][k] == sh.chains[g][j]
    ensures f == g && k == j
  {
    hide Storage, Distinct;
    assert sh.chains[f][k] in sh.chains[f] && sh.chains[g][j] in sh.chains[g];
    if f != g { OneOwner(st, sh, f, g, sh.chains[f][k]); }
    ChainDistinct(st, sh, f);
    PosUnique(sh.chains[f], k);
    PosUnique(sh.chains[f], j);
  }

  /** predicate reference that owns clause c: along its first bucket to the record, then to the chain's end */
  method ClrefToPrref(p: DynPred, c: nat) returns (o: Loc)
    requires p.Valid() && c in p.heads
    ensures o == Root
  {
    hide Storage, Tree, IsChain, KindOk, Distinct, InSlot;
    ghost var st, sh := p.St(), p.sh;
    RootFacts(st, sh);
    LevelSlot(st, sh, c, 1);
    IndexCellHome(st, sh, c, 1);
    ghost var s, h := SobAt(sh, c, 1), sh.home[IndCell(c, 1)].slot;
    ghost var xs := sh.chains[Bucket(s, h)];
    ghost var k :| 0 <= k < |xs| && xs[k] == IndCell(c, 1);
    OwnerChain(st, sh, Bucket(s, h));
    var cur := IndCell(c, 1);
    PlaceOf(st.cells, xs, false, Bucket(s, h), SobCell(s), k);
    if p.cells[cur].op != Dynnoop {
      while p.cells[cur].op != Dyntrustmeelsefail
        invariant 0 <= k < |xs| && xs[k] == cur && cur in p.cells && |xs| > 1
        invariant p.cells[cur].op == PosOp(false, k, |xs|)
        invariant p.cells[cur].next == (if k == |xs| - 1 then SobCell(s) else xs[k + 1])
        decreases |xs| - k
      {
        cur := p.cells[cur].next;
        k := k + 1;
        PlaceOf(st.cells, xs, false, Bucket(s, h), SobCell(s), k);
      }
    }
    LevelAlive(st, sh, c, 1);
    o := SobToPrref(p, p.cells[cur].next.sob);
    ghost var f, j := SobWords(st, sh, s);
  }

  /** The records on the path of a clause have not failed. */
  lemma LevelAlive(st: Store, sh: Shape, c: nat, l: nat)
    requires Storage(st, sh) && Tree(st, sh, Settled, {}) && c in st.heads && 1 <= l <= sh.Depth()
    ensures Attached(st, sh, SobAt(sh, c, l)) && !st.sobs[SobAt(sh, c, l)].failed
  {
    hide Storage, Tree, InSlot;
    LevelSlot(st, sh, c, l);
    FailedEmpty(st, sh, SobAt(sh, c, l));
    AliveParent(st, sh, SobAt(sh, c, l));
  }
}
