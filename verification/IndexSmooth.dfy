/** When the walk through an index with failed records stays on the records: no chain that is walked to its end may
    end in a failed record, and none may begin with one that the walk goes down into. */
module IndexSmooth {
  import opened Chains
  import opened IndexShape
  import opened IndexTree
  import opened IndexOrder

  ghost predicate FailedCell(st: Store, x: Loc) {
    x.SobCell? && x.sob in st.sobs && st.sobs[x.sob].failed
  }

  /** The level whose records are looked into: that of the index of the call, or the last one. */
  function WalkLevel(sh: Shape, kl: nat): nat {
    if kl == 0 then sh.Depth() else kl
  }

  /** A record at level l is gone down into without a look at its opcode. */
  predicate Blind(kl: nat, l: nat) {
    l > 1 && (kl == 0 || l < kl)
  }

  /** The chain xs of records at level l can be walked from its beginning to its end. */
  ghost predicate ChainSmooth(st: Store, xs: seq<Loc>, l: nat, kl: nat) {
    xs != [] ==> !FailedCell(st, xs[|xs| - 1]) && (Blind(kl, l) ==> !FailedCell(st, xs[0]))
  }

  /** Everything below o, at level l, can be walked. */
  ghost predicate SmoothBelow(st: Store, sh: Shape, o: Loc, l: nat, kl: nat)
    decreases WalkLevel(sh, kl) - l
  {
    l >= WalkLevel(sh, kl) || o !in sh.chains ||
    (&& ChainSmooth(st, sh.chains[o], l + 1, kl)
     && forall x :: x in sh.chains[o] && x.SobCell? && !FailedCell(st, x) ==> SmoothBelow(st, sh, SubPred(x.sob), l + 1, kl))
  }

  /** The cells xs, all at level l, can be walked to the end. */
  ghost predicate RestSmooth(st: Store, sh: Shape, xs: seq<Loc>, l: nat, kl: nat) {
    && (xs != [] ==> !FailedCell(st, xs[|xs| - 1]))
    && forall x :: x in xs && x.SobCell? && !FailedCell(st, x) ==> SmoothBelow(st, sh, SubPred(x.sob), l, kl)
  }

  /** Everything after record o, at level l, can be walked. */
  ghost predicate SmoothAfter(st: Store, sh: Shape, o: Loc, l: nat, kl: nat)
    decreases l
  {
    l == 0 || !o.SubPred? || Parent(sh, o) !in sh.chains || SobCell(o.sob) !in sh.chains[Parent(sh, o)] ||
    (var xs := sh.chains[Parent(sh, o)];
     RestSmooth(st, sh, xs[Pos(xs, SobCell(o.sob)) + 1..], l, kl) && SmoothAfter(st, sh, Parent(sh, o), l - 1, kl))
  }

  /** From record s on, at level l. */
  ghost predicate Smooth(st: Store, sh: Shape, s: nat, l: nat, kl: nat) {
    (FailedCell(st, SobCell(s)) || SmoothBelow(st, sh, SubPred(s), l, kl)) && SmoothAfter(st, sh, SubPred(s), l, kl)
  }

  /** From the clause after c on. */
  ghost predicate AfterClause(st: Store, sh: Shape, c: nat, kl: nat) {
    SmoothAfter(st, sh, OwnerAt(sh, c, WalkLevel(sh, kl)), WalkLevel(sh, kl), kl)
  }

  /** The whole index. */
  ghost predicate Walkable(st: Store, sh: Shape, kl: nat) {
    SmoothBelow(st, sh, Root, 0, kl)
  }

  // ---- failed records on the way: the word with their opcode has been given back --------------------

  /** How many failed records the walk passes on the cells xs, at level l, and below them. */
  ghost function FailsIn(st: Store, sh: Shape, xs: seq<Loc>, l: nat, kl: nat): nat
    decreases WalkLevel(sh, kl) - l, |xs|
  {
    if xs == [] then 0
    else
      (if !xs[0].SobCell? then 0 else if FailedCell(st, xs[0]) then 1 else FailsBelow(st, sh, SubPred(xs[0].sob), l, kl))
      + FailsIn(st, sh, xs[1..], l, kl)
  }

  ghost function FailsBelow(st: Store, sh: Shape, o: Loc, l: nat, kl: nat): nat
    decreases WalkLevel(sh, kl) - l, 0
  {
    if l >= WalkLevel(sh, kl) || o !in sh.chains then 0 else FailsIn(st, sh, sh.chains[o], l + 1, kl)
  }

  /** After record o, at level l. */
  ghost function FailsAfter(st: Store, sh: Shape, o: Loc, l: nat, kl: nat): nat
    decreases l
  {
    if l == 0 || !o.SubPred? || Parent(sh, o) !in sh.chains || SobCell(o.sob) !in sh.chains[Parent(sh, o)] then 0
    else
      var xs := sh.chains[Parent(sh, o)];
      FailsIn(st, sh, xs[Pos(xs, SobCell(o.sob)) + 1..], l, kl) + FailsAfter(st, sh, Parent(sh, o), l - 1, kl)
  }

  /** From record s on, at level l. */
  ghost function FailsFrom(st: Store, sh: Shape, s: nat, l: nat, kl: nat): nat {
    (if FailedCell(st, SobCell(s)) then 1 else FailsBelow(st, sh, SubPred(s), l, kl)) + FailsAfter(st, sh, SubPred(s), l, kl)
  }

  /** From the clause after c on. */
  ghost function FailsSince(st: Store, sh: Shape, c: nat, kl: nat): nat {
    FailsAfter(st, sh, OwnerAt(sh, c, WalkLevel(sh, kl)), WalkLevel(sh, kl), kl)
  }

  /** A failed record lies on a chain that the walk passes. */
  ghost predicate MeetsFailed(st: Store, sh: Shape, kl: nat) {
    exists s :: MetFailed(st, sh, s, kl)
  }

  ghost predicate MetFailed(st: Store, sh: Shape, s: nat, kl: nat) {
    Attached(st, sh, s) && st.sobs[s].failed && s in sh.level && sh.level[s] <= WalkLevel(sh, kl)
  }

  /** A failed record that is met first on its chain: others come after it. */
  ghost predicate Skippable(st: Store, sh: Shape, s: nat, l: nat) {
    && l > 1 && Parent(sh, SubPred(s)) in sh.chains
    && var xs := sh.chains[Parent(sh, SubPred(s))]; xs != [] && xs[|xs| - 1] != SobCell(s)
  }

  // ---- one step along a chain ---------------------------------------------------------------------

  lemma RestHead(st: Store, sh: Shape, xs: seq<Loc>, l: nat, kl: nat)
    requires xs != [] && xs[0].SobCell?
    ensures !FailedCell(st, xs[0]) ==>
      (RestSmooth(st, sh, xs, l, kl) <==> SmoothBelow(st, sh, SubPred(xs[0].sob), l, kl) && RestSmooth(st, sh, xs[1..], l, kl))
    ensures FailedCell(st, xs[0]) ==> (RestSmooth(st, sh, xs, l, kl) <==> |xs| > 1 && RestSmooth(st, sh, xs[1..], l, kl))
  {
    hide SmoothBelow, FailedCell;
    assert xs == [xs[0]] + xs[1..];
  }

  lemma AfterIs(st: Store, sh: Shape, f: Loc, k: nat, s: nat, l: nat, kl: nat)
    requires Storage(st, sh) && f in sh.chains && k < |sh.chains[f]| && sh.chains[f][k] == SobCell(s) && l > 0
    ensures SmoothAfter(st, sh, SubPred(s), l, kl) <==>
      RestSmooth(st, sh, sh.chains[f][k + 1..], l, kl) && SmoothAfter(st, sh, f, l - 1, kl)
    ensures FailsAfter(st, sh, SubPred(s), l, kl) == FailsIn(st, sh, sh.chains[f][k + 1..], l, kl) + FailsAfter(st, sh, f, l - 1, kl)
  {
    hide Storage, RestSmooth, Distinct, FailsIn;
    assert sh.chains[f][k] in sh.chains[f];
    ParentIs(st, sh, f, s);
    ChainDistinct(st, sh, f);
    PosUnique(sh.chains[f], k);
  }

  /** Across to the next record t. */
  lemma SmoothNext(st: Store, sh: Shape, f: Loc, k: nat, s: nat, t: nat, l: nat, kl: nat)
    requires Storage(st, sh) && f in sh.chains && k + 1 < |sh.chains[f]| && l > 0
    requires sh.chains[f][k] == SobCell(s) && sh.chains[f][k + 1] == SobCell(t)
    ensures !FailedCell(st, SobCell(t)) ==> (SmoothAfter(st, sh, SubPred(s), l, kl) <==> Smooth(st, sh, t, l, kl))
    ensures FailedCell(st, SobCell(t)) ==>
      (SmoothAfter(st, sh, SubPred(s), l, kl) <==> k + 2 < |sh.chains[f]| && SmoothAfter(st, sh, SubPred(t), l, kl))
    ensures FailsAfter(st, sh, SubPred(s), l, kl) == FailsFrom(st, sh, t, l, kl)
  {
    hide Storage, RestSmooth, SmoothAfter, SmoothBelow, FailedCell, FailsAfter, FailsBelow, FailsIn;
    AfterIs(st, sh, f, k, s, l, kl);
    AfterIs(st, sh, f, k + 1, t, l, kl);
    var ys := sh.chains[f][k + 1..];
    assert ys[1..] == sh.chains[f][k + 2..];
    RestHead(st, sh, ys, l, kl);
    FailsHead(st, sh, ys, l, kl);
  }

  lemma FailsHead(st: Store, sh: Shape, xs: seq<Loc>, l: nat, kl: nat)
    requires xs != [] && xs[0].SobCell?
    ensures FailsIn(st, sh, xs, l, kl) ==
      (if FailedCell(st, xs[0]) then 1 else FailsBelow(st, sh, SubPred(xs[0].sob), l, kl)) + FailsIn(st, sh, xs[1..], l, kl)
  {
    hide FailedCell, FailsBelow;
  }

  /** Up from the last record of a chain. */
  lemma SmoothLast(st: Store, sh: Shape, f: Loc, s: nat, l: nat, kl: nat)
    requires Storage(st, sh) && f in sh.chains && sh.chains[f] != [] && sh.chains[f][|sh.chains[f]| - 1] == SobCell(s) && l > 0
    ensures SmoothAfter(st, sh, SubPred(s), l, kl) <==> SmoothAfter(st, sh, f, l - 1, kl)
    ensures FailsAfter(st, sh, SubPred(s), l, kl) == FailsAfter(st, sh, f, l - 1, kl)
  {
    hide Storage, SmoothAfter, FailsAfter;
    var k := |sh.chains[f]| - 1;
    AfterIs(st, sh, f, k, s, l, kl);
    assert sh.chains[f][k + 1..] == [];
  }

  /** Down from o to its first record s. */
  lemma SmoothDown(st: Store, sh: Shape, o: Loc, s: nat, l: nat, kl: nat)
    requires Storage(st, sh) && o in sh.chains && sh.chains[o] != [] && sh.chains[o][0] == SobCell(s) && l < WalkLevel(sh, kl)
    ensures var all := SmoothBelow(st, sh, o, l, kl) && SmoothAfter(st, sh, o, l, kl);
      && (!FailedCell(st, SobCell(s)) ==> (all <==> Smooth(st, sh, s, l + 1, kl)))
      && (FailedCell(st, SobCell(s)) ==> (all <==> !Blind(kl, l + 1) && |sh.chains[o]| > 1 && Smooth(st, sh, s, l + 1, kl)))
    ensures FailsBelow(st, sh, o, l, kl) + FailsAfter(st, sh, o, l, kl) == FailsFrom(st, sh, s, l + 1, kl)
  {
    hide Storage, SmoothAfter, FailedCell, FailsAfter, FailsIn;
    AfterIs(st, sh, o, 0, s, l + 1, kl);
    FailsHead(st, sh, sh.chains[o], l + 1, kl);
    RestHead(st, sh, sh.chains[o], l + 1, kl);
    BelowIs(st, sh, o, l, kl);
  }

  lemma BelowIs(st: Store, sh: Shape, o: Loc, l: nat, kl: nat)
    requires o in sh.chains && sh.chains[o] != [] && l < WalkLevel(sh, kl)
    ensures SmoothBelow(st, sh, o, l, kl) <==>
      RestSmooth(st, sh, sh.chains[o], l + 1, kl) && (Blind(kl, l + 1) ==> !FailedCell(st, sh.chains[o][0]))
  {
  }

  /** Records at the level that is looked into have nothing below them to walk. */
  lemma SmoothLeaf(st: Store, sh: Shape, s: nat, l: nat, kl: nat)
    requires l == WalkLevel(sh, kl)
    ensures Smooth(st, sh, s, l, kl) <==> SmoothAfter(st, sh, SubPred(s), l, kl)
    ensures FailsFrom(st, sh, s, l, kl) == FailsAfter(st, sh, SubPred(s), l, kl) + if FailedCell(st, SobCell(s)) then 1 else 0
  {
  }

  lemma RootAfter(st: Store, sh: Shape, kl: nat)
    ensures SmoothAfter(st, sh, Root, 0, kl) && FailsAfter(st, sh, Root, 0, kl) == 0
  {
  }

  /** Below a record that has not failed a first record that has is not the only one. */
  lemma FirstSkippable(st: Store, sh: Shape, o: Loc, s: nat)
    requires Storage(st, sh) && Tree(st, sh, Settled, {}) && Alive(st, o) && o.SubPred? && o in sh.chains && IsSob(sh, o)
    requires sh.chains[o] != [] && sh.chains[o][0] == SobCell(s) && FailedCell(st, SobCell(s))
    ensures |sh.chains[o]| > 1 && Skippable(st, sh, s, LevelOf(sh, o) + 1) && Parent(sh, SubPred(s)) == o
  {
    hide Storage, Tree, Flat, Distinct, KindOk;
    var xs := sh.chains[o];
    assert xs[0] in xs;
    FailedEmpty(st, sh, o.sob);
    FailedEmpty(st, sh, s);
    UnderSettled(st, sh, o);
    ParentIs(st, sh, o, s);
    if |xs| == 1 {
      assert xs == [SobCell(s)];
      FlatSingle(SobCell(s), sh.under);
    }
    ChainDistinct(st, sh, o);
    LastNotFirst(xs);
    LevelPositive(st, sh, o);
  }

  lemma LevelPositive(st: Store, sh: Shape, o: Loc)
    requires Storage(st, sh) && o.SubPred? && o.sob in st.sobs
    ensures LevelOf(sh, o) >= 1
  {
    SobPositive(st, sh, o.sob);
  }

  lemma LastNotFirst(xs: seq<Loc>)
    requires Distinct(xs) && |xs| > 1
    ensures xs[|xs| - 1] != xs[0]
  {
  }

  lemma UnderSettled(st: Store, sh: Shape, o: Loc)
    requires Tree(st, sh, Settled, {}) && o in sh.chains && !o.Bucket?
    ensures o in sh.under && sh.under[o] == Flat(sh.chains[o], sh.under)
  {
    assert UnderOk(sh, Settled, o);
  }

  // ---- what the counts say ---------------------------------------------------------------------------

  /** A record on the chain of o, which has not failed and is at level l, is one that the walk looks at. */
  lemma OnPassed(st: Store, sh: Shape, o: Loc, l: nat, x: Loc, kl: nat)
    requires Storage(st, sh) && Alive(st, o) && o in sh.chains && LevelOf(sh, o) == l < WalkLevel(sh, kl) <= sh.Depth() && x in sh.chains[o]
    ensures x.SobCell? && Attached(st, sh, x.sob) && x.sob in sh.level && sh.level[x.sob] == l + 1
    ensures SubPred(x.sob) in sh.chains && LevelOf(sh, SubPred(x.sob)) == l + 1
    ensures FailedCell(st, x) ==> MeetsFailed(st, sh, kl)
    ensures !FailedCell(st, x) ==> Alive(st, SubPred(x.sob))
  {
    hide Storage, Distinct, KindOk;
    AliveIsSob(st, sh, o, l);
    EndChild(st, sh, o, l);
    ChildFacts(st, sh, o, x.sob);
    ParentIs(st, sh, o, x.sob);
    if FailedCell(st, x) { assert MetFailed(st, sh, x.sob, kl); }
  }

  lemma AliveIsSob(st: Store, sh: Shape, o: Loc, l: nat)
    requires Storage(st, sh) && Alive(st, o) && LevelOf(sh, o) == l < sh.Depth()
    ensures IsSob(sh, o)
  {
    hide OwnerOk, SobOk, HomeOk;
  }

  /** A failed record below o, which has not failed, is met. */
  lemma {:induction false} CountMeets(st: Store, sh: Shape, o: Loc, l: nat, xs: seq<Loc>, kl: nat)
    requires Storage(st, sh) && Alive(st, o) && o in sh.chains && LevelOf(sh, o) == l < WalkLevel(sh, kl) <= sh.Depth()
    requires (forall x :: x in xs ==> x in sh.chains[o]) && FailsIn(st, sh, xs, l + 1, kl) > 0
    ensures MeetsFailed(st, sh, kl)
    decreases WalkLevel(sh, kl) - l, |xs|
  {
    hide Storage, FailedCell, MeetsFailed, Attached, LevelOf, FailsIn, Alive;
    if xs == [] { FailsNone(st, sh, l + 1, kl); }
    OnPassed(st, sh, o, l, xs[0], kl);
    FailsHead(st, sh, xs, l + 1, kl);
    if !FailedCell(st, xs[0]) {
      if FailsIn(st, sh, xs[1..], l + 1, kl) > 0 {
        CountMeets(st, sh, o, l, xs[1..], kl);
      } else {
        var o1 := SubPred(xs[0].sob);
        CountMeets(st, sh, o1, l + 1, sh.chains[o1], kl);
      }
    }
  }

  lemma FailsNone(st: Store, sh: Shape, l: nat, kl: nat)
    ensures FailsIn(st, sh, [], l, kl) == 0
  {
  }

  lemma {:induction false} FailsMember(st: Store, sh: Shape, xs: seq<Loc>, x: Loc, l: nat, kl: nat)
    requires x in xs && x.SobCell?
    ensures FailsIn(st, sh, xs, l, kl) >= if FailedCell(st, x) then 1 else FailsBelow(st, sh, SubPred(x.sob), l, kl)
  {
    hide FailedCell, FailsBelow;
    if xs[0] != x { FailsMember(st, sh, xs[1..], x, l, kl); }
  }

  /** What is met below a record is met below the predicate. */
  lemma {:induction false} CountClimbs(st: Store, sh: Shape, s: nat, kl: nat)
    requires Storage(st, sh) && Tree(st, sh, Settled, {}) && Attached(st, sh, s) && s in sh.level && sh.level[s] <= WalkLevel(sh, kl)
    requires st.sobs[s].failed || FailsBelow(st, sh, SubPred(s), sh.level[s], kl) > 0
    ensures FailsBelow(st, sh, Root, 0, kl) > 0
    decreases if s in sh.level then sh.level[s] else 0
  {
    hide Storage, Tree, Distinct, KindOk, Flat, FailsIn;
    Place(st, sh, s);
    var f := Parent(sh, SubPred(s));
    FailsMember(st, sh, sh.chains[f], SobCell(s), sh.level[s], kl);
    LevelIs(sh, f);
    if f.SubPred? {
      AliveParent(st, sh, f.sob);
      CountClimbs(st, sh, f.sob, kl);
    }
  }

  lemma LevelIs(sh: Shape, f: Loc)
    ensures f == Root ==> LevelOf(sh, f) == 0
    ensures f.SubPred? && f.sob in sh.level ==> LevelOf(sh, f) == sh.level[f.sob]
  {
  }

  /** The count for the whole index tells whether a failed record is met. */
  lemma CountIs(st: Store, sh: Shape, kl: nat)
    requires Storage(st, sh) && Tree(st, sh, Settled, {}) && kl <= sh.Depth()
    ensures FailsBelow(st, sh, Root, 0, kl) > 0 <==> MeetsFailed(st, sh, kl)
  {
    hide Storage, Tree, Attached, FailsIn;
    RootFacts(st, sh);
    LevelIs(sh, Root);
    if FailsBelow(st, sh, Root, 0, kl) > 0 {
      CountMeets(st, sh, Root, 0, sh.chains[Root], kl);
    }
    if MeetsFailed(st, sh, kl) {
      var s :| MetFailed(st, sh, s, kl);
      CountClimbs(st, sh, s, kl);
    }
  }

  /** An index in which no failed record is met can be walked. */
  lemma CleanWalkable(st: Store, sh: Shape, kl: nat)
    requires Storage(st, sh) && Tree(st, sh, Settled, {}) && kl <= sh.Depth() && !MeetsFailed(st, sh, kl)
    ensures Walkable(st, sh, kl)
  {
    hide Storage, Tree, MeetsFailed, SmoothBelow;
    RootFacts(st, sh);
    LevelIs(sh, Root);
    CleanBelow(st, sh, Root, 0, kl);
  }

  lemma {:induction false} CleanBelow(st: Store, sh: Shape, o: Loc, l: nat, kl: nat)
    requires Storage(st, sh) && Alive(st, o) && o in sh.chains && LevelOf(sh, o) == l && WalkLevel(sh, kl) <= sh.Depth() && !MeetsFailed(st, sh, kl)
    ensures SmoothBelow(st, sh, o, l, kl)
    decreases WalkLevel(sh, kl) - l
  {
    hide Storage, MeetsFailed, Alive, LevelOf;
    if l < WalkLevel(sh, kl) {
      var xs := sh.chains[o];
      forall x | x in xs ensures x.SobCell? && !FailedCell(st, x) && SmoothBelow(st, sh, SubPred(x.sob), l + 1, kl) {
        OnPassed(st, sh, o, l, x, kl);
        CleanBelow(st, sh, SubPred(x.sob), l + 1, kl);
      }
      assert xs != [] ==> xs[0] in xs && xs[|xs| - 1] in xs;
    }
  }
}
