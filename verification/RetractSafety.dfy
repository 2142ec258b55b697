/** When a retracted clause may be removed physically although choice points are live. */
module RetractSafety {
  import opened Chains
  import opened IndexShape
  import opened IndexTree
  import opened IndexOrder
  import opened IndexChange
  import opened IndexSmooth
  import opened ClauseStore

  /** What the next-alternative word of a choice point points at. */
  datatype Alt =
    | Dynamic(cell: Loc)   // a cell of one of the predicate's chains
    | Blocked              // inside a dynamic clause body, or inside clause/2
    | Other                // any other instruction

  /** The record whose header is marked: a clause, or an index record. */
  function Base(x: Loc): Loc {
    match x
    case IndCell(c, _) => ClauseCell(c)
    case _ => x
  }

  predicate IsDynamicClauseInst(op: Op) {
    op == Dynretrymeelse || op == Dyntrustmeelsefail
  }

  /** A pending alternative: on a chain, but not its first cell. */
  ghost predicate Resumable(sh: Shape, x: Loc) {
    && x in sh.home && sh.home[x] in sh.chains
    && x in sh.chains[sh.home[x]] && sh.chains[sh.home[x]][0] != x
  }

  /** The cells tried from x to the end of its chain. */
  ghost function Rest(sh: Shape, x: Loc): seq<Loc>
    requires Resumable(sh, x)
  {
    var xs := sh.chains[sh.home[x]];
    xs[Pos(xs, x)..]
  }

  /** Exactly the pending alternatives hold a retry or trust instruction. */
  lemma ResumableOp(st: Store, sh: Shape, x: Loc)
    requires Storage(st, sh) && x in sh.home
    ensures x in st.cells
    ensures Resumable(sh, x) <==> IsDynamicClauseInst(st.cells[x].op)
  {
    hide OwnerOk, SobOk, KindOk, IsChain;
    var xs := sh.chains[sh.home[x]];
    var k :| 0 <= k < |xs| && xs[k] == x;
    ChainDistinct(st, sh, sh.home[x]);
    OwnerChain(st, sh, sh.home[x]);
    PlaceOf(st.cells, xs, IsSob(sh, sh.home[x]), Before(sh, sh.home[x]), IndexShape.After(sh, sh.home[x]), k);
    assert x in xs;
  }

  /** A word of a failed record is among those tried from x on: its instruction has been given back. */
  ghost predicate RunsFailed(st: Store, sh: Shape, x: Loc)
    requires Resumable(sh, x)
  {
    AnyFailed(st, Rest(sh, x))
  }

  ghost predicate AnyFailed(st: Store, xs: seq<Loc>) {
    exists y :: y in xs && FailedCell(st, y)
  }

  /** Backtracking into a choice point, again and again until it is popped: no try instruction is met, so the choice
      point is never pushed a second time. stale tells that an instruction is executed that has been given back. */
  method Backtrack(p: DynPred, alt: Loc) returns (tried: seq<Loc>, stale: bool)
    requires p.Valid() && Resumable(p.sh, alt)
    ensures tried == Rest(p.sh, alt)
    ensures stale <==> RunsFailed(p.St(), p.sh, alt)
  {
    hide Storage, Tree, IsChain, Distinct, KindOk, AnyFailed;
    ghost var st, sh := p.St(), p.sh;
    ghost var o := sh.home[alt];
    ghost var xs := sh.chains[o];
    ghost var i := Pos(xs, alt);
    ghost var i0 := i;
    OwnerChain(st, sh, o);
    tried, stale := [], false;
    assert !AnyFailed(st, tried) by { NoneFailedYet(st); }
    var pc := alt;
    PlaceOf(st.cells, xs, IsSob(sh, o), Before(sh, o), IndexShape.After(sh, o), i);
    while p.cells[pc].op == Dynretrymeelse
      invariant 0 < i < |xs| && i0 <= i && xs[i] == pc && pc in p.cells
      invariant p.cells[pc].op == PosOp(IsSob(sh, o), i, |xs|)
      invariant p.cells[pc].next == (if i == |xs| - 1 then IndexShape.After(sh, o) else xs[i + 1])
      invariant tried == xs[i0..i] && (stale <==> AnyFailed(st, tried))
      decreases |xs| - i
    {
      FailedMore(st, tried, pc);
      stale := stale || (pc.SobCell? && pc.sob in p.sobs && p.sobs[pc.sob].failed);
      tried := tried + [pc];
      pc := p.cells[pc].next;
      i := i + 1;
      PlaceOf(st.cells, xs, IsSob(sh, o), Before(sh, o), IndexShape.After(sh, o), i);
    }
    assert p.cells[pc].op == Dyntrustmeelsefail && i == |xs| - 1;
    FailedMore(st, tried, pc);
    stale := stale || (pc.SobCell? && pc.sob in p.sobs && p.sobs[pc.sob].failed);
    tried := tried + [pc];
    assert xs[i0..] == xs[i0..i] + [xs[i]];
  }

  lemma NoneFailedYet(st: Store)
    ensures !AnyFailed(st, [])
  {
  }

  lemma FailedMore(st: Store, xs: seq<Loc>, x: Loc)
    ensures AnyFailed(st, xs + [x]) <==> AnyFailed(st, xs) || FailedCell(st, x)
  {
    if FailedCell(st, x) { assert x in xs + [x]; }
    if y :| y in xs && FailedCell(st, y) { assert y in xs + [x]; }
  }

  // ---- the marking phase -----------------------------------------------------------

  /** The clauses and records that choice points rest on, unless one blocks the deletion. */
  ghost predicate Marks(cps: seq<Alt>, n: nat, marked: set<Loc>) {
    && n <= |cps|
    && (forall i :: 0 <= i < n && cps[i].Dynamic? ==> Base(cps[i].cell) in marked)
    && (forall m :: m in marked ==> exists i :: 0 <= i < n && cps[i].Dynamic? && Base(cps[i].cell) == m)
  }

  /** walk the choice point stack from the top, marking; stop at the clause itself or at a blocker */
  method MarkCpstackRetract(p: DynPred, cps: seq<Alt>, c: nat) returns (foundMatch: bool, marked: set<Loc>)
    requires p.Valid()
    requires forall i :: 0 <= i < |cps| && cps[i].Dynamic? ==> Resumable(p.sh, cps[i].cell)
    ensures foundMatch <==> exists i :: 0 <= i < |cps| && (cps[i].Blocked? || (cps[i].Dynamic? && Base(cps[i].cell) == ClauseCell(c)))
    ensures !foundMatch ==> Marks(cps, |cps|, marked)
  {
    hide Storage, Tree, Resumable;
    foundMatch, marked := false, {};
    var i := 0;
    while i < |cps| && !foundMatch
      invariant 0 <= i <= |cps|
      invariant !foundMatch ==> Marks(cps, i, marked)
      invariant !foundMatch ==> forall j :: 0 <= j < i ==> !(cps[j].Blocked? || (cps[j].Dynamic? && Base(cps[j].cell) == ClauseCell(c)))
      invariant foundMatch ==> exists j :: 0 <= j < i && (cps[j].Blocked? || (cps[j].Dynamic? && Base(cps[j].cell) == ClauseCell(c)))
    {
      match cps[i] {
        case Dynamic(cell) =>
          AltCell(p.St(), p.sh, cell);
          if IsDynamicClauseInst(p.cells[cell].op) {
            if Base(cell) == ClauseCell(c) {
              foundMatch := true;
            } else {
              MarkStep(cps, i, marked);
              marked := marked + {Base(cell)};
            }
          }
        case Blocked =>
          foundMatch := true;
        case Other =>
      }
      i := i + 1;
    }
  }

  lemma AltCell(st: Store, sh: Shape, x: Loc)
    requires Storage(st, sh) && Resumable(sh, x)
    ensures x in st.cells && IsDynamicClauseInst(st.cells[x].op)
  {
    hide Storage, Resumable;
    assert x in sh.home by { ResumableHome(sh, x); }
    ResumableOp(st, sh, x);
  }

  lemma ResumableHome(sh: Shape, x: Loc)
    requires Resumable(sh, x)
    ensures x in sh.home
  {
  }

  lemma MarkStep(cps: seq<Alt>, i: nat, marked: set<Loc>)
    requires i < |cps| && cps[i].Dynamic? && Marks(cps, i, marked)
    ensures Marks(cps, i + 1, marked + {Base(cps[i].cell)})
  {
    forall m | m in marked + {Base(cps[i].cell)} ensures exists j :: 0 <= j < i + 1 && cps[j].Dynamic? && Base(cps[j].cell) == m {
      if m in marked {
        var j :| 0 <= j < i && cps[j].Dynamic? && Base(cps[j].cell) == m;
      }
    }
  }

  // ---- the safety test -------------------------------------------------------------

  /** Unlinking x turns no marked cell into the first one of its chain. */
  ghost predicate SafeAt(sh: Shape, marked: set<Loc>, x: Loc) {
    x in sh.home && sh.home[x] in sh.chains ==>
      var xs := sh.chains[sh.home[x]];
      |xs| > 1 && xs[0] == x ==> Base(xs[1]) !in marked
  }

  /** look at the clause and at the cells behind it, on every chain it opens */
  method DetermineIfSafeToDelete(p: DynPred, c: nat, marked: set<Loc>) returns (safe: bool)
    requires p.Valid() && c in p.heads
    ensures safe <==>
      && ClauseCell(c) !in marked && SafeAt(p.sh, marked, ClauseCell(c))
      && forall l :: 1 <= l <= |p.index| ==> SafeAt(p.sh, marked, IndCell(c, l))
  {
    hide Storage, Tree, SafeAt;
    ghost var st, sh := p.St(), p.sh;
    if ClauseCell(c) in marked {
      return false;
    }
    OpeningWords(st, sh, c, marked, 0);
    var op := p.cells[ClauseCell(c)].op;
    if (op == Trymeelse || op == Dyntrymeelse) && p.cells[ClauseCell(c)].next in marked {
      return false;
    }
    var i := |p.index|;
    while i >= 1
      invariant 0 <= i <= |p.index|
      invariant forall l :: i < l <= |p.index| ==> SafeAt(sh, marked, IndCell(c, l))
    {
      OpeningWords(st, sh, c, marked, i);
      var ip := IndCell(c, i);
      if p.cells[ip].op == Trymeelse || p.cells[ip].op == Dyntrymeelse {
        if Base(p.cells[ip].next) in marked {
          return false;
        }
      }
      i := i - 1;
    }
    return true;
  }

  /** The cell of clause c on its all-chain (l == 0) or on its level-l bucket chain. */
  function CellAt(c: nat, l: nat): Loc {
    if l == 0 then ClauseCell(c) else IndCell(c, l)
  }

  lemma CellHome(st: Store, sh: Shape, c: nat, l: nat)
    requires Storage(st, sh) && Tree(st, sh, Settled, {}) && c in st.heads && l <= sh.Depth()
    ensures CellAt(c, l) in sh.home && sh.home[CellAt(c, l)] in sh.chains && CellAt(c, l) in sh.chains[sh.home[CellAt(c, l)]]
    ensures !IsSob(sh, sh.home[CellAt(c, l)])
  {
    hide Storage, Tree, Distinct, KindOk;
    if l == 0 {
      var s, k := LeafPlace(st, sh, c);
      assert sh.chains[SubPred(s)][k] in sh.chains[SubPred(s)];
      ChainCellsOf(st, sh, SubPred(s));
    } else {
      IndexCellHome(st, sh, c, l);
    }
  }

  lemma OpeningWords(st: Store, sh: Shape, c: nat, marked: set<Loc>, l: nat)
    requires Storage(st, sh) && Tree(st, sh, Settled, {}) && c in st.heads && l <= sh.Depth()
    ensures CellAt(c, l) in st.cells
    ensures var x := st.cells[CellAt(c, l)];
      SafeAt(sh, marked, CellAt(c, l)) <==> !((x.op == Trymeelse || x.op == Dyntrymeelse) && Base(x.next) in marked)
    ensures l == 0 ==> Base(st.cells[ClauseCell(c)].next) == st.cells[ClauseCell(c)].next
  {
    hide Storage, Tree, IsChain, KindOk, Distinct;
    CellHome(st, sh, c, l);
    var o := sh.home[CellAt(c, l)];
    var xs := sh.chains[o];
    var k :| 0 <= k < |xs| && xs[k] == CellAt(c, l);
    OwnerChain(st, sh, o);
    PlaceOf(st.cells, xs, false, Before(sh, o), IndexShape.After(sh, o), k);
    ChainDistinct(st, sh, o);
    if k > 0 { DistinctHead(xs, k); }
    if l == 0 { AllChainNext(st, sh, c); }
  }

  lemma DistinctHead(xs: seq<Loc>, k: nat)
    requires Distinct(xs) && 0 < k < |xs|
    ensures xs[0] != xs[k]
  {
  }

  lemma AllChainNext(st: Store, sh: Shape, c: nat)
    requires Storage(st, sh) && Tree(st, sh, Settled, {}) && c in st.heads
    ensures ClauseCell(c) in st.cells && (st.cells[ClauseCell(c)].next.ClauseCell? || st.cells[ClauseCell(c)].next.SobCell?)
  {
    hide Storage, Tree, IsChain, KindOk, Distinct, HomeOk;
    var s, k := LeafPlace(st, sh, c);
    LeafOwner(st, sh, s, ClauseCell(c));
    assert sh.chains[SubPred(s)][k] in sh.chains[SubPred(s)];
    LeafCells(sh, s, c);
    OwnerChain(st, sh, SubPred(s));
    PlaceOf(st.cells, sh.chains[SubPred(s)], false, SobCell(s), SobCell(s), k);
  }

  lemma LeafOwner(st: Store, sh: Shape, s: nat, x: Loc)
    requires Storage(st, sh) && SubPred(s) in sh.chains && !IsSob(sh, SubPred(s))
    ensures HomeOk(sh) && Before(sh, SubPred(s)) == SobCell(s) && IndexShape.After(sh, SubPred(s)) == SobCell(s)
  {
    hide OwnerOk, SobOk;
  }

  // ---- what a physical deletion does to pending alternatives -----------------------

  /** The clauses tried through the cells xs: a record stands for all clauses below it. */
  ghost function Tried(sh: Shape, xs: seq<Loc>): seq<nat> {
    if xs == [] then [] else TriedAt(sh, xs[0]) + Tried(sh, xs[1..])
  }

  ghost function TriedAt(sh: Shape, x: Loc): seq<nat> {
    match x
    case IndCell(c, _) => [c]
    case _ => Item(x, sh.under)
  }

  /** Two moments of one predicate, with clause c physically deleted between them. */
  ghost predicate Deleted(st0: Store, sh0: Shape, st1: Store, sh1: Shape, c: nat) {
    && Storage(st0, sh0) && Tree(st0, sh0, Settled, {}) && Storage(st1, sh1) && Tree(st1, sh1, Settled, {})
    && Shrunk(sh0, sh1) && sh1.index == sh0.index && c in st0.heads && st1.heads == st0.heads - {c}
    && forall s :: SobCell(s) in sh0.home && SobCell(s) !in sh1.home ==> s in st0.sobs && !st0.sobs[s].failed
  }

  /** Cells of other clauses stay. */
  lemma OthersStay(st0: Store, sh0: Shape, st1: Store, sh1: Shape, c: nat, x: Loc)
    requires Deleted(st0, sh0, st1, sh1, c) && x in sh0.home && (x.ClauseCell? || x.IndCell?) && x.clause != c
    ensures x in sh1.home
  {
    hide Storage, Tree, Shrunk;
    if x.clause !in st0.heads { HomeHeads(st0, sh0, x.clause); }
    if x.IndCell? { IndLevel(st0, sh0, x); }
    CellHome(st1, sh1, x.clause, if x.ClauseCell? then 0 else x.level);
  }

  lemma IndLevel(st: Store, sh: Shape, x: Loc)
    requires Storage(st, sh) && x in sh.home && x.IndCell?
    ensures 1 <= x.level <= sh.Depth()
  {
    hide OwnerOk, SobOk;
    assert x in sh.chains[sh.home[x]] && KindOk(sh, sh.home[x], x);
    SobPositive(st, sh, sh.home[x].sob);
  }

  /** A record that went had nothing but c below it; it stood on c's path. */
  lemma GoneRecord(st0: Store, sh0: Shape, st1: Store, sh1: Shape, c: nat, s: nat)
    requires Deleted(st0, sh0, st1, sh1, c) && SobCell(s) in sh0.home && SobCell(s) !in sh1.home
    ensures s in st0.sobs && s in sh0.level && SubPred(s) in sh0.under
    ensures Without(sh0.under[SubPred(s)], c) == [] && c in sh0.under[SubPred(s)]
    ensures SobAt(sh0, c, sh0.level[s]) == s
  {
    hide Storage, Tree, Shrunk, SobTree, HomeOk;
    ChainedSob(st0, sh0, s);
    Place(st0, sh0, s);
    var cs := sh0.under[SubPred(s)];
    forall d | d in cs ensures d == c {
      SobTreeOf(st0, sh0, s);
      BelowAt(st0, sh0, s, d);
      if d != c {
        OthersStay(st0, sh0, st1, sh1, c, IndCell(d, sh0.level[s]));
        KeptOwner(st0, sh0, st1, sh1, c, s, IndCell(d, sh0.level[s]));
      }
    }
    assert cs[0] in cs;
    SobTreeOf(st0, sh0, s);
    BelowAt(st0, sh0, s, c);
    WithoutMembers(cs, c);
    Has(Without(cs, c));
  }

  lemma SobTreeOf(st: Store, sh: Shape, s: nat)
    requires Tree(st, sh, Settled, {}) && s in st.sobs
    ensures SobTree(st, sh, s) && Placed(st, sh, s)
  {
    hide UnderPart, ClausePart, AllPart, FullPart, SobTree;
  }

  lemma ChainedSob(st: Store, sh: Shape, s: nat)
    requires Storage(st, sh) && SobCell(s) in sh.home
    ensures s in st.sobs
  {
    hide OwnerOk, SobOk;
    assert SobCell(s) in sh.chains[sh.home[SobCell(s)]] && KindOk(sh, sh.home[SobCell(s)], SobCell(s));
  }

  lemma KeptOwner(st0: Store, sh0: Shape, st1: Store, sh1: Shape, c: nat, s: nat, x: Loc)
    requires Deleted(st0, sh0, st1, sh1, c) && x in sh1.home && x in sh0.home && sh0.home[x].Bucket? && sh0.home[x].sob == s && x.IndCell?
    ensures SobCell(s) in sh1.home
  {
    hide OwnerOk, SobOk, SobTree, KindOk, UnderPart, ClausePart, AllPart, FullPart, Filled, BucketOf;
    assert sh1.home[x] == sh0.home[x];
    KindAt(st1, sh1, x);
    SlotExists(st1, sh1, sh1.home[x]);
    SobTreeOf(st1, sh1, s);
    BucketClause(st1, sh1, sh1.home[x], x.clause, x.level);
    FailedEmpty(st1, sh1, s);
  }

  lemma TriedConcat(sh: Shape, a: seq<Loc>, b: seq<Loc>)
    ensures Tried(sh, a + b) == Tried(sh, a) + Tried(sh, b)
  {
    if a == [] { assert a + b == b; } else { assert (a + b)[1..] == a[1..] + b; }
  }

  lemma TriedOne(sh: Shape, x: Loc)
    ensures Tried(sh, [x]) == TriedAt(sh, x) && Tried(sh, []) == []
  {
    assert [x][1..] == [];
  }

  /** A cell contributes what it did before, without c. */
  ghost predicate Contributes(sh0: Shape, sh1: Shape, x: Loc, c: nat) {
    Without(TriedAt(sh0, x), c) == if x in sh1.home then TriedAt(sh1, x) else []
  }

  lemma ItemsShrink(sh0: Shape, sh1: Shape, xs: seq<Loc>, c: nat)
    requires forall x :: x in xs ==> Contributes(sh0, sh1, x, c)
    ensures Tried(sh1, Kept(xs, sh1.home)) == Without(Tried(sh0, xs), c)
  {
    hide TriedAt;
    if xs != [] {
      assert xs[0] in xs && forall x :: x in xs[1..] ==> x in xs;
      ItemsShrink(sh0, sh1, xs[1..], c);
      WithoutConcat(TriedAt(sh0, xs[0]), Tried(sh0, xs[1..]), c);
      TriedOne(sh1, xs[0]);
      TriedConcat(sh1, if xs[0] in sh1.home then [xs[0]] else [], Kept(xs[1..], sh1.home));
    }
  }

  lemma TriedFlat(sh: Shape, xs: seq<Loc>)
    requires forall x :: x in xs ==> !x.IndCell?
    ensures Tried(sh, xs) == Flat(xs, sh.under)
  {
    if xs != [] {
      assert xs[0] in xs && forall x :: x in xs[1..] ==> x in xs;
      TriedFlat(sh, xs[1..]);
    }
  }

  lemma ClauseContributes(st0: Store, sh0: Shape, st1: Store, sh1: Shape, c: nat, x: Loc)
    requires Deleted(st0, sh0, st1, sh1, c) && x in sh0.home && (x.ClauseCell? || x.IndCell?)
    ensures Contributes(sh0, sh1, x, c)
  {
    hide Storage, Tree, Shrunk, HomeOk;
    if x.clause != c {
      OthersStay(st0, sh0, st1, sh1, c, x);
      WithoutAbsent([x.clause], c);
    } else {
      HomeHeads(st1, sh1, c);
      WithoutSelf(c);
    }
  }

  lemma RecordContributes(st0: Store, sh0: Shape, st1: Store, sh1: Shape, c: nat, s: nat)
    requires Deleted(st0, sh0, st1, sh1, c) && SobCell(s) in sh0.home
    requires SobCell(s) in sh1.home ==>
      SubPred(s) in sh0.under && SubPred(s) in sh1.under && sh1.under[SubPred(s)] == Without(sh0.under[SubPred(s)], c)
    ensures Contributes(sh0, sh1, SobCell(s), c)
  {
    hide Storage, Tree, Shrunk, HomeOk;
    if SobCell(s) !in sh1.home { GoneRecord(st0, sh0, st1, sh1, c, s); }
  }

  /** Below every record that stays, exactly c is gone. */
  lemma UnderShrinks(st0: Store, sh0: Shape, st1: Store, sh1: Shape, c: nat, o: Loc)
    requires Deleted(st0, sh0, st1, sh1, c) && o in sh1.chains && !o.Bucket?
    ensures o in sh0.under && o in sh1.under && sh1.under[o] == Without(sh0.under[o], c)
    ensures LevelOf(sh0, o) == LevelOf(sh1, o) <= sh0.Depth()
    decreases sh0.Depth() - LevelOf(sh0, o)
  {
    hide Storage, Tree, Kept, Flat, Tried, TriedAt, Contributes, HomeOk, Without;
    OwnerLevels(st0, sh0, st1, sh1, c, o);
    var xs := sh0.chains[o];
    forall x | x in xs ensures Contributes(sh0, sh1, x, c) {
      if x.SobCell? {
        if x in sh1.home {
          ChildLevel(st0, sh0, st1, sh1, c, o, x.sob);
          UnderShrinks(st0, sh0, st1, sh1, c, SubPred(x.sob));
        }
        RecordContributes(st0, sh0, st1, sh1, c, x.sob);
      } else {
        ClauseContributes(st0, sh0, st1, sh1, c, x);
      }
    }
    ItemsShrink(sh0, sh1, xs, c);
    KeptSub(xs, sh1.home);
    TriedFlat(sh0, xs);
    TriedFlat(sh1, Kept(xs, sh1.home));
  }

  lemma KeptSub(xs: seq<Loc>, home: map<Loc, Loc>)
    ensures forall x :: x in Kept(xs, home) <==> x in xs && x in home
  {
    if xs != [] {
      KeptSub(xs[1..], home);
      assert xs == [xs[0]] + xs[1..];
    }
  }

  lemma OwnerLevels(st0: Store, sh0: Shape, st1: Store, sh1: Shape, c: nat, o: Loc)
    requires Deleted(st0, sh0, st1, sh1, c) && o in sh1.chains && !o.Bucket?
    ensures o in sh0.chains && LevelOf(sh0, o) == LevelOf(sh1, o) <= sh0.Depth()
    ensures o in sh0.under && sh0.under[o] == Flat(sh0.chains[o], sh0.under)
    ensures o in sh1.under && sh1.under[o] == Flat(sh1.chains[o], sh1.under)
    ensures sh1.chains[o] == Kept(sh0.chains[o], sh1.home)
    ensures forall x :: x in sh0.chains[o] ==> x in sh0.home && !x.IndCell? && (x.SobCell? || x.ClauseCell?)
  {
    hide SobPart, ClausePart, AllPart, OwnerOk, Kept, Flat, UnderOk, SobOk;
    SettledAt2(sh0, o);
    SettledAt2(sh1, o);
    forall x | x in sh0.chains[o] ensures x in sh0.home && !x.IndCell? && (x.SobCell? || x.ClauseCell?) {
      assert KindOk(sh0, o, x);
    }
    if o.SubPred? {
      SobPositive(st0, sh0, o.sob);
      SobPositive(st1, sh1, o.sob);
    }
  }

  lemma SettledAt2(sh: Shape, o: Loc)
    requires UnderPart(sh, Settled) && o in sh.chains && !o.Bucket?
    ensures o in sh.under && sh.under[o] == Flat(sh.chains[o], sh.under)
  {
    assert UnderOk(sh, Settled, o);
  }

  lemma KindAt(st: Store, sh: Shape, x: Loc)
    requires Storage(st, sh) && x in sh.home
    ensures sh.home[x] in sh.chains && x in sh.chains[sh.home[x]] && KindOk(sh, sh.home[x], x)
  {
    hide OwnerOk, SobOk, KindOk;
  }

  lemma ChildLevel(st0: Store, sh0: Shape, st1: Store, sh1: Shape, c: nat, o: Loc, s: nat)
    requires Deleted(st0, sh0, st1, sh1, c) && o in sh0.chains && !o.Bucket? && SobCell(s) in sh0.chains[o] && SobCell(s) in sh1.home
    ensures SubPred(s) in sh1.chains && LevelOf(sh0, SubPred(s)) == LevelOf(sh0, o) + 1 <= sh0.Depth()
  {
    hide Storage, Tree, Kept;
    ChainedSob(st1, sh1, s);
    ChainedSob0(st0, sh0, o, s);
    SobPositive(st1, sh1, s);
    SobPositive(st0, sh0, s);
  }

  lemma ChainedSob0(st: Store, sh: Shape, o: Loc, s: nat)
    requires Storage(st, sh) && o in sh.chains && !o.Bucket? && SobCell(s) in sh.chains[o]
    ensures s in st.sobs && s in sh.level && sh.level[s] == LevelOf(sh, o) + 1
  {
    hide OwnerOk, SobOk;
    assert KindOk(sh, o, SobCell(s));
  }

  /** From one chain a deletion takes at most one cell. */
  lemma OneGone(st0: Store, sh0: Shape, st1: Store, sh1: Shape, c: nat, o: Loc, x: Loc, y: Loc)
    requires Deleted(st0, sh0, st1, sh1, c) && o in sh0.chains && x in sh0.chains[o] && y in sh0.chains[o]
    requires x !in sh1.home && y !in sh1.home
    ensures x == y
  {
    hide Storage, Tree, Kept, HomeOk;
    ChainCellsOf(st0, sh0, o);
    GoneIs(st0, sh0, st1, sh1, c, o, x);
    GoneIs(st0, sh0, st1, sh1, c, o, y);
  }

  lemma GoneIs(st0: Store, sh0: Shape, st1: Store, sh1: Shape, c: nat, o: Loc, x: Loc)
    requires Deleted(st0, sh0, st1, sh1, c) && o in sh0.chains && x in sh0.chains[o] && x in sh0.home && x !in sh1.home
    requires KindOk(sh0, o, x)
    ensures x == if IsSob(sh0, o) then SobCell(SobAt(sh0, c, LevelOf(sh0, o) + 1))
                 else if o.Bucket? && o.sob in sh0.level then IndCell(c, sh0.level[o.sob]) else ClauseCell(c)
  {
    hide Storage, Tree, Kept, HomeOk, SobAt, Shrunk;
    if x.SobCell? {
      GoneRecord(st0, sh0, st1, sh1, c, x.sob);
    } else if x.clause != c {
      OthersStay(st0, sh0, st1, sh1, c, x);
    }
  }

  /** After a safe deletion a pending alternative is still pending, and what it will try is
      what it would have tried, in the same order, without the deleted clause. */
  lemma AlternativeKept(st0: Store, sh0: Shape, st1: Store, sh1: Shape, c: nat, x: Loc, marked: set<Loc>)
    requires Deleted(st0, sh0, st1, sh1, c) && Resumable(sh0, x) && Base(x) in marked && Base(x) != ClauseCell(c)
    requires SafeAt(sh0, marked, ClauseCell(c)) && (forall l :: 1 <= l <= sh0.Depth() ==> SafeAt(sh0, marked, IndCell(c, l)))
    requires Dropped(st0, sh0, sh1, marked)
    ensures Resumable(sh1, x) && Rest(sh1, x) == Kept(Rest(sh0, x), sh1.home)
    ensures Tried(sh1, Rest(sh1, x)) == Without(Tried(sh0, Rest(sh0, x)), c)
  {
    hide Storage, Tree, Kept, HomeOk, SafeAt, Dropped, Shrunk, Tried, Without, Distinct, KindOk, IsSob;
    AltStays(st0, sh0, st1, sh1, c, x, marked);
    var o := sh0.home[x];
    var xs := sh0.chains[o];
    var k := Pos(xs, x);
    ShrunkAt(st1, sh0, sh1, x);
    ChainDistinct(st0, sh0, o);
    DistinctHead(xs, 1);
    if xs[0] !in sh1.home {
      FirstStays(st0, sh0, st1, sh1, c, x, marked);
      if k > 1 && xs[1] !in sh1.home {
        OneGone(st0, sh0, st1, sh1, c, o, xs[0], xs[1]);
      }
    }
    KeptSuffix(xs, k, sh1.home);
    forall y | y in xs[k..] ensures Contributes(sh0, sh1, y, c) {
      CellContributes(st0, sh0, st1, sh1, c, o, y);
    }
    ItemsShrink(sh0, sh1, xs[k..], c);
  }

  lemma ShrunkAt(st1: Store, sh0: Shape, sh1: Shape, x: Loc)
    requires Shrunk(sh0, sh1) && x in sh1.home && Storage(st1, sh1)
    ensures x in sh0.home && sh1.home[x] == sh0.home[x] && sh1.home[x] in sh1.chains
    ensures sh0.home[x] in sh0.chains && sh1.chains[sh0.home[x]] == Kept(sh0.chains[sh0.home[x]], sh1.home)
  {
    hide OwnerOk, SobOk, KindOk, Kept;
  }

  lemma CellContributes(st0: Store, sh0: Shape, st1: Store, sh1: Shape, c: nat, o: Loc, y: Loc)
    requires Deleted(st0, sh0, st1, sh1, c) && o in sh0.chains && y in sh0.chains[o]
    ensures Contributes(sh0, sh1, y, c)
  {
    hide Storage, Tree, Kept, HomeOk, Shrunk, Without, Contributes;
    ChainCellsOf(st0, sh0, o);
    if y.SobCell? {
      if y in sh1.home {
        ChainedSob(st1, sh1, y.sob);
        SobPositive(st1, sh1, y.sob);
        UnderShrinks(st0, sh0, st1, sh1, c, SubPred(y.sob));
      }
      RecordContributes(st0, sh0, st1, sh1, c, y.sob);
    } else {
      ClauseContributes(st0, sh0, st1, sh1, c, y);
    }
  }

  lemma KeptSuffix(xs: seq<Loc>, k: nat, home: map<Loc, Loc>)
    requires Distinct(xs) && 0 < k < |xs| && xs[k] in home
    requires xs[0] in home || (k > 1 && xs[1] in home)
    ensures xs[k] in Kept(xs, home) && Kept(xs, home)[0] != xs[k]
    ensures Kept(xs, home)[Pos(Kept(xs, home), xs[k])..] == Kept(xs[k..], home)
  {
    hide Kept;
    KeptConcat(xs[..k], xs[k..], home);
    assert xs[..k] + xs[k..] == xs;
    KeptSub(xs[..k], home);
    KeptHead(xs[k..], home);
    var a, b := Kept(xs[..k], home), Kept(xs[k..], home);
    assert xs[..k][0] == xs[0] && (k > 1 ==> xs[..k][1] == xs[1]);
    assert xs[..k][0] in xs[..k];
    if k > 1 { assert xs[..k][1] in xs[..k]; }
    DistinctTail(xs[..k], xs[k..]);
    assert xs[k..][0] in xs[k..];
    Has(a);
    PosAt(a, xs[k], b);
  }

  lemma KeptHead(xs: seq<Loc>, home: map<Loc, Loc>)
    requires xs != [] && xs[0] in home
    ensures Kept(xs, home) != [] && Kept(xs, home)[0] == xs[0]
  {
  }

  lemma PosAt(a: seq<Loc>, x: Loc, b: seq<Loc>)
    requires x !in a && b != [] && b[0] == x
    ensures Pos(a + b, x) == |a| && (a + b)[|a|..] == b
  {
    if a == [] { assert a + b == b; } else { assert (a + b)[1..] == a[1..] + b; PosAt(a[1..], x, b); }
  }

  /** The pending cell itself is not lost. */
  lemma AltStays(st0: Store, sh0: Shape, st1: Store, sh1: Shape, c: nat, x: Loc, marked: set<Loc>)
    requires Deleted(st0, sh0, st1, sh1, c) && Resumable(sh0, x) && Base(x) in marked && Base(x) != ClauseCell(c) && Dropped(st0, sh0, sh1, marked)
    ensures x in sh1.home
  {
    hide Storage, Tree, Kept, HomeOk, Shrunk, SafeAt;
    KindAt(st0, sh0, x);
    if !x.SobCell? {
      OthersStay(st0, sh0, st1, sh1, c, x);
    }
  }

  /** The cell before a pending one is not lost when it is the first of the chain. */
  lemma FirstStays(st0: Store, sh0: Shape, st1: Store, sh1: Shape, c: nat, x: Loc, marked: set<Loc>)
    requires Deleted(st0, sh0, st1, sh1, c) && Resumable(sh0, x) && Base(x) in marked
    requires SafeAt(sh0, marked, ClauseCell(c)) && (forall l :: 1 <= l <= sh0.Depth() ==> SafeAt(sh0, marked, IndCell(c, l)))
    requires Dropped(st0, sh0, sh1, marked) && sh0.chains[sh0.home[x]][0] !in sh1.home
    ensures Pos(sh0.chains[sh0.home[x]], x) > 1
  {
    hide Storage, Tree, Kept, HomeOk, Shrunk;
    var o := sh0.home[x];
    var xs := sh0.chains[o];
    var y := xs[0];
    assert y in xs;
    ChainCellsOf(st0, sh0, o);
    if y.SobCell? {
      if |xs| > 1 { SiblingIsSob(st0, sh0, y.sob, xs[1]); }
    } else {
      if y.clause != c { OthersStay(st0, sh0, st1, sh1, c, y); }
      if y.IndCell? { IndLevel(st0, sh0, y); }
    }
    assert SafeAt(sh0, marked, y);
  }

  /** The hazard, exactly: a pending alternative becomes a try instruction, to be pushed again,
      if and only if it stood second and the first cell of its chain went. */
  lemma HazardExactly(st0: Store, sh0: Shape, st1: Store, sh1: Shape, c: nat, x: Loc)
    requires Deleted(st0, sh0, st1, sh1, c) && Resumable(sh0, x) && x in sh1.home
    ensures var xs := sh0.chains[sh0.home[x]];
      !Resumable(sh1, x) <==> Pos(xs, x) == 1 && xs[0] !in sh1.home
    ensures x in st1.cells && (IsDynamicClauseInst(st1.cells[x].op) <==> Resumable(sh1, x))
  {
    hide Storage, Tree, Kept, HomeOk, Shrunk, Distinct, KindOk, IsSob, IsDynamicClauseInst;
    ResumableOp(st1, sh1, x);
    ShrunkAt(st1, sh0, sh1, x);
    var o := sh0.home[x];
    var xs := sh0.chains[o];
    var k := Pos(xs, x);
    ChainDistinct(st0, sh0, o);
    if k == 1 && xs[0] !in sh1.home {
      KeptConcat(xs[..1], xs[1..], sh1.home);
      assert xs[..1] == [xs[0]] && xs[..1] + xs[1..] == xs;
      KeptOne(xs[0], sh1.home);
      KeptHead(xs[1..], sh1.home);
    } else {
      DistinctHead(xs, 1);
      if xs[0] !in sh1.home && xs[1] !in sh1.home {
        OneGone(st0, sh0, st1, sh1, c, o, xs[0], xs[1]);
      }
      KeptSuffix(xs, k, sh1.home);
    }
  }

  /** A choice point rests on a word of the clause or blocks every deletion. */
  predicate Held(cps: seq<Alt>, c: nat) {
    exists i :: 0 <= i < |cps| && (cps[i].Blocked? || (cps[i].Dynamic? && OfClause(cps[i].cell, c)))
  }

  predicate OfClause(x: Loc, c: nat) {
    (x.ClauseCell? || x.IndCell?) && x.clause == c
  }

  /** Two words of one clause, or one and the same word. */
  predicate SameRecord(x: Loc, y: Loc) {
    x == y || ((x.ClauseCell? || x.IndCell?) && OfClause(y, x.clause))
  }

  /** The clauses and records that choice points rest on. */
  ghost predicate AreMarks(cps: seq<Alt>, marked: set<Loc>) {
    Marks(cps, |cps|, marked)
  }

  /** Nothing that becomes the first of its chain when c goes is marked. */
  ghost predicate ClauseSafe(sh: Shape, marked: set<Loc>, c: nat) {
    && ClauseCell(c) !in marked && SafeAt(sh, marked, ClauseCell(c))
    && forall l :: 1 <= l <= sh.Depth() ==> SafeAt(sh, marked, IndCell(c, l))
  }

  /** A choice point rests on a clause or record that stands right behind c, when c is the first, on one of the chains of c. */
  ghost predicate Endangers(sh: Shape, cps: seq<Alt>, c: nat) {
    exists i, l: nat :: 0 <= i < |cps| && l <= sh.Depth() && RestsBehind(sh, cps[i], CellAt(c, l))
  }

  ghost predicate RestsBehind(sh: Shape, a: Alt, x: Loc) {
    && a.Dynamic? && x in sh.home && sh.home[x] in sh.chains
    && var xs := sh.chains[sh.home[x]]; |xs| > 1 && xs[0] == x && SameRecord(a.cell, xs[1])
  }

  /** The marks add nothing: a clause that no choice point rests on is refused exactly when one rests right behind it. */
  lemma RefusedExactly(sh: Shape, cps: seq<Alt>, marked: set<Loc>, c: nat)
    requires AreMarks(cps, marked) && !Held(cps, c)
    ensures ClauseSafe(sh, marked, c) <==> !Endangers(sh, cps, c)
  {
    forall x: Loc ensures SafeAt(sh, marked, x) <==> forall i :: 0 <= i < |cps| ==> !RestsBehind(sh, cps[i], x) { SafeMeans(sh, cps, marked, x); }
    assert ClauseCell(c) !in marked;
    assert CellAt(c, 0) == ClauseCell(c) && forall l :: l >= 1 ==> CellAt(c, l) == IndCell(c, l);
    if !ClauseSafe(sh, marked, c) {
      if SafeAt(sh, marked, ClauseCell(c)) {
        var l :| 1 <= l <= sh.Depth() && !SafeAt(sh, marked, IndCell(c, l));
        var i :| 0 <= i < |cps| && RestsBehind(sh, cps[i], CellAt(c, l));
      } else {
        var i :| 0 <= i < |cps| && RestsBehind(sh, cps[i], CellAt(c, 0));
      }
    }
  }

  lemma SafeMeans(sh: Shape, cps: seq<Alt>, marked: set<Loc>, x: Loc)
    requires AreMarks(cps, marked)
    ensures SafeAt(sh, marked, x) <==> forall i :: 0 <= i < |cps| ==> !RestsBehind(sh, cps[i], x)
  {
    if !SafeAt(sh, marked, x) {
      var m := Base(sh.chains[sh.home[x]][1]);
      var i :| 0 <= i < |cps| && cps[i].Dynamic? && Base(cps[i].cell) == m;
      assert RestsBehind(sh, cps[i], x);
    }
  }

  lemma MarksOf(cps: seq<Alt>, marked: set<Loc>)
    ensures AreMarks(cps, marked) <==> Marks(cps, |cps|, marked)
  {
  }

  lemma SafeWhen(sh: Shape, marked: set<Loc>, c: nat)
    ensures ClauseSafe(sh, marked, c) <==>
      ClauseCell(c) !in marked && SafeAt(sh, marked, ClauseCell(c)) && forall l :: 1 <= l <= sh.Depth() ==> SafeAt(sh, marked, IndCell(c, l))
  {
  }

  lemma SiblingIsSob(st: Store, sh: Shape, s: nat, x: Loc)
    requires Storage(st, sh) && SobCell(s) in sh.home && x in sh.chains[sh.home[SobCell(s)]]
    ensures x.SobCell?
  {
    hide OwnerOk, SobOk;
    assert SobCell(s) in sh.chains[sh.home[SobCell(s)]];
    assert KindOk(sh, sh.home[SobCell(s)], SobCell(s)) && KindOk(sh, sh.home[SobCell(s)], x);
  }

  /** retract: mark, test, and delete physically only when that is safe for the words of the clause */
  method RetractClause(p: DynPred, cps: seq<Alt>, c: nat) returns (deleted: bool, ghost marked: set<Loc>)
    requires p.Valid() && c in p.heads
    requires forall i :: 0 <= i < |cps| && cps[i].Dynamic? ==> Resumable(p.sh, cps[i].cell)
    modifies p
    ensures p.Valid()
    ensures !Held(cps, c) ==> AreMarks(cps, marked)
    ensures deleted <==> !Held(cps, c) && ClauseSafe(old(p.sh), marked, c)
    ensures !deleted <==> Held(cps, c) || Endangers(old(p.sh), cps, c)
    ensures !deleted ==> p.St() == old(p.St()) && p.sh == old(p.sh)
    ensures deleted ==> p.heads == old(p.heads) - {c} && p.Clauses() == Without(old(p.Clauses()), c)
    ensures deleted ==> Deleted(old(p.St()), old(p.sh), p.St(), p.sh, c) && FailedStay(old(p.St()), p.St())
    ensures deleted ==> RecordsLeft(old(p.St()), old(p.sh), p.St(), p.sh, c, marked)
    ensures deleted ==> forall i :: 0 <= i < |cps| && cps[i].Dynamic? ==>
      && Resumable(p.sh, cps[i].cell)
      && Rest(p.sh, cps[i].cell) == Kept(Rest(old(p.sh), cps[i].cell), p.sh.home)
      && Tried(p.sh, Rest(p.sh, cps[i].cell)) == Without(Tried(old(p.sh), Rest(old(p.sh), cps[i].cell)), c)
      && (RunsFailed(p.St(), p.sh, cps[i].cell) <==>
            RunsFailed(old(p.St()), old(p.sh), cps[i].cell) || RunsEmptied(old(p.sh), cps[i].cell, c, marked))
    ensures |cps| == 0 ==> deleted
  {
    hide Storage, Tree, Kept, HomeOk, Shrunk, Distinct, KindOk, Resumable, Rest, Tried, Without, SafeAt, Dropped, FailedRightly, FailedStay, RecordsLeft, RunsFailed, RunsEmptied, Deleted, ClauseSafe, Endangers, AreMarks;
    ghost var st0, sh0 := p.St(), p.sh;
    var found, m := MarkCpstackRetract(p, cps, c);
    deleted, marked := false, m;
    if !found {
      var safe := DetermineIfSafeToDelete(p, c, m);
      if |cps| == 0 { NothingMarked(sh0, m); }
      MarksOf(cps, m);
      SafeWhen(sh0, m, c);
      RefusedExactly(sh0, cps, m, c);
      if safe {
        p.ReallyDeleteClause(c, m);
        deleted := true;
        IsDeleted(st0, sh0, p.St(), p.sh, c, m);
        RecordsAre(st0, sh0, p.St(), p.sh, c, m);
        forall i | 0 <= i < |cps| && cps[i].Dynamic?
          ensures Resumable(p.sh, cps[i].cell)
          ensures Rest(p.sh, cps[i].cell) == Kept(Rest(sh0, cps[i].cell), p.sh.home)
          ensures Tried(p.sh, Rest(p.sh, cps[i].cell)) == Without(Tried(sh0, Rest(sh0, cps[i].cell)), c)
          ensures RunsFailed(p.St(), p.sh, cps[i].cell) <==> RunsFailed(st0, sh0, cps[i].cell) || RunsEmptied(sh0, cps[i].cell, c, m)
        {
          AlternativeKept(st0, sh0, p.St(), p.sh, c, cps[i].cell, m);
          FailedRest(st0, sh0, p.St(), p.sh, c, m, cps[i].cell);
        }
      }
    }
  }

  lemma IsDeleted(st0: Store, sh0: Shape, st1: Store, sh1: Shape, c: nat, marked: set<Loc>)
    requires Storage(st0, sh0) && Tree(st0, sh0, Settled, {}) && Storage(st1, sh1) && Tree(st1, sh1, Settled, {})
    requires Shrunk(sh0, sh1) && sh1.index == sh0.index && c in st0.heads && st1.heads == st0.heads - {c} && Dropped(st0, sh0, sh1, marked)
    ensures Deleted(st0, sh0, st1, sh1, c)
  {
    hide Storage, Tree, Shrunk;
  }

  /** A record that had not failed leaves its chain if only c was below it and it may go, fails there if only c was below
      it and it may not, and stays as it is otherwise. */
  ghost predicate RecordsLeft(st0: Store, sh0: Shape, st1: Store, sh1: Shape, c: nat, marked: set<Loc>) {
    forall s :: s in st0.sobs && !st0.sobs[s].failed && SobCell(s) in sh0.home && SubPred(s) in sh0.under && s in st1.sobs ==>
      var empty, safe := sh0.under[SubPred(s)] == [c], SobCell(s) !in marked && SobSafe(sh0, marked, s);
      && (SobCell(s) !in sh1.home <==> empty && safe)
      && (SobCell(s) in sh1.home ==> (st1.sobs[s].failed <==> empty && !safe))
  }

  lemma RecordsAre(st0: Store, sh0: Shape, st1: Store, sh1: Shape, c: nat, marked: set<Loc>)
    requires Deleted(st0, sh0, st1, sh1, c) && Dropped(st0, sh0, sh1, marked) && FailedRightly(st0, sh0, st1, sh1, marked)
    ensures RecordsLeft(st0, sh0, st1, sh1, c, marked)
  {
    hide Storage, Tree, Shrunk, SobSafe, HomeOk, Without;
    forall s | s in st0.sobs && !st0.sobs[s].failed && SobCell(s) in sh0.home && SubPred(s) in sh0.under && s in st1.sobs
      ensures var empty, safe := sh0.under[SubPred(s)] == [c], SobCell(s) !in marked && SobSafe(sh0, marked, s);
        (SobCell(s) !in sh1.home <==> empty && safe) && (SobCell(s) in sh1.home ==> (st1.sobs[s].failed <==> empty && !safe))
    {
      SobPositive(st1, sh1, s);
      UnderShrinks(st0, sh0, st1, sh1, c, SubPred(s));
      FailedEmpty(st0, sh0, s);
      FailedEmpty(st1, sh1, s);
      UnderDistinct(st0, sh0, s);
      OnlyOne(sh0.under[SubPred(s)], c);
      PlacedIs(st1, sh1, s);
      assert NewlyFailed(st0, st1, sh1, s) <==> st1.sobs[s].failed && SobCell(s) in sh1.home;
    }
  }

  /** From x on there is a record that held nothing but c and on which a choice point rests. */
  ghost predicate RunsEmptied(sh: Shape, x: Loc, c: nat, marked: set<Loc>)
    requires Resumable(sh, x)
  {
    exists y :: y in Rest(sh, x) && Emptied(sh, y, c) && y in marked
  }

  ghost predicate Emptied(sh: Shape, y: Loc, c: nat) {
    y.SobCell? && SubPred(y.sob) in sh.under && sh.under[SubPred(y.sob)] == [c]
  }

  /** After the deletion of c exactly those choice points come to a failed record that came to one before or come to a
      record on which a choice point rests and which has held nothing but c. */
  lemma FailedRest(st0: Store, sh0: Shape, st1: Store, sh1: Shape, c: nat, marked: set<Loc>, x: Loc)
    requires Deleted(st0, sh0, st1, sh1, c) && RecordsLeft(st0, sh0, st1, sh1, c, marked) && FailedStay(st0, st1)
    requires Resumable(sh0, x) && Resumable(sh1, x) && Rest(sh1, x) == Kept(Rest(sh0, x), sh1.home)
    ensures RunsFailed(st1, sh1, x) <==> RunsFailed(st0, sh0, x) || RunsEmptied(sh0, x, c, marked)
  {
    hide Storage, Tree, Shrunk, Rest, HomeOk, Kept, RecordsLeft, FailedCell, Emptied, FailedStay, Resumable;
    KeptSub(Rest(sh0, x), sh1.home);
    forall y | y in Rest(sh0, x)
      ensures y in Rest(sh1, x) && FailedCell(st1, y) <==> FailedCell(st0, y) || (Emptied(sh0, y, c) && y in marked)
    {
      FailedThere(st0, sh0, st1, sh1, c, marked, x, y);
    }
  }

  lemma FailedThere(st0: Store, sh0: Shape, st1: Store, sh1: Shape, c: nat, marked: set<Loc>, x: Loc, y: Loc)
    requires Deleted(st0, sh0, st1, sh1, c) && RecordsLeft(st0, sh0, st1, sh1, c, marked) && FailedStay(st0, st1)
    requires Resumable(sh0, x) && y in Rest(sh0, x)
    ensures y in sh1.home && FailedCell(st1, y) <==> FailedCell(st0, y) || (Emptied(sh0, y, c) && y in marked)
  {
    hide Storage, Tree, Shrunk, HomeOk, Kept;
    RestPlace(st0, sh0, x, y);
    if y.SobCell? {
      ChainedSob(st0, sh0, y.sob);
      Place(st0, sh0, y.sob);
    }
  }

  /** What is tried from x on is on the chain of x, and not its first. */
  lemma RestPlace(st: Store, sh: Shape, x: Loc, y: Loc)
    requires Storage(st, sh) && Resumable(sh, x) && y in Rest(sh, x)
    ensures y in sh.home && sh.home[y] == sh.home[x] && sh.chains[sh.home[x]][0] != y
  {
    hide OwnerOk, SobOk, KindOk, IsChain;
    var xs := sh.chains[sh.home[x]];
    ChainDistinct(st, sh, sh.home[x]);
    var k := Pos(xs, x);
    var j :| 0 <= j < |xs[k..]| && xs[k..][j] == y;
    assert xs[k + j] == y;
    DistinctHead(xs, k + j);
  }

  lemma PlacedIs(st: Store, sh: Shape, s: nat)
    requires Tree(st, sh, Settled, {}) && s in st.sobs
    ensures SobCell(s) in sh.home || st.sobs[s].failed
  {
    hide UnderPart, FullPart, ClausePart, AllPart, SobTree;
  }

  lemma OnlyOne(xs: seq<nat>, c: nat)
    requires Distinct(xs) && xs != []
    ensures xs == [c] <==> Without(xs, c) == []
  {
    WithoutMembers(xs, c);
    if Without(xs, c) == [] {
      forall d | d in xs ensures d == c { assert d in Without(xs, c) <==> d != c; }
      assert xs[0] in xs;
      TwoMembers(xs);
    } else {
      assert Without(xs, c)[0] in Without(xs, c);
    }
  }

  lemma TwoMembers(xs: seq<nat>)
    requires Distinct(xs)
    ensures |xs| > 1 ==> xs[0] in xs && xs[1] in xs && xs[0] != xs[1]
  {
  }

  lemma UnderDistinct(st: Store, sh: Shape, s: nat)
    requires Storage(st, sh) && Tree(st, sh, Settled, {}) && s in st.sobs && !st.sobs[s].failed && SubPred(s) in sh.under
    ensures Distinct(sh.under[SubPred(s)])
  {
    hide Storage, UnderPart, SobPart, ClausePart, FullPart, Pre, Post;
    var o := SubPred(s);
    Cut(st, sh, o);
    DistinctMid(Pre(sh, o, LevelOf(sh, o)), sh.under[o], Post(sh, o, LevelOf(sh, o)));
  }

  lemma DistinctMid<T>(a: seq<T>, b: seq<T>, c: seq<T>)
    requires Distinct(a + b + c)
    ensures Distinct(b)
  {
    forall i, j | 0 <= i < j < |b| ensures b[i] != b[j] { assert (a + b + c)[|a| + i] != (a + b + c)[|a| + j]; }
  }

  lemma NothingMarked(sh: Shape, marked: set<Loc>)
    ensures marked == {} ==> forall x :: SafeAt(sh, marked, x)
  {
  }

  // ---- asserts beside live choice points ------------------------------------------------------------

  /** After an assert a pending alternative is still pending, and what it will try is what it would have tried, with at
      most new words behind that. */
  lemma AlternativeGrows(st0: Store, sh0: Shape, st1: Store, sh1: Shape, az: bool, x: Loc)
    requires Storage(st0, sh0) && Storage(st1, sh1) && Extended(sh0, sh1, az) && Resumable(sh0, x)
    ensures Resumable(sh1, x) && |Rest(sh0, x)| <= |Rest(sh1, x)| && Rest(sh1, x)[..|Rest(sh0, x)|] == Rest(sh0, x)
    ensures !az ==> Rest(sh1, x) == Rest(sh0, x)
  {
    hide Storage, Distinct;
    var o := sh0.home[x];
    var xs, ys := sh0.chains[o], sh1.chains[o];
    var k := Pos(xs, x);
    ChainDistinct(st0, sh0, o);
    ChainDistinct(st1, sh1, o);
    assert Longer(xs, ys, az);
    var j := if az then k else |ys| - |xs| + k;
    assert ys[j] == x by { if az { assert ys[..|xs|][k] == x; } else { assert ys[|ys| - |xs|..][k] == x; } }
    PosUnique(ys, j);
    DistinctHead(ys, j);
    if az { assert ys[..|xs|][k..] == ys[k..][..|xs| - k]; } else { assert ys[|ys| - |xs|..][k..] == ys[j..]; }
  }

  /** assert, with choice points on the stack */
  method AssertClause(p: DynPred, cps: seq<Alt>, az: bool, head: seq<Sym>, hashTabSize: nat) returns (c: nat, wild: bool)
    requires p.Valid() && HeadOk(p.index, head)
    requires forall i :: 0 <= i < |cps| && cps[i].Dynamic? ==> Resumable(p.sh, cps[i].cell)
    modifies p
    ensures wild <==> AddBlocked(old(p.St()), old(p.sh), Root, 1, FirstSize(old(p.St()), old(p.sh), az, hashTabSize), az, head)
    ensures !wild ==> p.Valid() && c !in old(p.heads) && p.heads == old(p.heads)[c := head]
    ensures !wild ==> p.Clauses() == if az then old(p.Clauses()) + [c] else [c] + old(p.Clauses())
    ensures !wild ==> forall i :: 0 <= i < |cps| && cps[i].Dynamic? ==>
      Resumable(p.sh, cps[i].cell) && StillTries(old(p.St()), old(p.sh), p.St(), p.sh, cps[i].cell)
  {
    hide Storage, Tree, Resumable, Rest, AddBlocked, FirstSize, Extended, HeadOk, Recorded, Sized, StillTries;
    ghost var st0, sh0 := p.St(), p.sh;
    c, wild := p.DbAddBuffI(az, head, hashTabSize);
    if !wild {
      forall i | 0 <= i < |cps| && cps[i].Dynamic? ensures Resumable(p.sh, cps[i].cell) && StillTries(st0, sh0, p.St(), p.sh, cps[i].cell) {
        AlternativeGrows(st0, sh0, p.St(), p.sh, az, cps[i].cell);
        GrowsSound(st0, sh0, p.St(), p.sh, az, cps[i].cell);
      }
    }
  }

  /** x tries first what it would have tried, and comes to a failed record only if it would have. */
  ghost predicate StillTries(st0: Store, sh0: Shape, st1: Store, sh1: Shape, x: Loc) {
    && Resumable(sh0, x) && Resumable(sh1, x) && |Rest(sh0, x)| <= |Rest(sh1, x)| && Rest(sh1, x)[..|Rest(sh0, x)|] == Rest(sh0, x)
    && (RunsFailed(st1, sh1, x) <==> RunsFailed(st0, sh0, x))
  }

  lemma GrowsSound(st0: Store, sh0: Shape, st1: Store, sh1: Shape, az: bool, x: Loc)
    requires Storage(st0, sh0) && Storage(st1, sh1) && Extended(sh0, sh1, az) && Recorded(st0, sh0, st1, sh1) && Resumable(sh0, x)
    ensures StillTries(st0, sh0, st1, sh1, x)
  {
    hide Storage, Distinct, Rest, Resumable, Extended, Recorded;
    AlternativeGrows(st0, sh0, st1, sh1, az, x);
    var a, b := Rest(sh0, x), Rest(sh1, x);
    forall y | y in b ensures FailedCell(st1, y) <==> y in a && FailedCell(st0, y) {
      GrownCell(st0, sh0, st1, sh1, az, x, y);
    }
    forall y | y in a ensures y in b { assert a == b[..|a|]; }
  }

  /** Behind what x would have tried there are new words only. */
  lemma GrownCell(st0: Store, sh0: Shape, st1: Store, sh1: Shape, az: bool, x: Loc, y: Loc)
    requires Storage(st0, sh0) && Storage(st1, sh1) && Extended(sh0, sh1, az) && Recorded(st0, sh0, st1, sh1)
    requires Resumable(sh0, x) && Resumable(sh1, x) && y in Rest(sh1, x)
    requires |Rest(sh0, x)| <= |Rest(sh1, x)| && Rest(sh1, x)[..|Rest(sh0, x)|] == Rest(sh0, x)
    ensures FailedCell(st1, y) <==> y in Rest(sh0, x) && FailedCell(st0, y)
  {
    hide Storage, Distinct, HomeOk, Rest, Resumable, Extended;
    if y in Rest(sh0, x) { RestPlace(st0, sh0, x, y); }
    if y in sh0.home { TriedBefore(st0, sh0, st1, sh1, az, x, y); }
    if y.SobCell? {
      HomeAt(st1, sh1, x, y);
      if y in sh0.home { ChainedSob(st0, sh0, y.sob); }
    }
  }

  lemma HomeAt(st: Store, sh: Shape, x: Loc, y: Loc)
    requires Storage(st, sh) && Resumable(sh, x) && y in Rest(sh, x)
    ensures y in sh.home && (y.SobCell? ==> y.sob in st.sobs)
  {
    hide Storage, Rest, Resumable;
    RestPlace(st, sh, x, y);
    if y.SobCell? { ChainedSob(st, sh, y.sob); }
  }

  lemma TriedBefore(st0: Store, sh0: Shape, st1: Store, sh1: Shape, az: bool, x: Loc, y: Loc)
    requires Storage(st0, sh0) && Storage(st1, sh1) && Extended(sh0, sh1, az) && Resumable(sh0, x) && Resumable(sh1, x)
    requires y in Rest(sh1, x) && y in sh0.home
    ensures y in Rest(sh0, x)
  {
    hide Storage, Distinct, Longer, KindOk;
    RestPlace(st1, sh1, x, y);
    var o := sh0.home[x];
    ChainDistinct(st1, sh1, o);
    KindAt(st0, sh0, y);
    BehindBoth(sh0.chains[o], sh1.chains[o], az, x, y);
  }

  lemma BehindBoth(xs: seq<Loc>, ys: seq<Loc>, az: bool, x: Loc, y: Loc)
    requires Longer(xs, ys, az) && Distinct(ys) && x in xs && y in xs && x in ys && y in ys[Pos(ys, x)..]
    ensures y in xs[Pos(xs, x)..]
  {
    hide Distinct, Longer, Pos;
    var j, k := Pos(xs, y), Pos(xs, x);
    InLonger(xs, ys, az, k);
    InLonger(xs, ys, az, j);
    var i := BehindAt(ys, Pos(ys, x), y);
    PosUnique(ys, i);
    PosUnique(ys, k + if az then 0 else |ys| - |xs|);
    PosUnique(ys, j + if az then 0 else |ys| - |xs|);
    assert xs[k..][j - k] == y;
  }

  lemma BehindAt(xs: seq<Loc>, k: nat, y: Loc) returns (i: nat)
    requires k <= |xs| && y in xs[k..]
    ensures k <= i < |xs| && xs[i] == y
  {
    var j :| 0 <= j < |xs[k..]| && xs[k..][j] == y;
    i := k + j;
  }

  lemma InLonger(xs: seq<Loc>, ys: seq<Loc>, az: bool, k: nat)
    requires Longer(xs, ys, az) && k < |xs|
    ensures var d := if az then 0 else |ys| - |xs|; 0 <= d && d + k < |ys| && ys[d + k] == xs[k]
  {
    if az { assert ys[..|xs|][k] == ys[k]; } else { assert ys[|ys| - |xs|..][k] == ys[|ys| - |xs| + k]; }
  }
}
