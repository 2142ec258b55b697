/** How index records come to fail on their chains, and what then goes wrong. */
module FailedRecords {
  import opened Chains
  import opened IndexShape
  import opened IndexTree
  import opened IndexOrder
  import opened IndexChange
  import opened IndexSmooth
  import opened ClauseStore
  import opened ClauseWalk
  import opened RetractSafety

  // ---- any index ---------------------------------------------------------------------------------

  /** A record that has held nothing but the deleted clause and that a choice point rests on fails where it is. */
  lemma FailsInPlace(st0: Store, sh0: Shape, st1: Store, sh1: Shape, c: nat, marked: set<Loc>, s: nat)
    requires RecordsLeft(st0, sh0, st1, sh1, c, marked) && s in st0.sobs && s in st1.sobs && !st0.sobs[s].failed
    requires SobCell(s) in sh0.home && SubPred(s) in sh0.under && sh0.under[SubPred(s)] == [c]
    requires SobCell(s) in marked || !SobSafe(sh0, marked, s)
    ensures st1.sobs[s].failed && SobCell(s) in sh1.home
  {
  }

  /** With a failed record at the end of the predicate's chain no enumeration ends there and no assertz comes past it. */
  lemma FailedLast(st: Store, sh: Shape, s: nat, kl: nat, size: nat, head: seq<Sym>)
    requires sh.Depth() > 0 && Root in sh.chains && sh.chains[Root] != [] && sh.chains[Root][|sh.chains[Root]| - 1] == SobCell(s)
    requires s in st.sobs && st.sobs[s].failed && HeadOk(sh.index, head)
    ensures !Walkable(st, sh, kl) && AddBlocked(st, sh, Root, 1, size, true, head)
  {
  }

  /** With one at the beginning no asserta does. */
  lemma FailedFirst(st: Store, sh: Shape, s: nat, size: nat, head: seq<Sym>)
    requires sh.Depth() > 0 && Root in sh.chains && sh.chains[Root] != [] && sh.chains[Root][0] == SobCell(s)
    requires s in st.sobs && st.sobs[s].failed && HeadOk(sh.index, head)
    ensures AddBlocked(st, sh, Root, 1, size, false, head)
  {
  }

  /** Back from the first clause of a leaf behind a failed record. */
  lemma FailedBefore(st: Store, sh: Shape, f: Loc, k: nat, t: nat, s: nat, c: nat)
    requires Storage(st, sh) && f in sh.chains && k + 1 < |sh.chains[f]| && sh.chains[f][k] == SobCell(t) && sh.chains[f][k + 1] == SobCell(s)
    requires t in st.sobs && st.sobs[t].failed && SobAt(sh, c, sh.Depth()) == s
    requires SubPred(s) in sh.chains && sh.chains[SubPred(s)] != [] && sh.chains[SubPred(s)][0] == ClauseCell(c)
    ensures PrevWild(st, sh, c)
  {
    hide Storage, Distinct, KindOk, SobAt;
    assert sh.chains[f][k + 1] in sh.chains[f];
    ParentIs(st, sh, f, s);
    ChainDistinct(st, sh, f);
    PosUnique(sh.chains[f], k + 1);
    DepthPositive(st, sh);
  }

  lemma DepthPositive(st: Store, sh: Shape)
    requires Storage(st, sh)
    ensures sh.Depth() > 0
  {
  }

  /** As long as no record has failed nothing is in the way of an assert. */
  lemma {:induction false} NothingBlocks(st: Store, sh: Shape, o: Loc, l: nat, size: nat, az: bool, head: seq<Sym>)
    requires forall s :: s in st.sobs ==> !st.sobs[s].failed
    ensures !AddBlocked(st, sh, o, l, size, az, head)
    decreases |sh.index| + 1 - l
  {
    hide Near;
    if 1 <= l <= |sh.index| && sh.index[l - 1] < |head| {
      NothingBlocks(st, sh, SubPred(Near(sh, o, az)), l + 1, if head[sh.index[l - 1]].Var? then 1 else size, az, head);
    }
  }

  // ---- the chain of a predicate with one index -------------------------------------------------------

  /** What stands on the rest xs of the predicate's chain when c is its first clause and the next one is elsewhere. */
  lemma NextRecord(st: Store, sh: Shape, xs: seq<Loc>, c: nat, cs: seq<nat>)
    requires Storage(st, sh) && Tree(st, sh, Settled, {}) && sh.Depth() == 1 && Root in sh.chains && (forall x :: x in xs ==> x in sh.chains[Root])
    requires (forall s :: s in st.sobs ==> !st.sobs[s].failed) && Flat(xs, sh.under) == [c] + cs
    requires cs != [] ==> SobAt(sh, cs[0], 1) != SobAt(sh, c, 1)
    ensures xs != [] && xs[0] == SobCell(SobAt(sh, c, 1)) && Item(xs[0], sh.under) == [c] && Flat(xs[1..], sh.under) == cs
  {
    hide Storage, Tree, Distinct, SobAt, KindOk;
    var us := RecordClauses(st, sh, xs[0]);
    assert us == ([c] + cs)[..|us|];
    assert us[0] == c;
    if |us| > 1 { SecondOf(us, c, cs); }
    assert us == [c];
    assert ([c] + cs)[1..] == cs && ([c] + Flat(xs[1..], sh.under))[1..] == Flat(xs[1..], sh.under);
  }

  /** The clauses of a record on the chain are in it, and there are some. */
  lemma RecordClauses(st: Store, sh: Shape, x: Loc) returns (us: seq<nat>)
    requires Storage(st, sh) && Tree(st, sh, Settled, {}) && sh.Depth() == 1 && Root in sh.chains && x in sh.chains[Root]
    requires forall s :: s in st.sobs ==> !st.sobs[s].failed
    ensures x.SobCell? && us == Item(x, sh.under) && us != [] && forall d :: d in us ==> SobAt(sh, d, 1) == x.sob
  {
    hide Storage, Tree, Distinct, SobAt, KindOk, SobTree;
    RootFacts(st, sh);
    EndChild(st, sh, Root, 0);
    Has(sh.chains[Root]);
    FailedEmpty(st, sh, x.sob);
    us := sh.under[SubPred(x.sob)];
    SobTreeOf(st, sh, x.sob);
    forall d | d in us ensures SobAt(sh, d, 1) == x.sob { BelowAt(st, sh, x.sob, d); }
  }

  /** Nothing more is on the chain when no clause is left. */
  lemma NoRecord(st: Store, sh: Shape, xs: seq<Loc>)
    requires Storage(st, sh) && Tree(st, sh, Settled, {}) && sh.Depth() == 1 && Root in sh.chains && (forall x :: x in xs ==> x in sh.chains[Root])
    requires (forall s :: s in st.sobs ==> !st.sobs[s].failed) && Flat(xs, sh.under) == []
    ensures xs == []
  {
    hide Storage, Tree;
    if xs != [] { var us := RecordClauses(st, sh, xs[0]); }
  }

  lemma SecondOf(us: seq<nat>, c: nat, cs: seq<nat>)
    requires 1 < |us| <= 1 + |cs| && us == ([c] + cs)[..|us|]
    ensures cs[0] in us
  {
    assert us[1] == cs[0];
  }

  // ---- a run -------------------------------------------------------------------------------------------

  ghost predicate NoneFailed(st: Store) {
    forall s :: s in st.sobs ==> !st.sobs[s].failed
  }

  /** Clause c is in a record with one slot (small) or with more. */
  ghost predicate InTable(st: Store, sh: Shape, c: nat, small: bool) {
    exists s, z :: InRecord(st, sh, c, 1, s, z) && (if small then z == 1 else z > 1)
  }

  /** c has been added at the end, and the records are as before but for new ones. */
  ghost predicate AddedLast(st0: Store, sh0: Shape, st1: Store, sh1: Shape, c: nat, small: bool) {
    && Extended(sh0, sh1, true) && Recorded(st0, sh0, st1, sh1) && NoneFailed(st1)
    && c !in st0.heads && c in st1.heads && st1.heads.Keys == st0.heads.Keys + {c} && All(sh1) == All(sh0) + [c] && InTable(st1, sh1, c, small)
  }

  /** assertz while no record has failed */
  method AddClean(p: DynPred, sym: Sym) returns (c: nat)
    requires p.Valid() && p.index == [0] && NoneFailed(p.St())
    modifies p
    ensures p.Valid() && AddedLast(old(p.St()), old(p.sh), p.St(), p.sh, c, sym.Var?)
  {
    hide Storage, Tree, Extended, Recorded, AddBlocked, InRecord, SizeAt, SobAt, FirstSize;
    ghost var st0, sh0 := p.St(), p.sh;
    ghost var z := FirstSize(st0, sh0, true, 2);
    NothingBlocks(st0, sh0, Root, 1, z, true, [sym]);
    var wild;
    c, wild := p.DbAddBuffI(true, [sym], 2);
    StillNone(st0, sh0, p.St(), p.sh);
    p.AllocatedIs();
    SizeNext(p.index, [sym], z, 1);
    SizedNone(st0, sh0, c, [sym], z);
    FirstSizeLeast(st0, sh0, 2);
  }

  lemma AddedIs(st0: Store, sh0: Shape, st1: Store, sh1: Shape, c: nat, small: bool)
    requires AddedLast(st0, sh0, st1, sh1, c, small)
    ensures NoneFailed(st1) && st1.heads.Keys == st0.heads.Keys + {c} && All(sh1) == All(sh0) + [c]
  {
  }

  lemma StillNone(st0: Store, sh0: Shape, st1: Store, sh1: Shape)
    requires NoneFailed(st0) && Recorded(st0, sh0, st1, sh1)
    ensures NoneFailed(st1)
  {
  }

  lemma FirstSizeLeast(st: Store, sh: Shape, hashTabSize: nat)
    requires hashTabSize < HASH_SIZES[|HASH_SIZES| - 1]
    ensures FirstSize(st, sh, true, hashTabSize) >= hashTabSize
  {
    hide PickSize, Near;
  }

  /** Record s stands at place i on the predicate's chain and holds the clauses us. */
  ghost predicate StandsAt(st: Store, sh: Shape, i: nat, s: nat, us: seq<nat>) {
    && Root in sh.chains && i < |sh.chains[Root]| && sh.chains[Root][i] == SobCell(s)
    && s in st.sobs && SubPred(s) in sh.under && sh.under[SubPred(s)] == us && (st.sobs[s].failed <==> us == [])
  }

  /** The predicate's chain has the records ss, which hold the clauses cs. */
  ghost predicate Row(st: Store, sh: Shape, ss: seq<nat>, cs: seq<seq<nat>>) {
    && Root in sh.chains && |ss| == |cs| == |sh.chains[Root]|
    && forall i: nat :: i < |ss| ==> StandsAt(st, sh, i, ss[i], cs[i])
  }

  lemma TableKept(st0: Store, sh0: Shape, st1: Store, sh1: Shape, c: nat, small: bool)
    requires InTable(st0, sh0, c, small) && Extended(sh0, sh1, true) && Recorded(st0, sh0, st1, sh1)
    ensures InTable(st1, sh1, c, small)
  {
    hide Recorded, Longer;
    RecordedIs(st0, sh0, st1, sh1);
    var s, z :| InRecord(st0, sh0, c, 1, s, z) && (if small then z == 1 else z > 1);
    assert InRecord(st1, sh1, c, 1, s, z);
  }

  /** Three clauses added one after the other, the second one for a bigger table. */
  lemma ThreeInRow(st0: Store, sh0: Shape, st1: Store, sh1: Shape, st2: Store, sh2: Shape, st3: Store, sh3: Shape, c1: nat, c2: nat, c3: nat)
    requires AddedLast(st0, sh0, st1, sh1, c1, true) && AddedLast(st1, sh1, st2, sh2, c2, false) && AddedLast(st2, sh2, st3, sh3, c3, true)
    requires All(sh0) == [] && Storage(st3, sh3) && Tree(st3, sh3, Settled, {}) && sh3.Depth() == 1
    ensures Row(st3, sh3, [SobAt(sh3, c1, 1), SobAt(sh3, c2, 1), SobAt(sh3, c3, 1)], [[c1], [c2], [c3]])
    ensures c1 != c2 && c2 != c3 && c1 != c3 && SobAt(sh3, c1, 1) != SobAt(sh3, c2, 1) && SobAt(sh3, c2, 1) != SobAt(sh3, c3, 1)
  {
    hide Storage, Tree, Extended, Recorded, SobAt, Flat, Item, InTable;
    TableKept(st1, sh1, st2, sh2, c1, true);
    TableKept(st2, sh2, st3, sh3, c1, true);
    TableKept(st2, sh2, st3, sh3, c2, false);
    TablesDiffer(st3, sh3, c1, c2);
    TablesDiffer(st3, sh3, c3, c2);
    assert All(sh3) == [c1] + [c2, c3] && [c2, c3] == [c2] + [c3] && [c3] == [c3] + [];
    RowOf(st3, sh3, c1, c2, c3);
  }

  lemma TablesDiffer(st: Store, sh: Shape, c: nat, d: nat)
    requires InTable(st, sh, c, true) && InTable(st, sh, d, false)
    ensures SobAt(sh, c, 1) != SobAt(sh, d, 1)
  {
  }

  lemma RowOf(st: Store, sh: Shape, c1: nat, c2: nat, c3: nat)
    requires Storage(st, sh) && Tree(st, sh, Settled, {}) && sh.Depth() == 1 && NoneFailed(st)
    requires All(sh) == [c1] + ([c2] + ([c3] + [])) && SobAt(sh, c1, 1) != SobAt(sh, c2, 1) && SobAt(sh, c2, 1) != SobAt(sh, c3, 1)
    ensures Row(st, sh, [SobAt(sh, c1, 1), SobAt(sh, c2, 1), SobAt(sh, c3, 1)], [[c1], [c2], [c3]])
  {
    hide Storage, Tree, SobAt, Flat, Item;
    RootFacts(st, sh);
    UnderSettled(st, sh, Root);
    AllIs(sh);
    var xs := sh.chains[Root];
    assert ([c2] + ([c3] + []))[0] == c2 && ([c3] + [])[0] == c3;
    NextRecord(st, sh, xs, c1, [c2] + ([c3] + []));
    NextRecord(st, sh, xs[1..], c2, [c3] + []);
    NextRecord(st, sh, xs[1..][1..], c3, []);
    NoRecord(st, sh, xs[1..][1..][1..]);
    assert |xs| == 3 && xs[1] == xs[1..][0] && xs[2] == xs[1..][1..][0];
    InItem(st, sh, xs[0]);
    InItem(st, sh, xs[1]);
    InItem(st, sh, xs[2]);
  }

  lemma InItem(st: Store, sh: Shape, x: Loc)
    requires Storage(st, sh) && Tree(st, sh, Settled, {}) && Root in sh.chains && x in sh.chains[Root] && x.SobCell?
    ensures x.sob in st.sobs && SubPred(x.sob) in sh.under && Item(x, sh.under) == sh.under[SubPred(x.sob)]
  {
    hide Storage, Tree;
    ChildFacts(st, sh, Root, x.sob);
    FailedEmpty(st, sh, x.sob);
  }

  /** The only clause of record i is deleted while that record may not go: it fails in its place. */
  lemma RowStep(st0: Store, sh0: Shape, st1: Store, sh1: Shape, ss: seq<nat>, cs: seq<seq<nat>>, i: nat, c: nat, marked: set<Loc>)
    requires Row(st0, sh0, ss, cs) && Deleted(st0, sh0, st1, sh1, c) && RecordsLeft(st0, sh0, st1, sh1, c, marked) && FailedStay(st0, st1)
    requires i < |ss| && cs[i] == [c] && (forall j: nat :: j < |cs| && j != i ==> c !in cs[j])
    requires SobCell(ss[i]) in marked || !SobSafe(sh0, marked, ss[i])
    ensures Row(st1, sh1, ss, cs[i := []])
  {
    hide Storage, Tree, Shrunk, Without, RecordsLeft, SobSafe, Kept;
    var xs := sh0.chains[Root];
    RootFacts(st1, sh1);
    forall j: nat | j < |ss| ensures SobCell(ss[j]) in sh1.home { StaysInRow(st0, sh0, st1, sh1, ss, cs, i, j, c, marked); }
    ShrunkAt(st1, sh0, sh1, SobCell(ss[i]));
    RootCells(st0, sh0, st1, sh1, c);
    forall x | x in xs ensures x in sh1.home {
      var j :| 0 <= j < |xs| && xs[j] == x;
      assert StandsAt(st0, sh0, j, ss[j], cs[j]);
    }
    KeptAll(xs, sh1.home);
    forall j: nat | j < |ss| ensures StandsAt(st1, sh1, j, ss[j], cs[i := []][j]) {
      assert StandsAt(st0, sh0, j, ss[j], cs[j]);
      ChildFacts(st1, sh1, Root, ss[j]);
      UnderShrinks(st0, sh0, st1, sh1, c, SubPred(ss[j]));
      FailedEmpty(st1, sh1, ss[j]);
      if j == i { WithoutSelf(c); } else { WithoutAbsent(cs[j], c); }
    }
  }

  lemma RootCells(st0: Store, sh0: Shape, st1: Store, sh1: Shape, c: nat)
    requires Deleted(st0, sh0, st1, sh1, c)
    ensures Root in sh0.chains && Root in sh1.chains && sh1.chains[Root] == Kept(sh0.chains[Root], sh1.home)
  {
    hide Storage, Tree, Kept;
    RootFacts(st0, sh0);
    RootFacts(st1, sh1);
  }

  lemma StaysInRow(st0: Store, sh0: Shape, st1: Store, sh1: Shape, ss: seq<nat>, cs: seq<seq<nat>>, i: nat, j: nat, c: nat, marked: set<Loc>)
    requires Row(st0, sh0, ss, cs) && Deleted(st0, sh0, st1, sh1, c) && RecordsLeft(st0, sh0, st1, sh1, c, marked) && FailedStay(st0, st1)
    requires i < |ss| && cs[i] == [c] && j < |ss| && (j != i ==> c !in cs[j])
    requires SobCell(ss[i]) in marked || !SobSafe(sh0, marked, ss[i])
    ensures SobCell(ss[j]) in sh1.home
  {
    hide Storage, Tree, Shrunk, SobSafe;
    assert StandsAt(st0, sh0, j, ss[j], cs[j]);
    assert sh0.chains[Root][j] in sh0.chains[Root];
    ChildFacts(st0, sh0, Root, ss[j]);
  }

  /** Choice points that rest on records hold no clause, and no clause word becomes the first before one of them. */
  lemma RecordsMarked(st: Store, sh: Shape, cps: seq<Alt>, marked: set<Loc>, c: nat)
    requires Storage(st, sh) && forall i :: 0 <= i < |cps| ==> cps[i].Dynamic? && cps[i].cell.SobCell?
    ensures !Held(cps, c) && (AreMarks(cps, marked) ==> ClauseSafe(sh, marked, c))
  {
    hide Storage, KindOk;
    if AreMarks(cps, marked) {
      forall m | m in marked ensures m.SobCell? { }
      forall x: Loc | !x.SobCell? ensures SafeAt(sh, marked, x) { NoRecordBehind(st, sh, x); }
    }
  }

  lemma MarksAre(cps: seq<Alt>, marked: set<Loc>)
    requires AreMarks(cps, marked) && forall i :: 0 <= i < |cps| ==> cps[i].Dynamic? && cps[i].cell.SobCell?
    ensures forall i :: 0 <= i < |cps| ==> cps[i].cell in marked
  {
    forall i | 0 <= i < |cps| ensures cps[i].cell in marked { assert Base(cps[i].cell) in marked; }
  }

  /** The first record may not go while the second one is marked. */
  lemma FirstUnsafe(st: Store, sh: Shape, ss: seq<nat>, cs: seq<seq<nat>>, marked: set<Loc>)
    requires Storage(st, sh) && Row(st, sh, ss, cs) && |ss| > 1 && SobCell(ss[1]) in marked
    ensures !SobSafe(sh, marked, ss[0])
  {
    hide Storage;
    assert StandsAt(st, sh, 0, ss[0], cs[0]) && StandsAt(st, sh, 1, ss[1], cs[1]);
    assert sh.chains[Root][0] in sh.chains[Root];
    ChildFacts(st, sh, Root, ss[0]);
  }

  lemma NoRecordBehind(st: Store, sh: Shape, x: Loc)
    requires Storage(st, sh) && !x.SobCell?
    ensures x in sh.home && sh.home[x] in sh.chains && |sh.chains[sh.home[x]]| > 1 ==> !Base(sh.chains[sh.home[x]][1]).SobCell?
  {
    hide OwnerOk, SobOk;
    if x in sh.home && sh.home[x] in sh.chains && |sh.chains[sh.home[x]]| > 1 {
      var o := sh.home[x];
      var y := sh.chains[o][1];
      assert x in sh.chains[o] && y in sh.chains[o];
      assert KindOk(sh, o, x) && KindOk(sh, o, y);
    }
  }

  /** Both ends of the chain have failed and c is the only clause: what can go wrong does. */
  ghost predicate Broken(st: Store, sh: Shape, c: nat) {
    && (forall kl :: !Walkable(st, sh, kl)) && PrevWild(st, sh, c)
    && forall az, size, head :: HeadOk(sh.index, head) ==> AddBlocked(st, sh, Root, 1, size, az, head)
  }

  lemma RowBroken(st: Store, sh: Shape, ss: seq<nat>, c: nat)
    requires Storage(st, sh) && Tree(st, sh, Settled, {}) && sh.Depth() == 1 && Row(st, sh, ss, [[], [c], []])
    ensures Broken(st, sh, c)
  {
    hide Storage, Tree, Walkable, PrevWild, AddBlocked, SobAt;
    assert StandsAt(st, sh, 0, ss[0], []) && StandsAt(st, sh, 1, ss[1], [c]) && StandsAt(st, sh, 2, ss[2], []);
    forall kl ensures !Walkable(st, sh, kl) { FailedLast(st, sh, ss[2], kl, 1, EnoughHead(sh.index)); }
    forall az, size, head | HeadOk(sh.index, head) ensures AddBlocked(st, sh, Root, 1, size, az, head) {
      if az { FailedLast(st, sh, ss[2], 0, size, head); } else { FailedFirst(st, sh, ss[0], size, head); }
    }
    RowClause(st, sh, 1, ss[1], c);
    FailedBefore(st, sh, Root, 0, ss[0], ss[1], c);
  }

  /** A head long enough for the index. */
  function EnoughHead(index: seq<nat>): (head: seq<Sym>)
    ensures HeadOk(index, head)
  {
    if index == [] then [] else
      var rest := EnoughHead(index[1..]);
      rest + seq(index[0] + 1, _ => Var)
  }

  lemma RowClause(st: Store, sh: Shape, i: nat, s: nat, c: nat)
    requires Storage(st, sh) && Tree(st, sh, Settled, {}) && sh.Depth() == 1 && StandsAt(st, sh, i, s, [c])
    ensures SobAt(sh, c, 1) == s && SubPred(s) in sh.chains && sh.chains[SubPred(s)] != [] && sh.chains[SubPred(s)][0] == ClauseCell(c)
  {
    hide Storage, Tree, SobAt, SobTree, KindOk;
    RootFacts(st, sh);
    assert sh.chains[Root][i] in sh.chains[Root];
    EndChild(st, sh, Root, 0);
    FailedEmpty(st, sh, s);
    SobTreeOf(st, sh, s);
    BelowAt(st, sh, s, c);
    LeafFirst(st, sh, s);
  }

  /** A choice point on a later record of the row, and the last one has failed. */
  lemma RowRuns(st: Store, sh: Shape, ss: seq<nat>, cs: seq<seq<nat>>, i: nat)
    requires Storage(st, sh) && Row(st, sh, ss, cs) && 0 < i < |ss|
    ensures Resumable(sh, SobCell(ss[i]))
    ensures cs[|ss| - 1] == [] ==> RunsFailed(st, sh, SobCell(ss[i]))
  {
    hide Storage, Distinct;
    var n := |ss| - 1;
    assert StandsAt(st, sh, 0, ss[0], cs[0]) && StandsAt(st, sh, i, ss[i], cs[i]) && StandsAt(st, sh, n, ss[n], cs[n]);
    var xs := sh.chains[Root];
    assert xs[i] in xs;
    ChildFacts(st, sh, Root, ss[i]);
    ChainDistinct(st, sh, Root);
    DistinctHead(xs, i);
    PosUnique(xs, i);
    assert xs[i..][n - i] == SobCell(ss[n]);
    assert SobCell(ss[n]) in Rest(sh, SobCell(ss[i]));
  }

  /** The words for the last two records of the predicate's chain. */
  lemma LastWords(st: Store, sh: Shape, ss: seq<nat>, cs: seq<seq<nat>>)
    requires Storage(st, sh) && Row(st, sh, ss, cs) && |ss| > 1
    ensures Root in st.preds && st.preds[Root].last == SobCell(ss[|ss| - 1]) && SobCell(ss[|ss| - 1]) in st.cells
    ensures st.cells[SobCell(ss[|ss| - 1])].prev == SobCell(ss[|ss| - 2])
  {
    hide Storage, IsChain;
    var n := |ss| - 1;
    assert StandsAt(st, sh, n, ss[n], cs[n]) && StandsAt(st, sh, n - 1, ss[n - 1], cs[n - 1]);
    OwnerChain(st, sh, Root);
    PlaceOf(st.cells, sh.chains[Root], IsSob(sh, Root), Before(sh, Root), IndexShape.After(sh, Root), n);
  }

  /** Three clauses in three records. */
  method ThreeRecords() returns (p: DynPred, c1: nat, c2: nat, c3: nat)
    ensures fresh(p) && p.Valid() && p.index == [0] && p.heads.Keys == {c1, c2, c3} && c1 != c2 && c2 != c3 && c1 != c3
    ensures Row(p.St(), p.sh, [SobAt(p.sh, c1, 1), SobAt(p.sh, c2, 1), SobAt(p.sh, c3, 1)], [[c1], [c2], [c3]])
  {
    hide Storage, Tree, Row, AddedLast, SobAt;
    p := new DynPred([0]);
    ghost var st0, sh0 := p.St(), p.sh;
    c1 := AddClean(p, Var);
    ghost var st1, sh1 := p.St(), p.sh;
    AddedIs(st0, sh0, st1, sh1, c1, true);
    c2 := AddClean(p, Int(1));
    ghost var st2, sh2 := p.St(), p.sh;
    AddedIs(st1, sh1, st2, sh2, c2, false);
    c3 := AddClean(p, Var);
    AddedIs(st2, sh2, p.St(), p.sh, c3, true);
    p.AllocatedIs();
    ThreeInRow(st0, sh0, st1, sh1, st2, sh2, p.St(), p.sh, c1, c2, c3);
  }

  /** The only clause of record i is retracted beside choice points on records, one of which is in the way. */
  method RetractOne(p: DynPred, cps: seq<Alt>, c: nat, ghost ss: seq<nat>, ghost cs: seq<seq<nat>>, ghost i: nat)
    requires p.Valid() && c in p.heads && Row(p.St(), p.sh, ss, cs) && 1 < |ss| && i < |ss|
    requires cs[i] == [c] && (forall j: nat :: j < |cs| && j != i ==> c !in cs[j])
    requires forall k :: 0 <= k < |cps| ==> cps[k].Dynamic? && cps[k].cell.SobCell? && Resumable(p.sh, cps[k].cell)
    requires exists k :: 0 <= k < |cps| && (cps[k].cell == SobCell(ss[i]) || (i == 0 && cps[k].cell == SobCell(ss[1])))
    modifies p
    ensures p.Valid() && p.heads == old(p.heads) - {c} && Row(p.St(), p.sh, ss, cs[i := []])
    ensures forall k :: 0 <= k < |cps| ==> Resumable(p.sh, cps[k].cell)
  {
    hide Storage, Tree, Row, Deleted, RecordsLeft, FailedStay, Resumable, RunsFailed, RunsEmptied, Rest, Tried, Without, Kept, SobSafe, ClauseSafe, Held, AreMarks;
    ghost var st0, sh0 := p.St(), p.sh;
    ghost var marked;
    var deleted;
    deleted, marked := RetractClause(p, cps, c);
    RecordsMarked(st0, sh0, cps, marked, c);
    MarksAre(cps, marked);
    if SobCell(ss[i]) !in marked { FirstUnsafe(st0, sh0, ss, cs, marked); }
    RowStep(st0, sh0, p.St(), p.sh, ss, cs, i, c, marked);
  }

  /** Asserts and retracts after which neither an enumeration nor a further assert nor a step back is right: three
      clauses in three records, and choice points on the second and third record while the outer clauses are retracted. */
  method FailedRun() returns (p: DynPred, c: nat, cps: seq<Alt>)
    ensures fresh(p) && p.Valid() && p.heads.Keys == {c} && Broken(p.St(), p.sh, c)
    ensures |cps| == 2 && forall i :: 0 <= i < |cps| ==> cps[i].Dynamic? && Resumable(p.sh, cps[i].cell) && RunsFailed(p.St(), p.sh, cps[i].cell)
  {
    hide Storage, Tree, Row, Broken, Resumable, RunsFailed, SobAt;
    var c1, c3;
    p, c1, c, c3 := ThreeRecords();
    ghost var ss := [SobAt(p.sh, c1, 1), SobAt(p.sh, c, 1), SobAt(p.sh, c3, 1)];
    ghost var cs := [[c1], [c], [c3]];
    LastWords(p.St(), p.sh, ss, cs);
    var r3 := p.preds[Root].last;
    var r2 := p.cells[r3].prev;
    cps := [Dynamic(r2), Dynamic(r3)];
    RowRuns(p.St(), p.sh, ss, cs, 1);
    RowRuns(p.St(), p.sh, ss, cs, 2);
    assert cps[0].cell == SobCell(ss[1]) && cps[1].cell == SobCell(ss[2]);
    RetractOne(p, cps, c1, ss, cs, 0);
    cs := cs[0 := []];
    RetractOne(p, cps, c3, ss, cs, 2);
    cs := cs[2 := []];
    assert cs == [[], [c], []];
    p.AllocatedIs();
    RowBroken(p.St(), p.sh, ss, c);
    RowRuns(p.St(), p.sh, ss, cs, 1);
    RowRuns(p.St(), p.sh, ss, cs, 2);
  }
}
