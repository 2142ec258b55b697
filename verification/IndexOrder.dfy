/** Positions in the tree of index records: what comes after a record or a clause, and which
    clauses a call can match. */
module IndexOrder {
  import opened Chains
  import opened IndexShape
  import opened IndexTree

  /** The head of a call, or nothing when all clauses are wanted. */
  datatype Key = NoKey | Head(args: seq<Sym>)

  predicate KeyOk(index: seq<nat>, key: Key) {
    key.Head? ==> forall l :: 0 <= l < |index| ==> index[l] < |key.args|
  }

  /** First level, counted from 1, whose argument is bound in the call; 0 if there is none. */
  function Usable(index: seq<nat>, key: Key, from_: nat): (l: nat)
    requires KeyOk(index, key) && from_ <= |index|
    ensures l == 0 || from_ < l <= |index|
    ensures l > 0 ==> key.Head? && !key.args[index[l - 1]].Var?
    ensures key.Head? ==> forall i :: from_ <= i < (if l == 0 then |index| else l - 1) ==> key.args[index[i]].Var?
    decreases |index| - from_
  {
    if key.NoKey? || from_ == |index| then 0
    else if key.args[index[from_]].Var? then Usable(index, key, from_ + 1)
    else from_ + 1
  }

  /** Clause c hashes, in its own record at level l, to the slot of the call. */
  ghost predicate Matches(st: Store, sh: Shape, key: Key, l: nat, c: nat) {
    l == 0 ||
    (&& l <= sh.Depth() && key.Head? && sh.index[l - 1] < |key.args|
     && SobAt(sh, c, l) in st.sobs && st.sobs[SobAt(sh, c, l)].size > 0
     && InSlot(st.heads, sh.index[l - 1], st.sobs[SobAt(sh, c, l)].size,
               SlotOf(sh.index[l - 1], key.args, st.sobs[SobAt(sh, c, l)].size), c))
  }

  /** The clauses of cs that the call can match through its index, in order. */
  ghost function Cands(st: Store, sh: Shape, key: Key, l: nat, cs: seq<nat>): seq<nat> {
    if cs == [] then []
    else (if Matches(st, sh, key, l, cs[0]) then [cs[0]] else []) + Cands(st, sh, key, l, cs[1..])
  }

  /** What follows c in cs. */
  ghost function Later(cs: seq<nat>, c: nat): seq<nat> {
    if cs == [] then [] else if cs[0] == c then cs[1..] else Later(cs[1..], c)
  }

  datatype Option<T> = None | Some(value: T)

  ghost function First(cs: seq<nat>): Option<nat> {
    if cs == [] then None else Some(cs[0])
  }

  lemma CandsConcat(st: Store, sh: Shape, key: Key, l: nat, a: seq<nat>, b: seq<nat>)
    ensures Cands(st, sh, key, l, a + b) == Cands(st, sh, key, l, a) + Cands(st, sh, key, l, b)
  {
    if a == [] { assert a + b == b; } else { assert (a + b)[1..] == a[1..] + b; }
  }

  lemma CandsAll(st: Store, sh: Shape, key: Key, cs: seq<nat>)
    ensures Cands(st, sh, key, 0, cs) == cs
  {
    if cs != [] { CandsAll(st, sh, key, cs[1..]); assert cs == [cs[0]] + cs[1..]; }
  }

  lemma LaterAt(a: seq<nat>, c: nat, b: seq<nat>)
    requires c !in a
    ensures Later(a + [c] + b, c) == b
  {
    if a == [] {
      assert ([c] + b)[1..] == b;
      assert a + [c] + b == [c] + b;
    } else {
      assert (a + [c] + b)[1..] == a[1..] + [c] + b;
    }
  }

  // ---- what comes after a record ---------------------------------------------------

  ghost function Pos(xs: seq<Loc>, x: Loc): (k: nat)
    ensures x in xs ==> k < |xs| && xs[k] == x
  {
    if xs == [] || xs[0] == x then 0 else 1 + Pos(xs[1..], x)
  }

  ghost function Parent(sh: Shape, o: Loc): Loc {
    if o.SubPred? && SobCell(o.sob) in sh.home then sh.home[SobCell(o.sob)] else Root
  }

  /** Clauses after everything below o, which stands at level l. */
  ghost function Post(sh: Shape, o: Loc, l: nat): seq<nat>
    decreases l
  {
    if l == 0 || !o.SubPred? || Parent(sh, o) !in sh.chains || SobCell(o.sob) !in sh.chains[Parent(sh, o)] then []
    else
      var xs := sh.chains[Parent(sh, o)];
      Flat(xs[Pos(xs, SobCell(o.sob)) + 1..], sh.under) + Post(sh, Parent(sh, o), l - 1)
  }

  ghost function Pre(sh: Shape, o: Loc, l: nat): seq<nat>
    decreases l
  {
    if l == 0 || !o.SubPred? || Parent(sh, o) !in sh.chains || SobCell(o.sob) !in sh.chains[Parent(sh, o)] then []
    else
      var xs := sh.chains[Parent(sh, o)];
      Pre(sh, Parent(sh, o), l - 1) + Flat(xs[..Pos(xs, SobCell(o.sob))], sh.under)
  }

  lemma PosUnique(xs: seq<Loc>, k: nat)
    requires Distinct(xs) && k < |xs|
    ensures Pos(xs, xs[k]) == k
  {
    assert xs[k] in xs;
  }

  /** A record at its place: who its parent is and that its clauses cut the order in three. */
  lemma Place(st: Store, sh: Shape, s: nat)
    requires Storage(st, sh) && Tree(st, sh, Settled, {}) && s in st.sobs && SobCell(s) in sh.home
    ensures s in sh.level && SubPred(s) in sh.chains && SubPred(s) in sh.under
    ensures 1 <= sh.level[s] <= sh.Depth()
    ensures var f := Parent(sh, SubPred(s));
      && f in sh.chains && !f.Bucket? && IsSob(sh, f) && LevelOf(sh, f) == sh.level[s] - 1
      && (f.SubPred? ==> f.sob in st.sobs) && (f.SubPred? || f == Root)
      && SobCell(s) in sh.chains[f] && Distinct(sh.chains[f])
      && f in sh.under && sh.under[f] == Flat(sh.chains[f], sh.under)
    ensures sh.under[SubPred(s)] == [] <==> st.sobs[s].failed
  {
    hide SobTree, ClausePart, AllPart, OwnerOk, SobOk, Flat, Distinct, UnderOk;
    SobPositive(st, sh, s);
    assert SobTree(st, sh, s);
    var f := sh.home[SobCell(s)];
    assert SobCell(s) in sh.chains[f] && KindOk(sh, f, SobCell(s));
    SobUnder(st, sh, s);
    ChainDistinct(st, sh, f);
    assert UnderOk(sh, Settled, f);
    SettledUnder(sh, f);
  }

  lemma OnChain(st: Store, sh: Shape, s: nat)
    requires Tree(st, sh, Settled, {}) && s in st.sobs && !st.sobs[s].failed
    ensures SobCell(s) in sh.home
  {
    hide SobTree, UnderPart, FullPart, ClausePart, AllPart;
  }

  /** Above a record that has not failed none has. */
  lemma AliveParent(st: Store, sh: Shape, s: nat)
    requires Storage(st, sh) && Tree(st, sh, Settled, {}) && s in st.sobs && !st.sobs[s].failed
    ensures SobCell(s) in sh.home && Alive(st, Parent(sh, SubPred(s)))
  {
    hide SobTree, UnderPart, SobPart, ClausePart, AllPart, Storage, Flat, Distinct, KindOk, Tree, IsSob;
    OnChain(st, sh, s);
    Place(st, sh, s);
    var f := Parent(sh, SubPred(s));
    if f.SubPred? {
      var k :| 0 <= k < |sh.chains[f]| && sh.chains[f][k] == SobCell(s);
      var c := sh.under[SubPred(s)][0];
      assert c in Item(SobCell(s), sh.under);
      FlatMember(sh.chains[f], k, sh.under, c);
      FailedEmpty(st, sh, f.sob);
    }
  }

  lemma FailedEmpty(st: Store, sh: Shape, s: nat)
    requires Tree(st, sh, Settled, {}) && s in st.sobs
    ensures SubPred(s) in sh.under && SubPred(s) in sh.chains && (sh.under[SubPred(s)] == [] <==> st.sobs[s].failed)
    ensures !st.sobs[s].failed ==> sh.chains[SubPred(s)] != []
  {
    hide UnderPart, SobPart, ClausePart, AllPart;
    assert Filled(st, sh, s);
  }

  /** A record on the chain of the predicate or of a record that has not failed. */
  ghost predicate Attached(st: Store, sh: Shape, s: nat) {
    s in st.sobs && SobCell(s) in sh.home && Alive(st, Parent(sh, SubPred(s)))
  }

  lemma SettledUnder(sh: Shape, o: Loc)
    requires o in sh.chains && UnderOk(sh, Settled, o)
    ensures o in sh.under && sh.under[o] == Flat(sh.chains[o], sh.under)
  {
  }

  lemma Cut(st: Store, sh: Shape, o: Loc)
    requires Storage(st, sh) && Tree(st, sh, Settled, {}) && (Alive(st, o) || (o.SubPred? && Attached(st, sh, o.sob)))
    ensures o in sh.under && Root in sh.under
    ensures All(sh) == Pre(sh, o, LevelOf(sh, o)) + sh.under[o] + Post(sh, o, LevelOf(sh, o))
    decreases LevelOf(sh, o)
  {
    hide UnderPart, SobPart, FullPart, ClausePart, Storage, Flat, KindOk, IsSob, Distinct, Pre, Post, Item, Tree, All;
    if o.SubPred? {
      if Alive(st, o) { AliveParent(st, sh, o.sob); }
      Place(st, sh, o.sob);
      var f := Parent(sh, o);
      Cut(st, sh, f);
      var xs := sh.chains[f];
      var k := Pos(xs, SobCell(o.sob));
      FlatDrop(xs, k, sh.under);
      SobItem(sh, o);
      LevelIs(sh, o, f);
      PreIs(sh, o, f);
      Regroup(Pre(sh, f, LevelOf(sh, f)), Flat(xs[..k], sh.under), sh.under[o], Flat(xs[k + 1..], sh.under), Post(sh, f, LevelOf(sh, f)));
    } else {
      RootCut(st, sh);
    }
  }

  lemma RootCut(st: Store, sh: Shape)
    requires Storage(st, sh) && Tree(st, sh, Settled, {})
    ensures Root in sh.under && All(sh) == Pre(sh, Root, LevelOf(sh, Root)) + sh.under[Root] + Post(sh, Root, LevelOf(sh, Root))
  {
    hide SobPart, FullPart, ClausePart, KindOk, Distinct, OwnerOk, SobOk, Flat;
    assert UnderOk(sh, Settled, Root);
  }

  lemma SobItem(sh: Shape, o: Loc)
    requires o.SubPred? && o in sh.under
    ensures Item(SobCell(o.sob), sh.under) == sh.under[o]
  {
  }

  lemma LevelIs(sh: Shape, o: Loc, f: Loc)
    requires o.SubPred? && o.sob in sh.level && sh.level[o.sob] >= 1 && LevelOf(sh, f) == sh.level[o.sob] - 1
    ensures LevelOf(sh, o) == LevelOf(sh, f) + 1
  {
  }

  lemma PreIs(sh: Shape, o: Loc, f: Loc)
    requires o.SubPred? && f == Parent(sh, o) && f in sh.chains && SobCell(o.sob) in sh.chains[f] && LevelOf(sh, o) == LevelOf(sh, f) + 1
    ensures Pre(sh, o, LevelOf(sh, o)) == Pre(sh, f, LevelOf(sh, f)) + Flat(sh.chains[f][..Pos(sh.chains[f], SobCell(o.sob))], sh.under)
    ensures Post(sh, o, LevelOf(sh, o)) == Flat(sh.chains[f][Pos(sh.chains[f], SobCell(o.sob)) + 1..], sh.under) + Post(sh, f, LevelOf(sh, f))
  {
    hide Flat, LevelOf;
  }

  lemma Regroup<T>(a: seq<T>, b: seq<T>, c: seq<T>, d: seq<T>, e: seq<T>)
    ensures a + (b + c + d) + e == a + b + c + (d + e)
  {
  }

  /** The first record below f, and the one after s on its chain. */
  lemma FirstBelow(st: Store, sh: Shape, f: Loc, s: nat)
    requires Storage(st, sh) && Tree(st, sh, Settled, {}) && f in sh.chains && sh.chains[f] != [] && sh.chains[f][0] == SobCell(s)
    requires (f == Root || (f.SubPred? && f.sob in st.sobs)) && IsSob(sh, f)
    ensures s in st.sobs && s in sh.level && sh.level[s] == LevelOf(sh, f) + 1
    ensures f in sh.under && SubPred(s) in sh.under
    ensures sh.under[f] + Post(sh, f, LevelOf(sh, f)) == sh.under[SubPred(s)] + Post(sh, SubPred(s), sh.level[s])
  {
    hide UnderPart, SobPart, FullPart, ClausePart, AllPart, Storage, Flat, KindOk, IsSob, Distinct;
    EndChild(st, sh, f, LevelOf(sh, f));
    assert sh.chains[f][0] in sh.chains[f];
    ChildFacts(st, sh, f, s);
    Place(st, sh, s);
    ParentIs(st, sh, f, s);
    PosUnique(sh.chains[f], 0);
    FlatDrop(sh.chains[f], 0, sh.under);
    FlatEmpty(sh.under);
    assert sh.chains[f][..0] == [];
  }

  lemma NextSibling(st: Store, sh: Shape, f: Loc, k: nat, s: nat, t: nat)
    requires Storage(st, sh) && Tree(st, sh, Settled, {}) && f in sh.chains && k + 1 < |sh.chains[f]|
    requires sh.chains[f][k] == SobCell(s) && sh.chains[f][k + 1] == SobCell(t)
    requires (f == Root || (f.SubPred? && f.sob in st.sobs)) && IsSob(sh, f)
    ensures t in st.sobs && t in sh.level && s in sh.level && sh.level[t] == sh.level[s] == LevelOf(sh, f) + 1
    ensures SubPred(t) in sh.under
    ensures Post(sh, SubPred(s), sh.level[s]) == sh.under[SubPred(t)] + Post(sh, SubPred(t), sh.level[t])
  {
    hide Tree, Storage, Flat, KindOk, IsSob, Distinct, Post, LevelOf;
    PostOnChain(st, sh, f, k, s);
    PostOnChain(st, sh, f, k + 1, t);
    var ys := sh.chains[f][k + 1..];
    FlatDrop(ys, 0, sh.under);
    FlatEmpty(sh.under);
    assert ys[..0] == [] && ys[1..] == sh.chains[f][k + 2..];
  }

  /** What precedes the k-th record of a chain. */
  lemma PreOnChain(st: Store, sh: Shape, f: Loc, k: nat, s: nat)
    requires Storage(st, sh) && Tree(st, sh, Settled, {}) && f in sh.chains && k < |sh.chains[f]| && sh.chains[f][k] == SobCell(s)
    requires s in st.sobs && s in sh.level && LevelOf(sh, f) == sh.level[s] - 1
    ensures Pre(sh, SubPred(s), sh.level[s]) == Pre(sh, f, LevelOf(sh, f)) + Flat(sh.chains[f][..k], sh.under)
  {
    hide Tree, Storage, Flat, KindOk, IsSob, Distinct, LevelOf;
    assert sh.chains[f][k] in sh.chains[f];
    ChildFacts(st, sh, f, s);
    ParentIs(st, sh, f, s);
    ChainDistinct(st, sh, f);
    PosUnique(sh.chains[f], k);
  }

  /** What follows the k-th record of a chain. */
  lemma PostOnChain(st: Store, sh: Shape, f: Loc, k: nat, s: nat)
    requires Storage(st, sh) && Tree(st, sh, Settled, {}) && f in sh.chains && k < |sh.chains[f]| && sh.chains[f][k] == SobCell(s)
    requires (f == Root || (f.SubPred? && f.sob in st.sobs)) && IsSob(sh, f)
    ensures s in st.sobs && s in sh.level && sh.level[s] == LevelOf(sh, f) + 1 && SubPred(s) in sh.under
    ensures Post(sh, SubPred(s), sh.level[s]) == Flat(sh.chains[f][k + 1..], sh.under) + Post(sh, f, LevelOf(sh, f))
  {
    hide Tree, Storage, Flat, KindOk, IsSob, Distinct;
    EndChild(st, sh, f, LevelOf(sh, f));
    assert sh.chains[f][k] in sh.chains[f];
    ChildFacts(st, sh, f, s);
    Place(st, sh, s);
    ParentIs(st, sh, f, s);
    PosUnique(sh.chains[f], k);
  }

  lemma LastSibling(st: Store, sh: Shape, f: Loc, s: nat)
    requires Storage(st, sh) && Tree(st, sh, Settled, {}) && f in sh.chains && sh.chains[f] != []
    requires sh.chains[f][|sh.chains[f]| - 1] == SobCell(s)
    requires (f == Root || (f.SubPred? && f.sob in st.sobs)) && IsSob(sh, f)
    ensures s in sh.level && sh.level[s] == LevelOf(sh, f) + 1
    ensures Post(sh, SubPred(s), sh.level[s]) == Post(sh, f, LevelOf(sh, f))
  {
    hide Tree, Storage, Flat, KindOk, IsSob, Distinct, Post, LevelOf;
    var k := |sh.chains[f]| - 1;
    PostOnChain(st, sh, f, k, s);
    FlatEmpty(sh.under);
    assert sh.chains[f][k + 1..] == [];
  }

  lemma ParentIs(st: Store, sh: Shape, f: Loc, s: nat)
    requires Storage(st, sh) && f in sh.chains && SobCell(s) in sh.chains[f]
    ensures Parent(sh, SubPred(s)) == f
  {
    hide OwnerOk, SobOk, KindOk;
  }

  // ---- buckets are the matching clauses --------------------------------------------

  ghost function Ids(xs: seq<Loc>): seq<nat> {
    if xs == [] then [] else (if xs[0].IndCell? then [xs[0].clause] else []) + Ids(xs[1..])
  }

  /** In the record of the index level, the bucket of the call is exactly what matches. */
  lemma BucketIsCands(st: Store, sh: Shape, key: Key, s: nat, h: nat)
    requires Storage(st, sh) && Tree(st, sh, Settled, {}) && s in st.sobs && s in sh.level && SubPred(s) in sh.under
    requires key.Head? && KeyOk(sh.index, key)
    requires st.sobs[s].size > 0 && 1 <= sh.level[s] <= sh.Depth() && h == SlotOf(sh.index[sh.level[s] - 1], key.args, st.sobs[s].size)
    ensures Bucket(s, h) in sh.chains
    ensures Ids(sh.chains[Bucket(s, h)]) == Cands(st, sh, key, sh.level[s], sh.under[SubPred(s)])
  {
    hide UnderPart, FullPart, ClausePart, AllPart, OwnerOk, SobOk, HomeOk, BucketOf, Cands, Ids;
    assert SobTree(st, sh, s);
    SobPositive(st, sh, s);
    forall c | c in sh.under[SubPred(s)] ensures SobAt(sh, c, sh.level[s]) == s {
      BelowAt(st, sh, s, c);
    }
    IdsAreCands(st, sh, key, s, h, sh.under[SubPred(s)]);
  }

  lemma IdsAreCands(st: Store, sh: Shape, key: Key, s: nat, h: nat, cs: seq<nat>)
    requires s in st.sobs && s in sh.level && 1 <= sh.level[s] <= sh.Depth() && key.Head? && KeyOk(sh.index, key)
    requires st.sobs[s].size > 0 && st.sobs[s].arg == sh.index[sh.level[s] - 1]
    requires h == SlotOf(sh.index[sh.level[s] - 1], key.args, st.sobs[s].size)
    requires forall c :: c in cs ==> SobAt(sh, c, sh.level[s]) == s
    ensures Ids(BucketOf(cs, st.heads, st.sobs[s].arg, st.sobs[s].size, h, sh.level[s])) == Cands(st, sh, key, sh.level[s], cs)
  {
    hide SobAt;
    if cs != [] {
      IdsAreCands(st, sh, key, s, h, cs[1..]);
      assert cs[0] in cs;
      IdsHead(IndCell(cs[0], sh.level[s]), BucketOf(cs[1..], st.heads, st.sobs[s].arg, st.sobs[s].size, h, sh.level[s]));
    }
  }

  lemma IdsHead(x: Loc, xs: seq<Loc>)
    requires x.IndCell?
    ensures Ids([x] + xs) == [x.clause] + Ids(xs)
    ensures [] + xs == xs
  {
    assert ([x] + xs)[1..] == xs;
  }

  /** A clause below record s is in one of its buckets. */
  lemma BelowAt(st: Store, sh: Shape, s: nat, c: nat)
    requires Storage(st, sh) && s in st.sobs && SobTree(st, sh, s) && SubPred(s) in sh.under && c in sh.under[SubPred(s)] && s in sh.level
    ensures SobAt(sh, c, sh.level[s]) == s
    ensures IndCell(c, sh.level[s]) in sh.home && sh.home[IndCell(c, sh.level[s])].Bucket?
  {
    hide OwnerOk, SobOk, BucketOf, KindOk;
    SobPositive(st, sh, s);
    var g := SlotOf(st.sobs[s].arg, st.heads[c], st.sobs[s].size);
    BucketMembers(sh.under[SubPred(s)], st.heads, st.sobs[s].arg, st.sobs[s].size, g, sh.level[s]);
    assert IndCell(c, sh.level[s]) in sh.chains[Bucket(s, g)];
  }

  lemma IdsAt(xs: seq<Loc>, k: nat)
    requires k < |xs| && forall x :: x in xs ==> x.IndCell?
    ensures |Ids(xs)| == |xs| && Ids(xs)[k] == xs[k].clause
  {
    if k > 0 {
      assert forall x :: x in xs[1..] ==> x in xs;
      IdsAt(xs[1..], k - 1);
    } else if |xs| > 1 {
      assert forall x :: x in xs[1..] ==> x in xs;
      IdsAt(xs[1..], 0);
    } else {
      assert xs[1..] == [];
    }
    assert xs[0] in xs;
  }

  // ---- nothing that could match is skipped -----------------------------------------

  /** Two arguments whose outermost symbols clash cannot be unified. */
  predicate MayUnify(a: Sym, b: Sym) {
    a.Var? || b.Var? || a == b
  }

  /** Arguments that may unify hash to the same slot, given that a variable has a table of one slot. */
  lemma SameSlot(heads: map<nat, seq<Sym>>, ind: nat, size: nat, args: seq<Sym>, c: nat)
    requires c in heads && ind < |heads[c]| && ind < |args| && size > 0
    requires MayUnify(heads[c][ind], args[ind]) && !args[ind].Var? && (heads[c][ind].Var? ==> size == 1)
    ensures InSlot(heads, ind, size, SlotOf(ind, args, size), c)
  {
  }

  /** Every clause whose indexed argument may unify with the call's is a candidate. */
  lemma NoneMissed(st: Store, sh: Shape, key: Key, c: nat)
    requires Storage(st, sh) && Tree(st, sh, Settled, {}) && KeyOk(sh.index, key) && c in st.heads
    requires var l := Usable(sh.index, key, 0);
      l == 0 || (sh.index[l - 1] < |st.heads[c]| && MayUnify(st.heads[c][sh.index[l - 1]], key.args[sh.index[l - 1]]))
    ensures Matches(st, sh, key, Usable(sh.index, key, 0), c)
  {
    hide Storage, UnderPart, SobPart, ClausePart, FullPart, AllPart, InSlot, SobAt;
    var l := Usable(sh.index, key, 0);
    if l > 0 {
      LevelSlot(st, sh, c, l);
      SameSlot(st.heads, sh.index[l - 1], st.sobs[SobAt(sh, c, l)].size, key.args, c);
    }
  }

  /** At every level a clause sits in the slot its own argument hashes to. */
  lemma LevelSlot(st: Store, sh: Shape, c: nat, l: nat)
    requires Storage(st, sh) && Tree(st, sh, Settled, {}) && c in st.heads && 1 <= l <= sh.Depth()
    ensures IndCell(c, l) in sh.home && sh.home[IndCell(c, l)].Bucket?
    ensures var s := SobAt(sh, c, l);
      && s in st.sobs && st.sobs[s].size > 0 && s in sh.level && sh.level[s] == l
      && st.sobs[s].arg == sh.index[l - 1] && SubPred(s) in sh.under && c in sh.under[SubPred(s)]
      && InSlot(st.heads, sh.index[l - 1], st.sobs[s].size, sh.home[IndCell(c, l)].slot, c)
      && (st.heads[c][sh.index[l - 1]].Var? ==> st.sobs[s].size == 1)
  {
    hide UnderPart, FullPart, AllPart, ClausePart, InSlot, Storage, SobTree, BucketOf, SobAt;
    IndexCellHome(st, sh, c, l);
    var o := sh.home[IndCell(c, l)];
    BucketFacts(st, sh, o.sob, o.slot);
    assert IndCell(c, l) in sh.chains[o];
    SobPositive(st, sh, o.sob);
    assert SobTree(st, sh, o.sob);
    BucketClause(st, sh, o, c, l);
    SlotHead(st, sh, o.sob, c);
  }

  lemma SlotHead(st: Store, sh: Shape, s: nat, c: nat)
    requires s in st.sobs && SobTree(st, sh, s) && SubPred(s) in sh.under && c in sh.under[SubPred(s)]
    ensures c in st.heads && st.sobs[s].arg < |st.heads[c]| && (st.heads[c][st.sobs[s].arg].Var? ==> st.sobs[s].size == 1)
  {
  }

  lemma IndexCellHome(st: Store, sh: Shape, c: nat, l: nat)
    requires Storage(st, sh) && Tree(st, sh, Settled, {}) && c in st.heads && 1 <= l <= sh.Depth()
    ensures IndCell(c, l) in sh.home && sh.home[IndCell(c, l)].Bucket?
    ensures sh.home[IndCell(c, l)] in sh.chains && IndCell(c, l) in sh.chains[sh.home[IndCell(c, l)]]
    ensures SobAt(sh, c, l) == sh.home[IndCell(c, l)].sob
  {
    hide UnderPart, FullPart, AllPart, SobPart, OwnerOk, SobOk, KindOk, HeadOk;
    assert ClauseOk(sh, Settled, c);
  }
}
