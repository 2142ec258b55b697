/** The tree of index records: which clauses lie below which record, in which order and in
    which bucket, and how one assert or one delete moves between such trees. */
module IndexTree {
  import opened Chains
  import opened IndexShape

  // ---- sequences of clauses --------------------------------------------------------

  ghost function Item(x: Loc, under: map<Loc, seq<nat>>): seq<nat> {
    match x
    case ClauseCell(c) => [c]
    case SobCell(s) => if SubPred(s) in under then under[SubPred(s)] else []
    case _ => []
  }

  /** The clauses below the cells xs, in order. */
  ghost function Flat(xs: seq<Loc>, under: map<Loc, seq<nat>>): seq<nat> {
    if xs == [] then [] else Item(xs[0], under) + Flat(xs[1..], under)
  }

  ghost function Without(cs: seq<nat>, c: nat): seq<nat> {
    if cs == [] then [] else (if cs[0] == c then [] else [cs[0]]) + Without(cs[1..], c)
  }

  /** The clauses of cs that hash to slot h of a table of the given size. */
  ghost predicate InSlot(heads: map<nat, seq<Sym>>, ind: nat, size: nat, h: nat, c: nat) {
    c in heads && ind < |heads[c]| && size > 0 && SlotOf(ind, heads[c], size) == h
  }

  ghost function BucketOf(cs: seq<nat>, heads: map<nat, seq<Sym>>, ind: nat, size: nat, h: nat, l: nat): seq<Loc> {
    if cs == [] then []
    else (if InSlot(heads, ind, size, h, cs[0]) then [IndCell(cs[0], l)] else []) + BucketOf(cs[1..], heads, ind, size, h, l)
  }

  lemma {:induction false} FlatConcat(xs: seq<Loc>, ys: seq<Loc>, under: map<Loc, seq<nat>>)
    ensures Flat(xs + ys, under) == Flat(xs, under) + Flat(ys, under)
  {
    if xs == [] {
      assert xs + ys == ys;
    } else {
      var t := xs + ys;
      assert t[1..] == xs[1..] + ys && t[0] == xs[0];
      FlatConcat(xs[1..], ys, under);
      assert Flat(t, under) == Item(t[0], under) + Flat(t[1..], under);
      assert Item(xs[0], under) + (Flat(xs[1..], under) + Flat(ys, under)) == Item(xs[0], under) + Flat(xs[1..], under) + Flat(ys, under);
    }
  }

  lemma FlatFrame(xs: seq<Loc>, u0: map<Loc, seq<nat>>, u1: map<Loc, seq<nat>>)
    requires forall x :: x in xs ==> Item(x, u0) == Item(x, u1)
    ensures Flat(xs, u0) == Flat(xs, u1)
  {
  }

  lemma FlatSingle(x: Loc, under: map<Loc, seq<nat>>)
    ensures Flat([x], under) == Item(x, under)
  {
    assert Flat([x][1..], under) == [];
  }

  lemma FlatEnd(az: bool, xs: seq<Loc>, x: Loc, under: map<Loc, seq<nat>>)
    ensures Flat(Add(az, xs, x), under) == if az then Flat(xs, under) + Item(x, under) else Item(x, under) + Flat(xs, under)
  {
    FlatSingle(x, under);
    if az { FlatConcat(xs, [x], under); } else { FlatConcat([x], xs, under); }
  }

  lemma FlatDrop(xs: seq<Loc>, k: nat, under: map<Loc, seq<nat>>)
    requires k < |xs|
    ensures Flat(xs, under) == Flat(xs[..k], under) + Item(xs[k], under) + Flat(xs[k + 1..], under)
    ensures Flat(Drop(xs, k), under) == Flat(xs[..k], under) + Flat(xs[k + 1..], under)
  {
    assert xs == xs[..k] + ([xs[k]] + xs[k + 1..]);
    FlatConcat(xs[..k], [xs[k]] + xs[k + 1..], under);
    FlatConcat([xs[k]], xs[k + 1..], under);
    FlatSingle(xs[k], under);
    FlatConcat(xs[..k], xs[k + 1..], under);
  }

  lemma FlatMember(xs: seq<Loc>, k: nat, under: map<Loc, seq<nat>>, c: nat)
    requires k < |xs| && c in Item(xs[k], under)
    ensures c in Flat(xs, under)
  {
    FlatDrop(xs, k, under);
  }

  lemma {:induction false} WithoutConcat(a: seq<nat>, b: seq<nat>, c: nat)
    ensures Without(a + b, c) == Without(a, c) + Without(b, c)
  {
    if a == [] {
      assert a + b == b;
    } else {
      var t := a + b;
      assert t[1..] == a[1..] + b && t[0] == a[0];
      WithoutConcat(a[1..], b, c);
      var x := if a[0] == c then [] else [a[0]];
      assert Without(t, c) == x + Without(t[1..], c) && Without(a, c) == x + Without(a[1..], c);
      assert x + (Without(a[1..], c) + Without(b, c)) == x + Without(a[1..], c) + Without(b, c);
    }
  }

  lemma WithoutAbsent(cs: seq<nat>, c: nat)
    requires c !in cs
    ensures Without(cs, c) == cs
  {
    if cs != [] {
      WithoutAbsent(cs[1..], c);
      assert cs == [cs[0]] + cs[1..];
    }
  }

  lemma WithoutMembers(cs: seq<nat>, c: nat)
    ensures forall d :: d in Without(cs, c) <==> d in cs && d != c
  {
    if cs != [] {
      WithoutMembers(cs[1..], c);
      assert cs == [cs[0]] + cs[1..];
    }
  }

  lemma WithoutDistinct(cs: seq<nat>, c: nat)
    requires Distinct(cs)
    ensures Distinct(Without(cs, c))
  {
    if cs != [] {
      assert cs == [cs[0]] + cs[1..];
      DistinctTail([cs[0]], cs[1..]);
      WithoutDistinct(cs[1..], c);
      WithoutMembers(cs[1..], c);
      assert cs[0] in [cs[0]];
    }
  }

  lemma BucketConcat(a: seq<nat>, b: seq<nat>, heads: map<nat, seq<Sym>>, ind: nat, size: nat, h: nat, l: nat)
    ensures BucketOf(a + b, heads, ind, size, h, l) == BucketOf(a, heads, ind, size, h, l) + BucketOf(b, heads, ind, size, h, l)
  {
    if a == [] { assert a + b == b; } else { assert (a + b)[1..] == a[1..] + b; }
  }

  lemma BucketAdd(az: bool, cs: seq<nat>, c: nat, heads: map<nat, seq<Sym>>, ind: nat, size: nat, h: nat, l: nat)
    ensures BucketOf(Add(az, cs, c), heads, ind, size, h, l) ==
      if InSlot(heads, ind, size, h, c) then Add(az, BucketOf(cs, heads, ind, size, h, l), IndCell(c, l))
      else BucketOf(cs, heads, ind, size, h, l)
  {
    BucketHead(c, heads, ind, size, h, l);
    if az { BucketConcat(cs, [c], heads, ind, size, h, l); } else { BucketConcat([c], cs, heads, ind, size, h, l); }
  }

  lemma BucketFrame(cs: seq<nat>, h0: map<nat, seq<Sym>>, h1: map<nat, seq<Sym>>, ind: nat, size: nat, h: nat, l: nat)
    requires forall c :: c in cs ==> c in h0 && c in h1 && h0[c] == h1[c]
    ensures BucketOf(cs, h0, ind, size, h, l) == BucketOf(cs, h1, ind, size, h, l)
  {
  }

  lemma BucketMembers(cs: seq<nat>, heads: map<nat, seq<Sym>>, ind: nat, size: nat, h: nat, l: nat)
    ensures forall x :: x in BucketOf(cs, heads, ind, size, h, l) <==>
      x.IndCell? && x.level == l && x.clause in cs && InSlot(heads, ind, size, h, x.clause)
  {
    if cs != [] { BucketMembers(cs[1..], heads, ind, size, h, l); }
  }

  /** Dropping the only occurrence of a clause commutes with hashing. */
  lemma BucketDrop(cs: seq<nat>, c: nat, k: nat, heads: map<nat, seq<Sym>>, ind: nat, size: nat, h: nat, l: nat)
    requires Distinct(BucketOf(cs, heads, ind, size, h, l)) && k < |BucketOf(cs, heads, ind, size, h, l)|
    requires BucketOf(cs, heads, ind, size, h, l)[k] == IndCell(c, l)
    ensures BucketOf(Without(cs, c), heads, ind, size, h, l) == Drop(BucketOf(cs, heads, ind, size, h, l), k)
  {
    hide Distinct, InSlot, Drop;
    var ys := BucketOf(cs[1..], heads, ind, size, h, l);
    var first := if InSlot(heads, ind, size, h, cs[0]) then [IndCell(cs[0], l)] else [];
    assert BucketOf(cs, heads, ind, size, h, l) == first + ys;
    DistinctTail(first, ys);
    if k < |first| {
      BucketAbsent(cs[1..], c, heads, ind, size, h, l);
      assert Without(cs, c) == Without(cs[1..], c);
      assert Drop(first + ys, 0) == ys by { DropHead(first[0], ys); }
    } else {
      BucketDrop(cs[1..], c, k - |first|, heads, ind, size, h, l);
      DropTail(first, ys, k);
      if cs[0] == c {
        assert ys[k - |first|] == IndCell(c, l);
        Has(first);
        assert Without(cs, c) == Without(cs[1..], c);
      } else {
        assert Without(cs, c) == [cs[0]] + Without(cs[1..], c);
        BucketHead(cs[0], heads, ind, size, h, l);
        BucketConcat([cs[0]], Without(cs[1..], c), heads, ind, size, h, l);
      }
    }
  }

  lemma Has<T>(xs: seq<T>)
    ensures xs != [] ==> xs[0] in xs
  {
  }

  lemma DropHead<T>(x: T, ys: seq<T>)
    ensures Drop([x] + ys, 0) == ys
  {
  }

  lemma DropTail<T>(a: seq<T>, b: seq<T>, k: nat)
    requires |a| <= k < |a| + |b|
    ensures Drop(a + b, k) == a + Drop(b, k - |a|)
  {
  }

  lemma DistinctTail<T>(a: seq<T>, b: seq<T>)
    requires Distinct(a + b)
    ensures Distinct(b) && forall x :: x in a ==> x !in b
  {
    forall i, j | 0 <= i < j < |b| ensures b[i] != b[j] { assert (a + b)[i + |a|] != (a + b)[j + |a|]; }
    forall i, j | 0 <= i < |a| && 0 <= j < |b| ensures a[i] != b[j] { assert (a + b)[i] != (a + b)[j + |a|]; }
  }

  lemma BucketHead(c: nat, heads: map<nat, seq<Sym>>, ind: nat, size: nat, h: nat, l: nat)
    ensures BucketOf([c], heads, ind, size, h, l) == if InSlot(heads, ind, size, h, c) then [IndCell(c, l)] else []
  {
    assert BucketOf([c][1..], heads, ind, size, h, l) == [];
  }

  lemma BucketAbsent(cs: seq<nat>, c: nat, heads: map<nat, seq<Sym>>, ind: nat, size: nat, h: nat, l: nat)
    requires IndCell(c, l) !in BucketOf(cs, heads, ind, size, h, l)
    ensures BucketOf(Without(cs, c), heads, ind, size, h, l) == BucketOf(cs, heads, ind, size, h, l)
  {
    if cs != [] {
      BucketAbsent(cs[1..], c, heads, ind, size, h, l);
      BucketConcat(if cs[0] == c then [] else [cs[0]], Without(cs[1..], c), heads, ind, size, h, l);
      assert BucketOf([cs[0]][1..], heads, ind, size, h, l) == [];
    }
  }

  lemma BucketWithoutOther(cs: seq<nat>, c: nat, heads: map<nat, seq<Sym>>, ind: nat, size: nat, h: nat, l: nat)
    requires !InSlot(heads, ind, size, h, c)
    ensures BucketOf(Without(cs, c), heads, ind, size, h, l) == BucketOf(cs, heads, ind, size, h, l)
  {
    BucketMembers(cs, heads, ind, size, h, l);
    BucketAbsent(cs, c, heads, ind, size, h, l);
  }

  // ---- the tree --------------------------------------------------------------------

  /** An update on its way: where it stands and what it still owes. */
  datatype Pend =
    | Settled
    | Adding(at: Loc, depth: nat, clause: nat, az: bool)   // at's clauses lead with / end with the new one
    | Removing(at: Loc, depth: nat, clause: nat)           // at's clauses still mention the old one

  ghost predicate UnderOk(sh: Shape, p: Pend, o: Loc)
    requires o in sh.chains
  {
    && o in sh.under
    && (if p.Adding? && p.at == o then sh.under[o] == Add(p.az, Flat(sh.chains[o], sh.under), p.clause)
        else if p.Removing? && p.at == o then Flat(sh.chains[o], sh.under) == Without(sh.under[o], p.clause)
        else sh.under[o] == Flat(sh.chains[o], sh.under))
  }

  /** Buckets of record s are the clauses below it, split by hash and kept in order. */
  ghost predicate SobTree(st: Store, sh: Shape, s: nat)
    requires s in st.sobs
  {
    && s in sh.level && SubPred(s) in sh.under
    && (forall h :: 0 <= h < st.sobs[s].size ==>
          && Bucket(s, h) in sh.chains
          && sh.chains[Bucket(s, h)] == BucketOf(sh.under[SubPred(s)], st.heads, st.sobs[s].arg, st.sobs[s].size, h, sh.level[s]))
    && (forall c :: c in sh.under[SubPred(s)] ==>
          && c in st.heads && st.sobs[s].arg < |st.heads[c]|
          && (st.heads[c][st.sobs[s].arg].Var? ==> st.sobs[s].size == 1))
  }

  ghost function SobAt(sh: Shape, c: nat, l: nat): nat {
    if IndCell(c, l) in sh.home && sh.home[IndCell(c, l)].Bucket? then sh.home[IndCell(c, l)].sob else 0
  }

  ghost function OwnerAt(sh: Shape, c: nat, l: nat): Loc {
    if l == 0 then Root else SubPred(SobAt(sh, c, l))
  }

  /** Levels 1 to d of clause c hang below each other, starting at the root. */
  ghost predicate Path(sh: Shape, c: nat, d: nat) {
    forall l :: 1 <= l <= d ==>
      && IndCell(c, l) in sh.home && sh.home[IndCell(c, l)].Bucket?
      && SobCell(SobAt(sh, c, l)) in sh.home
      && sh.home[SobCell(SobAt(sh, c, l))] == OwnerAt(sh, c, l - 1)
  }

  ghost predicate ClauseOk(sh: Shape, p: Pend, c: nat) {
    if !p.Settled? && p.clause == c then
      && Path(sh, c, p.depth) && p.at == OwnerAt(sh, c, p.depth) && p.depth <= sh.Depth()
      && ClauseCell(c) !in sh.home && forall l :: l > p.depth ==> IndCell(c, l) !in sh.home
    else
      Path(sh, c, sh.Depth()) && ClauseCell(c) in sh.home && sh.home[ClauseCell(c)] == OwnerAt(sh, c, sh.Depth())
  }

  /** Clauses of the predicate, in order. */
  ghost function All(sh: Shape): seq<nat> {
    if Root in sh.under then sh.under[Root] else []
  }

  ghost predicate UnderPart(sh: Shape, p: Pend) {
    forall o :: o in sh.chains && !o.Bucket? ==> UnderOk(sh, p, o)
  }

  ghost predicate SobPart(st: Store, sh: Shape) {
    forall s :: s in st.sobs ==> SobTree(st, sh, s) && Placed(st, sh, s)
  }

  /** A record that has not failed is on a chain. */
  ghost predicate Placed(st: Store, sh: Shape, s: nat)
    requires s in st.sobs
  {
    SobCell(s) in sh.home || st.sobs[s].failed
  }

  /** Exactly the failed records have no clauses; spare may have none, for the moment. */
  ghost predicate FullPart(st: Store, sh: Shape, spare: set<Loc>) {
    forall s :: s in st.sobs && SubPred(s) !in spare ==> SubPred(s) in sh.chains && SubPred(s) in sh.under && Filled(st, sh, s)
  }

  ghost predicate Filled(st: Store, sh: Shape, s: nat)
    requires s in st.sobs && SubPred(s) in sh.chains && SubPred(s) in sh.under
  {
    if st.sobs[s].failed then sh.under[SubPred(s)] == []
    else sh.chains[SubPred(s)] != [] && sh.under[SubPred(s)] != []
  }

  /** o is the predicate itself or a record that has not failed. */
  predicate Alive(st: Store, o: Loc) {
    o.Root? || (o.SubPred? && o.sob in st.sobs && !st.sobs[o.sob].failed)
  }

  ghost predicate ClausePart(st: Store, sh: Shape, p: Pend) {
    && (forall c :: c in st.heads ==> ClauseOk(sh, p, c) && HeadOk(sh.index, st.heads[c]))
    && (!p.Settled? ==> p.clause in st.heads && p.at in sh.chains && Alive(st, p.at))
  }

  ghost predicate AllPart(st: Store, sh: Shape) {
    && Root in sh.under
    && Distinct(All(sh))
    && forall c :: c in All(sh) <==> c in st.heads
  }

  ghost predicate Tree(st: Store, sh: Shape, p: Pend, spare: set<Loc>) {
    UnderPart(sh, p) && SobPart(st, sh) && FullPart(st, sh, spare) && ClausePart(st, sh, p) && AllPart(st, sh)
  }

  ghost predicate HeadOk(index: seq<nat>, head: seq<Sym>) {
    forall l :: 0 <= l < |index| ==> index[l] < |head|
  }

  // ---- asserting -------------------------------------------------------------------

  /** The clause enters the order of the whole predicate. */
  lemma StartAdding(st: Store, sh: Shape, c: nat, head: seq<Sym>, az: bool)
    requires Tree(st, sh, Settled, {}) && c !in st.heads && HeadOk(sh.index, head) && Root in sh.chains
    requires ClauseCell(c) !in sh.home && forall l :: IndCell(c, l) !in sh.home
    ensures Tree(st.(heads := st.heads[c := head]), sh.(under := sh.under[Root := Add(az, All(sh), c)]), Adding(Root, 0, c, az), {})
  {
    hide UnderOk, SobTree, ClauseOk, HeadOk, All, Distinct;
    var st1 := st.(heads := st.heads[c := head]);
    var sh1 := sh.(under := sh.under[Root := Add(az, All(sh), c)]);
    var p := Adding(Root, 0, c, az);
    forall o | o in sh1.chains && !o.Bucket? ensures UnderOk(sh1, p, o) {
      StartAddingUnder(sh, c, az, o);
    }
    forall s | s in st1.sobs ensures SobTree(st1, sh1, s) && Placed(st1, sh1, s) {
      StartAddingSob(st, sh, c, head, az, s);
    }
    forall d | d in st1.heads ensures ClauseOk(sh1, p, d) && HeadOk(sh1.index, st1.heads[d]) {
      if d != c { ClauseSame(sh, sh1, Settled, p, d); } else { FreshClause(sh1, c, az); }
    }
    AddDistinct(az, All(sh), c);
    assert All(sh1) == Add(az, All(sh), c) by { AllIs(sh1); }
  }

  lemma AllIs(sh: Shape)
    requires Root in sh.under
    ensures All(sh) == sh.under[Root]
  {
  }

  lemma FreshClause(sh: Shape, c: nat, az: bool)
    requires ClauseCell(c) !in sh.home && forall l :: IndCell(c, l) !in sh.home
    ensures ClauseOk(sh, Adding(Root, 0, c, az), c)
  {
  }

  lemma AddDistinct<T>(az: bool, xs: seq<T>, x: T)
    requires Distinct(xs) && x !in xs
    ensures Distinct(Add(az, xs, x))
    ensures forall y :: y in Add(az, xs, x) <==> y == x || y in xs
  {
  }

  lemma StartAddingUnder(sh: Shape, c: nat, az: bool, o: Loc)
    requires o in sh.chains && Root in sh.under && UnderOk(sh, Settled, o)
    ensures UnderOk(sh.(under := sh.under[Root := Add(az, All(sh), c)]), Adding(Root, 0, c, az), o)
  {
    FlatFrame(sh.chains[o], sh.under, sh.under[Root := Add(az, All(sh), c)]);
  }

  lemma StartAddingSob(st: Store, sh: Shape, c: nat, head: seq<Sym>, az: bool, s: nat)
    requires s in st.sobs && SobTree(st, sh, s) && c !in st.heads
    ensures SobTree(st.(heads := st.heads[c := head]), sh.(under := sh.under[Root := Add(az, All(sh), c)]), s)
  {
    forall h | 0 <= h < st.sobs[s].size
      ensures BucketOf(sh.under[SubPred(s)], st.heads, st.sobs[s].arg, st.sobs[s].size, h, sh.level[s])
           == BucketOf(sh.under[SubPred(s)], st.heads[c := head], st.sobs[s].arg, st.sobs[s].size, h, sh.level[s])
    {
      BucketFrame(sh.under[SubPred(s)], st.heads, st.heads[c := head], st.sobs[s].arg, st.sobs[s].size, h, sh.level[s]);
    }
  }

  /** A clause whose own cells and whose records' cells stay where they are. */
  lemma ClauseSame(sh: Shape, sh1: Shape, p: Pend, p1: Pend, c: nat)
    requires ClauseOk(sh, p, c) && (p.Settled? || p.clause != c) && (p1.Settled? || p1.clause != c)
    requires sh1.index == sh.index
    requires forall x :: x in sh.home && (x.SobCell? || x == ClauseCell(c) || (x.IndCell? && x.clause == c)) ==>
      x in sh1.home && sh1.home[x] == sh.home[x]
    ensures ClauseOk(sh1, p1, c)
  {
    PathSame(sh, sh1, c, sh.Depth());
  }

  lemma PathSame(sh: Shape, sh1: Shape, c: nat, d: nat)
    requires Path(sh, c, d)
    requires forall x :: x in sh.home && (x.SobCell? || (x.IndCell? && x.clause == c)) ==>
      x in sh1.home && sh1.home[x] == sh.home[x]
    ensures Path(sh1, c, d)
    ensures d > 0 ==> SobAt(sh1, c, d) == SobAt(sh, c, d)
  {
  }

  /** A new, empty record with its slots; it is not on any chain yet. */
  ghost function WithSob(sh: Shape, s: nat, size: nat, lvl: nat): Shape {
    sh.(chains := sh.chains[SubPred(s) := []] + (map h: nat | h < size :: Bucket(s, h) := []),
        level := sh.level[s := lvl],
        under := sh.under[SubPred(s) := []])
  }

  /** o belongs to record s. */
  predicate IsOf(o: Loc, s: nat) {
    (o.SubPred? || o.Bucket?) && o.sob == s
  }

  /** Nothing of record s exists. */
  ghost predicate NoSob(sh: Shape, s: nat) {
    && SubPred(s) !in sh.chains && SobCell(s) !in sh.home && s !in sh.level
    && forall h: nat :: Bucket(s, h) !in sh.chains
  }

  ghost function WithChild(sh: Shape, s: nat, size: nat, lvl: nat, f: Loc, az: bool): Shape
    requires f in WithSob(sh, s, size, lvl).chains
  {
    Linked(WithSob(sh, s, size, lvl), f, az, SobCell(s))
  }

  /** The pending clause gets a fresh record to go to, next to its siblings. */
  lemma AddSobTree(st: Store, sh: Shape, p: Pend, s: nat, arg: nat, size: nat)
    requires p.Adding? && Tree(st, sh, p, {p.at}) && HomeOk(sh) && NoSob(sh, s) && s !in st.sobs
    ensures Tree(st.(sobs := st.sobs[s := SobRec(arg, size, 0, false)]), WithChild(sh, s, size, p.depth + 1, p.at, p.az), p, {SubPred(s)})
  {
    hide UnderOk, SobTree, ClauseOk, HeadOk, HomeOk, KindOk, Distinct, Flat, WithChild, WithSob, Linked, Add, UnderPart, SobPart, FullPart;
    var f := p.at;
    WithChildIs(sh, s, size, p.depth + 1, p.at, p.az);
    var sh1 := WithChild(sh, s, size, p.depth + 1, f, p.az);
    var st1 := st.(sobs := st.sobs[s := SobRec(arg, size, 0, false)]);
    AddSobUnders(sh, p, s, size);
    AddSobSobs(st, sh, p, s, arg, size);
    forall d | d in st1.heads ensures ClauseOk(sh1, p, d) {
      assert ClauseOk(sh, p, d);
      if d != p.clause { ClauseSame(sh, sh1, p, p, d); } else { PendSame(sh, sh1, p, s); }
    }
    NewOwner(sh, p, s);
    AddNonempty(p.az, sh.chains[f], SobCell(s));
    AddSobFull(st, st1, sh, sh1, p, s);
  }

  lemma AddSobFull(st: Store, st1: Store, sh: Shape, sh1: Shape, p: Pend, s: nat)
    requires p.Adding? && FullPart(st, sh, {p.at}) && Alive(st, p.at) && p.at in sh1.chains && sh1.chains[p.at] != []
    requires p.at in sh.under && sh.under[p.at] != [] && sh1.under == sh.under[SubPred(s) := []] && s !in st.sobs
    requires s in st1.sobs && st1.sobs == st.sobs[s := st1.sobs[s]]
    requires forall o :: o in sh.chains && o != p.at ==> o in sh1.chains && sh1.chains[o] == sh.chains[o]
    ensures FullPart(st1, sh1, {SubPred(s)})
  {
  }

  lemma NewOwner(sh: Shape, p: Pend, s: nat)
    requires p.Adding? && UnderPart(sh, p) && p.at in sh.chains && !p.at.Bucket? && NoSob(sh, s)
    ensures p.at != SubPred(s) && p.at in sh.under && sh.under[p.at] != []
  {
    hide UnderOk;
    UnderNonempty(sh, p);
  }

  lemma AddSobUnders(sh: Shape, p: Pend, s: nat, size: nat)
    requires p.Adding? && UnderPart(sh, p) && p.at in sh.chains && !p.at.Bucket? && HomeOk(sh) && NoSob(sh, s)
    ensures UnderPart(WithChild(sh, s, size, p.depth + 1, p.at, p.az), p)
  {
    hide UnderOk, HomeOk, WithChild, WithSob, Add;
    WithChildIs(sh, s, size, p.depth + 1, p.at, p.az);
    var sh1 := WithChild(sh, s, size, p.depth + 1, p.at, p.az);
    NewOwner(sh, p, s);
    forall o | o in sh1.chains && !o.Bucket? ensures UnderOk(sh1, p, o) {
      if o == SubPred(s) { EmptyUnder(sh1, p, s); } else { AddSobUnder(sh, p, s, size, o); }
    }
  }

  lemma AddSobSobs(st: Store, sh: Shape, p: Pend, s: nat, arg: nat, size: nat)
    requires p.Adding? && SobPart(st, sh) && p.at in sh.chains && !p.at.Bucket? && NoSob(sh, s) && s !in st.sobs
    ensures SobPart(st.(sobs := st.sobs[s := SobRec(arg, size, 0, false)]), WithChild(sh, s, size, p.depth + 1, p.at, p.az))
  {
    hide SobTree, WithChild, WithSob, Add;
    WithChildIs(sh, s, size, p.depth + 1, p.at, p.az);
    var sh1 := WithChild(sh, s, size, p.depth + 1, p.at, p.az);
    var st1 := st.(sobs := st.sobs[s := SobRec(arg, size, 0, false)]);
    forall t | t in st1.sobs ensures SobTree(st1, sh1, t) && Placed(st1, sh1, t) {
      if t == s { EmptySob(st1, sh1, s); } else { OtherSob(st, st1, sh, sh1, t); }
    }
  }

  lemma AddNonempty<T>(az: bool, xs: seq<T>, x: T)
    ensures |Add(az, xs, x)| == |xs| + 1
  {
  }

  lemma EmptyUnder(sh: Shape, p: Pend, s: nat)
    requires SubPred(s) in sh.chains && sh.chains[SubPred(s)] == []
    requires SubPred(s) in sh.under && sh.under[SubPred(s)] == [] && (p.Settled? || p.at != SubPred(s))
    ensures UnderOk(sh, p, SubPred(s))
  {
  }

  lemma WithChildIs(sh: Shape, s: nat, size: nat, lvl: nat, f: Loc, az: bool)
    requires f in sh.chains && NoSob(sh, s)
    ensures f in WithSob(sh, s, size, lvl).chains
    ensures var sh1 := WithChild(sh, s, size, lvl, f, az);
      && sh1.home == sh.home[SobCell(s) := f] && sh1.under == sh.under[SubPred(s) := []]
      && sh1.level == sh.level[s := lvl] && sh1.index == sh.index
      && (forall o :: o in sh1.chains <==> o in sh.chains || o == SubPred(s) || (o.Bucket? && o.sob == s && o.slot < size))
      && (forall o :: o in sh1.chains ==>
            && (o == f ==> sh1.chains[o] == Add(az, sh.chains[f], SobCell(s)))
            && (o != f ==> sh1.chains[o] == if o in sh.chains then sh.chains[o] else []))
  {
  }

  lemma AddSobUnder(sh: Shape, p: Pend, s: nat, size: nat, o: Loc)
    requires p.Adding? && o in sh.chains && !o.Bucket? && p.at in sh.chains && !p.at.Bucket? && UnderOk(sh, p, o)
    requires HomeOk(sh) && NoSob(sh, s)
    ensures UnderOk(WithChild(sh, s, size, p.depth + 1, p.at, p.az), p, o)
  {
    hide KindOk, WithChild, WithSob, Linked, Flat, HomeOk, Add;
    var u1 := sh.under[SubPred(s) := []];
    WithChildIs(sh, s, size, p.depth + 1, p.at, p.az);
    ChainCells(sh, o);
    FlatFrame(sh.chains[o], sh.under, u1);
    FlatEnd(p.az, sh.chains[o], SobCell(s), u1);
    assert Flat(sh.chains[o], u1) + [] == Flat(sh.chains[o], u1) == [] + Flat(sh.chains[o], u1);
  }

  lemma ChainCells(sh: Shape, o: Loc)
    requires HomeOk(sh) && o in sh.chains
    ensures forall x :: x in sh.chains[o] ==> x in sh.home && sh.home[x] == o
  {
  }

  lemma EmptySob(st: Store, sh: Shape, s: nat)
    requires s in st.sobs && s in sh.level && SubPred(s) in sh.under && sh.under[SubPred(s)] == []
    requires forall h :: 0 <= h < st.sobs[s].size ==> Bucket(s, h) in sh.chains && sh.chains[Bucket(s, h)] == []
    ensures SobTree(st, sh, s)
  {
  }

  /** A record whose own level, clauses and buckets stay as they are. */
  lemma OtherSob(st: Store, st1: Store, sh: Shape, sh1: Shape, t: nat)
    requires t in st.sobs && SobTree(st, sh, t) && t in st1.sobs
    requires st1.sobs[t].arg == st.sobs[t].arg && st1.sobs[t].size == st.sobs[t].size && st1.heads == st.heads
    requires t in sh.level ==> t in sh1.level && sh1.level[t] == sh.level[t]
    requires SubPred(t) in sh.under ==> SubPred(t) in sh1.under && sh1.under[SubPred(t)] == sh.under[SubPred(t)]
    requires forall h: nat :: Bucket(t, h) in sh.chains ==> Bucket(t, h) in sh1.chains && sh1.chains[Bucket(t, h)] == sh.chains[Bucket(t, h)]
    ensures SobTree(st1, sh1, t)
  {
    hide BucketOf;
  }

  lemma PendSame(sh: Shape, sh1: Shape, p: Pend, s: nat)
    requires !p.Settled? && ClauseOk(sh, p, p.clause) && sh1.index == sh.index
    requires sh1.home == sh.home[SobCell(s) := p.at] && SobCell(s) !in sh.home
    ensures ClauseOk(sh1, p, p.clause)
  {
    PathSame(sh, sh1, p.clause, p.depth);
  }

  // one step down

  ghost function Descended(sh: Shape, p: Pend, s: nat, h: nat): Shape
    requires p.Adding? && Bucket(s, h) in sh.chains && SubPred(s) in sh.under
  {
    var sh1 := Linked(sh, Bucket(s, h), p.az, IndCell(p.clause, p.depth + 1));
    sh1.(under := sh1.under[SubPred(s) := Add(p.az, sh1.under[SubPred(s)], p.clause)])
  }

  ghost predicate AtEnd(sh: Shape, f: Loc, az: bool, s: nat) {
    && f in sh.chains && sh.chains[f] != []
    && sh.chains[f][if az then |sh.chains[f]| - 1 else 0] == SobCell(s)
  }

  /** The clause enters the bucket of the record at the near end and waits below it. */
  lemma DescendTree(st: Store, st1: Store, sh: Shape, p: Pend, s: nat, h: nat, spare: set<Loc>)
    requires p.Adding? && Tree(st, sh, p, spare) && Storage(st, sh) && AtEnd(sh, p.at, p.az, s) && spare <= {p.at, SubPred(s)}
    requires s in st.sobs && !st.sobs[s].failed && sh.level[s] == p.depth + 1
    requires Bucket(s, h) in sh.chains && InSlot(st.heads, st.sobs[s].arg, st.sobs[s].size, h, p.clause)
    requires st.heads[p.clause][st.sobs[s].arg].Var? ==> st.sobs[s].size == 1
    requires SobsStep(st.sobs, st1.sobs, Bucket(s, h), 0) || SobsStep(st.sobs, st1.sobs, Bucket(s, h), 1)
    requires st1.heads == st.heads
    ensures SubPred(s) in sh.under
    ensures Tree(st1, Descended(sh, p, s, h), Adding(SubPred(s), p.depth + 1, p.clause, p.az), {SubPred(s)})
  {
    hide UnderOk, SobTree, ClauseOk, HeadOk, Storage, Distinct, Flat, InSlot, Linked, Add, FullPart;
    assert SobTree(st, sh, s);
    SobUnder(st, sh, s);
    ChildFacts(st, sh, p.at, s);
    DescendedIs(sh, p, s, h);
    SlotInRange(st.heads, st.sobs[s].arg, st.sobs[s].size, h, p.clause);
    assert UnderOk(sh, p, p.at);
    UnderNonempty(sh, p);
    var sh1 := Descended(sh, p, s, h);
    var p1 := Adding(SubPred(s), p.depth + 1, p.clause, p.az);
    forall o | o in sh1.chains && !o.Bucket? ensures UnderOk(sh1, p1, o) {
      assert UnderOk(sh, p, o);
      DescendUnder(st, sh, p, s, h, o);
    }
    forall t | t in st1.sobs ensures SobTree(st1, sh1, t) && Placed(st1, sh1, t) {
      assert SobTree(st, sh, t);
      if t == s { DescendSob(st, st1, sh, p, s, h); } else { OtherSob(st, st1, sh, sh1, t); }
    }
    forall d | d in st1.heads ensures ClauseOk(sh1, p1, d) {
      assert ClauseOk(sh, p, d);
      if d != p.clause { ClauseSame(sh, sh1, p, p1, d); } else { DescendClause(st, sh, p, s, h); }
    }
    DescendFull(st, st1, sh, sh1, p, s, h, spare);
  }

  lemma DescendFull(st: Store, st1: Store, sh: Shape, sh1: Shape, p: Pend, s: nat, h: nat, spare: set<Loc>)
    requires p.Adding? && FullPart(st, sh, spare) && spare <= {p.at, SubPred(s)} && Alive(st, p.at) && AtEnd(sh, p.at, p.az, s)
    requires p.at in sh.under && sh.under[p.at] != [] && SubPred(s) in sh.under && SubPred(s) in sh1.under
    requires sh1.under == sh.under[SubPred(s) := sh1.under[SubPred(s)]] && Bucket(s, h) in sh1.chains && sh1.chains == sh.chains[Bucket(s, h) := sh1.chains[Bucket(s, h)]]
    requires SobsStep(st.sobs, st1.sobs, Bucket(s, h), 0) || SobsStep(st.sobs, st1.sobs, Bucket(s, h), 1)
    ensures FullPart(st1, sh1, {SubPred(s)})
  {
  }

  lemma DescendedIs(sh: Shape, p: Pend, s: nat, h: nat)
    requires p.Adding? && Bucket(s, h) in sh.chains && SubPred(s) in sh.under
    ensures var sh1 := Descended(sh, p, s, h);
      && sh1.home == sh.home[IndCell(p.clause, p.depth + 1) := Bucket(s, h)]
      && sh1.under == sh.under[SubPred(s) := Add(p.az, sh.under[SubPred(s)], p.clause)]
      && sh1.level == sh.level && sh1.index == sh.index
      && sh1.chains == sh.chains[Bucket(s, h) := Add(p.az, sh.chains[Bucket(s, h)], IndCell(p.clause, p.depth + 1))]
  {
  }

  lemma SlotInRange(heads: map<nat, seq<Sym>>, ind: nat, size: nat, h: nat, c: nat)
    requires InSlot(heads, ind, size, h, c)
    ensures h < size && c in heads && ind < |heads[c]|
  {
  }

  lemma SobUnder(st: Store, sh: Shape, s: nat)
    requires s in st.sobs && SobTree(st, sh, s)
    ensures SubPred(s) in sh.under && s in sh.level
  {
  }

  lemma DescendUnder(st: Store, sh: Shape, p: Pend, s: nat, h: nat, o: Loc)
    requires p.Adding? && o in sh.chains && !o.Bucket? && UnderOk(sh, p, o) && AtEnd(sh, p.at, p.az, s)
    requires Storage(st, sh) && Bucket(s, h) in sh.chains && SubPred(s) in sh.under && !p.at.Bucket?
    requires SubPred(s) in sh.chains
    requires SubPred(s) != p.at
    ensures UnderOk(Descended(sh, p, s, h), Adding(SubPred(s), p.depth + 1, p.clause, p.az), o)
  {
    hide OwnerOk, SobOk, KindOk, Flat, Storage, HomeOk, Add;
    var u1 := sh.under[SubPred(s) := Add(p.az, sh.under[SubPred(s)], p.clause)];
    var xs := sh.chains[o];
    if o == p.at {
      var k := if p.az then |xs| - 1 else 0;
      ChainDistinct(st, sh, o);
      EndFlat(p.az, xs, s, sh.under, u1, p.clause);
    } else {
      OneOwner(st, sh, p.at, o, SobCell(s));
      FlatFrame(xs, sh.under, u1);
    }
  }

  lemma OneOwner(st: Store, sh: Shape, f: Loc, o: Loc, x: Loc)
    requires Storage(st, sh) && f in sh.chains && o in sh.chains && f != o && x in sh.chains[f]
    ensures x !in sh.chains[o]
  {
    hide OwnerOk, SobOk, HomeOk;
    ChainCells(sh, f);
    ChainCells(sh, o);
  }

  lemma ChildFacts(st: Store, sh: Shape, f: Loc, s: nat)
    requires Storage(st, sh) && f in sh.chains && SobCell(s) in sh.chains[f]
    ensures SubPred(s) != f && s in st.sobs && SubPred(s) in sh.chains && IsSob(sh, f)
    ensures SobCell(s) in sh.home && sh.home[SobCell(s)] == f
    ensures s in sh.level && sh.level[s] <= sh.Depth()
    ensures forall h: nat :: h < st.sobs[s].size ==> Bucket(s, h) in sh.chains
  {
    hide OwnerOk, Nonempty;
    assert KindOk(sh, f, SobCell(s));
    assert SobOk(st, sh, s);
  }

  lemma EndFlat(az: bool, xs: seq<Loc>, s: nat, u0: map<Loc, seq<nat>>, u1: map<Loc, seq<nat>>, c: nat)
    requires Distinct(xs) && xs != [] && xs[if az then |xs| - 1 else 0] == SobCell(s) && SubPred(s) in u0
    requires u1 == u0[SubPred(s) := Add(az, u0[SubPred(s)], c)]
    ensures Flat(xs, u1) == Add(az, Flat(xs, u0), c)
  {
    hide Flat;
    var k := if az then |xs| - 1 else 0;
    FlatDrop(xs, k, u0);
    FlatDrop(xs, k, u1);
    FlatFrame(xs[..k], u0, u1);
    FlatFrame(xs[k + 1..], u0, u1);
    FlatEmpty(u0);
    if az { assert xs[k + 1..] == []; } else { assert xs[..k] == []; }
  }

  lemma FlatEmpty(u: map<Loc, seq<nat>>)
    ensures Flat([], u) == []
  {
  }

  lemma DescendSob(st: Store, st1: Store, sh: Shape, p: Pend, s: nat, h: nat)
    requires p.Adding? && s in st.sobs && SobTree(st, sh, s) && Bucket(s, h) in sh.chains && sh.level[s] == p.depth + 1
    requires h < st.sobs[s].size && p.clause in st.heads && InSlot(st.heads, st.sobs[s].arg, st.sobs[s].size, h, p.clause)
    requires st.heads[p.clause][st.sobs[s].arg].Var? ==> st.sobs[s].size == 1
    requires st1.heads == st.heads && s in st1.sobs && st1.sobs[s].arg == st.sobs[s].arg && st1.sobs[s].size == st.sobs[s].size
    ensures SobTree(st1, Descended(sh, p, s, h), s)
  {
    hide BucketOf;
    forall g | 0 <= g < st.sobs[s].size
      ensures Bucket(s, g) in Descended(sh, p, s, h).chains
      ensures Descended(sh, p, s, h).chains[Bucket(s, g)]
           == BucketOf(Add(p.az, sh.under[SubPred(s)], p.clause), st.heads, st.sobs[s].arg, st.sobs[s].size, g, sh.level[s])
    {
      BucketAdd(p.az, sh.under[SubPred(s)], p.clause, st.heads, st.sobs[s].arg, st.sobs[s].size, g, sh.level[s]);
    }
  }

  lemma DescendClause(st: Store, sh: Shape, p: Pend, s: nat, h: nat)
    requires p.Adding? && ClauseOk(sh, p, p.clause) && Bucket(s, h) in sh.chains && SubPred(s) in sh.under
    requires SobCell(s) in sh.home && sh.home[SobCell(s)] == p.at && p.depth < sh.Depth()
    ensures ClauseOk(Descended(sh, p, s, h), Adding(SubPred(s), p.depth + 1, p.clause, p.az), p.clause)
  {
    hide Add, Linked, Descended, Path;
    DescendedIs(sh, p, s, h);
    var sh1 := Descended(sh, p, s, h);
    PathSame(sh, sh1, p.clause, p.depth);
    PathOwner(sh, sh1, p.clause, p.depth);
    PathMore(sh1, p.clause, p.depth, s, h);
  }

  lemma PathMore(sh: Shape, c: nat, d: nat, s: nat, h: nat)
    requires Path(sh, c, d) && IndCell(c, d + 1) in sh.home && sh.home[IndCell(c, d + 1)] == Bucket(s, h)
    requires SobCell(s) in sh.home && sh.home[SobCell(s)] == OwnerAt(sh, c, d)
    ensures Path(sh, c, d + 1) && SobAt(sh, c, d + 1) == s && OwnerAt(sh, c, d + 1) == SubPred(s)
  {
    hide SobAt, OwnerAt;
    SobAtIs(sh, c, d + 1, s, h);
    forall l | 1 <= l <= d + 1
      ensures IndCell(c, l) in sh.home && sh.home[IndCell(c, l)].Bucket? && SobCell(SobAt(sh, c, l)) in sh.home
      ensures sh.home[SobCell(SobAt(sh, c, l))] == OwnerAt(sh, c, l - 1)
    {
      if l == d + 1 { assert l - 1 == d; }
    }
  }

  lemma SobAtIs(sh: Shape, c: nat, l: nat, s: nat, h: nat)
    requires l > 0 && IndCell(c, l) in sh.home && sh.home[IndCell(c, l)] == Bucket(s, h)
    ensures SobAt(sh, c, l) == s && OwnerAt(sh, c, l) == SubPred(s)
  {
  }

  lemma PathOwner(sh: Shape, sh1: Shape, c: nat, d: nat)
    requires Path(sh, c, d)
    requires forall x :: x in sh.home && x.IndCell? && x.clause == c ==> x in sh1.home && sh1.home[x] == sh.home[x]
    ensures OwnerAt(sh1, c, d) == OwnerAt(sh, c, d)
  {
  }

  /** At a leaf the clause joins the all-chain and owes nothing more. */
  ghost function Finished(sh: Shape, p: Pend, s: nat): Shape
    requires p.Adding? && SubPred(s) in sh.chains
  {
    Linked(sh, SubPred(s), p.az, ClauseCell(p.clause))
  }

  lemma FinishTree(st: Store, sh: Shape, p: Pend, s: nat)
    requires p.Adding? && p.at == SubPred(s) && p.depth == sh.Depth() && Tree(st, sh, p, {p.at}) && SubPred(s) in sh.chains
    ensures Tree(st, Finished(sh, p, s), Settled, {})
  {
    hide UnderOk, SobTree, ClauseOk, HeadOk, Distinct, Flat, Add;
    var sh1 := Finished(sh, p, s);
    forall o | o in sh1.chains && !o.Bucket? ensures UnderOk(sh1, Settled, o) {
      assert UnderOk(sh, p, o);
      FinishUnder(sh, p, s, o);
    }
    forall t | t in st.sobs ensures SobTree(st, sh1, t) && Placed(st, sh1, t) {
      assert SobTree(st, sh, t);
      OtherSob(st, st, sh, sh1, t);
    }
    forall d | d in st.heads ensures ClauseOk(sh1, Settled, d) {
      assert ClauseOk(sh, p, d);
      if d != p.clause { ClauseSame(sh, sh1, p, Settled, d); } else { FinishClause(sh, p, s); }
    }
    AddNonempty(p.az, sh.chains[SubPred(s)], ClauseCell(p.clause));
    UnderNonempty(sh, p);
  }

  lemma UnderNonempty(sh: Shape, p: Pend)
    requires p.Adding? && p.at in sh.chains && UnderOk(sh, p, p.at)
    ensures p.at in sh.under && sh.under[p.at] != []
  {
  }

  lemma FinishUnder(sh: Shape, p: Pend, s: nat, o: Loc)
    requires p.Adding? && p.at == SubPred(s) && SubPred(s) in sh.chains && o in sh.chains && !o.Bucket? && UnderOk(sh, p, o)
    ensures UnderOk(Finished(sh, p, s), Settled, o)
  {
    FlatEnd(p.az, sh.chains[SubPred(s)], ClauseCell(p.clause), sh.under);
  }

  lemma FinishClause(sh: Shape, p: Pend, s: nat)
    requires p.Adding? && p.at == SubPred(s) && p.depth == sh.Depth() && SubPred(s) in sh.chains && ClauseOk(sh, p, p.clause)
    ensures ClauseOk(Finished(sh, p, s), Settled, p.clause)
  {
    PathSame(sh, Finished(sh, p, s), p.clause, p.depth);
  }

  // ---- deleting --------------------------------------------------------------------

  /** The clause leaves the all-chain of its leaf record; the records above still count it. */
  lemma StartRemoving(st: Store, sh: Shape, c: nat, s: nat, k: nat)
    requires Tree(st, sh, Settled, {}) && HomeOk(sh) && c in st.heads && sh.Depth() > 0
    requires SubPred(s) in sh.chains && k < |sh.chains[SubPred(s)]| && sh.chains[SubPred(s)][k] == ClauseCell(c)
    requires Distinct(sh.chains[SubPred(s)])
    requires forall l :: l > sh.Depth() ==> IndCell(c, l) !in sh.home
    requires s in st.sobs
    ensures Tree(st, Unlinked(sh, SubPred(s), k), Removing(SubPred(s), sh.Depth(), c), {SubPred(s)})
    ensures !st.sobs[s].failed
  {
    hide UnderOk, SobTree, ClauseOk, HeadOk, Distinct, Flat, Drop, KindOk;
    var sh1 := Unlinked(sh, SubPred(s), k);
    var p := Removing(SubPred(s), sh.Depth(), c);
    forall o | o in sh1.chains && !o.Bucket? ensures UnderOk(sh1, p, o) {
      assert UnderOk(sh, Settled, o);
      RemoveLeafUnder(st, sh, c, s, k, o);
    }
    forall t | t in st.sobs ensures SobTree(st, sh1, t) && Placed(st, sh1, t) {
      assert SobTree(st, sh, t);
      OtherSob(st, st, sh, sh1, t);
    }
    forall d | d in st.heads ensures ClauseOk(sh1, p, d) {
      assert ClauseOk(sh, Settled, d);
      if d != c { ClauseSame(sh, sh1, Settled, p, d); } else { RemoveLeafClause(sh, c, s, k); }
    }
    NotEmpty(st, sh, Settled, {}, s, k, c);
  }

  /** A record with a clause below it has not failed. */
  lemma NotEmpty(st: Store, sh: Shape, p: Pend, spare: set<Loc>, s: nat, k: nat, c: nat)
    requires FullPart(st, sh, spare) && s in st.sobs && SubPred(s) !in spare && SubPred(s) in sh.chains && UnderOk(sh, p, SubPred(s))
    requires k < |sh.chains[SubPred(s)]| && c in Item(sh.chains[SubPred(s)][k], sh.under) && (p.Settled? || p.at != SubPred(s))
    ensures !st.sobs[s].failed
  {
    hide Flat, Item;
    FlatMember(sh.chains[SubPred(s)], k, sh.under, c);
  }

  lemma RemoveLeafUnder(st: Store, sh: Shape, c: nat, s: nat, k: nat, o: Loc)
    requires o in sh.chains && !o.Bucket? && UnderOk(sh, Settled, o) && HomeOk(sh)
    requires SubPred(s) in sh.chains && k < |sh.chains[SubPred(s)]| && sh.chains[SubPred(s)][k] == ClauseCell(c)
    requires Distinct(sh.chains[SubPred(s)])
    ensures UnderOk(Unlinked(sh, SubPred(s), k), Removing(SubPred(s), sh.Depth(), c), o)
  {
    if o == SubPred(s) {
      hide Flat, HomeOk, Without;
      LeafCells(sh, s, c);
      LeafWithout(sh.chains[o], k, sh.under, c);
    }
  }

  lemma LeafCells(sh: Shape, s: nat, c: nat)
    requires HomeOk(sh) && SubPred(s) in sh.chains && ClauseCell(c) in sh.chains[SubPred(s)]
    ensures forall x :: x in sh.chains[SubPred(s)] ==> x.ClauseCell?
  {
    assert KindOk(sh, SubPred(s), ClauseCell(c));
    forall x | x in sh.chains[SubPred(s)] ensures x.ClauseCell? { assert KindOk(sh, SubPred(s), x); }
  }

  lemma LeafWithout(xs: seq<Loc>, k: nat, under: map<Loc, seq<nat>>, c: nat)
    requires k < |xs| && xs[k] == ClauseCell(c) && Distinct(xs) && forall x :: x in xs ==> x.ClauseCell?
    ensures Flat(Drop(xs, k), under) == Without(Flat(xs, under), c)
  {
    hide Flat, Without;
    FlatDrop(xs, k, under);
    assert [c] == Item(xs[k], under);
    WithoutConcat(Flat(xs[..k], under) + [c], Flat(xs[k + 1..], under), c);
    WithoutConcat(Flat(xs[..k], under), [c], c);
    LeafAbsent(xs[..k], under, c);
    LeafAbsent(xs[k + 1..], under, c);
    WithoutSelf(c);
  }

  lemma WithoutSelf(c: nat)
    ensures Without([c], c) == []
  {
    assert Without([c][1..], c) == [];
  }

  lemma LeafAbsent(xs: seq<Loc>, under: map<Loc, seq<nat>>, c: nat)
    requires ClauseCell(c) !in xs && forall x :: x in xs ==> x.ClauseCell?
    ensures Without(Flat(xs, under), c) == Flat(xs, under)
  {
    if xs != [] {
      LeafAbsent(xs[1..], under, c);
      assert xs[0] in xs;
      WithoutConcat(Item(xs[0], under), Flat(xs[1..], under), c);
      WithoutAbsent(Item(xs[0], under), c);
    }
  }

  lemma RemoveLeafClause(sh: Shape, c: nat, s: nat, k: nat)
    requires ClauseOk(sh, Settled, c) && HomeOk(sh)
    requires SubPred(s) in sh.chains && k < |sh.chains[SubPred(s)]| && sh.chains[SubPred(s)][k] == ClauseCell(c)
    requires forall l :: l > sh.Depth() ==> IndCell(c, l) !in sh.home
    ensures ClauseOk(Unlinked(sh, SubPred(s), k), Removing(SubPred(s), sh.Depth(), c), c)
  {
    hide KindOk, Drop;
    var sh1 := Unlinked(sh, SubPred(s), k);
    assert ClauseCell(c) in sh.chains[SubPred(s)];
    PathSame(sh, sh1, c, sh.Depth());
  }

  // one step up

  ghost function Ascended(sh: Shape, c: nat, s: nat, h: nat, k: nat): Shape
    requires Bucket(s, h) in sh.chains && k < |sh.chains[Bucket(s, h)]| && SubPred(s) in sh.under
  {
    var sh1 := Unlinked(sh, Bucket(s, h), k);
    sh1.(under := sh1.under[SubPred(s) := Without(sh1.under[SubPred(s)], c)])
  }

  lemma AscendedIs(sh: Shape, c: nat, s: nat, h: nat, k: nat)
    requires Bucket(s, h) in sh.chains && k < |sh.chains[Bucket(s, h)]| && SubPred(s) in sh.under
    requires sh.chains[Bucket(s, h)][k].IndCell?
    ensures var sh1 := Ascended(sh, c, s, h, k);
      && sh1.home == sh.home - {sh.chains[Bucket(s, h)][k]}
      && sh1.under == sh.under[SubPred(s) := Without(sh.under[SubPred(s)], c)]
      && sh1.level == sh.level && sh1.index == sh.index
      && sh1.chains == sh.chains[Bucket(s, h) := Drop(sh.chains[Bucket(s, h)], k)]
  {
  }

  /** The clause leaves bucket h of record s and is no longer counted below s. */
  lemma AscendTree(st: Store, st1: Store, sh: Shape, p: Pend, s: nat, h: nat, k: nat)
    requires p.Removing? && p.at == SubPred(s) && p.depth > 0 && Tree(st, sh, p, {p.at}) && Storage(st, sh)
    requires Bucket(s, h) in sh.chains && k < |sh.chains[Bucket(s, h)]| && sh.chains[Bucket(s, h)][k] == IndCell(p.clause, p.depth)
    requires st1.heads == st.heads && (SobsStep(st.sobs, st1.sobs, Bucket(s, h), 0) || SobsStep(st.sobs, st1.sobs, Bucket(s, h), -1))
    ensures SubPred(s) in sh.under
    ensures Tree(st1, Ascended(sh, p.clause, s, h, k), Removing(OwnerAt(sh, p.clause, p.depth - 1), p.depth - 1, p.clause), {SubPred(s)})
    ensures s in st1.sobs && !st1.sobs[s].failed
  {
    hide UnderOk, SobTree, ClauseOk, HeadOk, Storage, Distinct, Flat, Unlinked, Drop, Without, OwnerAt;
    var c := p.clause;
    BucketFacts(st, sh, s, h);
    ChainDistinct(st, sh, Bucket(s, h));
    assert SobTree(st, sh, s);
    SobUnder(st, sh, s);
    AscendedIs(sh, c, s, h, k);
    var sh1 := Ascended(sh, c, s, h, k);
    var p1 := Removing(OwnerAt(sh, c, p.depth - 1), p.depth - 1, c);
    assert sh.chains[Bucket(s, h)][k] in sh.chains[Bucket(s, h)];
    ParentFacts(st, sh, p, s, h);
    forall o | o in sh1.chains && !o.Bucket? ensures UnderOk(sh1, p1, o) {
      assert UnderOk(sh, p, o);
      if o == p1.at { AscendParent(st, sh, p, s, h, k); } else { AscendUnder(st, sh, p, s, h, k, o); }
    }
    forall t | t in st1.sobs ensures SobTree(st1, sh1, t) && Placed(st1, sh1, t) {
      assert SobTree(st, sh, t);
      if t == s { AscendSob(st, st1, sh, p, s, h, k); } else { OtherSob(st, st1, sh, sh1, t); }
    }
    forall d | d in st1.heads ensures ClauseOk(sh1, p1, d) {
      assert ClauseOk(sh, p, d);
      if d != c { ClauseSame(sh, sh1, p, p1, d); } else { AscendClause(sh, p, s, h, k); }
    }
    AscendAlive(st, sh, p, s, h);
  }

  /** The parent of the record that the clause is leaving has not failed. */
  lemma AscendAlive(st: Store, sh: Shape, p: Pend, s: nat, h: nat)
    requires p.Removing? && p.at == SubPred(s) && p.depth > 0 && Tree(st, sh, p, {p.at}) && Storage(st, sh)
    requires Bucket(s, h) in sh.chains && IndCell(p.clause, p.depth) in sh.chains[Bucket(s, h)]
    ensures Alive(st, OwnerAt(sh, p.clause, p.depth - 1))
  {
    hide UnderPart, SobPart, FullPart, AllPart, Storage, SobTree, OwnerAt, HeadOk;
    assert ClauseOk(sh, p, p.clause);
    ParentFacts(st, sh, p, s, h);
    var f := OwnerAt(sh, p.clause, p.depth - 1);
    RecordOf(st, sh, f);
    if f.SubPred? {
      var k :| 0 <= k < |sh.chains[f]| && sh.chains[f][k] == SobCell(s);
      BelowSob(st, sh, p.clause, p.depth, s, h);
      assert UnderOk(sh, p, f) by { UnderAt(sh, p, f); }
      NotEmpty(st, sh, p, {p.at}, f.sob, k, p.clause);
    }
  }

  lemma UnderAt(sh: Shape, p: Pend, o: Loc)
    requires UnderPart(sh, p) && o in sh.chains && !o.Bucket?
    ensures UnderOk(sh, p, o)
  {
  }

  lemma RecordOf(st: Store, sh: Shape, o: Loc)
    requires Storage(st, sh) && o in sh.chains && !o.Bucket?
    ensures o == Root || (o.SubPred? && o.sob in st.sobs)
  {
    hide OwnerOk, SobOk, HomeOk;
  }

  lemma BelowSob(st: Store, sh: Shape, c: nat, l: nat, s: nat, h: nat)
    requires SobPart(st, sh) && Storage(st, sh) && Bucket(s, h) in sh.chains && IndCell(c, l) in sh.chains[Bucket(s, h)]
    ensures c in Item(SobCell(s), sh.under)
  {
    hide SobTree, OwnerOk, SobOk, HomeOk;
    SlotExists(st, sh, Bucket(s, h));
    assert SobTree(st, sh, s);
    BucketClause(st, sh, Bucket(s, h), c, l);
  }

  lemma ParentFacts(st: Store, sh: Shape, p: Pend, s: nat, h: nat)
    requires p.Removing? && p.at == SubPred(s) && p.depth > 0 && Storage(st, sh) && ClauseOk(sh, p, p.clause)
    requires Bucket(s, h) in sh.chains && IndCell(p.clause, p.depth) in sh.chains[Bucket(s, h)]
    ensures var f := OwnerAt(sh, p.clause, p.depth - 1);
      && f in sh.chains && !f.Bucket? && f != SubPred(s) && SobCell(s) in sh.chains[f] && SobCell(s) in sh.home && sh.home[SobCell(s)] == f
    ensures s in sh.level && sh.level[s] == p.depth
  {
    hide OwnerOk, SobOk, Nonempty;
    assert KindOk(sh, Bucket(s, h), IndCell(p.clause, p.depth));
    var f := OwnerAt(sh, p.clause, p.depth - 1);
    assert SobAt(sh, p.clause, p.depth) == s;
    assert SobCell(s) in sh.home && sh.home[SobCell(s)] == f;
    assert KindOk(sh, f, SobCell(s));
  }

  lemma AscendUnder(st: Store, sh: Shape, p: Pend, s: nat, h: nat, k: nat, o: Loc)
    requires p.Removing? && p.at == SubPred(s) && p.depth > 0 && Storage(st, sh)
    requires Bucket(s, h) in sh.chains && k < |sh.chains[Bucket(s, h)]| && sh.chains[Bucket(s, h)][k].IndCell?
    requires SubPred(s) in sh.under && o in sh.chains && !o.Bucket? && UnderOk(sh, p, o)
    requires o != OwnerAt(sh, p.clause, p.depth - 1)
    requires SobCell(s) in sh.home && sh.home[SobCell(s)] == OwnerAt(sh, p.clause, p.depth - 1)
    ensures UnderOk(Ascended(sh, p.clause, s, h, k), Removing(OwnerAt(sh, p.clause, p.depth - 1), p.depth - 1, p.clause), o)
  {
    hide OwnerOk, SobOk, KindOk, Flat, Without, Drop, Unlinked, Storage, OwnerAt;
    AscendedIs(sh, p.clause, s, h, k);
    ChainCellsOf(st, sh, o);
    FlatFrame(sh.chains[o], sh.under, sh.under[SubPred(s) := Without(sh.under[SubPred(s)], p.clause)]);
  }

  lemma ChainCellsOf(st: Store, sh: Shape, o: Loc)
    requires Storage(st, sh) && o in sh.chains
    ensures forall x :: x in sh.chains[o] ==> x in sh.home && sh.home[x] == o && KindOk(sh, o, x)
  {
    hide OwnerOk, SobOk, KindOk;
  }

  /** At one level only one record counts a clause. */
  lemma NotBelowSibling(st: Store, sh: Shape, c: nat, s: nat, h: nat, t: nat)
    requires Storage(st, sh) && t in st.sobs && SobTree(st, sh, t) && t != s
    requires Bucket(s, h) in sh.chains && t in sh.level && IndCell(c, sh.level[t]) in sh.chains[Bucket(s, h)]
    ensures c !in Item(SobCell(t), sh.under)
  {
    hide OwnerOk, SobOk, KindOk, BucketOf, Storage;
    if c in Item(SobCell(t), sh.under) {
      var g := SlotOf(st.sobs[t].arg, st.heads[c], if st.sobs[t].size > 0 then st.sobs[t].size else 1);
      SobPositive(st, sh, t);
      BucketMembers(sh.under[SubPred(t)], st.heads, st.sobs[t].arg, st.sobs[t].size, g, sh.level[t]);
      assert IndCell(c, sh.level[t]) in sh.chains[Bucket(t, g)];
      OneOwner(st, sh, Bucket(t, g), Bucket(s, h), IndCell(c, sh.level[t]));
    }
  }

  lemma SobPositive(st: Store, sh: Shape, t: nat)
    requires Storage(st, sh) && t in st.sobs
    ensures st.sobs[t].size > 0 && t in sh.level && 1 <= sh.level[t] <= sh.Depth() && st.sobs[t].arg == sh.index[sh.level[t] - 1]
    ensures st.sobs[t].count == Nonempty(sh.chains, t, st.sobs[t].size)
    ensures SubPred(t) in sh.chains
  {
    assert SobOk(st, sh, t);
  }

  lemma AscendParent(st: Store, sh: Shape, p: Pend, s: nat, h: nat, k: nat)
    requires p.Removing? && p.at == SubPred(s) && p.depth > 0 && Storage(st, sh) && SobPart(st, sh)
    requires Bucket(s, h) in sh.chains && k < |sh.chains[Bucket(s, h)]| && sh.chains[Bucket(s, h)][k] == IndCell(p.clause, p.depth)
    requires SubPred(s) in sh.under && s in sh.level && sh.level[s] == p.depth
    requires var f := OwnerAt(sh, p.clause, p.depth - 1); f in sh.chains && f != SubPred(s) && SobCell(s) in sh.chains[f] && UnderOk(sh, p, f) && !f.Bucket?
    ensures UnderOk(Ascended(sh, p.clause, s, h, k),
      Removing(OwnerAt(sh, p.clause, p.depth - 1), p.depth - 1, p.clause), OwnerAt(sh, p.clause, p.depth - 1))
  {
    hide OwnerOk, SobOk, KindOk, Flat, Without, Drop, Unlinked, Storage, OwnerAt, SobTree, Distinct;
    var f := OwnerAt(sh, p.clause, p.depth - 1);
    var xs := sh.chains[f];
    var u1 := sh.under[SubPred(s) := Without(sh.under[SubPred(s)], p.clause)];
    AscendedIs(sh, p.clause, s, h, k);
    ChainDistinct(st, sh, f);
    assert sh.chains[Bucket(s, h)][k] in sh.chains[Bucket(s, h)];
    forall x | x in xs && x != SobCell(s) ensures p.clause !in Item(x, sh.under) {
      SiblingFacts(st, sh, f, s, x);
      NotBelowSibling(st, sh, p.clause, s, h, x.sob);
    }
    FlatWithout(xs, s, sh.under, u1, p.clause);
  }

  lemma SiblingFacts(st: Store, sh: Shape, f: Loc, s: nat, x: Loc)
    requires Storage(st, sh) && SobPart(st, sh) && f in sh.chains && SobCell(s) in sh.chains[f] && x in sh.chains[f] && !f.Bucket?
    ensures x.SobCell? && x.sob in st.sobs && x.sob in sh.level && s in sh.level && sh.level[x.sob] == sh.level[s]
    ensures SobTree(st, sh, x.sob)
  {
    hide OwnerOk, SobOk, SobTree;
    assert KindOk(sh, f, x) && KindOk(sh, f, SobCell(s));
  }

  /** Removing c from the one item that has it removes it from the whole. */
  lemma FlatWithout(xs: seq<Loc>, s: nat, u0: map<Loc, seq<nat>>, u1: map<Loc, seq<nat>>, c: nat)
    requires Distinct(xs) && SobCell(s) in xs && SubPred(s) in u0
    requires u1 == u0[SubPred(s) := Without(u0[SubPred(s)], c)]
    requires forall x :: x in xs && x != SobCell(s) ==> c !in Item(x, u0)
    ensures Flat(xs, u1) == Without(Flat(xs, u0), c)
  {
    hide Flat, Without;
    var k :| 0 <= k < |xs| && xs[k] == SobCell(s);
    FlatDrop(xs, k, u0);
    FlatDrop(xs, k, u1);
    FlatFrame(xs[..k], u0, u1);
    FlatFrame(xs[k + 1..], u0, u1);
    FlatNowhere(xs[..k], u0, c);
    FlatNowhere(xs[k + 1..], u0, c);
    WithoutConcat(Flat(xs[..k], u0) + u0[SubPred(s)], Flat(xs[k + 1..], u0), c);
    WithoutConcat(Flat(xs[..k], u0), u0[SubPred(s)], c);
  }

  lemma FlatNowhere(xs: seq<Loc>, u: map<Loc, seq<nat>>, c: nat)
    requires forall x :: x in xs ==> c !in Item(x, u)
    ensures Without(Flat(xs, u), c) == Flat(xs, u)
  {
    if xs != [] {
      FlatNowhere(xs[1..], u, c);
      assert xs[0] in xs;
      WithoutConcat(Item(xs[0], u), Flat(xs[1..], u), c);
      WithoutAbsent(Item(xs[0], u), c);
    }
  }

  lemma AscendSob(st: Store, st1: Store, sh: Shape, p: Pend, s: nat, h: nat, k: nat)
    requires p.Removing? && s in st.sobs && SobTree(st, sh, s) && Bucket(s, h) in sh.chains && h < st.sobs[s].size
    requires k < |sh.chains[Bucket(s, h)]| && sh.chains[Bucket(s, h)][k] == IndCell(p.clause, p.depth) && Distinct(sh.chains[Bucket(s, h)])
    requires sh.level[s] == p.depth
    requires st1.heads == st.heads && s in st1.sobs && st1.sobs[s].arg == st.sobs[s].arg && st1.sobs[s].size == st.sobs[s].size
    ensures SobTree(st1, Ascended(sh, p.clause, s, h, k), s)
  {
    hide BucketOf, Without, Drop, Unlinked, Distinct;
    AscendedIs(sh, p.clause, s, h, k);
    var sh1 := Ascended(sh, p.clause, s, h, k);
    var cs := sh.under[SubPred(s)];
    WithoutMembers(cs, p.clause);
    assert sh.chains[Bucket(s, h)][k] in sh.chains[Bucket(s, h)];
    BucketMembers(cs, st.heads, st.sobs[s].arg, st.sobs[s].size, h, p.depth);
    forall g | 0 <= g < st.sobs[s].size
      ensures Bucket(s, g) in sh1.chains
      ensures sh1.chains[Bucket(s, g)] == BucketOf(Without(cs, p.clause), st.heads, st.sobs[s].arg, st.sobs[s].size, g, p.depth)
    {
      if g == h {
        BucketDrop(cs, p.clause, k, st.heads, st.sobs[s].arg, st.sobs[s].size, h, p.depth);
      } else {
        BucketWithoutOther(cs, p.clause, st.heads, st.sobs[s].arg, st.sobs[s].size, g, p.depth);
      }
    }
  }

  lemma AscendClause(sh: Shape, p: Pend, s: nat, h: nat, k: nat)
    requires p.Removing? && p.depth > 0 && ClauseOk(sh, p, p.clause)
    requires Bucket(s, h) in sh.chains && SubPred(s) in sh.under
    requires k < |sh.chains[Bucket(s, h)]| && sh.chains[Bucket(s, h)][k] == IndCell(p.clause, p.depth)
    ensures ClauseOk(Ascended(sh, p.clause, s, h, k), Removing(OwnerAt(sh, p.clause, p.depth - 1), p.depth - 1, p.clause), p.clause)
  {
    hide Drop, Without, Unlinked, OwnerAt, Path, Ascended;
    AscendedIs(sh, p.clause, s, h, k);
    PathShorter(sh, Ascended(sh, p.clause, s, h, k), p.clause, p.depth);
  }

  lemma PathShorter(sh: Shape, sh1: Shape, c: nat, d: nat)
    requires d > 0 && Path(sh, c, d) && sh1.home == sh.home - {IndCell(c, d)}
    ensures Path(sh1, c, d - 1) && OwnerAt(sh1, c, d - 1) == OwnerAt(sh, c, d - 1)
  {
    SameSobAt(sh, sh1, c, d);
    hide SobAt;
    forall l | 1 <= l <= d - 1
      ensures IndCell(c, l) in sh1.home && sh1.home[IndCell(c, l)].Bucket? && SobCell(SobAt(sh1, c, l)) in sh1.home
      ensures sh1.home[SobCell(SobAt(sh1, c, l))] == OwnerAt(sh1, c, l - 1)
    {
    }
  }

  lemma SameSobAt(sh: Shape, sh1: Shape, c: nat, d: nat)
    requires sh1.home == sh.home - {IndCell(c, d)}
    ensures forall l :: 0 <= l < d ==> SobAt(sh1, c, l) == SobAt(sh, c, l) && OwnerAt(sh1, c, l) == OwnerAt(sh, c, l)
  {
  }

  /** The instruction of record s becomes fail. */
  function Flagged(st: Store, s: nat): Store
    requires s in st.sobs
  {
    st.(sobs := st.sobs[s := st.sobs[s].(failed := true)])
  }

  /** An emptied record fails. */
  lemma FlagTree(st: Store, sh: Shape, p: Pend, s: nat)
    requires p.Removing? && Tree(st, sh, p, {SubPred(s)}) && s in st.sobs && p.at != SubPred(s)
    requires SubPred(s) in sh.chains && SubPred(s) in sh.under && sh.under[SubPred(s)] == []
    ensures Tree(Flagged(st, s), sh, p, {p.at})
  {
    hide UnderPart, ClauseOk, HeadOk, SobTree, AllPart;
    var st1 := Flagged(st, s);
    forall t | t in st1.sobs ensures SobTree(st1, sh, t) && Placed(st1, sh, t) {
      assert SobTree(st, sh, t);
      OtherSob(st, st1, sh, sh, t);
    }
    AllOfStore(st, st1, sh);
  }

  lemma FlagStorage(st: Store, sh: Shape, s: nat)
    requires Storage(st, sh) && s in st.sobs
    ensures Storage(Flagged(st, s), sh)
  {
    hide OwnerOk, HomeOk, KindOk, Nonempty;
    var st1 := Flagged(st, s);
    forall o | o in sh.chains ensures OwnerOk(st1, sh, o) { SameAnchor(st, st1, sh, o); }
    forall t | t in st1.sobs ensures SobOk(st1, sh, t) { assert SobOk(st, sh, t); }
  }

  lemma SameAnchor(st: Store, st1: Store, sh: Shape, o: Loc)
    requires o in sh.chains && OwnerOk(st, sh, o) && st1.cells == st.cells && st1.preds == st.preds && st1.slots == st.slots
    ensures OwnerOk(st1, sh, o)
  {
    hide IsChain;
  }

  /** A failed record leaves its chain. */
  lemma UnchainTree(st: Store, sh: Shape, p: Pend, s: nat, f: Loc, k: nat)
    requires p.Removing? && p.at == f && Tree(st, sh, p, {f}) && Storage(st, sh)
    requires f in sh.chains && k < |sh.chains[f]| && sh.chains[f][k] == SobCell(s)
    requires s in st.sobs && st.sobs[s].failed && SubPred(s) in sh.under && sh.under[SubPred(s)] == []
    ensures Tree(st, Unlinked(sh, f, k), p, {f})
  {
    hide UnderOk, SobTree, ClauseOk, HeadOk, Storage, Distinct, Flat, Drop;
    var sh1 := Unlinked(sh, f, k);
    UnlinkedIs(sh, f, k);
    ChainDistinct(st, sh, f);
    assert SobTree(st, sh, s);
    forall o | o in sh1.chains && !o.Bucket? ensures UnderOk(sh1, p, o) {
      assert UnderOk(sh, p, o);
      UnchainUnder(sh, p, s, f, k, o);
    }
    forall t | t in st.sobs ensures SobTree(st, sh1, t) && Placed(st, sh1, t) {
      assert SobTree(st, sh, t);
      NotBucket(st, f);
      OtherSob(st, st, sh, sh1, t);
    }
    forall d | d in st.heads ensures ClauseOk(sh1, p, d) {
      assert ClauseOk(sh, p, d);
      UnchainClause(st, sh, p, s, f, k, d);
    }
  }

  lemma NotBucket(st: Store, f: Loc)
    requires Alive(st, f)
    ensures !f.Bucket?
  {
  }

  lemma UnchainUnder(sh: Shape, p: Pend, s: nat, f: Loc, k: nat, o: Loc)
    requires p.Removing? && p.at == f && f in sh.chains && k < |sh.chains[f]| && sh.chains[f][k] == SobCell(s)
    requires SubPred(s) in sh.under && sh.under[SubPred(s)] == [] && o in sh.chains && UnderOk(sh, p, o)
    ensures UnderOk(Unlinked(sh, f, k), p, o)
  {
    hide Flat, Without, Drop;
    if o == f { FlatDrop(sh.chains[f], k, sh.under); }
  }

  lemma UnchainClause(st: Store, sh: Shape, p: Pend, s: nat, f: Loc, k: nat, d: nat)
    requires p.Removing? && ClauseOk(sh, p, d) && Storage(st, sh) && s in st.sobs && SobTree(st, sh, s) && p.at == f
    requires f in sh.chains && k < |sh.chains[f]| && sh.chains[f][k] == SobCell(s)
    requires SubPred(s) in sh.under && sh.under[SubPred(s)] == []
    ensures ClauseOk(Unlinked(sh, f, k), p, d)
  {
    hide Storage, Drop, SobTree;
    UnlinkedIs(sh, f, k);
    var n := if d == p.clause then p.depth else sh.Depth();
    forall l | 1 <= l <= n ensures SobAt(sh, d, l) != s { EmptyOffPath(st, sh, s, d, l); }
    PathKept(sh, Unlinked(sh, f, k), s, d, n);
  }

  lemma PathKept(sh: Shape, sh1: Shape, s: nat, c: nat, d: nat)
    requires Path(sh, c, d) && sh1.home == sh.home - {SobCell(s)}
    requires forall l :: 1 <= l <= d ==> SobAt(sh, c, l) != s
    ensures Path(sh1, c, d)
    ensures OwnerAt(sh1, c, d) == OwnerAt(sh, c, d)
  {
    forall l | 1 <= l <= d ensures SobAt(sh1, c, l) == SobAt(sh, c, l) { }
  }

  /** An empty record is on nobody's path. */
  lemma EmptyOffPath(st: Store, sh: Shape, s: nat, c: nat, l: nat)
    requires Storage(st, sh) && s in st.sobs && SobTree(st, sh, s) && SubPred(s) in sh.under && sh.under[SubPred(s)] == []
    requires IndCell(c, l) in sh.home && sh.home[IndCell(c, l)].Bucket?
    ensures SobAt(sh, c, l) != s
  {
    hide OwnerOk, SobOk, KindOk;
    var o := sh.home[IndCell(c, l)];
    assert IndCell(c, l) in sh.chains[o];
    if o.sob == s {
      SlotExists(st, sh, o);
    }
  }

  lemma SlotExists(st: Store, sh: Shape, o: Loc)
    requires Storage(st, sh) && o in sh.chains && o.Bucket?
    ensures o.sob in st.sobs && o.slot < st.sobs[o.sob].size
  {
  }

  /** The order of the whole predicate forgets the clause. */
  lemma FinishRemoving(st: Store, sh: Shape, p: Pend)
    requires p.Removing? && p.depth == 0 && Tree(st, sh, p, {p.at}) && Storage(st, sh)
    ensures Tree(st.(heads := st.heads - {p.clause}), sh.(under := sh.under[Root := Without(All(sh), p.clause)]), Settled, {})
    ensures ClauseCell(p.clause) !in sh.home && forall l :: IndCell(p.clause, l) !in sh.home
  {
    hide UnderOk, SobTree, ClauseOk, HeadOk, All, Distinct, Storage, Without;
    var c := p.clause;
    assert ClauseOk(sh, p, c);
    NoCells(st, sh, p);
    var sh1 := sh.(under := sh.under[Root := Without(All(sh), c)]);
    var st1 := st.(heads := st.heads - {c});
    forall o | o in sh1.chains && !o.Bucket? ensures UnderOk(sh1, Settled, o) {
      assert UnderOk(sh, p, o);
      FinishRemovingUnder(sh, p, o);
    }
    forall s | s in st1.sobs ensures SobTree(st1, sh1, s) && Placed(st1, sh1, s) {
      assert SobTree(st, sh, s);
      FinishRemovingSob(st, sh, p, s);
    }
    forall d | d in st1.heads ensures ClauseOk(sh1, Settled, d) && HeadOk(sh1.index, st1.heads[d]) {
      ClauseSame(sh, sh1, p, Settled, d);
    }
    AllIs(sh1);
    WithoutMembers(All(sh), c);
    WithoutDistinct(All(sh), c);
  }

  lemma NoCells(st: Store, sh: Shape, p: Pend)
    requires p.Removing? && p.depth == 0 && ClauseOk(sh, p, p.clause) && Storage(st, sh)
    ensures p.at == Root && ClauseCell(p.clause) !in sh.home && forall l :: IndCell(p.clause, l) !in sh.home
  {
    forall l | IndCell(p.clause, l) in sh.home ensures false {
      var o := sh.home[IndCell(p.clause, l)];
      assert IndCell(p.clause, l) in sh.chains[o];
      assert KindOk(sh, o, IndCell(p.clause, l));
      SobPositive(st, sh, o.sob);
    }
  }

  lemma FinishRemovingUnder(sh: Shape, p: Pend, o: Loc)
    requires p.Removing? && p.at == Root && o in sh.chains && Root in sh.under && UnderOk(sh, p, o)
    ensures UnderOk(sh.(under := sh.under[Root := Without(All(sh), p.clause)]), Settled, o)
  {
    FlatFrame(sh.chains[o], sh.under, sh.under[Root := Without(All(sh), p.clause)]);
  }

  lemma FinishRemovingSob(st: Store, sh: Shape, p: Pend, s: nat)
    requires p.Removing? && s in st.sobs && SobTree(st, sh, s) && Storage(st, sh)
    requires forall l :: IndCell(p.clause, l) !in sh.home
    ensures SobTree(st.(heads := st.heads - {p.clause}), sh.(under := sh.under[Root := Without(All(sh), p.clause)]), s)
  {
    hide BucketOf, OwnerOk, SobOk, Without, Storage;
    var cs := sh.under[SubPred(s)];
    SobPositive(st, sh, s);
    if p.clause in cs {
      var g := SlotOf(st.sobs[s].arg, st.heads[p.clause], st.sobs[s].size);
      BucketMembers(cs, st.heads, st.sobs[s].arg, st.sobs[s].size, g, sh.level[s]);
      assert IndCell(p.clause, sh.level[s]) in sh.chains[Bucket(s, g)];
      ChainCellsOf(st, sh, Bucket(s, g));
    }
    forall h | 0 <= h < st.sobs[s].size
      ensures BucketOf(cs, st.heads, st.sobs[s].arg, st.sobs[s].size, h, sh.level[s])
           == BucketOf(cs, st.heads - {p.clause}, st.sobs[s].arg, st.sobs[s].size, h, sh.level[s])
    {
      BucketFrame(cs, st.heads, st.heads - {p.clause}, st.sobs[s].arg, st.sobs[s].size, h, sh.level[s]);
    }
  }

  /** A record's count is zero exactly when nothing is below it. */
  lemma CountZero(st: Store, sh: Shape, s: nat)
    requires Storage(st, sh) && s in st.sobs && SobTree(st, sh, s)
    ensures SubPred(s) in sh.under
    ensures st.sobs[s].count == 0 <==> sh.under[SubPred(s)] == []
  {
    hide BucketOf, OwnerOk, SobOk, Storage;
    SobPositive(st, sh, s);
    NonemptyZero(sh.chains, s, st.sobs[s].size);
    var cs := sh.under[SubPred(s)];
    if cs == [] {
      forall h | 0 <= h < st.sobs[s].size ensures sh.chains[Bucket(s, h)] == [] {
        BucketNone(st.heads, st.sobs[s].arg, st.sobs[s].size, h, sh.level[s]);
      }
    } else {
      assert cs[0] in cs;
      var g := SlotOf(st.sobs[s].arg, st.heads[cs[0]], st.sobs[s].size);
      BucketMembers(cs, st.heads, st.sobs[s].arg, st.sobs[s].size, g, sh.level[s]);
      assert IndCell(cs[0], sh.level[s]) in sh.chains[Bucket(s, g)];
    }
  }

  lemma BucketNone(heads: map<nat, seq<Sym>>, ind: nat, size: nat, h: nat, l: nat)
    ensures BucketOf([], heads, ind, size, h, l) == []
  {
  }

  /** A record with something below it has a chain. */
  lemma EmptyChain(st: Store, sh: Shape, p: Pend, s: nat)
    requires Storage(st, sh) && s in st.sobs && Tree(st, sh, p, {SubPred(s)}) && (p.Settled? || p.at != SubPred(s))
    ensures SubPred(s) in sh.chains && SubPred(s) in sh.under
    ensures sh.chains[SubPred(s)] == [] ==> sh.under[SubPred(s)] == []
  {
    hide OwnerOk, SobOk, SobTree, ClauseOk, Storage, Flat, Distinct;
    SobPositive(st, sh, s);
    assert UnderOk(sh, p, SubPred(s));
    FlatEmpty(sh.under);
  }

  // ---- records come and go ---------------------------------------------------------

  /** The words of a fresh record are right for an empty record. */
  lemma NewSobStorage(st: Store, st1: Store, sh: Shape, s: nat, arg: nat, size: nat, lvl: nat)
    requires Storage(st, sh) && s !in st.sobs && size > 0 && 1 <= lvl <= sh.Depth() && arg == sh.index[lvl - 1]
    requires st1.sobs == st.sobs[s := SobRec(arg, size, 0, false)]
    requires forall x :: x in st.cells && x != SobCell(s) ==> x in st1.cells && st1.cells[x] == st.cells[x]
    requires st1.preds == st.preds[SubPred(s) := PredRec(Fail, SubPred(s), SubPred(s))]
    requires forall o :: o in st.slots && !IsOf(o, s) ==> o in st1.slots && st1.slots[o] == st.slots[o]
    requires forall h: nat :: h < size ==> Bucket(s, h) in st1.slots && st1.slots[Bucket(s, h)] == Dynfail
    ensures NoSob(sh, s)
    ensures Storage(st1, WithSob(sh, s, size, lvl)) && WithSob(sh, s, size, lvl).index == sh.index
  {
    hide OwnerOk, SobOk, KindOk, WithSob;
    FreshSob(st, sh, s);
    WithSobIs(sh, s, size, lvl);
    var sh1 := WithSob(sh, s, size, lvl);
    forall o | o in sh1.chains ensures OwnerOk(st1, sh1, o) {
      if o in sh.chains { NewSobOther(st, st1, sh, sh1, s, o); } else { NewSobOwner(st1, sh1, s, o); }
    }
    forall t | t in st1.sobs ensures SobOk(st1, sh1, t) {
      if t == s { NewSobCount(st1, sh1, s); } else { NewSobOk(st, st1, sh, sh1, t); }
    }
    WithSobHome(sh, sh1, s);
  }

  lemma WithSobIs(sh: Shape, s: nat, size: nat, lvl: nat)
    requires NoSob(sh, s)
    ensures var sh1 := WithSob(sh, s, size, lvl);
      && sh1.home == sh.home && sh1.under == sh.under[SubPred(s) := []]
      && sh1.level == sh.level[s := lvl] && sh1.index == sh.index
      && (forall o :: o in sh1.chains <==> o in sh.chains || o == SubPred(s) || (o.Bucket? && o.sob == s && o.slot < size))
      && (forall o :: o in sh1.chains ==> sh1.chains[o] == if o in sh.chains then sh.chains[o] else [])
  {
  }

  lemma FreshSob(st: Store, sh: Shape, s: nat)
    requires Storage(st, sh) && s !in st.sobs
    ensures NoSob(sh, s)
  {
    hide OwnerOk, SobOk;
    if SobCell(s) in sh.home {
      HomeKind(sh, SobCell(s));
    }
  }

  lemma HomeKind(sh: Shape, x: Loc)
    requires HomeOk(sh) && x in sh.home
    ensures sh.home[x] in sh.chains && x in sh.chains[sh.home[x]] && KindOk(sh, sh.home[x], x)
  {
    hide KindOk;
  }

  lemma WithSobHome(sh: Shape, sh1: Shape, s: nat)
    requires HomeOk(sh) && NoSob(sh, s) && s in sh1.level
    requires sh1.home == sh.home && sh1.index == sh.index && sh1.level == sh.level[s := sh1.level[s]]
    requires forall o :: o in sh.chains ==> o in sh1.chains && sh1.chains[o] == sh.chains[o]
    requires forall o :: o in sh1.chains && o !in sh.chains ==> sh1.chains[o] == []
    ensures HomeOk(sh1)
  {
    forall o, x | o in sh1.chains && x in sh1.chains[o] ensures x in sh1.home && sh1.home[x] == o && KindOk(sh1, o, x) {
      assert KindOk(sh, o, x);
    }
  }

  lemma NewSobOther(st: Store, st1: Store, sh: Shape, sh1: Shape, s: nat, o: Loc)
    requires Storage(st, sh) && o in sh.chains && o in sh1.chains && sh1.chains[o] == sh.chains[o] && NoSob(sh, s)
    requires sh1.index == sh.index && s in sh1.level && sh1.level == sh.level[s := sh1.level[s]]
    requires forall x :: x in st.cells && x != SobCell(s) ==> x in st1.cells && st1.cells[x] == st.cells[x]
    requires forall p :: p in st.preds && p != SubPred(s) ==> p in st1.preds && st1.preds[p] == st.preds[p]
    requires forall p :: p in st.slots && !IsOf(p, s) ==> p in st1.slots && st1.slots[p] == st.slots[p]
    ensures OwnerOk(st1, sh1, o)
  {
    hide SobOk, KindOk, OwnerOk;
    assert !IsOf(o, s);
    assert o.SubPred? ==> IsSob(sh1, o) == IsSob(sh, o);
    assert SobCell(s) !in sh.chains[o];
    OtherOwner(st, st1, sh, sh1, o);
  }

  lemma NewSobOwner(st: Store, sh: Shape, s: nat, o: Loc)
    requires o in sh.chains && IsOf(o, s) && sh.chains[o] == []
    requires o.SubPred? ==> o in st.preds && st.preds[o].op == Fail
    requires o.Bucket? ==> o in st.slots && st.slots[o] == Dynfail
    ensures OwnerOk(st, sh, o)
  {
  }

  lemma NewSobCount(st: Store, sh: Shape, s: nat)
    requires s in st.sobs && st.sobs[s].count == 0 && st.sobs[s].size > 0
    requires s in sh.level && 1 <= sh.level[s] <= sh.Depth() && st.sobs[s].arg == sh.index[sh.level[s] - 1]
    requires forall h: nat :: Bucket(s, h) in sh.chains ==> sh.chains[Bucket(s, h)] == []
    ensures SobOk(st, sh, s)
  {
    NonemptyZero(sh.chains, s, st.sobs[s].size);
  }

  lemma NewSobOk(st: Store, st1: Store, sh: Shape, sh1: Shape, t: nat)
    requires t in st.sobs && t in st1.sobs && st1.sobs[t] == st.sobs[t] && SobOk(st, sh, t)
    requires t in sh1.level && t in sh.level && sh1.level[t] == sh.level[t] && sh1.index == sh.index
    requires forall h: nat :: (Bucket(t, h) in sh.chains <==> Bucket(t, h) in sh1.chains) && (Bucket(t, h) in sh.chains ==> sh1.chains[Bucket(t, h)] == sh.chains[Bucket(t, h)])
    ensures SobOk(st1, sh1, t)
  {
    NonemptyFrame(sh.chains, sh1.chains, t, st.sobs[t].size);
  }

  /** Only clauses of the predicate have cells on chains. */
  lemma HomeHeads(st: Store, sh: Shape, c: nat)
    requires Storage(st, sh) && Tree(st, sh, Settled, {}) && c !in st.heads
    ensures ClauseCell(c) !in sh.home && forall l :: IndCell(c, l) !in sh.home
  {
    hide OwnerOk, SobOk, UnderOk, SobTree, ClauseOk, Flat, BucketOf, Distinct;
    if ClauseCell(c) in sh.home {
      var o := sh.home[ClauseCell(c)];
      assert ClauseCell(c) in sh.chains[o] && KindOk(sh, o, ClauseCell(c));
      assert UnderOk(sh, Settled, o);
      LeafClause(st, sh, o, c);
    }
    forall l | IndCell(c, l) in sh.home ensures false {
      var o := sh.home[IndCell(c, l)];
      assert IndCell(c, l) in sh.chains[o] && KindOk(sh, o, IndCell(c, l));
      SlotExists(st, sh, o);
      assert SobTree(st, sh, o.sob);
      BucketClause(st, sh, o, c, l);
    }
  }

  lemma LeafClause(st: Store, sh: Shape, o: Loc, c: nat)
    requires o in sh.chains && o.SubPred? && o.sob in st.sobs && UnderOk(sh, Settled, o) && SobTree(st, sh, o.sob)
    requires ClauseCell(c) in sh.chains[o]
    ensures c in st.heads
  {
    var k :| 0 <= k < |sh.chains[o]| && sh.chains[o][k] == ClauseCell(c);
    FlatMember(sh.chains[o], k, sh.under, c);
  }

  lemma BucketClause(st: Store, sh: Shape, o: Loc, c: nat, l: nat)
    requires o in sh.chains && o.Bucket? && o.sob in st.sobs && o.slot < st.sobs[o.sob].size && SobTree(st, sh, o.sob)
    requires IndCell(c, l) in sh.chains[o]
    ensures c in st.heads && l == sh.level[o.sob] && SubPred(o.sob) in sh.under && c in sh.under[SubPred(o.sob)]
    ensures InSlot(st.heads, st.sobs[o.sob].arg, st.sobs[o.sob].size, o.slot, c)
  {
    BucketMembers(sh.under[SubPred(o.sob)], st.heads, st.sobs[o.sob].arg, st.sobs[o.sob].size, o.slot, sh.level[o.sob]);
  }

  // ---- facts for the code ----------------------------------------------------------

  ghost function LevelOf(sh: Shape, o: Loc): nat {
    if o.SubPred? && o.sob in sh.level then sh.level[o.sob] else 0
  }

  lemma EndChild(st: Store, sh: Shape, o: Loc, d: nat)
    requires Storage(st, sh) && o in sh.chains && IsSob(sh, o) && LevelOf(sh, o) == d
    ensures AnchorOk(st, o, sh.chains[o]) && !o.Bucket?
    ensures forall x :: x in sh.chains[o] ==> x.SobCell? && x.sob in st.sobs && x.sob in sh.level && sh.level[x.sob] == d + 1
  {
    hide IsChain, SobOk, Nonempty;
    assert OwnerOk(st, sh, o);
    forall x | x in sh.chains[o] ensures x.SobCell? && x.sob in st.sobs && x.sob in sh.level && sh.level[x.sob] == d + 1 {
      assert KindOk(sh, o, x);
    }
  }

  lemma EndSob(st: Store, sh: Shape, o: Loc, az: bool, s: nat, p: Pend)
    requires Storage(st, sh) && o in sh.chains && sh.chains[o] != [] && Tree(st, sh, p, {o})
    requires sh.chains[o][if az then |sh.chains[o]| - 1 else 0] == SobCell(s)
    ensures AtEnd(sh, o, az, s) && Tree(st, sh, p, {o, SubPred(s)}) && SobCell(s) in sh.chains[o]
  {
    hide Storage, UnderPart, SobPart, ClausePart, AllPart;
  }

  lemma WithSobAllowed(st: Store, sh: Shape, o: Loc, s: nat, size: nat, d: nat)
    requires Storage(st, sh) && o in sh.chains && IsSob(sh, o) && LevelOf(sh, o) == d && NoSob(sh, s)
    ensures var sh1 := WithSob(sh, s, size, d + 1);
      sh1.home == sh.home && o in sh1.chains && IsSob(sh1, o) && SobCell(s) !in sh1.home && KindOk(sh1, o, SobCell(s))
  {
    hide OwnerOk, SobOk, HomeOk;
    WithSobIs(sh, s, size, d + 1);
  }

  lemma ChooseTree(st0: Store, sh0: Shape, st1: Store, sh1: Shape, p: Pend, s: nat, ind: nat, size: nat)
    requires p.Adding? && Tree(st0, sh0, p, {p.at}) && Storage(st0, sh0) && NoSob(sh0, s) && s !in st0.sobs && p.at in sh0.chains
    requires p.at in WithSob(sh0, s, size, p.depth + 1).chains
    requires sh1 == Linked(WithSob(sh0, s, size, p.depth + 1), p.at, p.az, SobCell(s))
    requires st1.sobs == st0.sobs[s := SobRec(ind, size, 0, false)] && st1.heads == st0.heads
    ensures Tree(st1, sh1, p, {p.at, SubPred(s)}) && All(sh1) == All(sh0)
    ensures p.at in sh1.chains && AtEnd(sh1, p.at, p.az, s)
    ensures sh1.home == sh0.home[SobCell(s) := p.at] && sh1.index == sh0.index && s in sh1.level && sh1.level[s] == p.depth + 1
  {
    hide OwnerOk, SobOk, UnderPart, SobPart, ClausePart, AllPart, HomeOk, NoSob;
    assert HomeOk(sh0);
    AddSobTree(st0, sh0, p, s, ind, size);
    TreeOfStore(st0.(sobs := st0.sobs[s := SobRec(ind, size, 0, false)]), st1, sh1, p, {SubPred(s)});
    WithChildIs(sh0, s, size, p.depth + 1, p.at, p.az);
  }

  lemma TreeOfStore(st: Store, st1: Store, sh: Shape, p: Pend, spare: set<Loc>)
    requires Tree(st, sh, p, spare) && st1.sobs == st.sobs && st1.heads == st.heads
    ensures Tree(st1, sh, p, spare)
  {
    hide UnderPart, AllPart;
    forall s | s in st1.sobs ensures SobTree(st1, sh, s) && Placed(st1, sh, s) {
      assert SobTree(st, sh, s);
      OtherSob(st, st1, sh, sh, s);
    }
    AllOfStore(st, st1, sh);
  }

  lemma AllOfStore(st: Store, st1: Store, sh: Shape)
    requires AllPart(st, sh) && st1.heads == st.heads
    ensures AllPart(st1, sh)
  {
  }

  lemma UntouchedCells(m0: Mem, m1: Mem, xs: seq<Loc>, x: Loc, st: Store, sh: Shape, o: Loc)
    requires Untouched(m0, m1, xs, x) && Storage(st, sh) && o in sh.chains && xs == sh.chains[o]
    ensures forall y :: y in m0 ==> y in m1 && (y !in sh.home && y != x ==> m1[y] == m0[y])
  {
    hide OwnerOk, SobOk, KindOk;
  }

  lemma PendingCells(st: Store, sh: Shape, p: Pend, l: nat)
    requires !p.Settled? && Tree(st, sh, p, {p.at}) && l > p.depth
    ensures IndCell(p.clause, l) !in sh.home && ClauseCell(p.clause) !in sh.home
  {
    hide UnderPart, SobPart, AllPart, Path;
    assert ClauseOk(sh, p, p.clause);
  }

  lemma SlotAllowed(st: Store, sh: Shape, p: Pend, s: nat, h: nat, ind: nat, size: nat)
    requires p.Adding? && Tree(st, sh, p, {p.at, SubPred(s)}) && Storage(st, sh)
    requires s in st.sobs && st.sobs[s].size == size && st.sobs[s].arg == ind && s in sh.level && sh.level[s] == p.depth + 1
    requires p.clause in st.heads && ind < |st.heads[p.clause]| && size > 0 && h == SlotOf(ind, st.heads[p.clause], size)
    ensures Bucket(s, h) in sh.chains && InSlot(st.heads, ind, size, h, p.clause)
    ensures KindOk(sh, Bucket(s, h), IndCell(p.clause, p.depth + 1)) && IndCell(p.clause, p.depth + 1) !in sh.home
  {
    hide UnderPart, SobPart, AllPart, Path, OwnerOk, SobOk, HomeOk;
    assert ClauseOk(sh, p, p.clause);
  }

  lemma StorageUnder(st: Store, sh: Shape, u: map<Loc, seq<nat>>)
    requires Storage(st, sh)
    ensures Storage(st, sh.(under := u))
  {
    hide IsChain, AnchorOk, Nonempty;
    var sh1 := sh.(under := u);
    forall o | o in sh1.chains ensures OwnerOk(st, sh1, o) { assert OwnerOk(st, sh, o); }
    forall s | s in st.sobs ensures SobOk(st, sh1, s) { assert SobOk(st, sh, s); }
    forall o, x | o in sh1.chains && x in sh1.chains[o] ensures x in sh1.home && sh1.home[x] == o && KindOk(sh1, o, x) {
      assert KindOk(sh, o, x);
    }
  }

  lemma DescendStorage(st: Store, sh0: Shape, sh1: Shape, p: Pend, s: nat, h: nat)
    requires p.Adding? && Bucket(s, h) in sh0.chains && SubPred(s) in sh0.under && s in sh0.level
    requires Storage(st, sh1) && sh1 == Linked(sh0, Bucket(s, h), p.az, IndCell(p.clause, p.depth + 1))
    ensures var sh2 := Descended(sh0, p, s, h);
      && Storage(st, sh2) && All(sh2) == All(sh0) && sh2.index == sh0.index
      && sh2.home == sh0.home[IndCell(p.clause, p.depth + 1) := Bucket(s, h)]
      && SubPred(s) in sh2.chains && LevelOf(sh2, SubPred(s)) == sh0.level[s]
      && (IsSob(sh2, SubPred(s)) <==> sh0.level[s] < sh0.Depth())
  {
    hide OwnerOk, SobOk, KindOk, HomeOk;
    StorageUnder(st, sh1, Descended(sh0, p, s, h).under);
    DescendedIs(sh0, p, s, h);
  }

  /** Cells that are on no chain do not matter. */
  lemma StorageCells(st: Store, st1: Store, sh: Shape)
    requires Storage(st, sh) && st1.preds == st.preds && st1.slots == st.slots && st1.sobs == st.sobs
    requires forall x :: x in st.cells && x in sh.home ==> x in st1.cells && st1.cells[x] == st.cells[x]
    ensures Storage(st1, sh)
  {
    hide OwnerOk, Nonempty, KindOk;
    forall o | o in sh.chains ensures OwnerOk(st1, sh, o) { OtherOwner(st, st1, sh, sh, o); }
    forall s | s in st1.sobs ensures SobOk(st1, sh, s) { assert SobOk(st, sh, s); }
  }

  lemma RootFacts(st: Store, sh: Shape)
    requires Storage(st, sh)
    ensures Root in sh.chains && IsSob(sh, Root) && LevelOf(sh, Root) == 0 && sh.Depth() > 0
    ensures Root in st.preds
    ensures st.preds[Root].op != Fail ==>
      && st.preds[Root].first.SobCell? && st.preds[Root].first.sob in st.sobs && st.sobs[st.preds[Root].first.sob].size > 0
      && st.preds[Root].last.SobCell? && st.preds[Root].last.sob in st.sobs && st.sobs[st.preds[Root].last.sob].size > 0
  {
    hide OwnerOk, SobOk, HomeOk;
    EndChild(st, sh, Root, 0);
    if sh.chains[Root] != [] {
      assert sh.chains[Root][0] in sh.chains[Root] && sh.chains[Root][|sh.chains[Root]| - 1] in sh.chains[Root];
      SobPositive(st, sh, sh.chains[Root][0].sob);
      SobPositive(st, sh, sh.chains[Root][|sh.chains[Root]| - 1].sob);
    }
  }

  lemma StartStorage(st0: Store, st1: Store, sh0: Shape, sh1: Shape, c: nat, head: seq<Sym>, az: bool)
    requires Storage(st1, sh0) && st1.sobs == st0.sobs && st1.heads == st0.heads[c := head]
    requires sh1 == sh0.(under := sh0.under[Root := Add(az, All(sh0), c)])
    requires Tree(st0.(heads := st0.heads[c := head]), sh1, Adding(Root, 0, c, az), {})
    ensures Storage(st1, sh1) && Tree(st1, sh1, Adding(Root, 0, c, az), {Root})
    ensures Root in sh1.chains && LevelOf(sh1, Root) == 0 && IsSob(sh1, Root) && All(sh1) == Add(az, All(sh0), c)
  {
    hide SobPart, UnderPart, ClausePart, AllPart, OwnerOk, SobOk, HomeOk, Add;
    StorageUnder(st1, sh0, sh1.under);
    TreeOfStore(st0.(heads := st0.heads[c := head]), st1, sh1, Adding(Root, 0, c, az), {});
  }

  lemma HeadAt(index: seq<nat>, head: seq<Sym>, i: nat)
    requires HeadOk(index, head) && i < |index|
    ensures index[i] < |head|
  {
  }

  lemma SlotIs(ind: nat, head: seq<Sym>, size: nat)
    requires ind < |head| && size > 0
    ensures HashVal(ind, head, size) == -1 <==> head[ind].Var?
    ensures HashVal(ind, head, size) == -1 ==> SlotOf(ind, head, 1) == 0
    ensures HashVal(ind, head, size) != -1 ==> HashVal(ind, head, size) == SlotOf(ind, head, size)
  {
  }

  lemma LeafFacts(st: Store, sh: Shape, p: Pend)
    requires p.Adding? && Tree(st, sh, p, {p.at}) && Storage(st, sh) && p.depth == sh.Depth() && LevelOf(sh, p.at) == p.depth
    ensures p.at.SubPred? && p.at in sh.chains && !IsSob(sh, p.at) && KindOk(sh, p.at, ClauseCell(p.clause))
  {
    hide UnderPart, SobPart, AllPart, OwnerOk, SobOk, HomeOk;
    assert ClauseOk(sh, p, p.clause);
  }

  lemma FinishAll(sh0: Shape, sh1: Shape, s: nat, az: bool, c: nat)
    requires SubPred(s) in sh0.chains && sh1 == Linked(sh0, SubPred(s), az, ClauseCell(c))
    ensures All(sh1) == All(sh0) && sh1.index == sh0.index
  {
  }

  /** Where the index cell of the clause being removed stands. */
  lemma LevelFacts(st: Store, sh: Shape, p: Pend) returns (s: nat, h: nat, k: nat)
    requires p.Removing? && p.depth > 0 && Tree(st, sh, p, {p.at}) && Storage(st, sh)
    ensures p.at == SubPred(s) && s in st.sobs && Bucket(s, h) in sh.chains
    ensures k < |sh.chains[Bucket(s, h)]| && sh.chains[Bucket(s, h)][k] == IndCell(p.clause, p.depth)
    ensures IndCell(p.clause, p.depth) in st.cells
    ensures st.cells[IndCell(p.clause, p.depth)].op == Dynnoop <==> |sh.chains[Bucket(s, h)]| == 1
    ensures |sh.chains[Bucket(s, h)]| == 1 ==> st.cells[IndCell(p.clause, p.depth)].next == SobCell(s)
    ensures sh.Depth() > 0
    ensures OwnerAt(sh, p.clause, p.depth - 1) != SubPred(s)
    ensures SobCell(s) in sh.home && sh.home[SobCell(s)] == OwnerAt(sh, p.clause, p.depth - 1)
  {
    hide UnderPart, SobPart, AllPart, OwnerOk, SobOk, IsChain;
    assert ClauseOk(sh, p, p.clause);
    var o := sh.home[IndCell(p.clause, p.depth)];
    s, h := o.sob, o.slot;
    assert IndCell(p.clause, p.depth) in sh.chains[o];
    k :| 0 <= k < |sh.chains[o]| && sh.chains[o][k] == IndCell(p.clause, p.depth);
    OwnerChain(st, sh, o);
    PlaceOf(st.cells, sh.chains[o], false, o, SobCell(s), k);
    ParentFacts(st, sh, p, s, h);
  }

  lemma AscendStorage(st: Store, sh0: Shape, sh1: Shape, p: Pend, s: nat, h: nat, k: nat)
    requires p.Removing? && p.depth > 0 && Bucket(s, h) in sh0.chains && SubPred(s) in sh0.under && s in st.sobs
    requires k < |sh0.chains[Bucket(s, h)]| && sh0.chains[Bucket(s, h)][k].IndCell?
    requires Storage(st, sh1) && sh1 == Unlinked(sh0, Bucket(s, h), k)
    ensures var sh2 := Ascended(sh0, p.clause, s, h, k);
      && Storage(st, sh2) && All(sh2) == All(sh0) && sh2.index == sh0.index && sh2.level == sh0.level
      && sh2.home == sh0.home - {sh0.chains[Bucket(s, h)][k]}
      && sh2.chains == Unlinked(sh0, Bucket(s, h), k).chains && sh2.home == Unlinked(sh0, Bucket(s, h), k).home
      && Bucket(s, h) in sh2.chains && |sh2.chains[Bucket(s, h)]| == |sh0.chains[Bucket(s, h)]| - 1
  {
    hide OwnerOk, SobOk, KindOk, HomeOk, Without;
    StorageUnder(st, sh1, Ascended(sh0, p.clause, s, h, k).under);
    AscendedIs(sh0, p.clause, s, h, k);
  }

  /** After a bucket has been left: the count tells whether the record is empty. */
  lemma EmptyFacts(st: Store, sh: Shape, q: Pend, s: nat)
    requires q.Removing? && Tree(st, sh, q, {SubPred(s)}) && Storage(st, sh) && s in st.sobs && q.at != SubPred(s)
    requires SobCell(s) in sh.home && sh.home[SobCell(s)] == q.at
    ensures SubPred(s) in sh.under && SubPred(s) in sh.chains && SobTree(st, sh, s)
    ensures (st.sobs[s].count == 0 <==> sh.under[SubPred(s)] == []) && (sh.chains[SubPred(s)] == [] ==> sh.under[SubPred(s)] == [])
    ensures q.at in sh.chains && Alive(st, q.at) && SobCell(s) in sh.chains[q.at]
    ensures forall h: nat :: Bucket(s, h) in sh.chains && st.sobs[s].count == 0 ==> sh.chains[Bucket(s, h)] == []
  {
    hide OwnerOk, SobOk, UnderOk, SobTree, ClauseOk, Distinct;
    assert SobTree(st, sh, s);
    CountZero(st, sh, s);
    EmptyChain(st, sh, q, s);
    if st.sobs[s].count == 0 { EmptyBuckets(st, sh, s); }
  }

  lemma SpareNone(st: Store, sh: Shape, q: Pend, s: nat)
    requires q.Removing? && Tree(st, sh, q, {SubPred(s)}) && SubPred(s) in sh.chains && sh.chains[SubPred(s)] != []
    requires SubPred(s) in sh.under && sh.under[SubPred(s)] != [] && s in st.sobs && !st.sobs[s].failed
    ensures Tree(st, sh, q, {q.at})
  {
    hide UnderPart, SobPart, ClausePart, AllPart;
  }

  lemma EmptyBuckets(st: Store, sh: Shape, s: nat)
    requires Storage(st, sh) && s in st.sobs && SobTree(st, sh, s) && SubPred(s) in sh.under && sh.under[SubPred(s)] == []
    ensures forall h: nat :: Bucket(s, h) in sh.chains ==> sh.chains[Bucket(s, h)] == []
  {
    hide OwnerOk, SobOk, HomeOk;
    forall h: nat | Bucket(s, h) in sh.chains ensures sh.chains[Bucket(s, h)] == [] {
      BucketNone(st.heads, st.sobs[s].arg, st.sobs[s].size, h, sh.level[s]);
    }
  }

  lemma UnlinkedIs(sh: Shape, f: Loc, k: nat)
    requires f in sh.chains && k < |sh.chains[f]|
    ensures var sh1 := Unlinked(sh, f, k);
      && sh1.home == sh.home - {sh.chains[f][k]} && sh1.under == sh.under && sh1.level == sh.level && sh1.index == sh.index
      && sh1.chains == sh.chains[f := Drop(sh.chains[f], k)] && All(sh1) == All(sh)
  {
  }

  /** Where a clause stands on the all-chain of its leaf record. */
  lemma LeafPlace(st: Store, sh: Shape, c: nat) returns (s: nat, k: nat)
    requires Tree(st, sh, Settled, {}) && Storage(st, sh) && c in st.heads
    ensures SubPred(s) in sh.chains && !IsSob(sh, SubPred(s)) && SubPred(s) == OwnerAt(sh, c, sh.Depth())
    ensures k < |sh.chains[SubPred(s)]| && sh.chains[SubPred(s)][k] == ClauseCell(c) && Distinct(sh.chains[SubPred(s)])
    ensures HomeOk(sh) && sh.Depth() > 0 && s in st.sobs
    ensures forall l :: l > sh.Depth() ==> IndCell(c, l) !in sh.home
  {
    hide UnderPart, SobPart, AllPart, OwnerOk, SobOk, Distinct, Path;
    assert ClauseOk(sh, Settled, c);
    s := SobAt(sh, c, sh.Depth());
    assert ClauseCell(c) in sh.chains[SubPred(s)] && KindOk(sh, SubPred(s), ClauseCell(c));
    k :| 0 <= k < |sh.chains[SubPred(s)]| && sh.chains[SubPred(s)][k] == ClauseCell(c);
    ChainDistinct(st, sh, SubPred(s));
    forall l: nat | IndCell(c, l) in sh.home ensures l <= sh.Depth() {
      var o := sh.home[IndCell(c, l)];
      assert IndCell(c, l) in sh.chains[o] && KindOk(sh, o, IndCell(c, l));
      SobPositive(st, sh, o.sob);
    }
  }

  lemma EmptyTree(st: Store, sh: Shape)
    requires st.sobs == map[] && st.heads == map[] && st.preds == map[Root := PredRec(Fail, Root, Root)]
    requires sh.index != [] && sh == Shape(sh.index, map[Root := []], map[], map[], map[Root := []])
    ensures Storage(st, sh) && Tree(st, sh, Settled, {}) && All(sh) == []
  {
    assert OwnerOk(st, sh, Root);
    assert UnderOk(sh, Settled, Root);
  }

  // ---- chains only lose cells ------------------------------------------------------

  ghost function Kept(xs: seq<Loc>, home: map<Loc, Loc>): seq<Loc> {
    if xs == [] then [] else (if xs[0] in home then [xs[0]] else []) + Kept(xs[1..], home)
  }

  /** Every chain left is the old one without the cells that went. */
  ghost predicate Shrunk(sh0: Shape, sh1: Shape) {
    && (forall x :: x in sh1.home ==> x in sh0.home && sh0.home[x] == sh1.home[x])
    && sh1.level == sh0.level
    && (forall o :: o in sh1.chains ==> o in sh0.chains && sh1.chains[o] == Kept(sh0.chains[o], sh1.home))
  }

  lemma KeptConcat(a: seq<Loc>, b: seq<Loc>, home: map<Loc, Loc>)
    ensures Kept(a + b, home) == Kept(a, home) + Kept(b, home)
  {
    if a == [] { assert a + b == b; } else { assert (a + b)[1..] == a[1..] + b; }
  }

  lemma KeptAll(xs: seq<Loc>, home: map<Loc, Loc>)
    requires forall x :: x in xs ==> x in home
    ensures Kept(xs, home) == xs
  {
    if xs != [] {
      KeptAll(xs[1..], home);
      assert xs == [xs[0]] + xs[1..] && xs[0] in xs;
    }
  }

  lemma KeptTwice(xs: seq<Loc>, h1: map<Loc, Loc>, h2: map<Loc, Loc>)
    requires forall x :: x in h2 ==> x in h1
    ensures Kept(Kept(xs, h1), h2) == Kept(xs, h2)
  {
    if xs != [] {
      KeptTwice(xs[1..], h1, h2);
      KeptConcat(if xs[0] in h1 then [xs[0]] else [], Kept(xs[1..], h1), h2);
      KeptOne(xs[0], h2);
    }
  }

  lemma KeptOne(x: Loc, h: map<Loc, Loc>)
    ensures Kept([x], h) == if x in h then [x] else []
  {
    assert [x][1..] == [];
  }

  lemma KeptDrop(xs: seq<Loc>, k: nat, home: map<Loc, Loc>)
    requires Distinct(xs) && k < |xs| && forall x :: x in xs ==> (x in home <==> x != xs[k])
    ensures Kept(xs, home) == Drop(xs, k)
  {
    hide Kept;
    forall x | x in xs[..k] ensures x in home { assert x in xs; }
    forall x | x in xs[k + 1..] ensures x in home { assert x in xs; }
    assert xs[k] in xs;
    assert xs == xs[..k] + ([xs[k]] + xs[k + 1..]);
    KeptConcat(xs[..k], [xs[k]] + xs[k + 1..], home);
    KeptConcat([xs[k]], xs[k + 1..], home);
    KeptOne(xs[k], home);
    KeptAll(xs[..k], home);
    KeptAll(xs[k + 1..], home);
  }

  lemma ShrunkSame(st: Store, sh: Shape, sh1: Shape)
    requires Storage(st, sh) && sh1.chains == sh.chains && sh1.home == sh.home && sh1.level == sh.level
    ensures Shrunk(sh, sh1)
  {
    hide OwnerOk, SobOk, KindOk, Kept;
    forall o | o in sh1.chains ensures sh1.chains[o] == Kept(sh.chains[o], sh1.home) { KeptAll(sh.chains[o], sh1.home); }
  }

  lemma ShrunkTrans(sh0: Shape, sh1: Shape, sh2: Shape)
    requires Shrunk(sh0, sh1) && Shrunk(sh1, sh2)
    ensures Shrunk(sh0, sh2)
  {
    hide Kept;
    forall o | o in sh2.chains ensures o in sh0.chains && sh2.chains[o] == Kept(sh0.chains[o], sh2.home) {
      KeptTwice(sh0.chains[o], sh1.home, sh2.home);
    }
  }

  lemma ShrunkUnlinked(st: Store, sh: Shape, sh1: Shape, o: Loc, k: nat)
    requires Storage(st, sh) && o in sh.chains && k < |sh.chains[o]|
    requires sh1.chains == Unlinked(sh, o, k).chains && sh1.home == Unlinked(sh, o, k).home && sh1.level == sh.level
    ensures Shrunk(sh, sh1)
  {
    hide OwnerOk, SobOk, KindOk, Kept, Distinct, Drop;
    ChainDistinct(st, sh, o);
    forall q | q in sh1.chains ensures sh1.chains[q] == Kept(sh.chains[q], sh1.home) {
      if q == o {
        KeptDrop(sh.chains[o], k, sh1.home);
      } else {
        OneOwner(st, sh, o, q, sh.chains[o][k]);
        KeptAll(sh.chains[q], sh1.home);
      }
    }
  }
}
