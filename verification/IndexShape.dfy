/** Abstract shape of a predicate's index and the relation between that shape and the
    words stored in memory. */
module IndexShape {
  import opened Chains

  /** The outermost symbol of an argument: all that hash_val looks at. */
  datatype Sym = Var | Int(n: int) | Atom(addr: nat) | Nil | List | Str(psc: nat)

  const TwoTo64 := 0x1_0000_0000_0000_0000

  /** Address of the list functor, which hashes lists. */
  const ListPscPair: nat := 0x1000

  function ValToHash(s: Sym): nat
    requires !s.Var?
  {
    match s
    case Int(n) => n % TwoTo64
    case Atom(a) => a % TwoTo64
    case Nil => 0
    case List => ListPscPair % TwoTo64
    case Str(p) => p % TwoTo64
  }

  /** -1 when the argument cannot be hashed. */
  function HashVal(ind: nat, head: seq<Sym>, size: nat): int
    requires ind < |head| && size > 0
  {
    if head[ind].Var? then -1 else ValToHash(head[ind]) % size
  }

  /** The slot a clause goes to: variables go to slot 0 of a one-slot table. */
  function SlotOf(ind: nat, head: seq<Sym>, size: nat): (h: nat)
    requires ind < |head| && size > 0
    ensures h < size
  {
    if head[ind].Var? then 0 else ValToHash(head[ind]) % size
  }

  datatype PredOp = Fail | Jump
  datatype PredRec = PredRec(op: PredOp, first: Loc, last: Loc)

  /** An index record; failed says that its instruction is fail. A record that has been given back keeps its entry,
      marked failed, because failed records below it may still name it. */
  datatype SobRec = SobRec(arg: nat, size: nat, count: int, failed: bool)

  datatype Store = Store(
    cells: Mem, preds: map<Loc, PredRec>, slots: map<Loc, Loc>,
    sobs: map<nat, SobRec>, heads: map<nat, seq<Sym>>)

  /** index[l - 1] is the argument indexed at level l. */
  datatype Shape = Shape(
    index: seq<nat>,
    chains: map<Loc, seq<Loc>>,   // owner -> the cells of its chain, in order
    home: map<Loc, Loc>,          // chained cell -> owner
    level: map<nat, nat>,         // index record -> its level, 1 at the root
    under: map<Loc, seq<nat>>)    // owner -> clauses below it, in order
  {
    function Depth(): nat { |index| }
  }

  ghost predicate IsSob(sh: Shape, o: Loc) {
    o.Root? || (o.SubPred? && o.sob in sh.level && sh.level[o.sob] < sh.Depth())
  }

  ghost function Before(sh: Shape, o: Loc): Loc {
    if o.SubPred? && !IsSob(sh, o) then SobCell(o.sob) else o
  }

  ghost function After(sh: Shape, o: Loc): Loc {
    if o.Bucket? || (o.SubPred? && !IsSob(sh, o)) then SobCell(o.sob) else o
  }

  /** Which owners exist. */
  ghost predicate IsOwner(sobs: map<nat, SobRec>, o: Loc) {
    || o.Root?
    || (o.SubPred? && o.sob in sobs)
    || (o.Bucket? && o.sob in sobs && o.slot < sobs[o.sob].size)
  }

  ghost predicate AnchorOk(st: Store, o: Loc, xs: seq<Loc>) {
    if o.Bucket? then
      o in st.slots && st.slots[o] == if xs == [] then Dynfail else xs[0]
    else
      && o in st.preds
      && (st.preds[o].op == Fail <==> xs == [])
      && (xs != [] ==> st.preds[o].first == xs[0] && st.preds[o].last == xs[|xs| - 1])
  }

  ghost predicate OwnerOk(st: Store, sh: Shape, o: Loc)
    requires o in sh.chains
  {
    && IsChain(st.cells, sh.chains[o], IsSob(sh, o), Before(sh, o), After(sh, o))
    && AnchorOk(st, o, sh.chains[o])
  }

  /** What sort of cell may stand on the chain of an owner. */
  ghost predicate KindOk(sh: Shape, o: Loc, x: Loc) {
    match o
    case Root => x.SobCell? && x.sob in sh.level && sh.level[x.sob] == 1
    case SubPred(s) =>
      && s in sh.level
      && (if sh.level[s] < sh.Depth() then x.SobCell? && x.sob in sh.level && sh.level[x.sob] == sh.level[s] + 1
          else x.ClauseCell?)
    case Bucket(s, _) => x.IndCell? && s in sh.level && x.level == sh.level[s]
    case _ => false
  }

  ghost predicate HomeOk(sh: Shape) {
    && (forall o, x :: o in sh.chains && x in sh.chains[o] ==> x in sh.home && sh.home[x] == o && KindOk(sh, o, x))
    && (forall x :: x in sh.home ==> sh.home[x] in sh.chains && x in sh.chains[sh.home[x]])
  }

  /** Number of non-empty buckets among the first n of record s. */
  ghost function Nonempty(chains: map<Loc, seq<Loc>>, s: nat, n: nat): nat {
    if n == 0 then 0
    else Nonempty(chains, s, n - 1) + (if Bucket(s, n - 1) in chains && chains[Bucket(s, n - 1)] != [] then 1 else 0)
  }

  ghost predicate SobOk(st: Store, sh: Shape, s: nat)
    requires s in st.sobs
  {
    && s in sh.level && 1 <= sh.level[s] <= sh.Depth()
    && st.sobs[s].size > 0
    && st.sobs[s].arg == sh.index[sh.level[s] - 1]
    && st.sobs[s].count == Nonempty(sh.chains, s, st.sobs[s].size)
  }

  /** Memory holds exactly the chains of the shape. */
  ghost predicate Storage(st: Store, sh: Shape) {
    && sh.Depth() > 0
    && (forall o :: o in sh.chains <==> IsOwner(st.sobs, o))
    && (forall o :: o in sh.chains ==> OwnerOk(st, sh, o))
    && HomeOk(sh)
    && sh.level.Keys == st.sobs.Keys
    && (forall s :: s in st.sobs ==> SobOk(st, sh, s))
  }

  function Add<T>(az: bool, xs: seq<T>, x: T): seq<T> {
    if az then xs + [x] else [x] + xs
  }

  // ---- counting buckets ------------------------------------------------------------

  lemma NonemptyFrame(c0: map<Loc, seq<Loc>>, c1: map<Loc, seq<Loc>>, s: nat, n: nat)
    requires forall h :: 0 <= h < n ==>
      (Bucket(s, h) in c0 && c0[Bucket(s, h)] != []) == (Bucket(s, h) in c1 && c1[Bucket(s, h)] != [])
    ensures Nonempty(c0, s, n) == Nonempty(c1, s, n)
  {
  }

  lemma NonemptyUpdate(c: map<Loc, seq<Loc>>, s: nat, n: nat, h: nat, xs: seq<Loc>)
    requires h < n && Bucket(s, h) in c
    ensures Nonempty(c[Bucket(s, h) := xs], s, n) - (if xs != [] then 1 else 0)
         == Nonempty(c, s, n) - (if c[Bucket(s, h)] != [] then 1 else 0)
  {
    if h < n - 1 {
      NonemptyUpdate(c, s, n - 1, h, xs);
    } else {
      NonemptyFrame(c, c[Bucket(s, h) := xs], s, n - 1);
    }
  }

  lemma NonemptyZero(c: map<Loc, seq<Loc>>, s: nat, n: nat)
    ensures Nonempty(c, s, n) == 0 <==> forall h :: 0 <= h < n && Bucket(s, h) in c ==> c[Bucket(s, h)] == []
  {
    if n > 0 { NonemptyZero(c, s, n - 1); }
  }

  lemma OwnerChain(st: Store, sh: Shape, o: Loc)
    requires Storage(st, sh) && o in sh.chains
    ensures IsChain(st.cells, sh.chains[o], IsSob(sh, o), Before(sh, o), After(sh, o))
    ensures AnchorOk(st, o, sh.chains[o])
  {
    hide IsChain, AnchorOk, HomeOk, SobOk;
    assert OwnerOk(st, sh, o);
  }

  lemma OwnerCells(st: Store, sh: Shape, o: Loc)
    requires Storage(st, sh) && o in sh.chains
    ensures forall y :: y in sh.chains[o] ==> y in sh.home && sh.home[y] == o && y in st.cells && KindOk(sh, o, y)
  {
    hide IsChain, AnchorOk, SobOk, OwnerOk, KindOk, Storage, IsSob, Before, After;
    OwnerChain(st, sh, o);
    OwnerHome(st, sh, o);
    ChainAllocated(st.cells, sh.chains[o], IsSob(sh, o), Before(sh, o), After(sh, o));
  }

  lemma HomeOf(st: Store, sh: Shape)
    requires Storage(st, sh)
    ensures HomeOk(sh)
  {
  }

  lemma OwnerHome(st: Store, sh: Shape, o: Loc)
    requires Storage(st, sh) && o in sh.chains
    ensures forall y :: y in sh.chains[o] ==> y in sh.home && sh.home[y] == o && KindOk(sh, o, y)
  {
    hide IsChain, AnchorOk, SobOk, OwnerOk, KindOk, IsOwner;
  }

  lemma BucketFacts(st: Store, sh: Shape, s: nat, h: nat)
    requires Storage(st, sh) && Bucket(s, h) in sh.chains
    ensures s in st.sobs && s in sh.level && h < st.sobs[s].size
    ensures forall x :: x in sh.chains[Bucket(s, h)] ==> x.IndCell? && x.level == sh.level[s]
  {
    hide OwnerOk, SobOk;
    forall x | x in sh.chains[Bucket(s, h)] ensures x.IndCell? && x.level == sh.level[s] {
      assert KindOk(sh, Bucket(s, h), x);
    }
  }

  lemma ChainDistinct(st: Store, sh: Shape, o: Loc)
    requires Storage(st, sh) && o in sh.chains
    ensures Distinct(sh.chains[o])
  {
    assert OwnerOk(st, sh, o);
  }

  // ---- one chain changes, the others stay ------------------------------------------

  /** Shape after x has been put on the chain of o. */
  ghost function Linked(sh: Shape, o: Loc, az: bool, x: Loc): Shape
    requires o in sh.chains
  {
    sh.(chains := sh.chains[o := Add(az, sh.chains[o], x)], home := sh.home[x := o])
  }

  /** Shape after position k has been taken off the chain of o. */
  ghost function Unlinked(sh: Shape, o: Loc, k: nat): Shape
    requires o in sh.chains && k < |sh.chains[o]|
  {
    sh.(chains := sh.chains[o := Drop(sh.chains[o], k)], home := sh.home - {sh.chains[o][k]})
  }

  /** The only record whose bucket count may change is the one owning o. */
  ghost predicate SobsStep(sobs0: map<nat, SobRec>, sobs1: map<nat, SobRec>, o: Loc, delta: int) {
    && sobs1.Keys == sobs0.Keys
    && forall s :: s in sobs0 ==>
        sobs1[s] == if o.Bucket? && s == o.sob then sobs0[s].(count := sobs0[s].count + delta) else sobs0[s]
  }

  /** Only the anchors of owner o may differ. */
  ghost predicate OnlyOwner(st0: Store, st1: Store, o: Loc) {
    && (forall p :: p in st0.preds && p != o ==> p in st1.preds && st1.preds[p] == st0.preds[p])
    && (forall p :: p in st0.slots && p != o ==> p in st1.slots && st1.slots[p] == st0.slots[p])
  }

  lemma LinkHome(sh: Shape, o: Loc, az: bool, x: Loc)
    requires HomeOk(sh) && o in sh.chains && x !in sh.home && KindOk(sh, o, x)
    ensures HomeOk(Linked(sh, o, az, x))
  {
    var sh1 := Linked(sh, o, az, x);
    assert forall y :: y in sh1.chains[o] <==> y == x || y in sh.chains[o];
    forall p, y | p in sh1.chains && y in sh1.chains[p] ensures y in sh1.home && sh1.home[y] == p && KindOk(sh1, p, y) {
      if p == o && y == x {
      } else {
        assert y in sh.chains[p];
        assert KindOk(sh, p, y);
      }
    }
  }

  lemma UnlinkHome(sh: Shape, o: Loc, k: nat)
    requires HomeOk(sh) && o in sh.chains && k < |sh.chains[o]| && Distinct(sh.chains[o])
    ensures HomeOk(Unlinked(sh, o, k))
    ensures |Unlinked(sh, o, k).chains[o]| == |sh.chains[o]| - 1
  {
    var sh1 := Unlinked(sh, o, k);
    var x := sh.chains[o][k];
    DropMembers(sh.chains[o], k);
    forall p, y | p in sh1.chains && y in sh1.chains[p] ensures y in sh1.home && sh1.home[y] == p && KindOk(sh1, p, y) {
      assert y in sh.chains[p] && x in sh.chains[o];
      assert KindOk(sh, p, y);
    }
  }

  lemma ForeignCells(sh: Shape, o: Loc)
    requires HomeOk(sh) && o in sh.chains
    ensures forall y :: y in sh.home && sh.home[y] != o ==> y !in sh.chains[o]
  {
  }

  /** One owner's chain is replaced and memory agrees with it: everything else still holds. */
  lemma StepStorage(st0: Store, st1: Store, sh: Shape, sh1: Shape, o: Loc)
    requires Storage(st0, sh) && o in sh.chains
    requires sh1 == sh.(chains := sh1.chains, home := sh1.home)
    requires sh1.chains.Keys == sh.chains.Keys && HomeOk(sh1)
    requires forall p :: p in sh.chains && p != o ==> sh1.chains[p] == sh.chains[p]
    requires SobsStep(st0.sobs, st1.sobs, o,
      if !o.Bucket? || (sh1.chains[o] == [] <==> sh.chains[o] == []) then 0 else if sh1.chains[o] == [] then -1 else 1)
    requires OwnerOk(st1, sh1, o)
    requires forall y :: y in st0.cells && y in sh.home && sh.home[y] != o ==> y in st1.cells && st1.cells[y] == st0.cells[y]
    requires OnlyOwner(st0, st1, o)
    ensures Storage(st1, sh1)
  {
    hide CellOk, IsChain, Nonempty, KindOk, AnchorOk, OwnerOk, SobOk, SobsStep;
    StepOwners(st0, st1, sh, sh1, o);
    StepSobs(st0, st1, sh, sh1, o);
    assert SobsStep(st0.sobs, st1.sobs, o, 0) || SobsStep(st0.sobs, st1.sobs, o, 1) || SobsStep(st0.sobs, st1.sobs, o, -1);
    SobsStepOwners(st0.sobs, st1.sobs, o);
  }

  lemma SobsStepOwners(sobs0: map<nat, SobRec>, sobs1: map<nat, SobRec>, o: Loc)
    requires SobsStep(sobs0, sobs1, o, 0) || SobsStep(sobs0, sobs1, o, 1) || SobsStep(sobs0, sobs1, o, -1)
    ensures sobs0.Keys == sobs1.Keys
    ensures forall p :: IsOwner(sobs0, p) <==> IsOwner(sobs1, p)
  {
  }

  lemma StepOwners(st0: Store, st1: Store, sh: Shape, sh1: Shape, o: Loc)
    requires Storage(st0, sh) && o in sh.chains
    requires sh1 == sh.(chains := sh1.chains, home := sh1.home)
    requires sh1.chains.Keys == sh.chains.Keys
    requires forall p :: p in sh.chains && p != o ==> sh1.chains[p] == sh.chains[p]
    requires OwnerOk(st1, sh1, o)
    requires forall y :: y in st0.cells && y in sh.home && sh.home[y] != o ==> y in st1.cells && st1.cells[y] == st0.cells[y]
    requires OnlyOwner(st0, st1, o)
    ensures forall p :: p in sh1.chains ==> OwnerOk(st1, sh1, p)
  {
    hide CellOk, IsChain, Nonempty, KindOk, AnchorOk, OwnerOk, SobOk;
    forall p | p in sh1.chains ensures OwnerOk(st1, sh1, p) {
      if p != o {
        forall y | y in sh.chains[p] ensures y in sh.home && sh.home[y] == p { }
        OtherOwner(st0, st1, sh, sh1, p);
      }
    }
  }

  lemma StepSobs(st0: Store, st1: Store, sh: Shape, sh1: Shape, o: Loc)
    requires o in sh.chains && o in sh1.chains && IsOwner(st0.sobs, o) && sh1.chains == sh.chains[o := sh1.chains[o]]
    requires sh1.index == sh.index && sh1.level == sh.level
    requires forall s :: s in st0.sobs ==> SobOk(st0, sh, s)
    requires SobsStep(st0.sobs, st1.sobs, o,
      if !o.Bucket? || (sh1.chains[o] == [] <==> sh.chains[o] == []) then 0 else if sh1.chains[o] == [] then -1 else 1)
    ensures forall s :: s in st1.sobs ==> SobOk(st1, sh1, s)
  {
    forall s | s in st1.sobs ensures SobOk(st1, sh1, s) {
      assert SobOk(st0, sh, s);
      CountStep(st0, st1, sh, o, sh1.chains[o], s);
    }
  }

  lemma LinkedIs(sh: Shape, o: Loc, az: bool, x: Loc)
    requires o in sh.chains
    ensures var sh1 := Linked(sh, o, az, x);
      && sh1 == sh.(chains := sh1.chains, home := sh1.home) && sh1.chains.Keys == sh.chains.Keys && sh1.chains[o] != []
      && forall p :: p in sh.chains && p != o ==> sh1.chains[p] == sh.chains[p]
  {
  }

  lemma ForeignKept(m0: Mem, m1: Mem, sh: Shape, o: Loc, x: Loc)
    requires HomeOk(sh) && o in sh.chains && x !in sh.home && Untouched(m0, m1, sh.chains[o], x)
    ensures forall y :: y in m0 && y in sh.home && sh.home[y] != o ==> y in m1 && m1[y] == m0[y]
  {
    hide HomeOk, KindOk;
    ForeignCells(sh, o);
  }

  lemma LinkStorage(st0: Store, st1: Store, sh: Shape, o: Loc, az: bool, x: Loc)
    requires Storage(st0, sh) && o in sh.chains && x !in sh.home && KindOk(sh, o, x)
    requires SobsStep(st0.sobs, st1.sobs, o, if o.Bucket? && sh.chains[o] == [] then 1 else 0)
    requires OwnerOk(st1, Linked(sh, o, az, x), o)
    requires Untouched(st0.cells, st1.cells, sh.chains[o], x) && OnlyOwner(st0, st1, o)
    ensures Storage(st1, Linked(sh, o, az, x))
  {
    hide CellOk, IsChain, Nonempty, KindOk, AnchorOk, OwnerOk, HomeOk, Storage, Untouched, OnlyOwner, SobsStep, Linked;
    HomeOf(st0, sh);
    LinkedIs(sh, o, az, x);
    ForeignKept(st0.cells, st1.cells, sh, o, x);
    LinkHome(sh, o, az, x);
    StepStorage(st0, st1, sh, Linked(sh, o, az, x), o);
  }

  /** The words of one chain have been rewritten to carry x as well. */
  lemma LinkWords(st0: Store, st1: Store, sh: Shape, o: Loc, az: bool, x: Loc)
    requires Storage(st0, sh) && o in sh.chains && x !in sh.home && KindOk(sh, o, x)
    requires IsChain(st1.cells, Add(az, sh.chains[o], x), IsSob(sh, o), Before(sh, o), After(sh, o))
    requires AnchorOk(st1, o, Add(az, sh.chains[o], x))
    requires SobsStep(st0.sobs, st1.sobs, o, if o.Bucket? && sh.chains[o] == [] then 1 else 0)
    requires Untouched(st0.cells, st1.cells, sh.chains[o], x) && OnlyOwner(st0, st1, o)
    ensures Storage(st1, Linked(sh, o, az, x))
  {
    assert OwnerOk(st1, Linked(sh, o, az, x), o);
    hide Storage, IsChain, AnchorOk, OwnerOk, SobsStep, KindOk, Untouched, OnlyOwner;
    LinkStorage(st0, st1, sh, o, az, x);
  }

  lemma UnlinkStorage(st0: Store, st1: Store, sh: Shape, o: Loc, k: nat)
    requires Storage(st0, sh) && o in sh.chains && k < |sh.chains[o]|
    requires SobsStep(st0.sobs, st1.sobs, o, if o.Bucket? && |sh.chains[o]| == 1 then -1 else 0)
    requires OwnerOk(st1, Unlinked(sh, o, k), o)
    requires Untouched(st0.cells, st1.cells, sh.chains[o], sh.chains[o][k]) && OnlyOwner(st0, st1, o)
    ensures Storage(st1, Unlinked(sh, o, k))
  {
    ChainDistinct(st0, sh, o);
    assert HomeOk(sh);
    hide CellOk, IsChain, Nonempty, KindOk, AnchorOk, OwnerOk, HomeOk, Drop, Storage;
    UnlinkHome(sh, o, k);
    ForeignCells(sh, o);
    StepStorage(st0, st1, sh, Unlinked(sh, o, k), o);
  }

  lemma OtherOwner(st0: Store, st1: Store, sh: Shape, sh1: Shape, p: Loc)
    requires p in sh.chains && OwnerOk(st0, sh, p) && HomeOk(sh)
    requires p in sh1.chains && sh1.chains[p] == sh.chains[p] && sh1.index == sh.index
    requires p.SubPred? ==> IsSob(sh1, p) == IsSob(sh, p)
    requires forall y :: y in sh.chains[p] && y in st0.cells ==> y in st1.cells && st1.cells[y] == st0.cells[y]
    requires p in st0.preds ==> p in st1.preds && st1.preds[p] == st0.preds[p]
    requires p in st0.slots ==> p in st1.slots && st1.slots[p] == st0.slots[p]
    ensures OwnerOk(st1, sh1, p)
  {
    var xs := sh.chains[p];
    forall y | y in xs ensures y in st0.cells {
      var i :| 0 <= i < |xs| && xs[i] == y;
      assert CellOk(st0.cells, xs, IsSob(sh, p), Before(sh, p), After(sh, p), i);
    }
    ChainFrame(st0.cells, st1.cells, xs, IsSob(sh, p), Before(sh, p), After(sh, p));
  }

  lemma CountStep(st0: Store, st1: Store, sh: Shape, o: Loc, xs: seq<Loc>, s: nat)
    requires s in st0.sobs && o in sh.chains && IsOwner(st0.sobs, o)
    requires SobsStep(st0.sobs, st1.sobs, o,
      if !o.Bucket? || (xs == [] <==> sh.chains[o] == []) then 0 else if xs == [] then -1 else 1)
    requires st0.sobs[s].count == Nonempty(sh.chains, s, st0.sobs[s].size)
    ensures st1.sobs[s].count == Nonempty(sh.chains[o := xs], s, st1.sobs[s].size)
  {
    if o.Bucket? && o.sob == s {
      NonemptyUpdate(sh.chains, s, st0.sobs[s].size, o.slot, xs);
    } else {
      NonemptyFrame(sh.chains, sh.chains[o := xs], s, st0.sobs[s].size);
    }
  }

  /** The words of one chain have been rewritten to bypass its cell k. */
  lemma UnlinkWords(st0: Store, st1: Store, sh: Shape, o: Loc, k: nat)
    requires Storage(st0, sh) && o in sh.chains && k < |sh.chains[o]|
    requires IsChain(st1.cells, Drop(sh.chains[o], k), IsSob(sh, o), Before(sh, o), After(sh, o))
    requires AnchorOk(st1, o, Drop(sh.chains[o], k))
    requires SobsStep(st0.sobs, st1.sobs, o, if o.Bucket? && |sh.chains[o]| == 1 then -1 else 0)
    requires Untouched(st0.cells, st1.cells, sh.chains[o], sh.chains[o][k]) && OnlyOwner(st0, st1, o)
    ensures Storage(st1, Unlinked(sh, o, k))
  {
    hide Storage, IsChain, AnchorOk, SobsStep, KindOk, Untouched, OnlyOwner, Drop;
    assert OwnerOk(st1, Unlinked(sh, o, k), o);
    UnlinkStorage(st0, st1, sh, o, k);
  }
}
