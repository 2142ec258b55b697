/** What an index leaves out: which clauses a call with a bound argument finds. */
module IndexSelect {
  import opened Chains
  import opened IndexShape
  import opened IndexTree
  import opened IndexOrder

  /** w is the 64 bit word by which the symbol is found. */
  predicate Stands(x: Sym, w: int) {
    0 <= w < 0x1_0000_0000_0000_0000 &&
    match x
    case Var => false
    case Int(n) => (w - n) % 0x1_0000_0000_0000_0000 == 0
    case Atom(a) => w == a
    case Nil => w == 0
    case List => w == 0x1000   // where the list functor is
    case Str(p) => w == p
  }

  /** The two words leave the same remainder. */
  predicate Congruent(a: int, b: int, z: nat)
    requires z > 0
  {
    (a - b) % z == 0
  }

  /** The argument by which the call selects, and that of clause c. */
  ghost function KeySym(sh: Shape, key: Key): Sym
    requires KeyOk(sh.index, key) && Usable(sh.index, key, 0) > 0
  {
    key.args[sh.index[Usable(sh.index, key, 0) - 1]]
  }

  ghost function ClauseSym(st: Store, sh: Shape, key: Key, c: nat): Sym
    requires KeyOk(sh.index, key) && Usable(sh.index, key, 0) > 0 && c in st.heads && HeadOk(sh.index, st.heads[c])
  {
    st.heads[c][sh.index[Usable(sh.index, key, 0) - 1]]
  }

  /** The size of the table that clause c is in. */
  ghost function TableOf(st: Store, sh: Shape, key: Key, c: nat): nat
    requires KeyOk(sh.index, key)
  {
    var s := SobAt(sh, c, Usable(sh.index, key, 0));
    if s in st.sobs then st.sobs[s].size else 0
  }

  /** Clause c is among those that the call enumerates. */
  ghost predicate Selected(st: Store, sh: Shape, key: Key, c: nat)
    requires KeyOk(sh.index, key)
  {
    c in Cands(st, sh, key, Usable(sh.index, key, 0), All(sh))
  }

  /** A clause is enumerated exactly when its argument is a variable or its word leaves the same remainder as that of the
      call's argument when divided by the size of the clause's table. */
  lemma SelectedExactly(st: Store, sh: Shape, key: Key, c: nat)
    requires Storage(st, sh) && Tree(st, sh, Settled, {}) && KeyOk(sh.index, key) && Usable(sh.index, key, 0) > 0 && c in st.heads
    ensures HeadOk(sh.index, st.heads[c]) && TableOf(st, sh, key, c) > 0
    ensures ClauseSym(st, sh, key, c).Var? ==> Selected(st, sh, key, c) && TableOf(st, sh, key, c) == 1
    ensures forall w, u :: Stands(KeySym(sh, key), w) && Stands(ClauseSym(st, sh, key, c), u) ==>
      (Selected(st, sh, key, c) <==> Congruent(w, u, TableOf(st, sh, key, c)))
  {
    hide Storage, Tree, Cands, All, SlotOf, Stands, Congruent, HeadOk, Usable;
    var l := Usable(sh.index, key, 0);
    ClauseHead(st, sh, c);
    LevelSlot(st, sh, c, l);
    SelectedIs(st, sh, key, c, l);
    var x, y, z := KeySym(sh, key), ClauseSym(st, sh, key, c), TableOf(st, sh, key, c);
    BoundKey(sh.index, key);
    SlotVar(sh.index[l - 1], st.heads[c], z);
    forall w, u | Stands(x, w) && Stands(y, u) ensures Selected(st, sh, key, c) <==> Congruent(w, u, z) {
      SlotIs(sh.index[l - 1], key.args, z, w);
      SlotIs(sh.index[l - 1], st.heads[c], z, u);
      SameRemainder(w, u, z);
    }
  }

  lemma BoundKey(index: seq<nat>, key: Key)
    requires KeyOk(index, key) && Usable(index, key, 0) > 0
    ensures key.Head? && index[Usable(index, key, 0) - 1] < |key.args| && !key.args[index[Usable(index, key, 0) - 1]].Var?
  {
  }

  lemma ClauseHead(st: Store, sh: Shape, c: nat)
    requires Tree(st, sh, Settled, {}) && c in st.heads
    ensures HeadOk(sh.index, st.heads[c]) && c in All(sh)
  {
    hide UnderPart, SobPart, FullPart, HeadOk, ClauseOk;
  }

  lemma SelectedIs(st: Store, sh: Shape, key: Key, c: nat, l: nat)
    requires Storage(st, sh) && Tree(st, sh, Settled, {}) && KeyOk(sh.index, key) && l == Usable(sh.index, key, 0) > 0 && c in st.heads
    requires HeadOk(sh.index, st.heads[c]) && SobAt(sh, c, l) in st.sobs && st.sobs[SobAt(sh, c, l)].size > 0
    ensures key.Head? && sh.index[l - 1] < |key.args|
    ensures Selected(st, sh, key, c) <==>
      SlotOf(sh.index[l - 1], st.heads[c], st.sobs[SobAt(sh, c, l)].size) == SlotOf(sh.index[l - 1], key.args, st.sobs[SobAt(sh, c, l)].size)
  {
    hide Storage, Tree, Cands, SlotOf, SobAt;
    ClauseHead(st, sh, c);
    CandsMembers(st, sh, key, l, All(sh));
  }

  lemma {:induction false} CandsMembers(st: Store, sh: Shape, key: Key, l: nat, cs: seq<nat>)
    ensures forall d :: d in Cands(st, sh, key, l, cs) <==> d in cs && Matches(st, sh, key, l, d)
  {
    hide Matches;
    if cs != [] {
      CandsMembers(st, sh, key, l, cs[1..]);
      assert cs == [cs[0]] + cs[1..];
    }
  }

  lemma SlotVar(ind: nat, head: seq<Sym>, z: nat)
    requires ind < |head| && z > 0
    ensures z == 1 ==> SlotOf(ind, head, z) == 0
  {
  }

  /** The slot of a symbol is the remainder of its word. */
  lemma SlotIs(ind: nat, head: seq<Sym>, z: nat, w: int)
    requires ind < |head| && z > 0 && Stands(head[ind], w)
    ensures SlotOf(ind, head, z) == w % z
  {
    match head[ind] {
      case Int(n) => WordOf(w, n);
      case _ =>
    }
  }

  lemma WordOf(w: int, n: int)
    requires 0 <= w < 0x1_0000_0000_0000_0000 && (w - n) % 0x1_0000_0000_0000_0000 == 0
    ensures n % 0x1_0000_0000_0000_0000 == w
  {
  }

  lemma SameRemainder(a: int, b: int, z: nat)
    requires z > 0
    ensures a % z == b % z <==> Congruent(a, b, z)
  {
    Distributes(z, a / z, b / z);
    if a % z == b % z {
      RemainderUnique(a - b, z, a / z - b / z, 0);
    }
    if Congruent(a, b, z) {
      var r := (a - b) / z;
      assert a - b == z * r;
      Distributes(z, a / z, r);
      RemainderUnique(b, z, a / z - r, a % z);
    }
  }

  lemma Distributes(z: int, p: int, q: int)
    ensures z * (p - q) == z * p - z * q
  {
  }

  lemma RemainderUnique(a: int, z: int, q: int, r: int)
    requires z > 0 && a == z * q + r && 0 <= r < z
    ensures a % z == r
  {
    Distributes(z, q, a / z);
    SmallMultiple(z, q - a / z, a % z - r);
  }

  /** No multiple but 0 is between -z and z. */
  lemma SmallMultiple(z: int, k: int, d: int)
    requires z > 0 && -z < d < z && d == z * k
    ensures d == 0
  {
    if k >= 1 { AtLeast(z, k); }
    if k <= -1 {
      AtLeast(z, -k);
      Distributes(z, 0, k);
    }
  }

  lemma AtLeast(z: int, k: int)
    requires z > 0 && k >= 1
    ensures z * k >= z
  {
  }

  lemma SmallCongruent(a: int, b: int, z: nat)
    requires 0 <= a < z && 0 <= b < z
    ensures Congruent(a, b, z) <==> a == b
  {
    SameRemainder(a, b, z);
  }

  /** Integers: two of them between 0 and the size of the table never meet, and [] meets 0. */
  lemma SelectedIntegers(st: Store, sh: Shape, key: Key, c: nat, k: int)
    requires Storage(st, sh) && Tree(st, sh, Settled, {}) && KeyOk(sh.index, key) && Usable(sh.index, key, 0) > 0 && c in st.heads
    requires HeadOk(sh.index, st.heads[c]) && KeySym(sh, key) == Int(k) && 0 <= k < 0x1_0000_0000_0000_0000
    ensures var y, z := ClauseSym(st, sh, key, c), TableOf(st, sh, key, c);
      && z > 0
      && (y.Int? && 0 <= y.n < 0x1_0000_0000_0000_0000 ==> (Selected(st, sh, key, c) <==> Congruent(k, y.n, z)))
      && (y.Int? && 0 <= y.n < z < 0x1_0000_0000_0000_0000 && k < z ==> (Selected(st, sh, key, c) <==> k == y.n))
      && (y.Nil? ==> (Selected(st, sh, key, c) <==> Congruent(k, 0, z))) && (y.Nil? && k == 0 ==> Selected(st, sh, key, c))
  {
    hide Storage, Tree, Selected, KeySym, ClauseSym, TableOf, Stands, Congruent, Usable, HeadOk;
    SelectedExactly(st, sh, key, c);
    var y, z := ClauseSym(st, sh, key, c), TableOf(st, sh, key, c);
    IntStands(k);
    if y.Int? && 0 <= y.n < 0x1_0000_0000_0000_0000 {
      IntStands(y.n);
      if y.n < z && k < z { SmallCongruent(k, y.n, z); }
    }
    if y.Nil? { NilStands(k, z); }
  }

  lemma IntStands(n: int)
    requires 0 <= n < 0x1_0000_0000_0000_0000
    ensures Stands(Int(n), n)
  {
  }

  lemma NilStands(k: int, z: nat)
    ensures Stands(Nil, 0) && (k == 0 && z > 0 ==> Congruent(k, 0, z))
  {
  }
}
