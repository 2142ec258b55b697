/** Which registers a half compiled clause head depends on, and why none of them is ever
    handed out again. */
module HeadRegisters {
  import opened Registers
  import opened HeadCode

  /** Registers of variables and of items are in use; an introduced one belongs to one item only. */
  ghost predicate Live(r: RegStat, l: seq<nat>, env: map<nat, nat>, items: seq<Item>) {
    && FreeList(r, l)
    && (forall v: nat :: v in env ==> Holder(r, l, env[v]) && r.arr[env[v]] != TVAR)
    && (forall i :: 0 <= i < |items| ==> Holder(r, l, items[i].reg))
    && (forall i, j :: 0 <= i < |items| && 0 <= j < |items| && i != j && items[i].reg == items[j].reg ==> !Introduced(r, items[i].reg))
  }

  ghost predicate Holder(r: RegStat, l: seq<nat>, x: nat) {
    0 < x < MAX_REGS == |r.arr| && Taken(l, x)
  }

  predicate Introduced(r: RegStat, x: nat) {
    x < |r.arr| && r.arr[x] == TVAR
  }

  lemma LiveSizes(r: RegStat, l: seq<nat>, env: map<nat, nat>, items: seq<Item>)
    requires Live(r, l, env, items)
    ensures |r.arr| == MAX_REGS && 0 <= r.free < MAX_REGS && l != [] && FreeList(r, l)
  {
    hide Holder, Introduced, Taken;
    HeadFacts(r, l);
  }

  /** What is used stays as it is. */
  lemma LiveCarry(r: RegStat, l: seq<nat>, r1: RegStat, l1: seq<nat>, env: map<nat, nat>, items: seq<Item>)
    requires Live(r, l, env, items) && FreeList(r1, l1) && |r1.arr| == |r.arr|
    requires forall x: nat :: Used(Goal(env, items, []), x) && Holder(r, l, x) ==> Holder(r1, l1, x) && x < |r.arr| && r1.arr[x] == r.arr[x]
    ensures Live(r1, l1, env, items)
  {
    hide FreeList, Taken;
    forall v: nat | v in env ensures Holder(r1, l1, env[v]) && r1.arr[env[v]] != TVAR { assert Used(Goal(env, items, []), env[v]); }
    forall i | 0 <= i < |items| ensures Holder(r1, l1, items[i].reg) && r1.arr[items[i].reg] == r.arr[items[i].reg] {
      assert Used(Goal(env, items, []), items[i].reg);
    }
  }

  lemma UsedHeld(r: RegStat, l: seq<nat>, env: map<nat, nat>, items: seq<Item>, block: seq<Term>, x: nat)
    requires Live(r, l, env, items) && Used(Goal(env, items, block), x)
    ensures Holder(r, l, x) && Taken(l, x)
  {
    hide FreeList, Taken;
  }

  /** A register that is handed out is not one the head depends on, whatever its kind. */
  lemma LiveGet(r: RegStat, l: seq<nat>, env: map<nat, nat>, items: seq<Item>, block: seq<Term>, kind: int)
    requires Live(r, l, env, items) && kind < 0
    ensures l != [] && |r.arr| == MAX_REGS && 0 <= r.free < MAX_REGS
    ensures Get(r, kind) != None ==> var got := Get(r, kind).value;
      (Live(got.regs, AfterGet(l), env, items) && !Used(Goal(env, items, block), got.reg) && Holder(got.regs, AfterGet(l), got.reg)
      && got.reg < MAX_REGS - 1 && got.regs.arr[got.reg] == kind)
  {
    hide FreeList, Taken, Get, Live, Used;
    LiveSizes(r, l, env, items);
    GetIsFree(r, l, kind);
    if Get(r, kind) != None {
      var got := Get(r, kind).value;
      HeadFacts(got.regs, AfterGet(l));
      LiveCarry(r, l, got.regs, AfterGet(l), env, items);
      if Used(Goal(env, items, block), got.reg) { UsedHeld(r, l, env, items, block, got.reg); }
    }
  }

  lemma LiveFreeze(r: RegStat, l: seq<nat>, env: map<nat, nat>, items: seq<Item>, v: nat, x: nat)
    requires Live(r, l, env, items) && Holder(r, l, x) && !Introduced(r, x)
    ensures Live(r, l, env[v := x], items)
  {
    hide FreeList, Taken;
  }

  lemma LiveAdd(r: RegStat, l: seq<nat>, env: map<nat, nat>, items: seq<Item>, t: Term, x: nat)
    requires Live(r, l, env, items) && Holder(r, l, x) && !Used(Goal(env, items, []), x)
    ensures Live(r, l, env, [Item(x, t)] + items)
  {
    hide FreeList, Taken, Holder, Introduced;
    var items1 := [Item(x, t)] + items;
    forall i | 0 <= i < |items1| ensures items1[i] == if i == 0 then Item(x, t) else items[i - 1] { }
  }

  lemma LiveDrop(r: RegStat, l: seq<nat>, env: map<nat, nat>, items: seq<Item>, k: nat)
    requires Live(r, l, env, items) && k < |items|
    ensures Live(r, l, env, Dropped(items, k)) && Holder(r, l, items[k].reg)
    ensures Introduced(r, items[k].reg) ==> !Used(Goal(env, Dropped(items, k), []), items[k].reg)
  {
    hide FreeList, Taken, Holder;
    var rest := Dropped(items, k);
    forall i | 0 <= i < |rest| ensures rest[i] == items[if i < k then i else i + 1] { }
  }

  lemma UsedBlock(g: Goal, block: seq<Term>, x: nat)
    ensures Used(g, x) <==> Used(g.(block := block), x)
  {
  }

  /** An introduced register that nothing depends on any more may be given back. */
  lemma LiveRelease(r: RegStat, l: seq<nat>, env: map<nat, nat>, items: seq<Item>, x: nat) returns (l1: seq<nat>)
    requires Live(r, l, env, items) && Holder(r, l, x)
    requires Introduced(r, x) ==> !Used(Goal(env, items, []), x)
    ensures x < |r.arr| && Live(Release(r, x, TVAR), l1, env, items) && l1 == if Introduced(r, x) then [x] + l else l
  {
    hide FreeList, Taken, Live, Used, Release;
    LiveSizes(r, l, env, items);
    ReleaseFrees(r, l, x, TVAR);
    TakenBelow(r, l);
    l1 := if r.arr[x] == TVAR then [x] + l else l;
    var r1 := Release(r, x, TVAR);
    HeadFacts(r1, l1);
    forall y: nat | Used(Goal(env, items, []), y) && Holder(r, l, y) ensures Holder(r1, l1, y) && y < |r.arr| && r1.arr[y] == r.arr[y] { }
    LiveCarry(r, l, r1, l1, env, items);
  }

  /** The registers of the arguments are never free. */
  ghost predicate ArgsFixed(r: RegStat, l: seq<nat>, argc: nat) {
    forall x: nat :: 0 < x <= argc ==> Holder(r, l, x) && x < |r.arr| && r.arr[x] == NVAR
  }

  lemma ArgsFixedGet(r: RegStat, l: seq<nat>, argc: nat, kind: int)
    requires FreeList(r, l) && ArgsFixed(r, l, argc) && kind < 0
    ensures |r.arr| == MAX_REGS && l != [] && 0 <= r.free < MAX_REGS
    ensures Get(r, kind) != None ==> ArgsFixed(Get(r, kind).value.regs, AfterGet(l), argc) && Get(r, kind).value.reg > argc
  {
    hide FreeList, Taken, Get;
    GetIsFree(r, l, kind);
    HeadFacts(r, l);
    if Get(r, kind) != None {
      var got := Get(r, kind).value;
      HeadFacts(got.regs, AfterGet(l));
      NotHeld(r, l, argc, got.reg);
      forall y: nat | 0 < y <= argc ensures Holder(got.regs, AfterGet(l), y) && y < |got.regs.arr| && got.regs.arr[y] == NVAR {
        assert Holder(r, l, y) && Taken(l, y);
      }
    }
  }

  lemma NotHeld(r: RegStat, l: seq<nat>, argc: nat, x: nat)
    requires ArgsFixed(r, l, argc) && !Taken(l, x) && 0 < x
    ensures x > argc
  {
    hide Taken;
    assert 0 < x <= argc ==> Holder(r, l, x);
  }

  lemma ArgsFixedRelease(r: RegStat, l: seq<nat>, argc: nat, x: nat, l1: seq<nat>)
    requires FreeList(r, l) && ArgsFixed(r, l, argc) && Holder(r, l, x)
    requires l1 == if Introduced(r, x) then [x] + l else l
    ensures x < |r.arr| && ArgsFixed(Release(r, x, TVAR), l1, argc)
  {
    hide FreeList, Taken, Release;
    ReleaseFrees(r, l, x, TVAR);
    var r1 := Release(r, x, TVAR);
    HeadFacts(r, l);
    ReleaseSize(r, x);
    forall y: nat | 0 < y <= argc ensures Holder(r1, l1, y) && y < |r1.arr| && r1.arr[y] == NVAR {
      assert Holder(r, l, y);
      assert Taken(l1, y);
    }
  }

  lemma ReleaseSize(r: RegStat, x: nat)
    requires x < |r.arr|
    ensures |Release(r, x, TVAR).arr| == |r.arr|
  {
  }

  // ---- the order of the items does not matter ------------------------------------------------

  function Turned(items: seq<Item>, n: nat, k: nat): seq<Item>
    requires k <= n <= |items|
  {
    items[k..n] + items[..k] + items[n..]
  }

  lemma TurnedAt(items: seq<Item>, n: nat, k: nat, i: nat)
    requires k <= n <= |items| && i < |items|
    ensures |Turned(items, n, k)| == |items|
    ensures Turned(items, n, k)[i] == items[if i < n - k then i + k else if i < n then i - (n - k) else i]
  {
  }

  lemma TurnedHolds(regs: RegFile, items: seq<Item>, n: nat, k: nat, s: Subst)
    requires k <= n <= |items|
    ensures ItemsHold(regs, Turned(items, n, k), s) <==> ItemsHold(regs, items, s)
  {
    var items1 := Turned(items, n, k);
    forall i | 0 <= i < |items| ensures items1[i] == items[if i < n - k then i + k else if i < n then i - (n - k) else i] { TurnedAt(items, n, k, i); }
    forall i | 0 <= i < |items| ensures items[i] == items1[if i < k then i + (n - k) else if i < n then i - k else i] { }
  }

  lemma LiveTurned(r: RegStat, l: seq<nat>, env: map<nat, nat>, items: seq<Item>, n: nat, k: nat)
    requires Live(r, l, env, items) && k <= n <= |items|
    ensures Live(r, l, env, Turned(items, n, k))
  {
    hide FreeList, Taken, Holder;
    var items1 := Turned(items, n, k);
    forall i | 0 <= i < |items| ensures items1[i] == items[if i < n - k then i + k else if i < n then i - (n - k) else i] { TurnedAt(items, n, k, i); }
  }
}
