/** Register allocation of the assert compiler (XSB/emu/biassert.c, reg_init to
    reg_release_perm): a free list threaded through the status array itself. */
module Registers {

  const MAX_REGS: nat := 257
  /** Status of an allocated register: a real variable, an introduced one, or never free. */
  const RVAR: int := -1
  const TVAR: int := -2
  const NVAR: int := -3

  datatype Option<T> = None | Some(value: T)

  /** arr[x] is negative for an allocated register, the next free register for a free one,
      and zero for the free register above which every register is free. */
  datatype RegStat = RegStat(arr: seq<int>, free: int)

  datatype Got = Got(regs: RegStat, reg: nat)

  /** The free list of r, in order; its last element is where the untouched registers begin. */
  ghost predicate FreeList(r: RegStat, l: seq<nat>) {
    && |r.arr| == MAX_REGS && l != [] && l[0] == r.free && Links(r.arr, l) && Climbs(l)
    && (forall x: nat :: Taken(l, x) && x < |r.arr| ==> r.arr[x] < 0)
  }

  ghost predicate Links(arr: seq<int>, l: seq<nat>) {
    && l != [] && (forall i :: 0 <= i < |l| ==> 0 < l[i] < |arr|)
    && (forall i :: 0 <= i < |l| - 1 ==> arr[l[i]] == l[i + 1])
    && arr[l[|l| - 1]] == 0
  }

  ghost predicate Climbs(l: seq<nat>) {
    && l != [] && (forall i :: 0 <= i < |l| ==> l[i] <= l[|l| - 1])
    && (forall i, j :: 0 <= i < j < |l| ==> l[i] != l[j])
  }

  ghost predicate Taken(l: seq<nat>, x: nat) {
    l != [] && x < l[|l| - 1] && x !in l
  }

  function Get(r: RegStat, kind: int): (res: Option<Got>)
    requires 0 <= r.free < |r.arr| == MAX_REGS
  {
    if r.arr[r.free] == 0 then
      if r.free + 1 >= MAX_REGS then None
      else Some(Got(RegStat(r.arr[r.free + 1 := 0][r.free := kind], r.free + 1), r.free))
    else Some(Got(RegStat(r.arr[r.free := kind], r.arr[r.free]), r.free))
  }

  function Release(r: RegStat, x: nat, kind: int): RegStat
    requires x < |r.arr|
  {
    if r.arr[x] == kind then RegStat(r.arr[x := r.free], x) else r
  }

  ghost function AfterGet(l: seq<nat>): seq<nat>
    requires l != []
  {
    if |l| > 1 then l[1..] else [l[0] + 1]
  }

  /** A register is handed out exactly when one is left, and it is never one in use. */
  lemma GetIsFree(r: RegStat, l: seq<nat>, kind: int)
    requires FreeList(r, l) && kind < 0
    ensures 0 <= r.free < |r.arr|
    ensures Get(r, kind) == None <==> l == [MAX_REGS - 1]
    ensures Get(r, kind) != None ==>
      var got := Get(r, kind).value;
      && FreeList(got.regs, AfterGet(l)) && 0 < got.reg < MAX_REGS - 1 && !Taken(l, got.reg) && got.regs.arr[got.reg] == kind
      && (forall x: nat :: Taken(AfterGet(l), x) <==> Taken(l, x) || x == got.reg)
      && (forall x: nat :: Taken(l, x) ==> x < MAX_REGS && got.regs.arr[x] == r.arr[x])
  {
    hide FreeList, Links, Climbs, Taken;
    HeadFacts(r, l);
    if Get(r, kind) != None {
      var got := Get(r, kind).value;
      GetTaken(r, l);
      if |l| > 1 {
        ShorterLinks(r.arr, l, kind);
        ShorterClimbs(l);
      } else {
        NewEnd(r.arr, l, kind);
      }
      Gather(r, got.regs, l, AfterGet(l), l[0]);
    }
  }

  lemma HeadFacts(r: RegStat, l: seq<nat>)
    requires FreeList(r, l)
    ensures |r.arr| == MAX_REGS && l != [] && l[0] == r.free && 0 < r.free < MAX_REGS && Links(r.arr, l) && Climbs(l) && !Taken(l, l[0])
    ensures |l| == 1 <==> r.arr[r.free] == 0
    ensures |l| > 1 ==> r.arr[r.free] == l[1] && r.free < MAX_REGS - 1
  {
    assert l[0] in l;
    assert |l| > 1 ==> r.arr[l[0]] == l[0 + 1];
  }

  lemma GetTaken(r: RegStat, l: seq<nat>)
    requires Climbs(l)
    ensures forall x: nat :: Taken(AfterGet(l), x) <==> Taken(l, x) || x == l[0]
  {
    forall x: nat ensures Taken(AfterGet(l), x) <==> Taken(l, x) || x == l[0] {
      Tail(l, x);
      Tail(l, l[0]);
    }
  }

  lemma ShorterLinks(arr: seq<int>, l: seq<nat>, kind: int)
    requires Links(arr, l) && Climbs(l) && |l| > 1
    ensures Links(arr[l[0] := kind], l[1..])
  {
    var l1, arr1 := l[1..], arr[l[0] := kind];
    forall i | 0 <= i < |l1| ensures 0 < l1[i] < |arr| && arr1[l1[i]] == arr[l1[i]] { assert l1[i] == l[i + 1]; }
    forall i | 0 <= i < |l1| - 1 ensures arr1[l1[i]] == l1[i + 1] { assert arr[l[i + 1]] == l[i + 2]; }
  }

  lemma ShorterClimbs(l: seq<nat>)
    requires Climbs(l) && |l| > 1
    ensures Climbs(l[1..])
  {
  }

  lemma NewEnd(arr: seq<int>, l: seq<nat>, kind: int)
    requires Links(arr, l) && |l| == 1 && l[0] + 1 < |arr|
    ensures Links(arr[l[0] + 1 := 0][l[0] := kind], [l[0] + 1]) && Climbs([l[0] + 1])
  {
  }

  lemma Gather(r: RegStat, r1: RegStat, l: seq<nat>, l1: seq<nat>, y: nat)
    requires FreeList(r, l) && |r1.arr| == |r.arr| && y < |r.arr| && !Taken(l, y) && r1.arr[y] < 0
    requires Links(r1.arr, l1) && Climbs(l1) && l1[0] == r1.free
    requires forall x: nat :: Taken(l1, x) <==> Taken(l, x) || x == y
    requires |l| == 1 ==> y == l[0] && l1 == [y + 1]
    requires forall x: nat :: x < |r.arr| && x != y && !(|l| == 1 && x == y + 1) ==> r1.arr[x] == r.arr[x]
    ensures FreeList(r1, l1)
    ensures forall x: nat :: Taken(l, x) ==> x < MAX_REGS && r1.arr[x] == r.arr[x]
  {
    hide Climbs;
    forall x: nat | Taken(l, x) ensures x < MAX_REGS && r1.arr[x] == r.arr[x] { }
  }

  lemma Tail(l: seq<nat>, x: nat)
    requires l != []
    ensures x in l <==> x == l[0] || x in l[1..]
    ensures |l| > 1 && (forall i, j :: 0 <= i < j < |l| ==> l[i] != l[j]) ==> l[0] !in l[1..]
  {
    assert l == [l[0]] + l[1..];
  }

  /** A released register, and no other, becomes free. */
  lemma ReleaseFrees(r: RegStat, l: seq<nat>, x: nat, kind: int)
    requires FreeList(r, l) && Taken(l, x) && 0 < x
    ensures x < |r.arr|
    ensures var l1 := if r.arr[x] == kind then [x] + l else l;
      && FreeList(Release(r, x, kind), l1)
      && (forall y: nat :: Taken(l1, y) <==> Taken(l, y) && !(y == x && r.arr[x] == kind))
      && (forall y: nat :: Taken(l1, y) ==> y < MAX_REGS && Release(r, x, kind).arr[y] == r.arr[y])
  {
    hide FreeList, Links, Climbs, Taken;
    HeadFacts(r, l);
    TakenBelow(r, l);
    if r.arr[x] == kind {
      LongerClimbs(l, x);
      LongerLinks(r.arr, l, x);
      Given(r, l, x);
    }
  }

  lemma TakenBelow(r: RegStat, l: seq<nat>)
    requires FreeList(r, l)
    ensures forall y: nat :: Taken(l, y) ==> y < MAX_REGS
  {
  }

  lemma LongerLinks(arr: seq<int>, l: seq<nat>, x: nat)
    requires Links(arr, l) && 0 < x < |arr| && x !in l
    ensures Links(arr[x := l[0]], [x] + l)
  {
    var l1, arr1 := [x] + l, arr[x := l[0]];
    forall i | 0 <= i < |l1| - 1 ensures arr1[l1[i]] == l1[i + 1] {
      if i > 0 { assert l1[i] == l[i - 1] && l[i - 1] in l; }
    }
  }

  lemma LongerClimbs(l: seq<nat>, x: nat)
    requires Climbs(l) && Taken(l, x)
    ensures Climbs([x] + l) && x !in l
  {
  }

  lemma Given(r: RegStat, l: seq<nat>, x: nat)
    requires FreeList(r, l) && Taken(l, x) && x < |r.arr|
    requires Links(r.arr[x := l[0]], [x] + l) && Climbs([x] + l)
    ensures FreeList(RegStat(r.arr[x := r.free], x), [x] + l)
    ensures forall y: nat :: Taken([x] + l, y) <==> Taken(l, y) && y != x
  {
    hide Links, Climbs;
    assert ([x] + l)[|l|] == l[|l| - 1];
    forall y: nat ensures y in [x] + l <==> y == x || y in l { Tail([x] + l, y); assert ([x] + l)[1..] == l; }
  }

  // ---- the allocator -----------------------------------------------------------------

  class Allocator {
    const regArray: array<int>
    var freeReg: int

    ghost function State(): RegStat
      reads this, regArray
    {
      RegStat(regArray[..], freeReg)
    }

    /** reg_init: the registers of the arguments, and register 0, are never free. */
    constructor (size: nat)
      requires size + 1 < MAX_REGS
      ensures fresh(regArray)
      ensures FreeList(State(), [size + 1])
      ensures forall x: nat :: x <= size ==> Taken([size + 1], x) && State().arr[x] == NVAR
    {
      regArray := new int[MAX_REGS](_ => 0);
      freeReg := size + 1;
      new;
      var i := 0;
      while i < freeReg
        invariant 0 <= i <= freeReg == size + 1
        invariant forall x :: 0 <= x < i ==> regArray[x] == NVAR
      {
        regArray[i] := NVAR;
        i := i + 1;
      }
      regArray[freeReg] := 0;
    }

    /** reg_get; None is the error that there are too many registers. */
    method RegGet(kind: int) returns (reg: Option<nat>)
      requires 0 <= freeReg < regArray.Length == MAX_REGS
      modifies this, regArray
      ensures Get(old(State()), kind) == None <==> reg == None
      ensures reg != None ==> Got(State(), reg.value) == Get(old(State()), kind).value
    {
      var newReg := freeReg;
      if regArray[freeReg] == 0 {
        freeReg := freeReg + 1;
        if freeReg >= MAX_REGS {
          return None;
        }
        regArray[freeReg] := 0;
      } else {
        freeReg := regArray[freeReg];
      }
      regArray[newReg] := kind;
      reg := Some(newReg);
    }

    /** reg_release (for TVAR) and reg_release_perm (for RVAR). */
    method RegRelease(reg: nat, kind: int)
      requires reg < regArray.Length
      modifies this, regArray
      ensures State() == Release(old(State()), reg, kind)
    {
      if regArray[reg] == kind {
        regArray[reg] := freeReg;
        freeReg := reg;
      }
    }
  }
}
