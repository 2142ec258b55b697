/** The compiler of clause heads (XSB/emu/biassert.c, db_gentopinst, db_genterms and
    db_geninst with unibld set): get and uni instructions for the arguments of a head. */
module HeadCompiler {
  import opened Registers
  import opened InstQueue
  import opened HeadCode
  import opened HeadRegisters

  // ---- from one state of the compilation to another ------------------------------------------

  ghost predicate StepsAt(code0: seq<Ins>, g0: Goal, code1: seq<Ins>, g1: Goal, m: Machine, s: Subst) {
    Aligned(Exec(m, code0), g0) ==>
      Aligned(Exec(m, code1), g1) && (Holds(Exec(m, code0), g0, s) <==> Holds(Exec(m, code1), g1, s))
  }

  /** Running code1 leaves problem g1 exactly when running code0 leaves problem g0. */
  ghost predicate Steps(code0: seq<Ins>, g0: Goal, code1: seq<Ins>, g1: Goal) {
    forall m: Machine, s: Subst :: StepsAt(code0, g0, code1, g1, m, s)
  }

  lemma StepsRefl(code: seq<Ins>, g: Goal)
    ensures Steps(code, g, code, g)
  {
  }

  lemma StepsOne(code0: seq<Ins>, g0: Goal, code: seq<Ins>, g: Goal, ins: Ins, g1: Goal)
    requires Steps(code0, g0, code, g) && Reduces(g, ins, g1)
    ensures Steps(code0, g0, code + [ins], g1)
  {
    hide Aligned, Holds, Exec, ExecOne;
    forall m: Machine, s: Subst ensures StepsAt(code0, g0, code + [ins], g1, m, s) {
      ExecMore(m, code, ins);
      assert StepsAt(code0, g0, code, g, m, s) && ReducesAt(g, ins, g1, Exec(m, code), s);
    }
  }

  lemma StepsSame(code0: seq<Ins>, g0: Goal, code: seq<Ins>, g: Goal, g1: Goal)
    requires Steps(code0, g0, code, g) && forall m: Machine, s: Subst :: SameAt(g, g1, m, s)
    ensures Steps(code0, g0, code, g1)
  {
    hide Aligned, Holds, Exec;
    forall m: Machine, s: Subst ensures StepsAt(code0, g0, code, g1, m, s) {
      assert StepsAt(code0, g0, code, g, m, s) && SameAt(g, g1, Exec(m, code), s);
    }
  }

  lemma StepsTurned(code0: seq<Ins>, g0: Goal, code: seq<Ins>, g: Goal, n: nat, k: nat)
    requires Steps(code0, g0, code, g) && k <= n <= |g.items|
    ensures Steps(code0, g0, code, g.(items := Turned(g.items, n, k)))
  {
    hide Steps, Turned, ItemsHold;
    forall m: Machine, s: Subst ensures SameAt(g, g.(items := Turned(g.items, n, k)), m, s) {
      if m.Running? { TurnedHolds(m.regs, g.items, n, k, s); }
    }
    StepsSame(code0, g0, code, g, g.(items := Turned(g.items, n, k)));
  }

  // ---- termination -------------------------------------------------------------------------

  function Size(t: Term): (n: nat)
    ensures n > 0
  {
    match t
    case List(car, cdr) => 1 + Size(car) + Size(cdr)
    case Str(f, args) => 1 + SizeAll(args)
    case _ => 1
  }

  function SizeAll(ts: seq<Term>): nat {
    if ts == [] then 0 else Size(ts[0]) + SizeAll(ts[1..])
  }

  function Weight(items: seq<Item>): nat {
    if items == [] then 0 else Size(items[0].term) + Weight(items[1..])
  }

  lemma {:induction false} WeightSum(a: seq<Item>, b: seq<Item>)
    ensures Weight(a + b) == Weight(a) + Weight(b)
  {
    if a == [] {
      assert a + b == b;
    } else {
      assert (a + b)[1..] == a[1..] + b;
      WeightSum(a[1..], b);
    }
  }

  predicate Compound(t: Term) {
    t.List? || t.Str?
  }

  predicate AllCompound(items: seq<Item>) {
    forall i :: 0 <= i < |items| ==> Compound(items[i].term)
  }

  // ---- the compiler ----------------------------------------------------------------------------

  class Compiler {
    const regs: Allocator
    var code: seq<Ins>
    /** The variables that have been frozen, with their registers. */
    var bound: map<nat, nat>
    /** The free list of the registers. */
    ghost var l: seq<nat>
    ghost const argc: nat

    ghost predicate Good(items: seq<Item>)
      reads `bound, `l, regs, regs.regArray
    {
      Live(regs.State(), l, bound, items) && ArgsFixed(regs.State(), l, argc)
    }

    constructor (size: nat)
      requires size + 1 < MAX_REGS
      ensures fresh(regs) && fresh(regs.regArray) && code == [] && bound == map[] && Left(l) == 255 - size
      ensures FreeList(regs.State(), l) && ArgsFixed(regs.State(), l, argc) && argc == size
    {
      argc := size;
      regs := new Allocator(size);
      code, bound, l := [], map[], [size + 1];
    }

    /** reg_get. */
    method NewReg(kind: int, ghost items: seq<Item>) returns (r: Option<nat>)
      requires Good(items) && kind < 0
      modifies `l, regs, regs.regArray
      ensures r != None ==> Good(items) && argc < r.value < MAX_REGS - 1 && !Used(Goal(bound, items, []), r.value)
      ensures r != None ==> Holder(regs.State(), l, r.value) && (Introduced(regs.State(), r.value) <==> kind == TVAR)
      ensures r == None <==> old(Left(l)) == 0
      ensures l == if r == None then old(l) else AfterGet(old(l))
      ensures Left(l) == old(Left(l)) - (if r == None then 0 else 1) >= 0
    {
      hide Live, Holder, Used, Get, FreeList, ArgsFixed;
      LeftGet(regs.State(), l, bound, items, kind);
      LiveSizes(regs.State(), l, bound, items);
      ArgsFixedGet(regs.State(), l, argc, kind);
      LiveGet(regs.State(), l, bound, items, [], kind);
      r := regs.RegGet(kind);
      if r != None {
        l := AfterGet(l);
        HolderIs(regs.State(), l, r.value);
      }
    }

    /** reg_release. */
    method GiveBack(r: nat, ghost items: seq<Item>)
      requires Good(items) && Holder(regs.State(), l, r)
      requires Introduced(regs.State(), r) ==> !Used(Goal(bound, items, []), r)
      modifies `l, regs, regs.regArray
      ensures Good(items)
      ensures Left(l) == old(Left(l)) + (if old(Introduced(regs.State(), r)) then 1 else 0)
    {
      hide Live, Holder, Used, Release, FreeList, ArgsFixed, Introduced;
      LeftRelease(l, r);
      LiveSizes(regs.State(), l, bound, items);
      HolderIs(regs.State(), l, r);
      ghost var l1 := LiveRelease(regs.State(), l, bound, items, r);
      ArgsFixedRelease(regs.State(), l, argc, r, l1);
      regs.RegRelease(r, TVAR);
      l := l1;
    }

    /** freeze_var. */
    method Freeze(v: nat, r: nat, ghost items: seq<Item>)
      requires Good(items) && Holder(regs.State(), l, r) && !Introduced(regs.State(), r)
      modifies `bound
      ensures bound == old(bound)[v := r] && Good(items)
    {
      hide Live, Holder, Introduced, ArgsFixed;
      LiveFreeze(regs.State(), l, bound, items, v, r);
      bound := bound[v := r];
    }
  
    /** The last cell is a list that begins with a small number. */
    method UniFused(t: Term, queue: Queue<Item>, ghost rest: seq<Item>, ghost code0: seq<Ins>, ghost g0: Goal) returns (ok: bool)
      requires queue.Valid() && Good(queue.Contents() + rest)
      requires t.List? && t.car.Int? && 0 <= t.car.n <= 0xffff
      requires Steps(code0, g0, code, Goal(bound, queue.Contents() + rest, [t]))
      modifies `code, `l, regs, regs.regArray
      ensures ok ==> Good(queue.Contents() + rest) && Steps(code0, g0, code, Goal(bound, queue.Contents() + rest, [t.cdr]))
      ensures Left(l) == old(Left(l)) && (ok <==> Left(l) > 0) && Left(l) >= 0
    {
      hide Live, Holder, Introduced, Used, ArgsFixed, FreeList, Steps, Reduces, Queue.Valid, Queue.Contents;
      ghost var items := queue.Contents() + rest;
      ghost var g := Goal(bound, items, [t]);
      var rt := NewReg(TVAR, items);
      if rt == None { return false; }
      UsedBlock(g, [], rt.value);
      Bytes(t.car.n);
      UniNumList(g, rt.value, t.car.n / 256, t.car.n % 256);
      StepsOne(code0, g0, code, g, UniTVarGetListUniNumCon(rt.value, t.car.n / 256, t.car.n % 256), Goal(bound, items, [t.cdr]));
      code := code + [UniTVarGetListUniNumCon(rt.value, t.car.n / 256, t.car.n % 256)];
      GiveBack(rt.value, items);
      ok := true;
    }

    method UniVariable(v: nat, queue: Queue<Item>, ghost rest: seq<Item>, ghost tail: seq<Term>, ghost code0: seq<Ins>, ghost g0: Goal) returns (ok: bool)
      requires queue.Valid() && Good(queue.Contents() + rest)
      requires Steps(code0, g0, code, Goal(bound, queue.Contents() + rest, [Var(v)] + tail))
      modifies `code, `bound, `l, regs, regs.regArray
      ensures ok ==> Good(queue.Contents() + rest) && Steps(code0, g0, code, Goal(bound, queue.Contents() + rest, tail))
      ensures (!ok ==> Left(l) == 0) && (old(Left(l)) > 0 ==> ok) && old(Left(l)) - 1 <= Left(l) <= old(Left(l))
    {
      hide Live, Holder, Introduced, Used, ArgsFixed, FreeList, Steps, Reduces, Queue.Valid, Queue.Contents;
      ghost var items := queue.Contents() + rest;
      ghost var g := Goal(bound, items, [Var(v)] + tail);
      assert g.block[1..] == tail;
      if v !in bound {
        var rt := NewReg(RVAR, items);
        if rt == None { return false; }
        UsedBlock(g, [], rt.value);
        UniFresh(g, rt.value);
        StepsOne(code0, g0, code, g, UniTVar(rt.value), Goal(bound[v := rt.value], items, tail));
        Freeze(v, rt.value, items);
        code := code + [UniTVar(rt.value)];
      } else {
        UniSeen(g);
        StepsOne(code0, g0, code, g, UniTVal(bound[v]), Goal(bound, items, tail));
        code := code + [UniTVal(bound[v])];
      }
      ok := true;
    }

    /** A compound cell is kept in a register of its own and queued for later. */
    method UniQueued(t: Term, queue: Queue<Item>, ghost rest: seq<Item>, ghost tail: seq<Term>, ghost code0: seq<Ins>, ghost g0: Goal) returns (ok: bool)
      requires queue.Valid() && Good(queue.Contents() + rest) && Left(l) + |queue.Contents()| < INST_QUEUE_SIZE
      requires Steps(code0, g0, code, Goal(bound, queue.Contents() + rest, [t] + tail))
      modifies `code, `l, regs, regs.regArray, queue`bottom, queue`added, queue.slots
      ensures queue.Valid() && (ok <==> old(Left(l)) > 0) && Left(l) == old(Left(l)) - (if ok then 1 else 0) >= 0
      ensures ok ==> Good(queue.Contents() + rest) && Steps(code0, g0, code, Goal(bound, queue.Contents() + rest, tail))
      ensures ok ==> |queue.Contents()| == |old(queue.Contents())| + 1 && queue.Contents()[1..] == old(queue.Contents()) && queue.Contents()[0].term == t
      ensures ok ==> queue.added == old(queue.added) + 1
    {
      hide Live, Holder, Introduced, Used, ArgsFixed, FreeList, Steps, Reduces, Queue.Valid, Queue.Contents;
      ghost var q, items := queue.Contents(), queue.Contents() + rest;
      ghost var g := Goal(bound, items, [t] + tail);
      assert g.block[1..] == tail;
      var rt := NewReg(TVAR, items);
      if rt == None { return false; }
      UsedBlock(g, [], rt.value);
      UniLater(g, rt.value, 0);
      LaterItems(q, rest, Item(rt.value, t));
      LiveAdd(regs.State(), l, bound, items, t, rt.value);
      StepsOne(code0, g0, code, g, UniTVar(rt.value), Goal(bound, [Item(rt.value, t)] + q + rest, tail));
      code := code + [UniTVar(rt.value)];
      ok := queue.Add(Item(rt.value, t));
    }

    /** Code for one cell of a block. */
    method DbGenInst(sub: Term, isLast: bool, queue: Queue<Item>, ghost rest: seq<Item>, ghost tail: seq<Term>, ghost code0: seq<Ins>, ghost g0: Goal)
      returns (ok: bool)
      requires queue.Valid() && Good(queue.Contents() + rest) && (isLast ==> tail == []) && Left(l) + |queue.Contents()| < INST_QUEUE_SIZE
      requires Steps(code0, g0, code, Goal(bound, queue.Contents() + rest, [sub] + tail))
      modifies `code, `bound, `l, regs, regs.regArray, queue`bottom, queue`added, queue.slots
      ensures queue.Valid()
      ensures ok ==> Good(queue.Contents() + rest) && Steps(code0, g0, code, Goal(bound, queue.Contents() + rest, tail))
      ensures ok ==> Grew(old(queue.Contents()), queue.Contents(), queue.added - old(queue.added), sub)
      ensures (!ok ==> Left(l) == 0) && (old(Left(l)) >= Size(sub) ==> ok)
      ensures ok ==> Left(l) + |queue.Contents()| <= old(Left(l) + |queue.Contents()|)
      ensures ok ==> Left(l) + Size(sub) >= old(Left(l)) + NeedFirst(queue.Contents(), queue.added - old(queue.added))
    {
      hide Live, Holder, Introduced, Used, ArgsFixed, FreeList, Steps, Reduces, Good, Queue.Valid, Queue.Contents;
      var t := sub;
      ok := true;
      while isLast && t.List? && t.car.Int? && 0 <= t.car.n <= 0xffff
        invariant queue.Valid() && queue.Contents() == old(queue.Contents()) && queue.added == old(queue.added)
        invariant Good(queue.Contents() + rest)
        invariant Steps(code0, g0, code, Goal(bound, queue.Contents() + rest, [t] + tail))
        invariant Size(t) <= Size(sub) && Left(l) == old(Left(l))
        decreases t
      {
        assert [t] + tail == [t] && [t.cdr] + tail == [t.cdr];
        ok := UniFused(t, queue, rest, code0, g0);
        if !ok { return; }
        t := t.cdr;
      }
      if t.Var? {
        ok := UniVariable(t.v, queue, rest, tail, code0, g0);
      } else if t.List? || t.Str? {
        ok := UniQueued(t, queue, rest, tail, code0, g0);
      } else {
        var ins := match t case Int(n) => UniNumCon(n) case Atom(c) => UniCon(c) case _ => UniNil;
        ghost var g := Goal(bound, queue.Contents() + rest, [t] + tail);
        assert g.block[1..] == tail;
        UniConstant(g, ins);
        StepsOne(code0, g0, code, g, ins, Goal(bound, queue.Contents() + rest, tail));
        code := code + [ins];
      }
    }
  
    /** Code for all cells of a block; what has to wait goes to the far end of the queue, first cell on top. */
    method DbGenBlock(ts: seq<Term>, queue: Queue<Item>, ghost rest: seq<Item>, ghost code0: seq<Ins>, ghost g0: Goal) returns (ok: bool)
      requires queue.Valid() && Good(queue.Contents() + rest) && AllCompound(queue.Contents())
      requires Steps(code0, g0, code, Goal(bound, queue.Contents() + rest, ts)) && Left(l) + |queue.Contents()| < INST_QUEUE_SIZE
      modifies `code, `bound, `l, regs, regs.regArray, queue, queue.slots
      ensures queue.Valid() && (!ok ==> Left(l) == 0) && (old(Left(l)) >= SizeAll(ts) ==> ok)
      ensures ok ==> Left(l) + |queue.Contents()| <= old(Left(l) + |queue.Contents()|)
      ensures ok ==> Left(l) + SizeAll(ts) + old(Need(queue.Contents())) >= old(Left(l)) + Need(queue.Contents())
      ensures ok ==> Good(queue.Contents() + rest) && Steps(code0, g0, code, Goal(bound, queue.Contents() + rest, []))
      ensures ok ==> AllCompound(queue.Contents()) && Weight(queue.Contents()) <= Weight(old(queue.Contents())) + SizeAll(ts)
    {
      hide Live, Holder, Introduced, Used, ArgsFixed, FreeList, Steps, Reduces, Good, Queue.Valid, Queue.Contents, Rotated, Grew, Turned, AllCompound, Weight, SizeAll, Size, NeedFirst, Need, Left;
      queue.added := 0;
      NeedEmpty();
      ghost var q0 := queue.Contents();
      ghost var newer: seq<Item> := [];
      var i := 0;
      assert ts[0..] == ts && newer + q0 == q0;
      NoneCompound();
      SizeSteps(ts);
      while i < |ts|
        invariant 0 <= i <= |ts| && queue.Valid() && queue.Contents() == newer + q0 && queue.added == |newer|
        invariant Good(queue.Contents() + rest) && Steps(code0, g0, code, Goal(bound, queue.Contents() + rest, ts[i..]))
        invariant AllCompound(newer) && Weight(newer) + SizeAll(ts[i..]) <= SizeAll(ts)
        invariant Left(l) + |queue.Contents()| <= old(Left(l) + |queue.Contents()|) && Need(newer) >= 0
        invariant Left(l) + SizeAll(ts) - SizeAll(ts[i..]) >= old(Left(l)) + Need(newer)
      {
        assert ts[i..] == [ts[i]] + ts[i + 1..];
        SizePositive(ts, i);
        ghost var newer0, q1 := newer, queue.Contents();
        ok := DbGenInst(ts[i], i == |ts| - 1, queue, rest, ts[i + 1..], code0, g0);
        if !ok { return; }
        newer := GrewFresh(newer, q0, queue.Contents(), ts[i], queue.added - |newer|);
        NeedGrew(newer0, q0, queue.Contents(), newer, queue.added - |newer0|);
        i := i + 1;
      }
      assert ts[i..] == [];
      ghost var k := |newer|;
      StepsTurned(code0, g0, code, Goal(bound, newer + q0 + rest, []), k + |q0|, k);
      LiveOfGood(newer + q0 + rest);
      LiveTurned(regs.State(), l, bound, newer + q0 + rest, k + |q0|, k);
      TurnedIs(newer, q0, rest);
      queue.Rotate();
      GoodOfLive(queue.Contents() + rest);
      WeightSum(q0, newer);
      NeedSum(q0, newer);
      BothCompound(q0, newer);
      ok := true;
    }

    /** The item x has just been taken off the top of the queue: its code is emitted, its register given back. */
    method TakeApart(x: Item, ins: Ins, block: seq<Term>, ghost q: seq<Item>, ghost rest: seq<Item>, ghost code0: seq<Ins>, ghost g0: Goal)
      requires Good(q + [x] + rest) && Steps(code0, g0, code, Goal(bound, q + [x] + rest, []))
      requires (x.term.List? && ins == GetList(x.reg) && block == [x.term.car, x.term.cdr])
            || (x.term.Str? && ins == GetStr(x.reg, x.term.f, |x.term.args|) && block == x.term.args)
      modifies `code, `l, regs, regs.regArray
      ensures Good(q + rest) && Steps(code0, g0, code, Goal(bound, q + rest, block))
      ensures old(Left(l)) <= Left(l) <= old(Left(l)) + 1
    {
      hide Live, Holder, Introduced, Used, ArgsFixed, FreeList, Steps, Reduces, Queue.Valid, Queue.Contents, Rotated, Grew, Turned, Dropped;
      ghost var items := q + [x] + rest;
      ghost var g := Goal(bound, items, []);
      MiddleDropped(q, x, rest);
      if x.term.List? { ReduceList(g, |q|); } else { ReduceStr(g, |q|); }
      StepsOne(code0, g0, code, g, ins, Goal(bound, q + rest, block));
      code := code + [ins];
      LiveDrop(regs.State(), l, bound, items, |q|);
      GiveBack(x.reg, q + rest);
    }

    /** A list of two variables that have not been met: both get a register in one instruction. */
    method TakeTwoVars(x: Item, ghost q: seq<Item>, ghost rest: seq<Item>, ghost code0: seq<Ins>, ghost g0: Goal) returns (ok: bool)
      requires Good(q + [x] + rest) && Steps(code0, g0, code, Goal(bound, q + [x] + rest, []))
      requires x.term.List? && x.term.car.Var? && x.term.cdr.Var? && x.term.car.v !in bound && x.term.cdr.v !in bound && x.term.car.v != x.term.cdr.v
      modifies `code, `bound, `l, regs, regs.regArray
      ensures ok ==> Good(q + rest) && Steps(code0, g0, code, Goal(bound, q + rest, []))
      ensures (!ok ==> Left(l) == 0) && (old(Left(l)) >= 2 ==> ok) && (ok ==> old(Left(l)) - 2 <= Left(l) <= old(Left(l)))
    {
      hide Live, Holder, Introduced, Used, ArgsFixed, FreeList, Steps, Reduces, Queue.Valid, Queue.Contents, Rotated, Grew, Turned, Dropped;
      ghost var items := q + [x] + rest;
      ghost var g := Goal(bound, items, []);
      MiddleDropped(q, x, rest);
      var r1 := NewReg(RVAR, items);
      if r1 == None { return false; }
      Freeze(x.term.car.v, r1.value, items);
      var r2 := NewReg(RVAR, items);
      if r2 == None { return false; }
      UsedMore(g, x.term.car.v, r1.value, r2.value);
      Freeze(x.term.cdr.v, r2.value, items);
      ReduceTVarTVar(g, |q|, r1.value, r2.value);
      StepsOne(code0, g0, code, g, GetListTVarTVar(x.reg, r1.value, r2.value), Goal(bound, q + rest, []));
      code := code + [GetListTVarTVar(x.reg, r1.value, r2.value)];
      LiveDrop(regs.State(), l, bound, items, |q|);
      GiveBack(x.reg, q + rest);
      ok := true;
    }

    method DbGenTerms(queue: Queue<Item>, ghost rest: seq<Item>, ghost code0: seq<Ins>, ghost g0: Goal) returns (ok: bool)
      requires queue.Valid() && Good(queue.Contents() + rest) && AllCompound(queue.Contents())
      requires Steps(code0, g0, code, Goal(bound, queue.Contents() + rest, [])) && Left(l) + |queue.Contents()| < INST_QUEUE_SIZE
      modifies `code, `bound, `l, regs, regs.regArray, queue, queue.slots
      ensures ok ==> Good(rest) && Steps(code0, g0, code, Goal(bound, rest, []))
      ensures (!ok ==> Left(l) == 0) && (old(Left(l)) >= old(Need(queue.Contents())) ==> ok)
      ensures ok ==> Left(l) + old(Need(queue.Contents())) >= old(Left(l))
    {
      hide Live, Holder, Introduced, Used, ArgsFixed, FreeList, Steps, Reduces, Good, Queue.Valid, Queue.Contents, Rotated, Grew, Turned, Dropped, AllCompound, Weight;
      EmptyContents(queue);
      ghost var need, left := Need(queue.Contents()), Left(l);
      NeedEmpty();
      while queue.bottom != queue.top
        invariant queue.Valid() && Good(queue.Contents() + rest) && AllCompound(queue.Contents())
        invariant Steps(code0, g0, code, Goal(bound, queue.Contents() + rest, []))
        invariant Left(l) + |queue.Contents()| < INST_QUEUE_SIZE && Left(l) + need >= left + Need(queue.Contents())
        decreases Weight(queue.Contents())
      {
        EmptyContents(queue);
        var x := queue.Pop();
        ghost var q := queue.Contents();
        LastFacts(q, x);
        if x.term.List? {
          if x.term.car.Var? && x.term.cdr.Var? && x.term.car.v !in bound && x.term.cdr.v !in bound && x.term.car.v != x.term.cdr.v {
            ok := TakeTwoVars(x, q, rest, code0, g0);
            if !ok { return; }
          } else {
            TakeApart(x, GetList(x.reg), [x.term.car, x.term.cdr], q, rest, code0, g0);
            ok := DbGenBlock([x.term.car, x.term.cdr], queue, rest, code0, g0);
            if !ok { return; }
          }
        } else {
          TakeApart(x, GetStr(x.reg, x.term.f, |x.term.args|), x.term.args, q, rest, code0, g0);
          ok := DbGenBlock(x.term.args, queue, rest, code0, g0);
          if !ok { return; }
        }
      }
      EmptyContents(queue);
      assert queue.Contents() + rest == rest;
      ok := true;
    }

    /** Code for argument argno. */
    method DbGenTopInst(t: Term, argno: nat, ghost rest: seq<Item>, ghost code0: seq<Ins>, ghost g0: Goal) returns (ok: bool)
      requires Good([Item(argno, t)] + rest) && 0 < argno <= argc
      requires Steps(code0, g0, code, Goal(bound, [Item(argno, t)] + rest, []))
      modifies `code, `bound, `l, regs, regs.regArray
      ensures ok ==> Good(rest) && Steps(code0, g0, code, Goal(bound, rest, []))
      ensures (!ok ==> Left(l) == 0) && (old(Left(l)) >= Size(t) - 1 ==> ok) && (ok ==> Left(l) + Size(t) - 1 >= old(Left(l)))
    {
      hide Live, Holder, Introduced, Used, ArgsFixed, FreeList, Steps, Reduces, Queue.Valid, Queue.Contents, Rotated, Grew, Turned, Dropped;
      LeftBound(regs.State(), l, bound, [Item(argno, t)] + rest, argc);
      ghost var items := [Item(argno, t)] + rest;
      ghost var g := Goal(bound, items, []);
      FirstDropped(Item(argno, t), rest);
      if t.List? || t.Str? {
        var queue := new Queue<Item>();
        ok := queue.Push(Item(argno, t));
        assert [] + [Item(argno, t)] == [Item(argno, t)];
        OneCompound(Item(argno, t));
        LastFacts([], Item(argno, t));
        NeedEmpty();
        ok := DbGenTerms(queue, rest, code0, g0);
        return;
      }
      LiveDrop(regs.State(), l, bound, items, 0);
      ArgNotIntroduced(regs.State(), l, argc, argno);
      if t.Var? && t.v !in bound {
        FreezeItem(g, 0);
        StepsSame(code0, g0, code, g, Goal(bound[t.v := argno], rest, []));
        Freeze(t.v, argno, rest);
      } else if t.Var? {
        ReduceSeen(g, 0);
        StepsOne(code0, g0, code, g, GetTVal(bound[t.v], argno), Goal(bound, rest, []));
        code := code + [GetTVal(bound[t.v], argno)];
      } else {
        var ins := match t case Int(n) => GetNumCon(argno, n) case Atom(c) => GetCon(argno, c) case _ => GetNil(argno);
        ReduceConstant(g, 0, ins);
        StepsOne(code0, g0, code, g, ins, Goal(bound, rest, []));
        code := code + [ins];
      }
      ok := true;
    }

    /** All arguments of a head; ok is false when the registers run out, which they do not when there are as many as
        symbols below the arguments. The queue never runs out. */
    method CompileHead(args: seq<Term>) returns (ok: bool)
      requires code == [] && bound == map[] && FreeList(regs.State(), l) && ArgsFixed(regs.State(), l, argc) && |args| <= argc
      modifies `code, `bound, `l, regs, regs.regArray
      ensures ok ==> MatchesExactly(args, code, bound)
      ensures (!ok ==> Left(l) == 0) && (old(Left(l)) + |args| >= SizeAll(args) ==> ok)
    {
      hide Live, Holder, Introduced, Used, ArgsFixed, FreeList, Steps, Reduces, MatchesExactly;
      ghost var g0 := Goal(map[], ArgItems(args, 0), []);
      ArgsLive(regs.State(), l, argc, args);
      StepsRefl([], g0);
      SizeSteps(args);
      assert args[0..] == args;
      var argno := 1;
      while argno <= |args|
        invariant 1 <= argno <= |args| + 1 && Good(ArgItems(args, argno - 1))
        invariant Steps([], g0, code, Goal(bound, ArgItems(args, argno - 1), []))
        invariant Left(l) + SizeAll(args) - SizeAll(args[argno - 1..]) >= old(Left(l)) + argno - 1
      {
        SizePositive(args, argno - 1);
        SizeCount(args[argno..]);
        ArgSplit(args, argno - 1);
        ok := DbGenTopInst(args[argno - 1], argno, ArgItems(args, argno), [], g0);
        if !ok { return false; }
        argno := argno + 1;
      }
      ok := true;
      HeadExact(args, code, bound);
    }

    lemma LiveOfGood(items: seq<Item>)
      requires Good(items)
      ensures Live(regs.State(), l, bound, items) && ArgsFixed(regs.State(), l, argc)
    {
    }

    lemma GoodOfLive(items: seq<Item>)
      requires Live(regs.State(), l, bound, items) && ArgsFixed(regs.State(), l, argc)
      ensures Good(items)
    {
    }
  }

  // ---- how many registers are needed -----------------------------------------------------------

  /** How many registers are left. */
  ghost function Left(l: seq<nat>): int {
    if l == [] then 0 else |l| - 1 + MAX_REGS - 1 - l[|l| - 1]
  }

  /** How many more registers the items may need: one for every symbol below them. */
  function Need(items: seq<Item>): int {
    Weight(items) - |items|
  }

  /** The same for the first n, at most one. */
  function NeedFirst(items: seq<Item>, n: int): int {
    if n == 1 && items != [] then Size(items[0].term) - 1 else 0
  }

  lemma LeftGet(r: RegStat, l: seq<nat>, env: map<nat, nat>, items: seq<Item>, kind: int)
    requires Live(r, l, env, items) && kind < 0
    ensures 0 <= r.free < |r.arr| == MAX_REGS && l != [] && 0 <= Left(l)
    ensures Get(r, kind) == None <==> Left(l) == 0
    ensures Left(l) > 0 ==> Left(AfterGet(l)) == Left(l) - 1
  {
    hide Live, Get, Taken;
    LiveSizes(r, l, env, items);
    GetIsFree(r, l, kind);
    LastBelow(r, l);
  }

  lemma LastBelow(r: RegStat, l: seq<nat>)
    requires FreeList(r, l)
    ensures l != [] && l[|l| - 1] <= MAX_REGS - 1
  {
  }

  lemma LeftRelease(l: seq<nat>, x: nat)
    ensures l != [] ==> Left([x] + l) == Left(l) + 1
  {
    if l != [] { assert ([x] + l)[|l|] == l[|l| - 1]; }
  }

  /** The numbers above a up to n. */
  ghost function Range(a: nat, n: nat): (r: set<nat>)
    ensures forall x :: x in r <==> a < x <= n
    ensures |r| == if n > a then n - a else 0
  {
    if n <= a then {} else Range(a, n - 1) + {n}
  }

  ghost function Members(l: seq<nat>): set<nat> {
    set x | x in l
  }

  /** The registers of the arguments are not among those left. */
  lemma LeftBound(r: RegStat, l: seq<nat>, env: map<nat, nat>, items: seq<Item>, argc: nat)
    requires Live(r, l, env, items) && ArgsFixed(r, l, argc)
    ensures Left(l) <= 255 - argc
  {
    hide Holder, Introduced, Links, Live;
    LiveSizes(r, l, env, items);
    PositiveList(r, l);
    var n := l[|l| - 1];
    MembersSize(l);
    forall x | x in Members(l) ensures x in Range(argc, n) {
      if x <= argc { HeldOut(r, l, x); }
    }
    SizeLe(Members(l), Range(argc, n));
    assert n in Members(l);
  }

  lemma HeldOut(r: RegStat, l: seq<nat>, x: nat)
    requires Holder(r, l, x)
    ensures l != [] && x !in l
  {
  }

  lemma PositiveList(r: RegStat, l: seq<nat>)
    requires FreeList(r, l)
    ensures l != [] && (forall i :: 0 <= i < |l| ==> 0 < l[i] <= l[|l| - 1]) && forall i, j :: 0 <= i < j < |l| ==> l[i] != l[j]
  {
  }

  lemma SizeLe(s: set<nat>, t: set<nat>)
    requires s <= t
    ensures |s| <= |t|
  {
    assert t == s + (t - s);
  }

  lemma {:induction false} MembersSize(l: seq<nat>)
    requires forall i, j :: 0 <= i < j < |l| ==> l[i] != l[j]
    ensures |Members(l)| == |l|
  {
    if l != [] {
      var m, x := l[..|l| - 1], l[|l| - 1];
      MembersSize(m);
      assert l == m + [x];
      assert Members(l) == Members(m) + {x};
      assert x !in m;
    }
  }

  lemma SizePositive(ts: seq<Term>, i: nat)
    requires i < |ts|
    ensures SizeAll(ts[i..]) == Size(ts[i]) + SizeAll(ts[i + 1..]) && SizeAll(ts[i + 1..]) >= 0
  {
    assert ts[i..][1..] == ts[i + 1..];
  }

  /** There are at least as many symbols as terms. */
  lemma SizeCount(ts: seq<Term>)
    ensures SizeAll(ts) >= |ts|
  {
    if ts != [] { SizeCount(ts[1..]); }
  }

  lemma NeedEmpty()
    ensures forall items: seq<Item> :: Need(items) >= 0
    ensures Need([]) == 0
  {
    forall items: seq<Item> ensures Need(items) >= 0 { NeedSome(items); }
  }

  lemma NeedSome(items: seq<Item>)
    ensures Need(items) >= 0
  {
    if items != [] { NeedSome(items[1..]); }
  }

  lemma NeedSum(a: seq<Item>, b: seq<Item>)
    ensures Need(a + b) == Need(a) + Need(b)
  {
    WeightSum(a, b);
  }

  lemma NeedGrew(newer: seq<Item>, q0: seq<Item>, q1: seq<Item>, more: seq<Item>, n: int)
    requires q1 == more + q0 && |more| == |newer| + n && (n == 0 || n == 1) && (n == 0 ==> more == newer) && (n == 1 ==> more[1..] == newer)
    ensures Need(more) == Need(newer) + NeedFirst(q1, n) && Need(more) >= 0
  {
    NeedSome(more);
  }

  lemma MiddleDropped(q: seq<Item>, x: Item, rest: seq<Item>)
    ensures |q| < |q + [x] + rest| && (q + [x] + rest)[|q|] == x && Dropped(q + [x] + rest, |q|) == q + rest
  {
    var items := q + [x] + rest;
    assert items[..|q|] == q && items[|q| + 1..] == rest;
  }

  lemma UsedMore(g: Goal, v: nat, r1: nat, r2: nat)
    requires v !in g.env && !Used(g.(env := g.env[v := r1]), r2)
    ensures !Used(g, r2) && r1 != r2
  {
    var env := g.env[v := r1];
    assert v in env && env[v] == r1;
    forall w: nat | w in g.env ensures g.env[w] != r2 { assert w in env && env[w] == g.env[w]; }
  }

  lemma EmptyContents(queue: Queue<Item>)
    requires queue.Valid()
    ensures queue.Contents() == [] <==> queue.bottom == queue.top
  {
  }

  lemma LastFacts(q: seq<Item>, x: Item)
    ensures AllCompound(q + [x]) <==> AllCompound(q) && Compound(x.term)
    ensures Weight(q + [x]) == Weight(q) + Size(x.term)
    ensures x.term.List? ==> SizeAll([x.term.car, x.term.cdr]) == Size(x.term) - 1
    ensures x.term.Str? ==> SizeAll(x.term.args) == Size(x.term) - 1
    ensures Need(q + [x]) == Need(q) + Size(x.term) - 1
  {
    WeightSum(q, [x]);
    assert (q + [x])[|q|] == x;
    if AllCompound(q + [x]) { forall i | 0 <= i < |q| ensures Compound(q[i].term) { assert q[i] == (q + [x])[i]; } }
    if x.term.List? {
      assert [x.term.car, x.term.cdr][1..] == [x.term.cdr] && [x.term.cdr][1..] == [];
      assert SizeAll([x.term.cdr]) == Size(x.term.cdr) + SizeAll([]);
    }
  }

  lemma FirstDropped(x: Item, rest: seq<Item>)
    ensures Dropped([x] + rest, 0) == rest
  {
    assert ([x] + rest)[..0] == [] && ([x] + rest)[1..] == rest;
  }

  lemma OneCompound(x: Item)
    ensures AllCompound([x]) <==> Compound(x.term)
  {
    assert [x][0] == x;
  }

  // ---- what the code of a head does ------------------------------------------------------------

  /** The arguments from the i-th on, each in its register. */
  function ArgItems(args: seq<Term>, i: nat): (items: seq<Item>)
    requires i <= |args|
    ensures |items| == |args| - i && forall j :: 0 <= j < |items| ==> items[j] == Item(i + j + 1, args[i + j])
  {
    seq(|args| - i, j requires 0 <= j < |args| - i => Item(i + j + 1, args[i + j]))
  }

  lemma ArgSplit(args: seq<Term>, i: nat)
    requires i < |args|
    ensures ArgItems(args, i) == [Item(i + 1, args[i])] + ArgItems(args, i + 1)
  {
  }

  lemma ArgNotIntroduced(r: RegStat, l: seq<nat>, argc: nat, x: nat)
    requires ArgsFixed(r, l, argc) && 0 < x <= argc
    ensures !Introduced(r, x) && Holder(r, l, x)
  {
  }

  lemma ArgsLive(r: RegStat, l: seq<nat>, argc: nat, args: seq<Term>)
    requires FreeList(r, l) && ArgsFixed(r, l, argc) && |args| <= argc
    ensures Live(r, l, map[], ArgItems(args, 0))
  {
    hide FreeList, Holder, Introduced;
  }

  /** s makes the head equal to the ground arguments in the registers. */
  ghost predicate Matches(args: seq<Term>, regs: RegFile, s: Subst) {
    forall i :: 0 <= i < |args| ==> Inst(args[i], s) == regs(i + 1)
  }

  ghost predicate Leaves(args: seq<Term>, regs: RegFile, bound: map<nat, nat>, s: Subst) {
    forall i, v :: 0 <= i < |args| && v in Vars(args[i]) ==> v in bound && regs(bound[v]) == s(v)
  }

  ghost predicate MatchesAt(args: seq<Term>, code: seq<Ins>, bound: map<nat, nat>, regs: RegFile) {
    var m := Exec(Running(regs, []), code);
    && (m.Running? <==> exists s: Subst :: Matches(args, regs, s))
    && (forall s: Subst :: Matches(args, regs, s) ==> m.Running? && Leaves(args, m.regs, bound, s))
  }

  /** On every ground call the code succeeds exactly when the head matches, and then leaves in each
      variable's register the subterm it matched. */
  ghost predicate MatchesExactly(args: seq<Term>, code: seq<Ins>, bound: map<nat, nat>) {
    forall regs: RegFile :: MatchesAt(args, code, bound, regs)
  }

  /** Two substitutions that agree on a term agree on its variables. */
  lemma {:induction false} Determined(t: Term, s: Subst, s1: Subst)
    requires Inst(t, s) == Inst(t, s1)
    ensures forall v :: v in Vars(t) ==> s(v) == s1(v)
  {
    match t {
      case List(car, cdr) =>
        Determined(car, s, s1);
        Determined(cdr, s, s1);
      case Str(f, args) =>
        forall i | 0 <= i < |args| ensures forall v :: v in Vars(args[i]) ==> s(v) == s1(v) {
          assert Inst(t, s).args[i] == Inst(args[i], s) && Inst(t, s1).args[i] == Inst(args[i], s1);
          Determined(args[i], s, s1);
        }
      case _ =>
    }
  }

  lemma StartHolds(args: seq<Term>, regs: RegFile, s: Subst)
    ensures Holds(Running(regs, []), Goal(map[], ArgItems(args, 0), []), s) <==> Matches(args, regs, s)
    ensures Exec(Running(regs, []), []) == Running(regs, [])
  {
    var items := ArgItems(args, 0);
    if Holds(Running(regs, []), Goal(map[], items, []), s) {
      forall i | 0 <= i < |args| ensures Inst(args[i], s) == regs(i + 1) { assert items[i] == Item(i + 1, args[i]); }
    }
  }

  /** After the code: the same substitutions, told by the registers of the variables alone. */
  lemma EndHolds(args: seq<Term>, code: seq<Ins>, bound: map<nat, nat>, regs: RegFile, s: Subst)
    requires Steps([], Goal(map[], ArgItems(args, 0), []), code, Goal(bound, [], []))
    ensures var m := Exec(Running(regs, []), code); Matches(args, regs, s) <==> m.Running? && EnvHolds(m.regs, bound, s)
  {
    hide Matches, EnvHolds, Exec;
    StartHolds(args, regs, s);
    assert StepsAt([], Goal(map[], ArgItems(args, 0), []), code, Goal(bound, [], []), Running(regs, []), s);
  }

  lemma AllMet(args: seq<Term>, code: seq<Ins>, bound: map<nat, nat>, regs: RegFile, s: Subst, i: nat, v: nat)
    requires Steps([], Goal(map[], ArgItems(args, 0), []), code, Goal(bound, [], []))
    requires Matches(args, regs, s) && i < |args| && v in Vars(args[i])
    ensures v in bound
  {
    hide Steps, Exec, Vars;
    if v !in bound {
      var other := if s(v) == GNil then GAtom(0) else GNil;
      var s1: Subst := (w: nat) => if w == v then other else s(w);
      EndHolds(args, code, bound, regs, s);
      EndHolds(args, code, bound, regs, s1);
      assert Inst(args[i], s) == Inst(args[i], s1);
      Determined(args[i], s, s1);
    }
  }

  lemma HeadExact(args: seq<Term>, code: seq<Ins>, bound: map<nat, nat>)
    requires Steps([], Goal(map[], ArgItems(args, 0), []), code, Goal(bound, [], []))
    ensures MatchesExactly(args, code, bound)
  {
    hide Steps, Exec, Vars, Matches;
    forall regs: RegFile ensures MatchesAt(args, code, bound, regs) {
      var m := Exec(Running(regs, []), code);
      if m.Running? {
        var s: Subst := (w: nat) => if w in bound then m.regs(bound[w]) else GNil;
        EndHolds(args, code, bound, regs, s);
        assert Matches(args, regs, s);
      }
      forall s: Subst | Matches(args, regs, s) ensures m.Running? && Leaves(args, m.regs, bound, s) {
        EndHolds(args, code, bound, regs, s);
        forall i, v | 0 <= i < |args| && v in Vars(args[i]) ensures v in bound && m.regs(bound[v]) == s(v) {
          AllMet(args, code, bound, regs, s, i, v);
        }
      }
    }
  }

  lemma NoneCompound()
    ensures AllCompound([]) && Weight([]) == 0
  {
  }

  lemma SizeSteps(ts: seq<Term>)
    ensures forall i :: 0 <= i < |ts| ==> SizeAll(ts[i..]) == Size(ts[i]) + SizeAll(ts[i + 1..])
    ensures SizeAll(ts[|ts|..]) == 0
  {
    forall i | 0 <= i < |ts| ensures SizeAll(ts[i..]) == Size(ts[i]) + SizeAll(ts[i + 1..]) { assert ts[i..][1..] == ts[i + 1..]; }
  }

  lemma BothCompound(a: seq<Item>, b: seq<Item>)
    requires AllCompound(a) && AllCompound(b)
    ensures AllCompound(a + b)
  {
  }

  lemma GrewFresh(newer: seq<Item>, q0: seq<Item>, q1: seq<Item>, t: Term, n: int) returns (more: seq<Item>)
    requires Grew(newer + q0, q1, n, t) && AllCompound(newer)
    ensures q1 == more + q0 && |more| == |newer| + n && AllCompound(more) && Weight(more) <= Weight(newer) + Size(t)
    ensures (n == 0 && more == newer) || (n == 1 && more[1..] == newer)
  {
    if n == 0 {
      more := newer;
    } else {
      more := [q1[0]] + newer;
      assert q1 == [q1[0]] + q1[1..];
      assert more[1..] == newer;
    }
  }

  lemma TurnedIs(a: seq<Item>, b: seq<Item>, rest: seq<Item>)
    ensures Turned(a + b + rest, |a| + |b|, |a|) == Rotated(a + b, |a|) + rest
    ensures Rotated(a + b, |a|) == b + a
  {
    assert (a + b)[|a|..] == b && (a + b)[..|a|] == a;
    assert (a + b + rest)[|a|..|a| + |b|] == b && (a + b + rest)[..|a|] == a && (a + b + rest)[|a| + |b|..] == rest;
  }

  lemma LaterItems(q: seq<Item>, rest: seq<Item>, x: Item)
    ensures (q + rest)[..0] + [x] + (q + rest)[0..] == [x] + q + rest
    ensures [x] + (q + rest) == [x] + q + rest && ([x] + q)[1..] == q
  {
  }

  /** At most one new item, in front. */
  predicate Grew(q0: seq<Item>, q1: seq<Item>, n: int, sub: Term) {
    (n == 0 && q1 == q0) || (n == 1 && |q1| == |q0| + 1 && q1[1..] == q0 && Compound(q1[0].term) && Size(q1[0].term) <= Size(sub))
  }

  lemma Bytes(n: int)
    requires 0 <= n <= 0xffff
    ensures n / 256 * 256 + n % 256 == n && 0 <= n / 256 < 256 && 0 <= n % 256 < 256
  {
  }

  lemma HolderIs(r: RegStat, l: seq<nat>, x: nat)
    requires Holder(r, l, x)
    ensures 0 < x < MAX_REGS == |r.arr| && (Introduced(r, x) <==> r.arr[x] == TVAR)
  {
  }
}
