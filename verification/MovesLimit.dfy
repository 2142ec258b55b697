/** How many moves db_genmvs (XSB/emu/biassert.c) can be trusted with: 123, and no more.
    Beyond that the ring wraps while a cycle is being unwound, the scans see nothing,
    and a register is overwritten before it has been read. */
module MovesLimit {
  import opened Registers
  import opened InstQueue
  import opened Moves

  // ---- what holds whether the scans see the queue or not ---------------------------------

  ghost predicate Frame(m: MoveState, l: seq<nat>) {
    FreeList(m.regs, l) && Held(m.queue, m.regs, l) && DistinctTargets(m.queue) && AllInFile(m.code)
  }

  /** A target that has been loaded. */
  ghost predicate Done(m: MoveState, l: seq<nat>, t: nat) {
    t < MAX_REGS && Taken(l, t) && |m.regs.arr| == MAX_REGS && m.regs.arr[t] == NVAR && !Pending(m.queue, t)
  }

  lemma FixedOne(m: MoveState, l: seq<nat>, t: nat)
    requires Done(m, l, t)
    ensures Fixed(m.regs, l, map[t := NilValue], {})
  {
    hide Taken;
  }

  lemma DoneAgain(m: MoveState, l: seq<nat>, t: nat)
    requires Fixed(m.regs, l, map[t := NilValue], {}) && !Pending(m.queue, t)
    ensures Done(m, l, t)
  {
    hide Taken;
    assert t in map[t := NilValue];
  }

  lemma RestDistinct(q: seq<Move>, y: Move)
    requires q != [] && DistinctTargets(q) && y.target == q[0].target
    ensures DistinctTargets(q[1..]) && DistinctTargets(q[1..] + [y])
  {
  }

  lemma FrameDrop(m: MoveState, l: seq<nat>, t: nat)
    requires Frame(m, l) && m.queue != [] && Done(m, l, t)
    ensures var m1 := m.(queue := m.queue[1..], bottom := (m.bottom + 1) % INST_QUEUE_SIZE); Frame(m1, l) && Done(m1, l, t)
  {
    hide Taken, FreeList, Held;
    RestHeld(m.queue, m.regs, l);
    RestDistinct(m.queue, m.queue[0]);
    PendingSplit(m.queue, t);
  }

  lemma FrameEmit(m: MoveState, l: seq<nat>, t: nat, file: seq<Value>) returns (l1: seq<nat>)
    requires Frame(m, l) && m.queue != [] && Done(m, l, t) && CanStep(m) && |file| == MAX_REGS
    ensures Frame(Emit(m, m.queue[1..], m.queue[0]), l1) && Done(Emit(m, m.queue[1..], m.queue[0]), l1, t)
    ensures Exec(file, Emit(m, m.queue[1..], m.queue[0]).code)[t] == Exec(file, m.code)[t]
  {
    hide Taken, FreeList, Held, Exec, Done, Release, Fixed;
    RestHeld(m.queue, m.regs, l);
    RestDistinct(m.queue, m.queue[0]);
    DoneSplit(m, l, t);
    ExecOne(file, m.code, m.queue[0]);
    FixedOne(m, l, t);
    l1 := l;
    if m.queue[0].load.Reg? {
      l1 := RestReleased(m.queue, m.regs, l, map[t := NilValue], {});
    }
    DoneAgain(Emit(m, m.queue[1..], m.queue[0]), l1, t);
  }

  lemma DoneSplit(m: MoveState, l: seq<nat>, t: nat)
    requires Done(m, l, t) && m.queue != []
    ensures t < MAX_REGS && t != m.queue[0].target && !Pending(m.queue[1..], t) && Taken(l, t)
  {
    PendingSplit(m.queue, t);
  }

  lemma FrameRequeue(m: MoveState, l: seq<nat>, t: nat)
    requires Frame(m, l) && m.queue != [] && Done(m, l, t)
    ensures var m1 := Requeue(m, m.queue[1..], m.queue[0]); Frame(m1, l) && Done(m1, l, t)
  {
    hide Taken, FreeList, Held;
    RequeueHeld(m.queue, m.regs, l);
    RestDistinct(m.queue, m.queue[0]);
    DoneSplit(m, l, t);
    AppendPending(m.queue[1..], m.queue[0], t);
  }

  lemma FrameTemp(m: MoveState, l: seq<nat>, t: nat, file: seq<Value>) returns (l1: seq<nat>)
    requires Frame(m, l) && m.queue != [] && Done(m, l, t) && CanStep(m) && |file| == MAX_REGS
    requires m.queue[0].load.Reg? && m.queue[0].load.r != m.queue[0].target && Get(m.regs, TVAR) != None
    ensures |Get(m.regs, TVAR).value.regs.arr| == MAX_REGS
    ensures var m1 := ViaTemp(m, m.queue[1..], m.queue[0], Get(m.regs, TVAR).value);
      (Frame(m1, l1) && Done(m1, l1, t) && Exec(file, m1.code)[t] == Exec(file, m.code)[t])
  {
    hide Taken, FreeList, Held, Exec, Done, Release, Fixed, Get;
    var x, rest, got := m.queue[0], m.queue[1..], Get(m.regs, TVAR).value;
    GetIsFree(m.regs, l, TVAR);
    HeadFacts(m.regs, l);
    HeadFacts(got.regs, AfterGet(l));
    DoneSplit(m, l, t);
    FixedOne(m, l, t);
    RegsCarry(m.queue, m.regs, l, got.regs, AfterGet(l), map[t := NilValue], {});
    l1 := RestReleased(m.queue, got.regs, AfterGet(l), map[t := NilValue], {});
    FrontHeld(m.queue, m.regs, l);
    RestHeld(m.queue, m.regs, l);
    NotHandedOut(rest, m.regs, l, got.reg);
    AppendHeld(rest, Move(Reg(got.reg), x.target), Release(got.regs, x.load.r, TVAR), l1);
    RestDistinct(m.queue, Move(Reg(got.reg), x.target));
    AppendPending(rest, Move(Reg(got.reg), x.target), t);
    ExecOne(file, m.code, Move(x.load, got.reg));
    DoneAgain(ViaTemp(m, rest, x, got), l1, t);
  }

  lemma FrontHeld(q: seq<Move>, r: RegStat, l: seq<nat>)
    requires Held(q, r, l) && q != []
    ensures HeldAt(q, r, l, 0)
  {
  }

  lemma FrameStep(m: MoveState, l: seq<nat>, t: nat, file: seq<Value>) returns (l1: seq<nat>)
    requires Frame(m, l) && Done(m, l, t) && CanStep(m) && Step(m) != None && |file| == MAX_REGS
    ensures Frame(Step(m).value, l1) && Done(Step(m).value, l1, t)
    ensures Exec(file, Step(m).value.code)[t] == Exec(file, m.code)[t]
  {
    hide Exec, Done, Frame, Step, Get, Release, Seen, NoSource, NoTarget, DistinctTargets;
    StepIs(m);
    var x, rest := m.queue[0], m.queue[1..];
    var b := (m.bottom + 1) % INST_QUEUE_SIZE;
    l1 := l;
    FrameCode(m, l);
    if x.load == Reg(x.target) {
      FrameDrop(m, l, t);
      DoneBound(m, l, t);
    } else if NoSource(Seen(rest, b), x.target) {
      l1 := FrameEmit(m, l, t, file);
    } else if x.load.Reg? && !NoTarget(Seen(rest, b), x.load.r) {
      l1 := FrameTemp(m, l, t, file);
    } else {
      FrameRequeue(m, l, t);
      DoneBound(m, l, t);
    }
  }

  lemma FrameCode(m: MoveState, l: seq<nat>)
    requires Frame(m, l)
    ensures AllInFile(m.code)
  {
  }

  lemma DoneBound(m: MoveState, l: seq<nat>, t: nat)
    requires Done(m, l, t)
    ensures t < MAX_REGS
  {
  }

  /** A target that has been loaded keeps its value to the end. */
  lemma {:induction false} Frozen(m0: MoveState, turns: nat, more: nat, m: MoveState, l: seq<nat>, t: nat, file: seq<Value>) returns (l1: seq<nat>)
    requires Run(m0, turns) == Some(m) && Frame(m, l) && Done(m, l, t) && |file| == MAX_REGS
    ensures AllInFile(m.code) && t < MAX_REGS
    ensures Run(m0, turns + more) != None ==>
      var m1 := Run(m0, turns + more).value; Frame(m1, l1) && Done(m1, l1, t) && Exec(file, m1.code)[t] == Exec(file, m.code)[t]
  {
    hide Exec, Done, Frame, Step, CanStep;
    FrameCode(m, l);
    DoneBound(m, l, t);
    if more == 0 {
      l1 := l;
    } else {
      l1 := Frozen(m0, turns, more - 1, m, l, t, file);
      var before := Run(m0, turns + (more - 1));
      if before != None && CanStep(before.value) && Step(before.value) != None {
        l1 := FrameStep(before.value, l1, t, file);
      }
    }
  }

  // ---- a cycle of 124 registers ----------------------------------------------------------

  const CYCLE: nat := 124

  /** Register 1 to 2, 2 to 3, ..., 124 to 1, and nil into every further argument register. */
  function Cycle(n: nat): (q: seq<Move>)
    ensures |q| == n
  {
    seq(n, i requires 0 <= i < n => if i < CYCLE - 1 then Move(Reg(i + 1), i + 2) else if i == CYCLE - 1 then Move(Reg(CYCLE), 1) else Move(Nil, i + 1))
  }

  function Tokens(): (file: seq<Value>)
    ensures |file| == MAX_REGS && forall i :: 0 <= i < MAX_REGS ==> file[i] == Token(i)
  {
    seq(MAX_REGS, i requires 0 <= i => Token(i))
  }

  ghost function Frontier(n: nat, j: nat): seq<nat> { [n + 1 + j] }

  /** The registers after reg_init for n arguments and j temporaries. */
  ghost predicate Plain(r: RegStat, n: nat, j: nat) {
    n + 1 + j < MAX_REGS && FreeList(r, Frontier(n, j)) && forall x: nat :: x <= n ==> r.arr[x] == NVAR
  }

  /** j moves of the cycle have gone through a temporary. */
  ghost predicate Unwound(m: MoveState, n: nat, j: nat) {
    && CYCLE <= n && j <= CYCLE - 2 && m.bottom == FIRST_SLOT + j && |m.queue| == n
    && (forall i :: 0 <= i < n - j ==> m.queue[i] == Cycle(n)[i + j])
    && (j > 0 ==> m.queue[n - 1].target == j + 1)
    && Plain(m.regs, n, j) && Frame(m, Frontier(n, j))
    && forall x: nat :: x <= n ==> Exec(Tokens(), m.code)[x] == Token(x)
  }

  lemma PlainTaken(r: RegStat, n: nat, j: nat)
    requires Plain(r, n, j)
    ensures |r.arr| == MAX_REGS && r.free == n + 1 + j < MAX_REGS && r.arr[r.free] == 0
    ensures forall x: nat :: x <= n ==> Taken(Frontier(n, j), x)
    ensures forall x: nat :: x <= n ==> r.arr[x] == NVAR
    ensures FreeList(r, Frontier(n, j))
    ensures Get(r, TVAR) == if n + 2 + j < MAX_REGS then Some(Got(RegStat(r.arr[n + 2 + j := 0][n + 1 + j := TVAR], n + 2 + j), n + 1 + j)) else None
  {
  }

  lemma CycleSchedulable(r: RegStat, n: nat)
    requires Plain(r, n, 0) && CYCLE <= n
    ensures Schedulable(Cycle(n), r, Frontier(n, 0))
  {
    PlainTaken(r, n, 0);
    var q := Cycle(n);
    forall i | 0 <= i < n ensures HeldAt(q, r, Frontier(n, 0), i) {
      assert Taken(Frontier(n, 0), q[i].target);
      if q[i].load.Reg? { assert Taken(Frontier(n, 0), q[i].load.r); }
    }
  }

  lemma CycleStart(r: RegStat, n: nat)
    requires Plain(r, n, 0) && CYCLE <= n
    ensures Unwound(Begin(Cycle(n), r), n, 0)
  {
    hide Taken, FreeList;
    CycleSchedulable(r, n);
  }

  /** While the scans still see the queue the next move of the cycle needs a temporary. */
  lemma UnwindStep(m: MoveState, n: nat, j: nat)
    requires Unwound(m, n, j) && n + j < INST_QUEUE_SIZE - FIRST_SLOT && j < CYCLE - 2
    ensures CanStep(m) && Step(m) != None && Unwound(Step(m).value, n, j + 1)
  {
    hide Taken, FreeList, Held, Exec, Get, Release, Plain;
    PlainTaken(m.regs, n, j);
    HeldInFile(m.queue, m.regs, Frontier(n, j));
    StepIs(m);
    var x, rest := m.queue[0], m.queue[1..];
    assert x == Cycle(n)[j] && rest[0] == m.queue[1] == Cycle(n)[j + 1];
    assert rest[if j > 0 then n - 2 else CYCLE - 2] == m.queue[if j > 0 then n - 1 else CYCLE - 1];
    UnwoundNext(m, n, j);
  }

  lemma UnwoundNext(m: MoveState, n: nat, j: nat)
    requires Unwound(m, n, j) && n + j < INST_QUEUE_SIZE - FIRST_SLOT && j < CYCLE - 2 && m.queue[0] == Move(Reg(j + 1), j + 2)
    requires Get(m.regs, TVAR) != None
    ensures |Get(m.regs, TVAR).value.regs.arr| == MAX_REGS
    ensures Unwound(ViaTemp(m, m.queue[1..], m.queue[0], Get(m.regs, TVAR).value), n, j + 1)
  {
    hide Taken, FreeList, Held, Exec, Get, Release, Plain, DistinctTargets;
    PlainTaken(m.regs, n, j);
    var x, rest, got := m.queue[0], m.queue[1..], Get(m.regs, TVAR).value;
    var l := Frontier(n, j);
    NextPlain(m.regs, n, j);
    PlainTaken(got.regs, n, j + 1);
    NextHeld(m, n, j);
    ExecOne(Tokens(), m.code, Move(x.load, got.reg));
    RestDistinct(m.queue, Move(Reg(got.reg), x.target));
    forall i | 0 <= i < n - (j + 1) ensures (rest + [Move(Reg(got.reg), x.target)])[i] == Cycle(n)[i + j + 1] {
      assert rest[i] == m.queue[i + 1] == Cycle(n)[i + 1 + j];
    }
  }

  lemma NextPlain(r: RegStat, n: nat, j: nat)
    requires Plain(r, n, j) && Get(r, TVAR) != None && j + 1 <= n
    ensures var got := Get(r, TVAR).value;
      (got.reg == n + 1 + j && |got.regs.arr| == MAX_REGS && Release(got.regs, j + 1, TVAR) == got.regs && Plain(got.regs, n, j + 1))
  {
    hide Taken, FreeList, Get;
    PlainTaken(r, n, j);
    GetIsFree(r, Frontier(n, j), TVAR);
  }

  lemma NextHeld(m: MoveState, n: nat, j: nat)
    requires Unwound(m, n, j) && j < CYCLE - 2 && m.queue[0] == Move(Reg(j + 1), j + 2) && Get(m.regs, TVAR) != None
    ensures var got := Get(m.regs, TVAR).value;
      (|got.regs.arr| == MAX_REGS && Held(m.queue[1..] + [Move(Reg(got.reg), j + 2)], got.regs, Frontier(n, j + 1)))
  {
    hide Taken, FreeList, Exec, Get, Release, DistinctTargets, Plain;
    PlainTaken(m.regs, n, j);
    NextPlain(m.regs, n, j);
    PlainTaken(Get(m.regs, TVAR).value.regs, n, j + 1);
    var x, rest, got, l := m.queue[0], m.queue[1..], Get(m.regs, TVAR).value, Frontier(n, j);
    GetIsFree(m.regs, l, TVAR);
    RegsOnly(m.queue, m.regs, l, got.regs, AfterGet(l));
    RestHeld(m.queue, got.regs, AfterGet(l));
    RestHeld(m.queue, m.regs, l);
    NotHandedOut(rest, m.regs, l, got.reg);
    AppendHeld(rest, Move(Reg(got.reg), j + 2), got.regs, AfterGet(l));
  }

  lemma RegsOnly(q: seq<Move>, r: RegStat, l: seq<nat>, r1: RegStat, l1: seq<nat>)
    requires Held(q, r, l) && |r1.arr| == |r.arr|
    requires forall y: nat :: Taken(l, y) ==> Taken(l1, y) && y < MAX_REGS && r1.arr[y] == r.arr[y]
    ensures Held(q, r1, l1)
  {
    hide Taken;
    RegsCarry(q, r, l, r1, l1, map[], {});
  }

  // ---- the scans are blind ---------------------------------------------------------------

  /** Two moves of the cycle that follow one another are carried out in the wrong order. */
  lemma BlindTurns(m: MoveState, n: nat, j: nat) returns (m1: MoveState, m2: MoveState)
    requires Unwound(m, n, j) && n + j >= INST_QUEUE_SIZE - FIRST_SLOT
    ensures CanStep(m) && Step(m) == Some(m1) && CanStep(m1) && Step(m1) == Some(m2) && |m2.queue| == n - 2
    ensures m1 == Emit(m, m.queue[1..], m.queue[0]) && m2 == Emit(m1, m1.queue[1..], m1.queue[0])
    ensures m.queue[0] == Cycle(n)[j] && m1.queue[0] == Cycle(n)[j + 1]
  {
    hide Taken, FreeList, Held, Exec, Get, Plain, DistinctTargets, Step, Release;
    PlainTaken(m.regs, n, j);
    HeldInFile(m.queue, m.regs, Frontier(n, j));
    assert m.queue[0] == Cycle(n)[0 + j] && m.queue[1] == Cycle(n)[1 + j];
    BlindTurn(m);
    m1 := Emit(m, m.queue[1..], m.queue[0]);
    NothingReleased(m.regs, n, j);
    BlindTurn(m1);
    m2 := Emit(m1, m1.queue[1..], m1.queue[0]);
  }

  lemma BlindTurn(m: MoveState)
    requires CanStep(m) && m.bottom < INST_QUEUE_SIZE - 1 && m.bottom + |m.queue| >= INST_QUEUE_SIZE && m.queue[0].load != Reg(m.queue[0].target)
    ensures Step(m) == Some(Emit(m, m.queue[1..], m.queue[0]))
  {
  }

  lemma NothingReleased(r: RegStat, n: nat, j: nat)
    requires Plain(r, n, j)
    ensures |r.arr| == MAX_REGS && forall x: nat :: x <= n ==> Release(r, x, TVAR) == r
  {
  }

  /** After them a register holds what its source held a move too late. */
  lemma BlindValues(m: MoveState, n: nat, j: nat, m1: MoveState, m2: MoveState)
    requires Unwound(m, n, j) && CanStep(m) && CanStep(m1)
    requires m1 == Emit(m, m.queue[1..], m.queue[0]) && m2 == Emit(m1, m1.queue[1..], m1.queue[0])
    requires m.queue[0] == Cycle(n)[j] && m1.queue[0] == Cycle(n)[j + 1]
    ensures var t := Cycle(n)[j + 1].target;
      (t < MAX_REGS && AllInFile(m2.code) && Exec(Tokens(), m2.code)[t] == Token(j + 1) != Fetch(Tokens(), Cycle(n)[j + 1]))
  {
    hide Taken, FreeList, Held, Exec, Get, Plain, DistinctTargets, Release;
    ExecOne(Tokens(), m.code, m.queue[0]);
    ExecOne(Tokens(), m1.code, m1.queue[0]);
  }

  lemma BlindDone(m: MoveState, n: nat, j: nat, m1: MoveState, m2: MoveState)
    requires Unwound(m, n, j) && CanStep(m) && CanStep(m1)
    requires m1 == Emit(m, m.queue[1..], m.queue[0]) && m2 == Emit(m1, m1.queue[1..], m1.queue[0])
    requires m.queue[0] == Cycle(n)[j] && m1.queue[0] == Cycle(n)[j + 1]
    ensures Frame(m2, Frontier(n, j)) && Done(m2, Frontier(n, j), Cycle(n)[j + 1].target)
  {
    hide Taken, FreeList, Exec, Get, Plain, Release, Held;
    PlainTaken(m.regs, n, j);
    NothingReleased(m.regs, n, j);
    RestHeld(m.queue, m.regs, Frontier(n, j));
    RestHeld(m1.queue, m.regs, Frontier(n, j));
    RestDistinct(m.queue, m.queue[0]);
    RestDistinct(m1.queue, m1.queue[0]);
  }

  // ---- all turns of the cycle --------------------------------------------------------------

  function Sighted(n: nat): nat {
    if n + FIRST_SLOT < INST_QUEUE_SIZE then INST_QUEUE_SIZE - FIRST_SLOT - n else 0
  }

  lemma {:induction false} Unwinding(r: RegStat, n: nat, j: nat)
    requires Plain(r, n, 0) && CYCLE <= n && j <= Sighted(n)
    ensures Run(Begin(Cycle(n), r), j) != None && Unwound(Run(Begin(Cycle(n), r), j).value, n, j)
  {
    hide Plain, Unwound, Cycle, Step, CanStep;
    if j == 0 {
      CycleStart(r, n);
    } else {
      Unwinding(r, n, j - 1);
      UnwindStep(Run(Begin(Cycle(n), r), j - 1).value, n, j - 1);
    }
  }

  /** For 124 or more argument registers there are moves that are not carried out in parallel. */
  lemma CycleFails(r: RegStat, n: nat, turns: nat)
    requires Plain(r, n, 0) && CYCLE <= n
    requires Run(Begin(Cycle(n), r), turns) != None && Run(Begin(Cycle(n), r), turns).value.queue == []
    ensures Schedulable(Cycle(n), r, Frontier(n, 0))
    ensures !InParallel(Cycle(n), r, Frontier(n, 0), Run(Begin(Cycle(n), r), turns).value.code, Tokens())
  {
    hide Plain, Cycle, Step, CanStep, Run, Exec, Frame, Done, Fetch, Lasting;
    CycleSchedulable(r, n);
    var j := Sighted(n);
    var m0 := Begin(Cycle(n), r);
    Unwinding(r, n, j);
    var m := Run(m0, j).value;
    var m1, m2 := BlindTurns(m, n, j);
    BlindValues(m, n, j, m1, m2);
    BlindDone(m, n, j, m1, m2);
    RunMore(m0, j, m);
    RunMore(m0, j + 1, m1);
    NotYet(r, n, turns, j, m, m1);
    var l1 := Frozen(m0, j + 2, turns - (j + 2), m2, Frontier(n, j), Cycle(n)[j + 1].target, Tokens());
    assert j + 2 + (turns - (j + 2)) == turns;
  }

  /** The queue cannot be empty before turn j + 2. */
  lemma NotYet(r: RegStat, n: nat, turns: nat, j: nat, m: MoveState, m1: MoveState)
    requires Plain(r, n, 0) && CYCLE <= n && j == Sighted(n)
    requires Run(Begin(Cycle(n), r), turns) != None && Run(Begin(Cycle(n), r), turns).value.queue == []
    requires Run(Begin(Cycle(n), r), j + 1) == Some(m1) && m1.queue != []
    ensures turns >= j + 2
  {
    hide Plain, Cycle, Step, CanStep, Run;
    if turns <= j {
      Unwinding(r, n, turns);
    }
  }

  // ---- the exact limit ---------------------------------------------------------------------

  /** The queue runs empty, and what has been emitted loads all targets at once. */
  ghost predicate FinishesRight(items: seq<Move>, r: RegStat, l: seq<nat>, turns: nat) {
    && Run(Begin(items, r), turns) != None && Run(Begin(items, r), turns).value.queue == []
    && forall file: seq<Value> :: |file| == MAX_REGS ==> InParallel(items, r, l, Run(Begin(items, r), turns).value.code, file)
  }

  ghost predicate Right(items: seq<Move>, r: RegStat, l: seq<nat>) {
    exists turns: nat :: FinishesRight(items, r, l, turns)
  }

  lemma Finishes(m0: MoveState, turns: nat, m: MoveState, l: seq<nat>, k: nat, file: seq<Value>, want: map<nat, Value>, kept: set<nat>, n: nat, room: int)
    returns (last: nat)
    requires Run(m0, turns) == Some(m) && Sound(m, l, k, file, want, kept) && Budget(m, l, k, n, room) && n <= 123 && room >= n - 1
    ensures Run(m0, last) != None && Run(m0, last).value.queue == []
    decreases k, |m.queue|
  {
    hide Sound, Budget, Step, CanStep, Run;
    last := turns;
    if m.queue != [] {
      var l1, k1 := TurnSound(m, l, k, file, want, kept, n, room);
      RunMore(m0, turns, m);
      last := Finishes(m0, turns + 1, Step(m).value, l1, k1, file, want, kept, n, room);
    }
  }

  lemma UpTo123(items: seq<Move>, r: RegStat, n: nat)
    requires Plain(r, n, 0) && |items| == n <= 123 && Schedulable(items, r, Frontier(n, 0))
    ensures Right(items, r, Frontier(n, 0))
  {
    hide Plain, Schedulable, Sound, Budget, Run, InParallel, AllLasting, WantOf;
    var l := Frontier(n, 0);
    BeginTurns(items, r, l, Tokens());
    var turns := Finishes(Begin(items, r), 0, Begin(items, r), l, n, Tokens(), WantOf(items, Tokens()), AllLasting(items, r, l), n, Capacity(l));
    forall file: seq<Value> | |file| == MAX_REGS ensures InParallel(items, r, l, Run(Begin(items, r), turns).value.code, file) {
      RunIsParallel(items, r, l, file, turns);
    }
    assert FinishesRight(items, r, l, turns);
  }

  /** With n argument registers every list of n moves is carried out as if at once exactly when
      n is at most 123. */
  lemma LimitIs123(n: nat, r: RegStat)
    requires Plain(r, n, 0)
    ensures (forall items: seq<Move> :: |items| == n && Schedulable(items, r, Frontier(n, 0)) ==> Right(items, r, Frontier(n, 0))) <==> n <= 123
  {
    hide Plain, Schedulable, InParallel, Run, Cycle;
    if n <= 123 {
      forall items: seq<Move> | |items| == n && Schedulable(items, r, Frontier(n, 0)) ensures Right(items, r, Frontier(n, 0)) {
        UpTo123(items, r, n);
      }
    } else {
      CycleSchedulable(r, n);
      var items := Cycle(n);
      if Right(items, r, Frontier(n, 0)) {
        var turns: nat :| FinishesRight(items, r, Frontier(n, 0), turns);
        CycleFails(r, n, turns);
      }
      assert !Right(items, r, Frontier(n, 0));
    }
  }
}
