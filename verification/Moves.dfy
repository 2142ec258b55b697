/** Scheduling the loads of the argument registers before a call
    (XSB/emu/biassert.c, db_genmvs with its two scans). */
module Moves {
  import opened Registers
  import opened InstQueue

  /** What an argument register is to be loaded with. */
  datatype Load = Fresh | Nil | Con(c: nat) | Num(n: int) | Reg(r: nat)

  /** An entry of the queue, and also an instruction: put the load into the target. */
  datatype Move = Move(load: Load, target: nat)

  datatype Value = Token(x: nat) | NilValue | Atom(c: nat) | Number(n: int) | Unbound(t: nat)

  // ---- running the instructions --------------------------------------------------------

  predicate InFile(m: Move) {
    m.target < MAX_REGS && (m.load.Reg? ==> m.load.r < MAX_REGS)
  }

  predicate AllInFile(q: seq<Move>) {
    forall i :: 0 <= i < |q| ==> InFile(q[i])
  }

  /** The value m delivers when the registers hold file. */
  function Fetch(file: seq<Value>, m: Move): Value
    requires |file| == MAX_REGS && InFile(m)
  {
    match m.load
    case Fresh => Unbound(m.target)
    case Nil => NilValue
    case Con(c) => Atom(c)
    case Num(n) => Number(n)
    case Reg(r) => file[r]
  }

  function Exec(file: seq<Value>, code: seq<Move>): (r: seq<Value>)
    requires |file| == MAX_REGS && AllInFile(code)
    ensures |r| == MAX_REGS
  {
    if code == [] then file
    else
      var before := Exec(file, code[..|code| - 1]);
      before[code[|code| - 1].target := Fetch(before, code[|code| - 1])]
  }

  lemma ExecOne(file: seq<Value>, code: seq<Move>, m: Move)
    requires |file| == MAX_REGS && AllInFile(code) && InFile(m)
    ensures AllInFile(code + [m])
    ensures Exec(file, code + [m]) == Exec(file, code)[m.target := Fetch(Exec(file, code), m)]
  {
    assert (code + [m])[..|code|] == code;
  }

  // ---- one turn of the loop ------------------------------------------------------------

  datatype MoveState = MoveState(queue: seq<Move>, bottom: nat, regs: RegStat, code: seq<Move>)

  predicate NoSource(q: seq<Move>, r: nat) {
    forall i :: 0 <= i < |q| ==> q[i].load != Reg(r)
  }

  predicate NoTarget(q: seq<Move>, r: nat) {
    forall i :: 0 <= i < |q| ==> q[i].target != r
  }

  function Emit(m: MoveState, rest: seq<Move>, x: Move): MoveState
    requires x.load.Reg? ==> x.load.r < |m.regs.arr|
  {
    MoveState(rest, (m.bottom + 1) % INST_QUEUE_SIZE, if x.load.Reg? then Release(m.regs, x.load.r, TVAR) else m.regs, m.code + [x])
  }

  function Requeue(m: MoveState, rest: seq<Move>, x: Move): MoveState {
    MoveState(rest + [x], (m.bottom + 1) % INST_QUEUE_SIZE, m.regs, m.code)
  }

  /** One register of a cycle is saved in a temporary. */
  function ViaTemp(m: MoveState, rest: seq<Move>, x: Move, got: Got): MoveState
    requires x.load.Reg? && x.load.r < |got.regs.arr|
  {
    MoveState(rest + [Move(Reg(got.reg), x.target)], (m.bottom + 1) % INST_QUEUE_SIZE,
              Release(got.regs, x.load.r, TVAR), m.code + [Move(x.load, got.reg)])
  }

  predicate CanStep(m: MoveState) {
    m.queue != [] && 0 <= m.regs.free < |m.regs.arr| == MAX_REGS && AllInFile(m.queue)
  }

  /** None is the error that no register is left. */
  function Step(m: MoveState): Option<MoveState>
    requires CanStep(m)
  {
    var x, rest := m.queue[0], m.queue[1..];
    var seen := Seen(rest, (m.bottom + 1) % INST_QUEUE_SIZE);
    if x.load == Reg(x.target) then Some(MoveState(rest, (m.bottom + 1) % INST_QUEUE_SIZE, m.regs, m.code))
    else if NoSource(seen, x.target) then Some(Emit(m, rest, x))
    else if !x.load.Reg? || NoTarget(seen, x.load.r) then Some(Requeue(m, rest, x))
    else
      var got := Get(m.regs, TVAR);
      if got == None then None else Some(ViaTemp(m, rest, x, got.value))
  }

  // ---- what every turn keeps -----------------------------------------------------------

  /** Sources and targets are in use; targets are never freed, and an introduced source feeds one move. */
  ghost predicate HeldAt(q: seq<Move>, r: RegStat, l: seq<nat>, i: nat)
    requires i < |q| && |r.arr| == MAX_REGS
  {
    && 0 < q[i].target < MAX_REGS && Taken(l, q[i].target) && r.arr[q[i].target] == NVAR
    && (q[i].load.Reg? ==>
          && 0 < q[i].load.r < MAX_REGS && Taken(l, q[i].load.r)
          && (r.arr[q[i].load.r] == TVAR ==> forall j :: 0 <= j < |q| && j != i ==> q[j].load != q[i].load))
  }

  ghost predicate Held(q: seq<Move>, r: RegStat, l: seq<nat>) {
    |r.arr| == MAX_REGS && forall i :: 0 <= i < |q| ==> HeldAt(q, r, l, i)
  }

  predicate DistinctTargets(q: seq<Move>) {
    forall i, j :: 0 <= i < j < |q| ==> q[i].target != q[j].target
  }

  /** From k on the moves have been put back; nothing pending writes what they read. */
  predicate PutBack(q: seq<Move>, k: nat) {
    k <= |q| && forall i, j :: k <= j < |q| && 0 <= i < |q| && i != j ==> q[j].load != Reg(q[i].target)
  }

  predicate Pending(q: seq<Move>, t: nat) {
    exists i :: 0 <= i < |q| && q[i].target == t
  }

  ghost predicate Values(q: seq<Move>, cur: seq<Value>, want: map<nat, Value>) {
    && |cur| == MAX_REGS && AllInFile(q)
    && (forall i :: 0 <= i < |q| ==> q[i].target in want && Fetch(cur, q[i]) == want[q[i].target])
    && (forall t: nat :: t in want && !Pending(q, t) ==> t < MAX_REGS && cur[t] == want[t])
  }

  /** Every register that is wanted, or to be kept, stays in use. */
  ghost predicate Fixed(r: RegStat, l: seq<nat>, want: map<nat, Value>, kept: set<nat>) {
    && |r.arr| == MAX_REGS
    && (forall t: nat :: t in want ==> Taken(l, t) && t < MAX_REGS && r.arr[t] == NVAR)
    && (forall x: nat :: x in kept ==> Taken(l, x) && x < MAX_REGS && r.arr[x] != TVAR && x !in want)
  }

  ghost predicate KeptAre(kept: set<nat>, cur: seq<Value>, file: seq<Value>) {
    |cur| == |file| == MAX_REGS && forall x: nat :: x in kept ==> x < MAX_REGS && cur[x] == file[x]
  }

  ghost predicate Sound(m: MoveState, l: seq<nat>, k: nat, file: seq<Value>, want: map<nat, Value>, kept: set<nat>) {
    && |file| == MAX_REGS && AllInFile(m.code)
    && FreeList(m.regs, l) && Held(m.queue, m.regs, l) && DistinctTargets(m.queue) && PutBack(m.queue, k)
    && Values(m.queue, Exec(file, m.code), want) && Fixed(m.regs, l, want, kept)
    && KeptAre(kept, Exec(file, m.code), file)
  }

  /** How many more registers can be handed out. */
  function Capacity(l: seq<nat>): int
    requires l != []
  {
    |l| - 1 + (MAX_REGS - 1 - l[|l| - 1])
  }

  lemma SoundCanStep(m: MoveState, l: seq<nat>, k: nat, file: seq<Value>, want: map<nat, Value>, kept: set<nat>)
    requires Sound(m, l, k, file, want, kept) && m.queue != []
    ensures CanStep(m) && l != []
  {
    hide Taken;
    HeadFacts(m.regs, l);
  }

  // ---- the first move leaves the queue -------------------------------------------------

  lemma RestHeld(q: seq<Move>, r: RegStat, l: seq<nat>)
    requires q != [] && Held(q, r, l)
    ensures Held(q[1..], r, l)
  {
    hide Taken;
    var rest := q[1..];
    forall i | 0 <= i < |rest| ensures HeldAt(rest, r, l, i) {
      assert HeldAt(q, r, l, i + 1) && rest[i] == q[i + 1];
    }
  }

  lemma RestPutBack(q: seq<Move>, k: nat)
    requires q != [] && PutBack(q, k) && DistinctTargets(q)
    ensures PutBack(q[1..], if k > 0 then k - 1 else 0) && DistinctTargets(q[1..])
  {
  }

  /** A move with target t has been carried out or needs nothing. */
  lemma RestValues(q: seq<Move>, cur: seq<Value>, cur1: seq<Value>, want: map<nat, Value>)
    requires q != [] && Values(q, cur, want) && |cur1| == MAX_REGS
    requires cur1[q[0].target] == want[q[0].target]
    requires forall x: nat :: x < MAX_REGS && x != q[0].target ==> cur1[x] == cur[x]
    requires cur1 == cur || NoSource(q[1..], q[0].target)
    ensures Values(q[1..], cur1, want)
  {
    var rest, x := q[1..], q[0];
    forall i | 0 <= i < |rest| ensures InFile(rest[i]) && rest[i].target in want && Fetch(cur1, rest[i]) == want[rest[i].target] {
      assert rest[i] == q[i + 1] && InFile(q[i + 1]);
    }
    forall t: nat | t in want && !Pending(rest, t) ensures t < MAX_REGS && cur1[t] == want[t] {
      PendingSplit(q, t);
    }
  }

  lemma PendingSplit(q: seq<Move>, t: nat)
    requires q != []
    ensures Pending(q, t) <==> q[0].target == t || Pending(q[1..], t)
  {
    assert q == [q[0]] + q[1..];
    if i :| 0 <= i < |q[1..]| && q[1..][i].target == t { assert q[i + 1].target == t; }
  }

  /** The source of the first move is released once it has been copied. */
  lemma RestReleased(q: seq<Move>, r: RegStat, l: seq<nat>, want: map<nat, Value>, kept: set<nat>) returns (l1: seq<nat>)
    requires q != [] && q[0].load.Reg? && Held(q, r, l) && FreeList(r, l) && Fixed(r, l, want, kept)
    ensures q[0].load.r < |r.arr| && l != []
    ensures var r1 := Release(r, q[0].load.r, TVAR); FreeList(r1, l1) && Held(q[1..], r1, l1) && Fixed(r1, l1, want, kept)
    ensures l1 != [] && Capacity(l1) >= Capacity(l)
    ensures forall z: nat :: Taken(l, z) && z != q[0].load.r ==>
      Taken(l1, z) && z < MAX_REGS && Release(r, q[0].load.r, TVAR).arr[z] == r.arr[z]
  {
    hide FreeList, Taken, DistinctTargets;
    var a := q[0].load.r;
    assert HeldAt(q, r, l, 0);
    ReleaseFrees(r, l, a, TVAR);
    HeadFacts(r, l);
    l1 := if r.arr[a] == TVAR then [a] + l else l;
    TakenBelow(r, l);
    var r1, rest := Release(r, a, TVAR), q[1..];
    forall z: nat | Taken(l, z) && z != a ensures Taken(l1, z) && z < MAX_REGS && r1.arr[z] == r.arr[z] { }
    forall i | 0 <= i < |rest| ensures HeldAt(rest, r1, l1, i) {
      assert HeldAt(q, r, l, i + 1) && rest[i] == q[i + 1];
      assert rest[i].load.Reg? && r.arr[a] == TVAR ==> rest[i].load != q[0].load;
      forall j | 0 <= j < |rest| && j != i && rest[i].load.Reg? && r.arr[rest[i].load.r] == TVAR ensures rest[j].load != rest[i].load {
        assert rest[j] == q[j + 1];
      }
    }
  }

  // ---- a move goes to the end of the queue ---------------------------------------------

  lemma AppendHeld(q: seq<Move>, y: Move, r: RegStat, l: seq<nat>)
    requires Held(q, r, l) && HeldAt([y], r, l, 0)
    requires y.load.Reg? && r.arr[y.load.r] == TVAR ==> NoSource(q, y.load.r)
    ensures Held(q + [y], r, l)
  {
    hide Taken;
    var q1 := q + [y];
    forall i | 0 <= i < |q1| ensures HeldAt(q1, r, l, i) {
      if i < |q| { assert HeldAt(q, r, l, i) && q1[i] == q[i]; } else { assert q1[i] == y; }
    }
  }

  lemma AppendOrder(q: seq<Move>, y: Move, k: nat)
    requires DistinctTargets(q) && PutBack(q, k) && !Pending(q, y.target)
    requires y.load.Reg? ==> NoTarget(q, y.load.r)
    requires forall i :: k <= i < |q| ==> q[i].load != Reg(y.target)
    ensures DistinctTargets(q + [y]) && PutBack(q + [y], k)
  {
  }

  lemma AppendValues(q: seq<Move>, y: Move, cur: seq<Value>, want: map<nat, Value>)
    requires |cur| == MAX_REGS && AllInFile(q) && InFile(y)
    requires forall i :: 0 <= i < |q| ==> q[i].target in want && Fetch(cur, q[i]) == want[q[i].target]
    requires y.target in want && Fetch(cur, y) == want[y.target]
    requires forall t: nat :: t in want && !Pending(q, t) && t != y.target ==> t < MAX_REGS && cur[t] == want[t]
    ensures Values(q + [y], cur, want)
  {
    var q1 := q + [y];
    forall i | 0 <= i < |q1| ensures InFile(q1[i]) && q1[i].target in want && Fetch(cur, q1[i]) == want[q1[i].target] {
      if i < |q| { assert q1[i] == q[i]; }
    }
    forall t: nat | t in want && !Pending(q1, t) ensures t < MAX_REGS && cur[t] == want[t] {
      AppendPending(q, y, t);
    }
  }

  lemma AppendPending(q: seq<Move>, y: Move, t: nat)
    ensures Pending(q + [y], t) <==> Pending(q, t) || y.target == t
  {
    var q1 := q + [y];
    assert q1[|q|] == y;
    if i :| 0 <= i < |q| && q[i].target == t { assert q1[i].target == t; }
  }

  // ---- the four outcomes of a turn -------------------------------------------------------

  /** What is known about the front move. */
  lemma FrontFacts(m: MoveState, l: seq<nat>, k: nat, file: seq<Value>, want: map<nat, Value>, kept: set<nat>)
    requires Sound(m, l, k, file, want, kept) && m.queue != []
    ensures var x, rest := m.queue[0], m.queue[1..]; var cur := Exec(file, m.code);
      && InFile(x) && 0 < x.target && x.target in want && Fetch(cur, x) == want[x.target] && !Pending(rest, x.target) && x.target !in kept
      && Held(rest, m.regs, l) && DistinctTargets(rest) && PutBack(rest, if k > 0 then k - 1 else 0) && AllInFile(rest)
      && (k == 0 ==> NoSource(rest, x.target)) && (forall i :: 0 <= i < |rest| && k <= i + 1 ==> rest[i].load != Reg(x.target))
      && HeldAt(m.queue, m.regs, l, 0)
  {
    hide Taken, FreeList, Fetch, Exec;
    var x, rest := m.queue[0], m.queue[1..];
    assert HeldAt(m.queue, m.regs, l, 0);
    RestHeld(m.queue, m.regs, l);
    RestPutBack(m.queue, k);
    forall i | 0 <= i < |rest| ensures rest[i] == m.queue[i + 1] { }
  }

  lemma DropSound(m: MoveState, l: seq<nat>, k: nat, file: seq<Value>, want: map<nat, Value>, kept: set<nat>)
    requires Sound(m, l, k, file, want, kept) && m.queue != [] && m.queue[0].load == Reg(m.queue[0].target)
    ensures Sound(m.(queue := m.queue[1..], bottom := (m.bottom + 1) % INST_QUEUE_SIZE), l, if k > 0 then k - 1 else 0, file, want, kept)
  {
    hide Taken, FreeList, Exec, Held, PutBack, DistinctTargets, Fixed, KeptAre;
    FrontFacts(m, l, k, file, want, kept);
    var cur := Exec(file, m.code);
    RestValues(m.queue, cur, cur, want);
  }

  lemma EmitSound(m: MoveState, l: seq<nat>, k: nat, file: seq<Value>, want: map<nat, Value>, kept: set<nat>) returns (l1: seq<nat>)
    requires Sound(m, l, k, file, want, kept) && m.queue != [] && NoSource(m.queue[1..], m.queue[0].target)
    ensures l != [] && l1 != [] && Capacity(l1) >= Capacity(l)
    ensures CanStep(m) && Sound(Emit(m, m.queue[1..], m.queue[0]), l1, if k > 0 then k - 1 else 0, file, want, kept)
  {
    hide Taken, FreeList, Exec, Held, PutBack, DistinctTargets, Fixed, Values, Release;
    SoundCanStep(m, l, k, file, want, kept);
    FrontFacts(m, l, k, file, want, kept);
    var x := m.queue[0];
    var cur := Exec(file, m.code);
    ExecOne(file, m.code, x);
    RestValues(m.queue, cur, cur[x.target := Fetch(cur, x)], want);
    l1 := l;
    if x.load.Reg? {
      l1 := RestReleased(m.queue, m.regs, l, want, kept);
    }
  }

  lemma RequeueSound(m: MoveState, l: seq<nat>, k: nat, file: seq<Value>, want: map<nat, Value>, kept: set<nat>)
    requires Sound(m, l, k, file, want, kept) && m.queue != [] && k > 0
    requires m.queue[0].load.Reg? ==> NoTarget(m.queue[1..], m.queue[0].load.r)
    ensures Sound(Requeue(m, m.queue[1..], m.queue[0]), l, k - 1, file, want, kept)
  {
    hide Taken, FreeList, Exec, Held, PutBack, DistinctTargets, Fixed, KeptAre, Fetch;
    SoundCanStep(m, l, k, file, want, kept);
    FrontFacts(m, l, k, file, want, kept);
    var x, rest := m.queue[0], m.queue[1..];
    var cur := Exec(file, m.code);
    RequeueHeld(m.queue, m.regs, l);
    AppendOrder(rest, x, k - 1);
    forall t: nat | t in want && !Pending(rest, t) && t != x.target ensures t < MAX_REGS && cur[t] == want[t] {
      PendingSplit(m.queue, t);
    }
    AppendValues(rest, x, cur, want);
  }

  lemma RequeueHeld(q: seq<Move>, r: RegStat, l: seq<nat>)
    requires q != [] && Held(q, r, l)
    ensures Held(q[1..] + [q[0]], r, l)
  {
    hide Taken;
    RestHeld(q, r, l);
    assert HeldAt(q, r, l, 0);
    forall i | 0 <= i < |q[1..]| ensures q[1..][i] == q[i + 1] { }
    AppendHeld(q[1..], q[0], r, l);
  }

  lemma RegsCarry(q: seq<Move>, r: RegStat, l: seq<nat>, r1: RegStat, l1: seq<nat>, want: map<nat, Value>, kept: set<nat>)
    requires Held(q, r, l) && Fixed(r, l, want, kept) && |r1.arr| == |r.arr|
    requires forall y: nat :: Taken(l, y) ==> Taken(l1, y) && y < MAX_REGS && r1.arr[y] == r.arr[y]
    ensures Held(q, r1, l1) && Fixed(r1, l1, want, kept)
  {
    hide Taken;
    forall i | 0 <= i < |q| ensures HeldAt(q, r1, l1, i) { assert HeldAt(q, r, l, i); }
  }

  lemma NotHandedOut(q: seq<Move>, r: RegStat, l: seq<nat>, y: nat)
    requires Held(q, r, l) && !Taken(l, y)
    ensures NoSource(q, y) && NoTarget(q, y)
  {
    hide Taken;
    forall i | 0 <= i < |q| ensures q[i].load != Reg(y) && q[i].target != y { assert HeldAt(q, r, l, i); }
  }

  lemma TempValues(q: seq<Move>, cur: seq<Value>, want: map<nat, Value>, r: RegStat, l: seq<nat>, kept: set<nat>, y: nat)
    requires q != [] && Values(q, cur, want) && q[0].load.Reg? && q[0].load.r != y < MAX_REGS
    requires Held(q, r, l) && Fixed(r, l, want, kept) && !Taken(l, y)
    ensures InFile(q[0]) && Values(q[1..] + [Move(Reg(y), q[0].target)], cur[y := Fetch(cur, q[0])], want)
    ensures forall x: nat :: x in kept ==> x != y
  {
    hide Taken, Held, HeldAt;
    var x, rest, cur1 := q[0], q[1..], cur[y := Fetch(cur, q[0])];
    NotHandedOut(q, r, l, y);
    forall i | 0 <= i < |rest| ensures InFile(rest[i]) && rest[i].target in want && Fetch(cur1, rest[i]) == want[rest[i].target] {
      assert rest[i] == q[i + 1];
    }
    forall t: nat | t in want && !Pending(rest, t) && t != x.target ensures t < MAX_REGS && cur1[t] == want[t] {
      PendingSplit(q, t);
    }
    AppendValues(rest, Move(Reg(y), x.target), cur1, want);
  }

  lemma TempSound(m: MoveState, l: seq<nat>, k: nat, file: seq<Value>, want: map<nat, Value>, kept: set<nat>) returns (l1: seq<nat>)
    requires Sound(m, l, k, file, want, kept) && m.queue != [] && k > 0
    requires m.queue[0].load.Reg? && m.queue[0].load.r != m.queue[0].target
    requires CanStep(m) && Get(m.regs, TVAR) != None
    ensures l != [] && l1 != [] && Capacity(l1) >= Capacity(l) - 1
    ensures |Get(m.regs, TVAR).value.regs.arr| == MAX_REGS
    ensures Sound(ViaTemp(m, m.queue[1..], m.queue[0], Get(m.regs, TVAR).value), l1, k - 1, file, want, kept)
  {
    hide Taken, FreeList, Exec, Held, PutBack, DistinctTargets, Fixed, Values, Release, Get, Fetch;
    FrontFacts(m, l, k, file, want, kept);
    GetIsFree(m.regs, l, TVAR);
    var x, rest, got := m.queue[0], m.queue[1..], Get(m.regs, TVAR).value;
    HeadFacts(m.regs, l);
    HeadFacts(got.regs, AfterGet(l));
    RegsCarry(m.queue, m.regs, l, got.regs, AfterGet(l), want, kept);
    l1 := RestReleased(m.queue, got.regs, AfterGet(l), want, kept);
    var cur := Exec(file, m.code);
    ExecOne(file, m.code, Move(x.load, got.reg));
    TempValues(m.queue, cur, want, m.regs, l, kept, got.reg);
    NotHandedOut(rest, m.regs, l, got.reg);
    AppendHeld(rest, Move(Reg(got.reg), x.target), Release(got.regs, x.load.r, TVAR), l1);
    AppendOrder(rest, Move(Reg(got.reg), x.target), k - 1);
    SameFetch(cur, x, got.reg);
  }

  lemma SameFetch(cur: seq<Value>, x: Move, y: nat)
    requires |cur| == MAX_REGS && InFile(x) && x.load.Reg? && y < MAX_REGS
    ensures Fetch(cur, Move(x.load, y)) == Fetch(cur, x)
  {
  }

  // ---- a turn ------------------------------------------------------------------------------

  /** As long as the ring has not wrapped, a turn keeps everything; an original move may go back
      once, except the last one, and a move that was put back is carried out. */
  lemma StepSound(m: MoveState, l: seq<nat>, k: nat, file: seq<Value>, want: map<nat, Value>, kept: set<nat>) returns (l1: seq<nat>, k1: nat)
    requires Sound(m, l, k, file, want, kept) && m.queue != [] && m.bottom + |m.queue| < INST_QUEUE_SIZE
    ensures CanStep(m) && l != [] && l1 != []
    ensures Step(m) == None ==> k > 1 && l == [MAX_REGS - 1]
    ensures Step(m) != None ==>
      var m1 := Step(m).value;
      && Sound(m1, l1, k1, file, want, kept)
      && k1 == (if k > 0 then k - 1 else 0) && (k == 0 ==> |m1.queue| < |m.queue|)
      && m.bottom + |m.queue| <= m1.bottom + |m1.queue| <= m.bottom + |m.queue| + (if k > 1 then 1 else 0)
      && Capacity(l1) >= Capacity(l) - (m1.bottom + |m1.queue| - m.bottom - |m.queue|)
  {
    hide Taken, FreeList, Exec, Held, PutBack, DistinctTargets, Fixed, Values, Release, Get, Sound;
    SoundCanStep(m, l, k, file, want, kept);
    SoundFront(m, l, k, file, want, kept);
    var x, rest := m.queue[0], m.queue[1..];
    k1 := if k > 0 then k - 1 else 0;
    l1 := l;
    if x.load == Reg(x.target) {
      DropSound(m, l, k, file, want, kept);
    } else if NoSource(rest, x.target) {
      l1 := EmitSound(m, l, k, file, want, kept);
    } else if !x.load.Reg? || NoTarget(rest, x.load.r) {
      RequeueSound(m, l, k, file, want, kept);
    } else {
      if Get(m.regs, TVAR) != None {
        l1 := TempSound(m, l, k, file, want, kept);
      }
    }
  }

  lemma SoundFront(m: MoveState, l: seq<nat>, k: nat, file: seq<Value>, want: map<nat, Value>, kept: set<nat>)
    requires Sound(m, l, k, file, want, kept) && m.queue != []
    ensures k <= 1 ==> NoSource(m.queue[1..], m.queue[0].target)
    ensures |m.regs.arr| == MAX_REGS && 0 <= m.regs.free < MAX_REGS && l != []
    ensures Get(m.regs, TVAR) == None <==> l == [MAX_REGS - 1]
  {
    hide Taken, Exec, Held, Fixed, Values, Get;
    HeadFacts(m.regs, l);
    GetIsFree(m.regs, l, TVAR);
  }

  // ---- all turns -----------------------------------------------------------------------------

  function Turn(m: Option<MoveState>): Option<MoveState> {
    if m != None && CanStep(m.value) then Step(m.value) else m
  }

  function Run(m: MoveState, turns: nat): Option<MoveState> {
    if turns == 0 then Some(m) else Turn(Run(m, turns - 1))
  }

  /** The queue as db_genmvs finds it. */
  function Begin(items: seq<Move>, r: RegStat): MoveState {
    MoveState(items, FIRST_SLOT, r, [])
  }

  /** What each target is to hold in the end. */
  function WantOf(items: seq<Move>, file: seq<Value>): map<nat, Value>
    requires |file| == MAX_REGS && AllInFile(items)
  {
    if items == [] then map[]
    else WantOf(items[..|items| - 1], file)[items[|items| - 1].target := Fetch(file, items[|items| - 1])]
  }

  lemma {:induction false} WantIs(items: seq<Move>, file: seq<Value>)
    requires |file| == MAX_REGS && AllInFile(items) && DistinctTargets(items)
    ensures forall i :: 0 <= i < |items| ==> items[i].target in WantOf(items, file) && WantOf(items, file)[items[i].target] == Fetch(file, items[i])
    ensures forall t: nat :: t in WantOf(items, file) ==> Pending(items, t)
  {
    if items != [] {
      var front := items[..|items| - 1];
      WantIs(front, file);
      forall t: nat | t in WantOf(items, file) ensures Pending(items, t) {
        assert items == front + [items[|items| - 1]];
        AppendPending(front, items[|items| - 1], t);
      }
    }
  }

  /** What the caller of db_genmvs has to see to. */
  ghost predicate Schedulable(items: seq<Move>, r: RegStat, l: seq<nat>) {
    FreeList(r, l) && Held(items, r, l) && DistinctTargets(items)
  }

  /** A register in use that is no target and was not introduced by the compiler. */
  ghost predicate Lasting(items: seq<Move>, r: RegStat, l: seq<nat>, x: nat) {
    Taken(l, x) && x < |r.arr| && r.arr[x] != TVAR && NoTarget(items, x)
  }

  ghost function AllLasting(items: seq<Move>, r: RegStat, l: seq<nat>): set<nat> {
    set x: nat | x < |r.arr| && Lasting(items, r, l, x)
  }

  lemma BeginSound(items: seq<Move>, r: RegStat, l: seq<nat>, file: seq<Value>)
    requires Schedulable(items, r, l) && |file| == MAX_REGS
    ensures AllInFile(items)
    ensures Sound(Begin(items, r), l, |items|, file, WantOf(items, file), AllLasting(items, r, l))
  {
    hide Taken, FreeList, WantOf;
    HeldInFile(items, r, l);
    WantIs(items, file);
    WantFixed(items, r, l, WantOf(items, file));
  }

  lemma HeldInFile(items: seq<Move>, r: RegStat, l: seq<nat>)
    requires Held(items, r, l)
    ensures AllInFile(items) && |r.arr| == MAX_REGS
  {
    forall i | 0 <= i < |items| ensures InFile(items[i]) { assert HeldAt(items, r, l, i); }
  }

  lemma WantFixed(items: seq<Move>, r: RegStat, l: seq<nat>, want: map<nat, Value>)
    requires Held(items, r, l) && forall t: nat :: t in want ==> Pending(items, t)
    ensures Fixed(r, l, want, AllLasting(items, r, l))
  {
    hide Taken;
    forall t: nat | t in want ensures Taken(l, t) && t < MAX_REGS && r.arr[t] == NVAR {
      var i :| 0 <= i < |items| && items[i].target == t;
      assert HeldAt(items, r, l, i);
    }
  }

  /** Ring positions used so far, and registers left, against the number of items n. */
  ghost predicate Budget(m: MoveState, l: seq<nat>, k: nat, n: nat, room: int) {
    var back := m.bottom + |m.queue| - FIRST_SLOT - n;
    l != [] && k <= n && 0 <= back <= n - k && (n > 0 ==> back < n) && Capacity(l) >= room - back
  }

  lemma TurnSound(m: MoveState, l: seq<nat>, k: nat, file: seq<Value>, want: map<nat, Value>, kept: set<nat>, n: nat, room: int)
    returns (l1: seq<nat>, k1: nat)
    requires Sound(m, l, k, file, want, kept) && m.queue != [] && Budget(m, l, k, n, room) && n <= 123
    ensures CanStep(m)
    ensures Step(m) == None ==> room < n - 1
    ensures Step(m) != None ==> var m1 := Step(m).value; Sound(m1, l1, k1, file, want, kept) && Budget(m1, l1, k1, n, room)
    ensures Step(m) != None ==> k1 < k || (k1 == k && |Step(m).value.queue| < |m.queue|)
  {
    hide Sound, Step;
    l1, k1 := StepSound(m, l, k, file, want, kept);
  }

  /** Any number of turns on n items, n at most 123. */
  lemma {:induction false} RunSound(items: seq<Move>, r: RegStat, l: seq<nat>, file: seq<Value>, turns: nat) returns (l1: seq<nat>, k1: nat)
    requires Schedulable(items, r, l) && |items| <= 123 && |file| == MAX_REGS
    ensures AllInFile(items) && l != []
    ensures Run(Begin(items, r), turns) == None ==> Capacity(l) < |items| - 1
    ensures Run(Begin(items, r), turns) != None ==>
      var m := Run(Begin(items, r), turns).value;
      Sound(m, l1, k1, file, WantOf(items, file), AllLasting(items, r, l)) && Budget(m, l1, k1, |items|, Capacity(l))
  {
    hide Sound, Step, CanStep, WantOf, AllLasting, Schedulable;
    BeginSound(items, r, l, file);
    SchedulableList(items, r, l);
    if turns == 0 {
      l1, k1 := l, |items|;
    } else {
      l1, k1 := RunSound(items, r, l, file, turns - 1);
      var before := Run(Begin(items, r), turns - 1);
      if before != None && before.value.queue != [] {
        l1, k1 := TurnSound(before.value, l1, k1, file, WantOf(items, file), AllLasting(items, r, l), |items|, Capacity(l));
      } else {
        QueueNeeded(before);
      }
    }
  }

  lemma SchedulableList(items: seq<Move>, r: RegStat, l: seq<nat>)
    requires Schedulable(items, r, l)
    ensures l != []
  {
  }

  lemma QueueNeeded(m: Option<MoveState>)
    requires m == None || m.value.queue == []
    ensures Turn(m) == m
  {
  }

  /** Running code on file has put every item's value, as it was in file, into its target, and
      has left every other lasting register alone. */
  ghost predicate InParallel(items: seq<Move>, r: RegStat, l: seq<nat>, code: seq<Move>, file: seq<Value>) {
    && |file| == MAX_REGS && AllInFile(code) && AllInFile(items)
    && (forall i :: 0 <= i < |items| ==> Exec(file, code)[items[i].target] == Fetch(file, items[i]))
    && (forall x: nat :: Lasting(items, r, l, x) && x < MAX_REGS ==> Exec(file, code)[x] == file[x])
  }

  /** The instructions are equivalent to loading all targets at once, from any contents of the registers. */
  lemma RunIsParallel(items: seq<Move>, r: RegStat, l: seq<nat>, file: seq<Value>, turns: nat)
    requires Schedulable(items, r, l) && |items| <= 123 && |file| == MAX_REGS
    requires Run(Begin(items, r), turns) != None && Run(Begin(items, r), turns).value.queue == []
    ensures InParallel(items, r, l, Run(Begin(items, r), turns).value.code, file)
  {
    hide Run, Exec, Taken, FreeList, Fetch, WantOf;
    var l1, k1 := RunSound(items, r, l, file, turns);
    WantIs(items, file);
  }

  // ---- the loop ------------------------------------------------------------------------------

  /** target_is_not_source: the scan goes from bottom up to top only. */
  method TargetIsNotSource(queue: Queue<Move>, reg: nat) returns (b: bool)
    requires queue.Valid()
    ensures b <==> NoSource(Seen(queue.Contents(), queue.bottom), reg)
  {
    var i := queue.bottom;
    while i < queue.top
      invariant queue.bottom <= i && (i <= queue.top || i == queue.bottom)
      invariant forall j :: queue.bottom <= j < i ==> queue.slots[j].load != Reg(reg)
    {
      if queue.slots[i].load == Reg(reg) {
        assert queue.Contents()[i - queue.bottom] == queue.slots[i];
        return false;
      }
      i := i + 1;
    }
    return true;
  }

  /** source_is_not_target */
  method SourceIsNotTarget(queue: Queue<Move>, reg: nat) returns (b: bool)
    requires queue.Valid()
    ensures b <==> NoTarget(Seen(queue.Contents(), queue.bottom), reg)
  {
    var i := queue.bottom;
    while i < queue.top
      invariant queue.bottom <= i && (i <= queue.top || i == queue.bottom)
      invariant forall j :: queue.bottom <= j < i ==> queue.slots[j].target != reg
    {
      if queue.slots[i].target == reg {
        assert queue.Contents()[i - queue.bottom] == queue.slots[i];
        return false;
      }
      i := i + 1;
    }
    return true;
  }

  /** db_genmvs: ok is false when no register is left for a temporary. */
  method DbGenmvs(queue: Queue<Move>, regs: Allocator, ghost l: seq<nat>) returns (ok: bool, code: seq<Move>)
    requires queue.Valid() && queue.bottom == FIRST_SLOT && |queue.Contents()| <= 123
    requires Schedulable(queue.Contents(), regs.State(), l)
    modifies queue, queue.slots, regs, regs.regArray
    ensures ok ==> forall file: seq<Value> :: |file| == MAX_REGS ==>
      InParallel(old(queue.Contents()), old(regs.State()), l, code, file)
    ensures l != [] && (Capacity(l) >= |old(queue.Contents())| - 1 ==> ok)
  {
    hide Schedulable, Sound, Budget, InParallel, Step, CanStep, FreeList, Taken, WantOf, AllLasting, NoSource, NoTarget, Run, Capacity, Get, Release, Fetch, Seen, Queue.Contents, Queue.Valid;
    ghost var items, r := queue.Contents(), regs.State();
    ghost var file := seq(MAX_REGS, x requires 0 <= x => Token(x));
    ghost var l1, turns := l, 0;
    ghost var k: nat := |items|;
    BeginTurns(items, r, l, file);
    code := [];
    while queue.bottom != queue.top
      invariant queue.Valid()
      invariant Run(Begin(items, r), turns) == Some(MoveState(queue.Contents(), queue.bottom, regs.State(), code))
      invariant Sound(MoveState(queue.Contents(), queue.bottom, regs.State(), code), l1, k, file, WantOf(items, file), AllLasting(items, r, l))
      invariant Budget(MoveState(queue.Contents(), queue.bottom, regs.State(), code), l1, k, |items|, Capacity(l))
      decreases k, |queue.Contents()|
    {
      EmptyQueue(queue);
      ghost var m := MoveState(queue.Contents(), queue.bottom, regs.State(), code);
      ghost var l2, k2 := TurnSound(m, l1, k, file, WantOf(items, file), AllLasting(items, r, l), |items|, Capacity(l));
      RunMore(Begin(items, r), turns, m);
      StepIs(m);
      var x := queue.Rem();
      FrontInFile(m);
      if x.load.Reg? && x.load.r == x.target {
        assert MoveState(queue.Contents(), queue.bottom, regs.State(), code) == Step(m).value;
      } else {
        var free := TargetIsNotSource(queue, x.target);
        if free {
          code := code + [x];
          if x.load.Reg? {
            regs.RegRelease(x.load.r, TVAR);
          }
          assert MoveState(queue.Contents(), queue.bottom, regs.State(), code) == Step(m).value;
        } else {
          var delay := !x.load.Reg?;
          if !delay {
            delay := SourceIsNotTarget(queue, x.load.r);
          }
          if delay {
            var pushed := queue.Push(x);
            assert MoveState(queue.Contents(), queue.bottom, regs.State(), code) == Step(m).value;
          } else {
            var got := regs.RegGet(TVAR);
            if got == None {
              return false, code;
            }
            code := code + [Move(x.load, got.value)];
            regs.RegRelease(x.load.r, TVAR);
            var pushed := queue.Push(Move(Reg(got.value), x.target));
            assert MoveState(queue.Contents(), queue.bottom, regs.State(), code) == Step(m).value;
          }
        }
      }
      l1, k, turns := l2, k2, turns + 1;
    }
    EmptyQueue(queue);
    forall other: seq<Value> | |other| == MAX_REGS ensures InParallel(items, r, l, code, other) {
      RunIsParallel(items, r, l, other, turns);
    }
    ok := true;
  }

  lemma BeginTurns(items: seq<Move>, r: RegStat, l: seq<nat>, file: seq<Value>)
    requires Schedulable(items, r, l) && |file| == MAX_REGS
    ensures AllInFile(items) && l != []
    ensures Sound(Begin(items, r), l, |items|, file, WantOf(items, file), AllLasting(items, r, l))
    ensures Budget(Begin(items, r), l, |items|, |items|, Capacity(l))
    ensures Run(Begin(items, r), 0) == Some(Begin(items, r))
  {
    hide Sound, WantOf, AllLasting, Capacity;
    BeginSound(items, r, l, file);
  }

  lemma EmptyQueue<T(0)>(queue: Queue<T>)
    requires queue.Valid()
    ensures queue.Contents() == [] <==> queue.bottom == queue.top
  {
  }

  lemma RunMore(m0: MoveState, turns: nat, m: MoveState)
    requires Run(m0, turns) == Some(m) && CanStep(m)
    ensures Run(m0, turns + 1) == Step(m)
  {
  }

  lemma FrontInFile(m: MoveState)
    requires CanStep(m)
    ensures InFile(m.queue[0]) && |m.regs.arr| == MAX_REGS && 0 <= m.regs.free < MAX_REGS
  {
  }

  /** The four outcomes of a turn, one equation each. */
  lemma StepIs(m: MoveState)
    requires CanStep(m)
    ensures m.queue != [] && InFile(m.queue[0]) && |m.regs.arr| == MAX_REGS && 0 <= m.regs.free < MAX_REGS
    ensures var x, rest, b := m.queue[0], m.queue[1..], (m.bottom + 1) % INST_QUEUE_SIZE;
      && (x.load == Reg(x.target) ==> Step(m) == Some(MoveState(rest, b, m.regs, m.code)))
      && (x.load != Reg(x.target) && NoSource(Seen(rest, b), x.target) ==> Step(m) == Some(Emit(m, rest, x)))
      && (x.load != Reg(x.target) && !NoSource(Seen(rest, b), x.target) && (x.load.Reg? ==> NoTarget(Seen(rest, b), x.load.r))
          ==> Step(m) == Some(Requeue(m, rest, x)))
      && (x.load != Reg(x.target) && !NoSource(Seen(rest, b), x.target) && x.load.Reg? && !NoTarget(Seen(rest, b), x.load.r)
          ==> Step(m) == if Get(m.regs, TVAR) == None then None else Some(ViaTemp(m, rest, x, Get(m.regs, TVAR).value)))
  {
  }
}
