/** Clause heads, the get and uni instructions (XSB/emu/emuloop.c) run on ground arguments,
    and what each of them does to the matching problem that is left. */
module HeadCode {

  datatype Term = Var(v: nat) | Int(n: int) | Atom(a: nat) | Nil | List(car: Term, cdr: Term) | Str(f: nat, args: seq<Term>)

  datatype Ground = GInt(n: int) | GAtom(a: nat) | GNil | GList(car: Ground, cdr: Ground) | GStr(f: nat, args: seq<Ground>)

  type Subst = nat -> Ground
  type RegFile = nat -> Ground

  function Inst(t: Term, s: Subst): Ground {
    match t
    case Var(v) => s(v)
    case Int(n) => GInt(n)
    case Atom(a) => GAtom(a)
    case Nil => GNil
    case List(car, cdr) => GList(Inst(car, s), Inst(cdr, s))
    case Str(f, args) => GStr(f, seq(|args|, i requires 0 <= i < |args| => Inst(args[i], s)))
  }

  function Vars(t: Term): set<nat> {
    match t
    case Var(v) => {v}
    case List(car, cdr) => Vars(car) + Vars(cdr)
    case Str(f, args) => set i, v | 0 <= i < |args| && v in Vars(args[i]) :: v
    case _ => {}
  }

  // ---- the instructions ----------------------------------------------------------------

  datatype Ins =
    | GetNumCon(r: nat, n: int) | GetCon(r: nat, a: nat) | GetNil(r: nat) | GetTVal(r: nat, r1: nat)
    | GetList(r: nat) | GetListTVarTVar(r: nat, r1: nat, r2: nat) | GetStr(r: nat, f: nat, arity: nat)
    | UniNumCon(n: int) | UniCon(a: nat) | UniNil | UniTVar(r: nat) | UniTVal(r: nat)
    | UniTVarGetListUniNumCon(r: nat, high: nat, low: nat)   // the number is two bytes

  /** sreg is what is left of the block the uni instructions read. */
  datatype Machine = Failed | Running(regs: RegFile, sreg: seq<Ground>)

  function Put(regs: RegFile, r: nat, g: Ground): RegFile {
    (x: nat) => if x == r then g else regs(x)
  }

  function Check(ok: bool, m: Machine): Machine {
    if ok then m else Failed
  }

  /** An instruction that reads the next cell of the block. */
  function UniStep(regs: RegFile, cell: Ground, rest: seq<Ground>, ins: Ins): Machine {
    match ins
    case UniNumCon(n) => Check(cell == GInt(n), Running(regs, rest))
    case UniCon(a) => Check(cell == GAtom(a), Running(regs, rest))
    case UniNil => Check(cell == GNil, Running(regs, rest))
    case UniTVar(r) => Running(Put(regs, r, cell), rest)
    case UniTVal(r) => Check(cell == regs(r), Running(regs, rest))
    case UniTVarGetListUniNumCon(r, high, low) =>
      if cell.GList? then Check(cell.car == GInt(high % 256 * 256 + low % 256), Running(Put(regs, r, cell), [cell.cdr])) else Failed
    case _ => Failed
  }

  function ExecOne(m: Machine, ins: Ins): Machine {
    match m
    case Failed => Failed
    case Running(regs, sreg) =>
      match ins
      case GetNumCon(r, n) => Check(regs(r) == GInt(n), m)
      case GetCon(r, a) => Check(regs(r) == GAtom(a), m)
      case GetNil(r) => Check(regs(r) == GNil, m)
      case GetTVal(r, r1) => Check(regs(r) == regs(r1), m)
      case GetList(r) => if regs(r).GList? then Running(regs, [regs(r).car, regs(r).cdr]) else Failed
      case GetListTVarTVar(r, r1, r2) =>
        if regs(r).GList? then Running(Put(Put(regs, r1, regs(r).car), r2, regs(r).cdr), sreg) else Failed
      case GetStr(r, f, arity) =>
        if regs(r).GStr? && regs(r).f == f && |regs(r).args| == arity then Running(regs, regs(r).args) else Failed
      case _ => if sreg == [] then Failed else UniStep(regs, sreg[0], sreg[1..], ins)
  }

  function Exec(m: Machine, code: seq<Ins>): Machine {
    if code == [] then m else ExecOne(Exec(m, code[..|code| - 1]), code[|code| - 1])
  }

  lemma ExecMore(m: Machine, code: seq<Ins>, ins: Ins)
    ensures Exec(m, code + [ins]) == ExecOne(Exec(m, code), ins)
  {
    assert (code + [ins])[..|code|] == code;
  }

  // ---- the matching problem that is left ---------------------------------------------------

  /** A register and the term it has to match. */
  datatype Item = Item(reg: nat, term: Term)

  /** Registers of the variables met so far, items to be taken apart, and the rest of the
      block that is being read. */
  datatype Goal = Goal(env: map<nat, nat>, items: seq<Item>, block: seq<Term>)

  ghost predicate EnvHolds(regs: RegFile, env: map<nat, nat>, s: Subst) {
    forall v: nat :: v in env ==> s(v) == regs(env[v])
  }

  ghost predicate ItemsHold(regs: RegFile, items: seq<Item>, s: Subst) {
    forall i :: 0 <= i < |items| ==> Inst(items[i].term, s) == regs(items[i].reg)
  }

  ghost predicate BlockHolds(sreg: seq<Ground>, block: seq<Term>, s: Subst) {
    |sreg| == |block| && forall i :: 0 <= i < |block| ==> Inst(block[i], s) == sreg[i]
  }

  ghost predicate Holds(m: Machine, g: Goal, s: Subst) {
    m.Running? && EnvHolds(m.regs, g.env, s) && ItemsHold(m.regs, g.items, s) && BlockHolds(m.sreg, g.block, s)
  }

  /** The block is where the machine expects it to be. */
  predicate Aligned(m: Machine, g: Goal) {
    m.Running? ==> |m.sreg| == |g.block|
  }

  predicate Used(g: Goal, r: nat) {
    (exists v: nat :: v in g.env && g.env[v] == r) || (exists i :: 0 <= i < |g.items| && g.items[i].reg == r)
  }

  /** ins turns problem g into problem g1, whatever is in the registers. */
  ghost predicate Reduces(g: Goal, ins: Ins, g1: Goal) {
    forall m: Machine, s: Subst :: ReducesAt(g, ins, g1, m, s)
  }

  ghost predicate ReducesAt(g: Goal, ins: Ins, g1: Goal, m: Machine, s: Subst) {
    Aligned(m, g) ==> Aligned(ExecOne(m, ins), g1) && (Holds(m, g, s) <==> Holds(ExecOne(m, ins), g1, s))
  }

  // ---- items ---------------------------------------------------------------------------

  lemma ItemsSplit(regs: RegFile, items: seq<Item>, k: nat, s: Subst)
    requires k < |items|
    ensures ItemsHold(regs, items, s) <==>
      ItemsHold(regs, items[..k] + items[k + 1..], s) && Inst(items[k].term, s) == regs(items[k].reg)
  {
    var rest := items[..k] + items[k + 1..];
    forall i | 0 <= i < |rest| ensures rest[i] == items[if i < k then i else i + 1] { }
    forall i | 0 <= i < |items| && i != k ensures items[i] == rest[if i < k then i else i - 1] { }
  }

  function Dropped(items: seq<Item>, k: nat): seq<Item>
    requires k < |items|
  {
    items[..k] + items[k + 1..]
  }

  /** A constant argument. */
  lemma ReduceConstant(g: Goal, k: nat, ins: Ins)
    requires k < |g.items|
    requires var x := g.items[k];
      (x.term.Int? && ins == GetNumCon(x.reg, x.term.n)) || (x.term.Atom? && ins == GetCon(x.reg, x.term.a)) || (x.term.Nil? && ins == GetNil(x.reg))
    ensures Reduces(g, ins, g.(items := Dropped(g.items, k)))
  {
    hide ItemsHold, EnvHolds, BlockHolds;
    forall m: Machine, s: Subst ensures ReducesAt(g, ins, g.(items := Dropped(g.items, k)), m, s)
    {
      if m.Running? && Aligned(m, g) { ItemsSplit(m.regs, g.items, k, s); }
    }
  }

  /** A variable argument that has been met before. */
  lemma ReduceSeen(g: Goal, k: nat)
    requires k < |g.items| && g.items[k].term.Var? && g.items[k].term.v in g.env
    ensures Reduces(g, GetTVal(g.env[g.items[k].term.v], g.items[k].reg), g.(items := Dropped(g.items, k)))
  {
    hide ItemsHold, BlockHolds;
    var ins := GetTVal(g.env[g.items[k].term.v], g.items[k].reg);
    forall m: Machine, s: Subst ensures ReducesAt(g, ins, g.(items := Dropped(g.items, k)), m, s)
    {
      if m.Running? && Aligned(m, g) { ItemsSplit(m.regs, g.items, k, s); }
    }
  }

  lemma EnvMore(regs: RegFile, env: map<nat, nat>, v: nat, r: nat, s: Subst)
    requires v !in env
    ensures EnvHolds(regs, env[v := r], s) <==> EnvHolds(regs, env, s) && s(v) == regs(r)
  {
    if EnvHolds(regs, env[v := r], s) {
      assert v in env[v := r];
      forall w: nat | w in env ensures s(w) == regs(env[w]) { assert w in env[v := r]; }
    }
  }

  /** The two problems are the same for m. */
  ghost predicate SameAt(g: Goal, g1: Goal, m: Machine, s: Subst) {
    Aligned(m, g) ==> Aligned(m, g1) && (Holds(m, g, s) <==> Holds(m, g1, s))
  }

  /** A variable argument met for the first time: its register is the variable's from now on. */
  lemma FreezeItem(g: Goal, k: nat)
    requires k < |g.items| && g.items[k].term.Var? && g.items[k].term.v !in g.env
    ensures var g1 := Goal(g.env[g.items[k].term.v := g.items[k].reg], Dropped(g.items, k), g.block);
      forall m: Machine, s: Subst :: SameAt(g, g1, m, s)
  {
    hide ItemsHold, EnvHolds, BlockHolds;
    var x := g.items[k];
    var g1 := Goal(g.env[x.term.v := x.reg], Dropped(g.items, k), g.block);
    forall m: Machine, s: Subst ensures SameAt(g, g1, m, s) {
      if m.Running? && Aligned(m, g) {
        ItemsSplit(m.regs, g.items, k, s);
        EnvMore(m.regs, g.env, x.term.v, x.reg, s);
      }
    }
  }

  /** A list is taken apart: its two parts become the block. */
  lemma ReduceList(g: Goal, k: nat)
    requires k < |g.items| && g.items[k].term.List? && g.block == []
    ensures Reduces(g, GetList(g.items[k].reg), Goal(g.env, Dropped(g.items, k), [g.items[k].term.car, g.items[k].term.cdr]))
  {
    hide ItemsHold, EnvHolds;
    var x := g.items[k];
    var g1 := Goal(g.env, Dropped(g.items, k), [x.term.car, x.term.cdr]);
    forall m: Machine, s: Subst ensures ReducesAt(g, GetList(x.reg), g1, m, s)
    {
      if m.Running? && Aligned(m, g) {
        ItemsSplit(m.regs, g.items, k, s);
        ListHolds(m.regs(x.reg), x.term, s);
      }
    }
  }

  lemma ListHolds(v: Ground, t: Term, s: Subst)
    requires t.List?
    ensures Inst(t, s) == v <==> v.GList? && BlockHolds([v.car, v.cdr], [t.car, t.cdr], s)
  {
    if v.GList? {
      assert BlockHolds([v.car, v.cdr], [t.car, t.cdr], s) ==> Inst([t.car, t.cdr][0], s) == [v.car, v.cdr][0] && Inst([t.car, t.cdr][1], s) == [v.car, v.cdr][1];
    }
  }

  lemma ReduceStr(g: Goal, k: nat)
    requires k < |g.items| && g.items[k].term.Str? && g.block == []
    ensures Reduces(g, GetStr(g.items[k].reg, g.items[k].term.f, |g.items[k].term.args|), Goal(g.env, Dropped(g.items, k), g.items[k].term.args))
  {
    hide ItemsHold, EnvHolds;
    var x := g.items[k];
    var ins := GetStr(x.reg, x.term.f, |x.term.args|);
    var g1 := Goal(g.env, Dropped(g.items, k), x.term.args);
    forall m: Machine, s: Subst ensures ReducesAt(g, ins, g1, m, s)
    {
      if m.Running? && Aligned(m, g) {
        ItemsSplit(m.regs, g.items, k, s);
        StrHolds(m.regs(x.reg), x.term, s);
      }
    }
  }

  lemma StrHolds(v: Ground, t: Term, s: Subst)
    requires t.Str?
    ensures Inst(t, s) == v <==> v.GStr? && v.f == t.f && |v.args| == |t.args| && BlockHolds(v.args, t.args, s)
  {
    var ts := Inst(t, s).args;
    assert |ts| == |t.args| && forall i :: 0 <= i < |ts| ==> ts[i] == Inst(t.args[i], s);
    if v.GStr? && v.f == t.f && |v.args| == |t.args| && BlockHolds(v.args, t.args, s) {
      assert ts == v.args;
    }
  }

  // ---- writing a register ------------------------------------------------------------------

  lemma PutHolds(regs: RegFile, g: Goal, r: nat, c: Ground, s: Subst)
    requires !Used(g, r)
    ensures EnvHolds(Put(regs, r, c), g.env, s) <==> EnvHolds(regs, g.env, s)
    ensures ItemsHold(Put(regs, r, c), g.items, s) <==> ItemsHold(regs, g.items, s)
    ensures Put(regs, r, c)(r) == c
  {
    forall v: nat | v in g.env ensures g.env[v] != r { }
    forall i | 0 <= i < |g.items| ensures g.items[i].reg != r { }
  }

  lemma UsedItem(g: Goal, k: nat)
    requires k < |g.items|
    ensures Used(g, g.items[k].reg)
  {
  }

  lemma BlockSplit(sreg: seq<Ground>, block: seq<Term>, s: Subst)
    requires block != [] && |sreg| == |block|
    ensures BlockHolds(sreg, block, s) <==> Inst(block[0], s) == sreg[0] && BlockHolds(sreg[1..], block[1..], s)
  {
    if Inst(block[0], s) == sreg[0] && BlockHolds(sreg[1..], block[1..], s) {
      forall i | 0 <= i < |block| ensures Inst(block[i], s) == sreg[i] {
        if i > 0 { assert block[i] == block[1..][i - 1] && sreg[i] == sreg[1..][i - 1]; }
      }
    }
    if BlockHolds(sreg, block, s) {
      forall i | 0 <= i < |block| - 1 ensures Inst(block[1..][i], s) == sreg[1..][i] { assert block[1..][i] == block[i + 1]; }
    }
  }

  /** A list of two new variables. */
  lemma ReduceTVarTVar(g: Goal, k: nat, r1: nat, r2: nat)
    requires k < |g.items| && g.items[k].term.List? && g.items[k].term.car.Var? && g.items[k].term.cdr.Var?
    requires var x := g.items[k].term; x.car.v !in g.env && x.cdr.v !in g.env && x.car.v != x.cdr.v
    requires !Used(g, r1) && !Used(g, r2) && r1 != r2
    ensures var x := g.items[k];
      Reduces(g, GetListTVarTVar(x.reg, r1, r2), Goal(g.env[x.term.car.v := r1][x.term.cdr.v := r2], Dropped(g.items, k), g.block))
  {
    hide ItemsHold, EnvHolds, BlockHolds, Used;
    var x := g.items[k];
    var ins, g1 := GetListTVarTVar(x.reg, r1, r2), Goal(g.env[x.term.car.v := r1][x.term.cdr.v := r2], Dropped(g.items, k), g.block);
    forall m: Machine, s: Subst ensures ReducesAt(g, ins, g1, m, s)
    {
      if m.Running? && Aligned(m, g) {
        ItemsSplit(m.regs, g.items, k, s);
        var v := m.regs(x.reg);
        if v.GList? {
          UsedItem(g, k);
          assert Inst(x.term, s) == GList(s(x.term.car.v), s(x.term.cdr.v));
          PutHolds(m.regs, g, r1, v.car, s);
          PutHolds(Put(m.regs, r1, v.car), g, r2, v.cdr, s);
          ItemsSplit(Put(Put(m.regs, r1, v.car), r2, v.cdr), g.items, k, s);
          EnvMore(Put(Put(m.regs, r1, v.car), r2, v.cdr), g.env, x.term.car.v, r1, s);
          EnvMore(Put(Put(m.regs, r1, v.car), r2, v.cdr), g.env[x.term.car.v := r1], x.term.cdr.v, r2, s);
        }
      }
    }
  }

  // ---- reading a cell of the block -----------------------------------------------------------

  ghost predicate UniReduces(g: Goal, ins: Ins, g1: Goal) {
    forall regs: RegFile, sreg: seq<Ground>, s: Subst :: ReducesAt(g, ins, g1, Running(regs, sreg), s)
  }

  lemma UniIsReduces(g: Goal, ins: Ins, g1: Goal)
    requires UniReduces(g, ins, g1)
    ensures Reduces(g, ins, g1)
  {
    hide Holds, ExecOne;
    forall m: Machine, s: Subst ensures ReducesAt(g, ins, g1, m, s)
    {
      FailedHolds(g, ins, g1, s);
      if m.Running? { assert m == Running(m.regs, m.sreg); }
    }
  }

  lemma FailedHolds(g: Goal, ins: Ins, g1: Goal, s: Subst)
    ensures ExecOne(Failed, ins) == Failed && !Holds(Failed, g, s) && !Holds(Failed, g1, s)
  {
  }

  lemma UniConstant(g: Goal, ins: Ins)
    requires g.block != []
    requires var t := g.block[0]; (t.Int? && ins == UniNumCon(t.n)) || (t.Atom? && ins == UniCon(t.a)) || (t.Nil? && ins == UniNil)
    ensures Reduces(g, ins, g.(block := g.block[1..]))
  {
    hide ItemsHold, EnvHolds, BlockHolds;
    var g1 := g.(block := g.block[1..]);
    forall regs: RegFile, sreg: seq<Ground>, s: Subst ensures ReducesAt(g, ins, g1, Running(regs, sreg), s) {
      if |sreg| == |g.block| {
        BlockSplit(sreg, g.block, s);
      }
    }
    UniIsReduces(g, ins, g1);
  }

  lemma UniSeen(g: Goal)
    requires g.block != [] && g.block[0].Var? && g.block[0].v in g.env
    ensures Reduces(g, UniTVal(g.env[g.block[0].v]), g.(block := g.block[1..]))
  {
    hide ItemsHold, BlockHolds;
    var ins, g1 := UniTVal(g.env[g.block[0].v]), g.(block := g.block[1..]);
    forall regs: RegFile, sreg: seq<Ground>, s: Subst ensures ReducesAt(g, ins, g1, Running(regs, sreg), s) {
      if |sreg| == |g.block| {
        BlockSplit(sreg, g.block, s);
      }
    }
    UniIsReduces(g, ins, g1);
  }

  lemma UniFresh(g: Goal, r: nat)
    requires g.block != [] && g.block[0].Var? && g.block[0].v !in g.env && !Used(g, r)
    ensures Reduces(g, UniTVar(r), Goal(g.env[g.block[0].v := r], g.items, g.block[1..]))
  {
    hide ItemsHold, EnvHolds, BlockHolds, Used;
    var ins, g1 := UniTVar(r), Goal(g.env[g.block[0].v := r], g.items, g.block[1..]);
    forall regs: RegFile, sreg: seq<Ground>, s: Subst ensures ReducesAt(g, ins, g1, Running(regs, sreg), s) {
      if |sreg| == |g.block| {
        BlockSplit(sreg, g.block, s);
        PutHolds(regs, g, r, sreg[0], s);
        EnvMore(Put(regs, r, sreg[0]), g.env, g.block[0].v, r, s);
      }
    }
    UniIsReduces(g, ins, g1);
  }

  /** A compound subterm is left for later, in a register of its own. */
  lemma UniLater(g: Goal, r: nat, k: nat)
    requires g.block != [] && !Used(g, r) && k <= |g.items|
    ensures Reduces(g, UniTVar(r), Goal(g.env, g.items[..k] + [Item(r, g.block[0])] + g.items[k..], g.block[1..]))
  {
    hide ItemsHold, EnvHolds, BlockHolds, Used;
    var ins, g1 := UniTVar(r), Goal(g.env, g.items[..k] + [Item(r, g.block[0])] + g.items[k..], g.block[1..]);
    assert Dropped(g1.items, k) == g.items;
    forall regs: RegFile, sreg: seq<Ground>, s: Subst ensures ReducesAt(g, ins, g1, Running(regs, sreg), s) {
      if |sreg| == |g.block| {
        BlockSplit(sreg, g.block, s);
        PutHolds(regs, g, r, sreg[0], s);
        ItemsSplit(Put(regs, r, sreg[0]), g1.items, k, s);
      }
    }
    UniIsReduces(g, ins, g1);
  }

  /** The last cell is a list that starts with a small number: both levels in one instruction. */
  lemma UniNumList(g: Goal, r: nat, high: nat, low: nat)
    requires |g.block| == 1 && g.block[0].List? && g.block[0].car == Int(high * 256 + low) && high < 256 && low < 256 && !Used(g, r)
    ensures Reduces(g, UniTVarGetListUniNumCon(r, high, low), g.(block := [g.block[0].cdr]))
  {
    hide ItemsHold, EnvHolds, Used;
    var t := g.block[0];
    var ins, g1 := UniTVarGetListUniNumCon(r, high, low), g.(block := [t.cdr]);
    forall regs: RegFile, sreg: seq<Ground>, s: Subst ensures ReducesAt(g, ins, g1, Running(regs, sreg), s) {
      if |sreg| == |g.block| {
        PutHolds(regs, g, r, sreg[0], s);
        ListHolds(sreg[0], t, s);
        OneHolds(sreg, t, s);
        if sreg[0].GList? {
          OneHolds([sreg[0].cdr], t.cdr, s);
          TwoHold(sreg[0].car, sreg[0].cdr, t.car, t.cdr, s);
        }
      }
    }
    UniIsReduces(g, ins, g1);
  }

  lemma OneHolds(sreg: seq<Ground>, t: Term, s: Subst)
    requires |sreg| == 1
    ensures BlockHolds(sreg, [t], s) <==> Inst(t, s) == sreg[0]
  {
  }

  lemma TwoHold(a: Ground, b: Ground, t: Term, u: Term, s: Subst)
    ensures BlockHolds([a, b], [t, u], s) <==> Inst(t, s) == a && Inst(u, s) == b
  {
    assert BlockHolds([a, b], [t, u], s) ==> Inst([t, u][0], s) == [a, b][0] && Inst([t, u][1], s) == [a, b][1];
  }
}
