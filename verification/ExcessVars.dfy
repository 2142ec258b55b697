/** The builtin that collects excess variables by binding and unbinding them on the heap
    (XSB/emu/builtin.c, make_ground, excess_vars and EXCESS_VARS). */
module ExcessVars {
  import opened FreeVariables

  // ---- the heap while some variables are bound to [] --------------------------------------------

  /** h is heap h0 with the free variables in b bound to [], and possibly more cells. */
  ghost predicate Under(h0: Heap, b: set<Addr>, h: Heap) {
    && (forall a :: a in h0 ==> a in h && h[a] == (if a in b then NIL else h0[a]))
    && (forall a :: a in b ==> a in h0 && h0[a] == Ref(a))
  }

  /** c is what a cell that held t in h0 holds now. */
  ghost predicate Now(h0: Heap, b: set<Addr>, c: Cell, t: Term) {
    Shows(h0, c, t) || (t.Free? && t.v in b && c == NIL)
  }

  /** c is the end of the references from a cell that held t. */
  ghost predicate Reached(h0: Heap, b: set<Addr>, c: Cell, t: Term) {
    if End(t).Free? then c == (if End(t).v in b then NIL else Ref(End(t).v)) && (End(t).v !in b ==> Shows(h0, c, End(t)))
    else Shows(h0, c, End(t))
  }

  lemma NowArg(h0: Heap, b: set<Addr>, h: Heap, c: Cell, t: Term, i: nat)
    requires Under(h0, b, h) && Shows(h0, c, t) && t.Struct? && i < |t.args|
    ensures c == Str(t.at) && t.at in h && h[t.at] == Functor(t.psc) && |t.args| == t.psc.arity
    ensures t.at + 1 + i in h && Now(h0, b, h[t.at + 1 + i], t.args[i])
  {
    NowCell(h0, b, h, t.at + 1 + i, t.args[i]);
  }

  lemma NowPair(h0: Heap, b: set<Addr>, h: Heap, c: Cell, t: Term)
    requires Under(h0, b, h) && Shows(h0, c, t) && t.Pair?
    ensures c == List(t.at) && t.at in h && t.at + 1 in h
    ensures Now(h0, b, h[t.at], t.head) && Now(h0, b, h[t.at + 1], t.tail)
  {
    NowCell(h0, b, h, t.at, t.head);
    NowCell(h0, b, h, t.at + 1, t.tail);
  }

  lemma NowCell(h0: Heap, b: set<Addr>, h: Heap, a: Addr, t: Term)
    requires Under(h0, b, h) && a in h0 && Shows(h0, h0[a], t)
    ensures Now(h0, b, h[a], t)
  {
  }

  lemma UnderBind(h0: Heap, b: set<Addr>, h: Heap, v: Addr)
    requires Under(h0, b, h) && v in h0 && h0[v] == Ref(v)
    ensures Under(h0, b + {v}, h[v := NIL])
  {
  }

  /** Cells that are not part of the old heap keep their contents. */
  ghost predicate Apart(h0: Heap, h: Heap, h1: Heap) {
    forall a :: a !in h0 ==> (a in h1 <==> a in h) && (a in h ==> h1[a] == h[a])
  }

  /** h1 is h with the variables vs unbound. */
  ghost predicate Released(h: Heap, vs: seq<Addr>, h1: Heap) {
    && (forall a :: a in h1 <==> a in h || a in vs)
    && (forall a :: a in h1 ==> h1[a] == if a in vs then Ref(a) else h[a])
  }

  /** Leaving a scope: what it bound becomes free again, except that what is listed stays bound. */
  lemma LeaveScope(h0: Heap, s: set<Addr>, occ: seq<Addr>, v0: seq<Addr>, more: seq<Addr>, h: Heap, h1: Heap)
    requires Under(h0, s + Elems(occ) + Elems(v0 + more), h) && Released(h, Firsts(occ, s + Elems(v0)), h1)
    requires forall x :: x in more ==> x !in s + Elems(occ)
    ensures Under(h0, s + Elems(v0 + more), h1) && Apart(h0, h, h1)
  {
    var out := Firsts(occ, s + Elems(v0));
    FirstsElems(occ, s + Elems(v0));
    forall a ensures a in out <==> a in occ && a !in s && a !in v0 { assert a in out <==> a in Elems(out); }
  }

  /** At the end everything listed becomes free again. */
  lemma LeaveAll(h0: Heap, vs: seq<Addr>, h: Heap, h1: Heap)
    requires Under(h0, Elems(vs), h) && Released(h, vs, h1)
    ensures Under(h0, {}, h1) && Apart(h0, h, h1)
  {
  }

  // ---- terms that can be grounded ---------------------------------------------------------------

  /** No structure is without arguments: make_ground would read argument 0 of it. */
  predicate Full(t: Term)
    decreases t
  {
    match t
    case Link(_, next) => Full(next)
    case Struct(_, _, args) => args != [] && forall i :: 0 <= i < |args| ==> Full(args[i])
    case Pair(_, head, tail) => Full(head) && Full(tail)
    case _ => true
  }

  /** The first arguments of scoping structures can be grounded. */
  predicate Ready(t: Term, e: bool)
    decreases t
  {
    match t
    case Link(_, next) => Ready(next, e)
    case Struct(_, psc, args) =>
      (e && Scoping(psc) && args != [] ==> Full(args[0])) && forall i :: 0 <= i < |args| ==> Ready(args[i], e)
    case Pair(_, head, tail) => Ready(head, e) && Ready(tail, e)
    case _ => true
  }

  lemma FullEnd(t: Term)
    ensures Full(End(t)) <==> Full(t)
  {
  }

  lemma ReadyEnd(t: Term, e: bool)
    ensures Ready(End(t), e) <==> Ready(t, e)
  {
  }

  // ---- the list under construction --------------------------------------------------------------

  /** From cell at on, h holds list cells with vs as elements; the last tail is at at + 2 * |vs|. */
  ghost predicate Built(h: Heap, at: Addr, vs: seq<Addr>) {
    forall i: nat :: i < |vs| ==> BuiltAt(h, at, vs, i)
  }

  predicate BuiltAt(h: Heap, at: Addr, vs: seq<Addr>, i: nat) {
    var a := at + 2 * i;
    i < |vs| && a in h && h[a] == List(a + 1) && a + 1 in h && h[a + 1] == Ref(vs[i])
  }

  /** c is a list of references to vs. */
  ghost predicate ListIs(h: Heap, c: Cell, vs: seq<Addr>)
    decreases |vs|
  {
    if vs == [] then c == NIL
    else c.List? && c.at in h && h[c.at] == Ref(vs[0]) && c.at + 1 in h && ListIs(h, h[c.at + 1], vs[1..])
  }

  lemma {:induction false} BuiltList(h: Heap, at: Addr, vs: seq<Addr>)
    requires Built(h, at, vs) && at + 2 * |vs| in h && h[at + 2 * |vs|] == NIL
    ensures at in h && ListIs(h, h[at], vs)
    decreases |vs|
  {
    if vs != [] {
      var next, rest := at + 2, vs[1..];
      forall i: nat | i < |rest| ensures BuiltAt(h, next, rest, i) { assert BuiltAt(h, at, vs, i + 1); }
      BuiltList(h, next, rest);
      assert BuiltAt(h, at, vs, 0);
    }
  }

  /** Between h and h1 the list has grown by vs at tail, and nothing else changed outside the old heap. */
  ghost predicate Grown(h0: Heap, h: Heap, h1: Heap, tail: Addr, vs: seq<Addr>) {
    && Built(h1, tail, vs)
    && forall a :: a !in h0 && a < tail ==> (a in h1 <==> a in h) && (a in h ==> h1[a] == h[a])
  }

  lemma BuiltAppend(h: Heap, at: Addr, vs: seq<Addr>, ws: seq<Addr>)
    requires Built(h, at, vs) && Built(h, at + 2 * |vs|, ws)
    ensures Built(h, at, vs + ws)
  {
    forall i: nat | i < |vs + ws| ensures BuiltAt(h, at, vs + ws, i) {
      if i < |vs| {
        assert BuiltAt(h, at, vs, i);
      } else {
        assert BuiltAt(h, at + 2 * |vs|, ws, i - |vs|);
      }
    }
  }

  lemma BuiltKept(h0: Heap, h: Heap, h1: Heap, at: Addr, vs: seq<Addr>, tail: Addr)
    requires Built(h, at, vs) && at + 2 * |vs| <= tail && forall a :: a in h0 ==> a < at
    requires forall a :: a !in h0 && a < tail ==> (a in h1 <==> a in h) && (a in h ==> h1[a] == h[a])
    ensures Built(h1, at, vs)
  {
    forall i: nat | i < |vs| ensures BuiltAt(h1, at, vs, i) { assert BuiltAt(h, at, vs, i); }
  }

  lemma GrownTrans(h0: Heap, h: Heap, h1: Heap, h2: Heap, tail: Addr, vs: seq<Addr>, ws: seq<Addr>)
    requires Grown(h0, h, h1, tail, vs) && Grown(h0, h1, h2, tail + 2 * |vs|, ws) && forall a :: a in h0 ==> a < tail
    ensures Grown(h0, h, h2, tail, vs + ws)
  {
    hide Built;
    BuiltKept(h0, h1, h2, tail, vs, tail + 2 * |vs|);
    BuiltAppend(h2, tail, vs, ws);
  }

  lemma GrownApart(h0: Heap, h: Heap, h1: Heap, h2: Heap, tail: Addr, vs: seq<Addr>)
    requires Grown(h0, h, h1, tail, vs) && Apart(h0, h1, h2) && forall a :: a in h0 ==> a < tail
    ensures Grown(h0, h, h2, tail, vs)
  {
    forall i: nat | i < |vs| ensures BuiltAt(h2, tail, vs, i) { assert BuiltAt(h1, tail, vs, i); }
  }

  // ---- the engine ---------------------------------------------------------------------------------

  class Trail {
    var vals: seq<Addr>

    constructor ()
      ensures vals == []
    {
      vals := [];
    }
  }

  /** Wild: a word is read that is no term, or one is written behind the end of a local trail. */
  datatype Outcome = Answer(list: Addr) | TypeError | Overflow | Wild

  const MAX_LOCAL_TRAIL_SIZE := 32 * 1024

  class Engine {
    var heap: Heap
    var hreg: Addr

    /** Follows the references from c. */
    method Deref(c: Cell, ghost h0: Heap, ghost b: set<Addr>, ghost t: Term) returns (r: Cell)
      requires Under(h0, b, heap) && Now(h0, b, c, t)
      ensures Reached(h0, b, r, t)
    {
      r := c;
      ghost var u := t;
      while r.Ref?
        invariant Now(h0, b, r, u) && End(u) == End(t)
        decreases Size(u), if r.Ref? then 1 else 0
      {
        if r == heap[r.to] { break; }
        r := heap[r.to];
        u := if u.Link? then u.next else u;
      }
    }

    method LocalBindVar(v: Addr, trail: Trail)
      modifies this`heap, trail
      ensures heap == old(heap)[v := NIL] && trail.vals == old(trail.vals) + [v]
    {
      heap := heap[v := NIL];
      trail.vals := trail.vals + [v];
    }

    /** Unbinds what was trailed after the trail had base entries. */
    method UndoLtrailBindings(trail: Trail, base: nat)
      requires base <= |trail.vals|
      modifies this`heap, trail
      ensures trail.vals == old(trail.vals[..base])
      ensures Released(old(heap), old(trail.vals[base..]), heap)
    {
      ghost var all := trail.vals;
      while |trail.vals| != base
        invariant base <= |trail.vals| <= |all| && trail.vals == all[..|trail.vals|]
        invariant Released(old(heap), all[|trail.vals|..], heap)
        decreases |trail.vals|
      {
        var n := |trail.vals| - 1;
        var v := trail.vals[n];
        assert all[n..] == [v] + all[n + 1..];
        heap := heap[v := Ref(v)];
        trail.vals := trail.vals[..n];
      }
    }

    /** Counts the variable occurrences of a term. */
    method CountVariableOccurrences(c: Cell, ghost t: Term) returns (count: nat)
      requires Shows(heap, c, t)
      ensures count == |Occ(t)|
      decreases Size(t)
    {
      hide Shows, Under, Now, Reached, Occ, OccAll, Size, SizeAll, End;
      count := 0;
      var term := c;
      ghost var rest := t;
      UnderNothing(heap);
      while true
        invariant Shows(heap, term, rest) && Size(rest) <= Size(t)
        invariant count + |Occ(rest)| == |Occ(t)|
        decreases Size(rest)
      {
        NowShown(heap, {}, term, rest);
        term := Deref(term, heap, {}, rest);
        rest := Ended(heap, {}, term, rest);
        OneOcc(rest);
        match term {
          case Ref(_) => return count + 1;
          case Str(at) =>
            ghost var args := rest.args;
            NowStruct(heap, {}, heap, term, rest);
            var arity := heap[at].psc.arity;
            if arity == 0 { return; }
            ghost var count0 := count;
            for i := 1 to arity
              invariant count == count0 + |OccAll(args[..i - 1])|
            {
              ShownArg(heap, term, rest, i - 1);
              OccNext(args, i - 1);
              var n := CountVariableOccurrences(heap[at + i], args[i - 1]);
              count := count + n;
            }
            ShownArg(heap, term, rest, arity - 1);
            OccNext(args, arity - 1);
            assert args[..arity] == args;
            term := heap[at + arity];
            rest := args[arity - 1];
          case List(at) =>
            ShownPair(heap, term, rest);
            var n := CountVariableOccurrences(heap[at], rest.head);
            count := count + n;
            term := heap[at + 1];
            rest := rest.tail;
          case Con(_) => return;
          case Num(_) => return;
        }
      }
    }

    /** Binds the variables of a term to [] and trails them; wild tells that a structure without arguments is met, of
        which the code takes argument 0, that is the functor cell, for a term. */
    method MakeGround(c: Cell, trail: Trail, ghost h0: Heap, ghost b: set<Addr>, ghost t: Term) returns (wild: bool)
      requires Under(h0, b, heap) && Now(h0, b, c, t)
      modifies this`heap, trail
      ensures wild <==> !Full(t)
      ensures !wild ==> Under(h0, b + Elems(Occ(t)), heap) && Apart(h0, old(heap), heap)
      ensures !wild ==> trail.vals == old(trail.vals) + Firsts(Occ(t), b)
      decreases Size(t)
    {
      hide Shows, Under, Now, Reached, Occ, OccAll, Size, SizeAll, End, Firsts, Elems, Apart, Full;
      var term := c;
      ghost var rest := t;
      ghost var bound := b;
      ApartRefl(h0, heap);
      while true
        invariant Under(h0, bound, heap) && Now(h0, bound, term, rest) && (Full(rest) <==> Full(t)) && Apart(h0, old(heap), heap)
        invariant Size(rest) <= Size(t)
        invariant bound + Elems(Occ(rest)) == b + Elems(Occ(t))
        invariant trail.vals + Firsts(Occ(rest), bound) == old(trail.vals) + Firsts(Occ(t), b)
        decreases Size(rest)
      {
        term := Deref(term, h0, bound, rest);
        FullEnd(rest);
        rest := Ended(h0, bound, term, rest);
        match term {
          case Ref(v) =>
            UnderBind(h0, bound, heap, v);
            ApartBind(h0, old(heap), heap, v);
            OneNew(rest, bound);
            LocalBindVar(v, trail);
            return false;
          case Str(at) =>
            ghost var args := rest.args;
            NowStruct(h0, bound, heap, term, rest);
            FullArgs(rest);
            ArgsNone(bound);
            var arity := heap[at].psc.arity;
            if arity == 0 { return true; }
            ghost var bound0, vals0 := bound, trail.vals;
            for i := 1 to arity
              invariant Under(h0, bound, heap) && Apart(h0, old(heap), heap) && forall k :: 0 <= k < i - 1 ==> Full(args[k])
              invariant bound == bound0 + Elems(OccAll(args[..i - 1]))
              invariant trail.vals == vals0 + Firsts(OccAll(args[..i - 1]), bound0)
            {
              NowArg(h0, bound, heap, term, rest, i - 1);
              ArgsNext(args, i - 1, bound0);
              FullArg(rest, i - 1);
              ghost var h1 := heap;
              wild := MakeGround(heap[at + i], trail, h0, bound, args[i - 1]);
              if wild { return; }
              ApartTrans(h0, old(heap), h1, heap);
              bound := bound + Elems(Occ(args[i - 1]));
            }
            NowArg(h0, bound, heap, term, rest, arity - 1);
            ArgsNext(args, arity - 1, bound0);
            FullArg(rest, arity - 1);
            assert args[..arity] == args;
            term := heap[at + arity];
            rest := args[arity - 1];
          case List(at) =>
            NowPair(h0, bound, heap, term, rest);
            PairNext(rest, bound);
            ghost var h1 := heap;
            wild := MakeGround(heap[at], trail, h0, bound, rest.head);
            if wild { return; }
            ApartTrans(h0, old(heap), h1, heap);
            bound := bound + Elems(Occ(rest.head));
            NowPair(h0, bound, heap, term, rest);
            term := heap[at + 1];
            rest := rest.tail;
          case Con(_) =>
            NothingNew(h0, bound, term, rest);
            return false;
          case Num(_) =>
            NothingNew(h0, bound, term, rest);
            return false;
        }
      }
    }

    /** Appends a free variable to the list, binds and trails it. */
    method AppendVar(v: Addr, varlist: Addr, vars: Trail, ghost h0: Heap, ghost s: set<Addr>, ghost e: bool) returns (tail: Addr)
      requires Under(h0, s + Elems(vars.vals), heap) && Room(h0, varlist, hreg) && v in h0 && h0[v] == Ref(v) && v !in s + Elems(vars.vals)
      modifies this, vars
      ensures Under(h0, s + Elems(vars.vals), heap) && Room(h0, tail, hreg)
      ensures Collected(h0, old(heap), old(vars.vals), varlist, [v], heap, vars.vals, tail, hreg)
      ensures Firsts(Unscoped(Free(v), e, s), Elems(old(vars.vals))) == [v] && Ready(Free(v), e)
    {
      hide Under, Collected, Elems, Firsts, Unscoped, Ready;
      OneListed(h0, s, vars.vals, heap, varlist, hreg, v, e);
      heap := heap[varlist := List(hreg)];
      heap := heap[hreg := Ref(v)];
      LocalBindVar(v, vars);
      hreg := hreg + 2;
      tail := hreg - 1;
    }

    /** Appends the variables of a term that are neither bound nor hidden to the list that ends at varlist. */
    method ExcessVars(c: Cell, varlist: Addr, ifExist: bool, templ: Trail, vars: Trail, ghost h0: Heap, ghost s: set<Addr>, ghost t: Term)
      returns (tail: Addr, wild: bool)
      requires templ != vars && Room(h0, varlist, hreg)
      requires Under(h0, s + Elems(vars.vals), heap) && Now(h0, s + Elems(vars.vals), c, t)
      modifies this, templ, vars
      ensures wild <==> !Ready(t, ifExist)
      ensures !wild ==> templ.vals == old(templ.vals) && Under(h0, s + Elems(vars.vals), heap)
      ensures !wild ==>
        Collected(h0, old(heap), old(vars.vals), varlist, Firsts(Unscoped(t, ifExist, s), Elems(old(vars.vals))), heap, vars.vals, tail, hreg)
      decreases Size(t), 1
    {
      hide Shows, Under, Now, Reached, Occ, OccAll, Size, SizeAll, End, Firsts, Elems, Apart, Full, Ready, Unscoped, UnscopedAll, Scope, Released, Collected, Room, Scoping;
      RoomTop(h0, varlist, hreg);
      tail := varlist;
      var term := c;
      ghost var rest, v0, got := t, vars.vals, [];
      ghost var ready, all := Ready(t, ifExist), Firsts(Unscoped(t, ifExist, s), Elems(v0));
      CollectedNone(h0, heap, v0, tail, hreg);
      assert [] + all == all;
      while true
        invariant templ.vals == old(templ.vals) && Room(h0, tail, hreg) && (Ready(rest, ifExist) <==> ready) && Size(rest) <= Size(t)
        invariant Under(h0, s + Elems(vars.vals), heap) && Now(h0, s + Elems(vars.vals), term, rest)
        invariant Collected(h0, old(heap), v0, varlist, got, heap, vars.vals, tail, hreg)
        invariant got + Firsts(Unscoped(rest, ifExist, s), Elems(vars.vals)) == all
        decreases Size(rest)
      {
        ghost var b := s + Elems(vars.vals);
        RoomTop(h0, tail, hreg);
        ReadyEnd(rest, ifExist);
        UnscopedEnd(rest, ifExist, s);
        term := Deref(term, h0, b, rest);
        rest := Ended(h0, b, term, rest);
        match term {
          case Ref(v) =>
            ghost var h1, vals0, tail0 := heap, vars.vals, tail;
            tail := AppendVar(v, tail, vars, h0, s, ifExist);
            CollectedMore(h0, old(heap), v0, varlist, got, h1, vals0, tail0, [v], heap, vars.vals, tail, hreg);
            return tail, false;
          case Str(at) =>
            ghost var args := rest.args;
            NowStruct(h0, b, heap, term, rest);
            var arity := heap[at].psc.arity;
            if arity == 0 {
              NothingIn(rest, ifExist, s, Elems(vars.vals));
              assert got + [] == got;
              return tail, false;
            }
            ghost var h1, vals0, tail0 := heap, vars.vals, tail;
            ScopingIs(heap[at].psc);
            if ifExist && (heap[at].psc == CARET || heap[at].psc == SETOF || heap[at].psc == BAGOF) {
              tail, wild := ScopedVars(term, tail, templ, vars, h0, s, rest);
              if wild { return; }
              CollectedMore(h0, old(heap), v0, varlist, got, h1, vals0, tail0, Firsts(Unscoped(rest, true, s), Elems(vals0)), heap, vars.vals, tail, hreg);
              return;
            }
            ArgsUnscoped(rest, ifExist, s);
            ghost var more := Firsts(UnscopedAll(args[..arity - 1], ifExist, s), Elems(vals0));
            ReadyArgs(rest, ifExist);
            tail, wild := FirstArgs(term, tail, ifExist, templ, vars, h0, s, rest);
            if wild { return; }
            CollectedMore(h0, old(heap), v0, varlist, got, h1, vals0, tail0, more, heap, vars.vals, tail, hreg);
            NowArg(h0, s + Elems(vars.vals), heap, term, rest, arity - 1);
            ReadyArg(rest, ifExist, arity - 1);
            UnscopedNext(args, arity - 1, ifExist, s);
            assert args[..arity] == args;
            FirstsNext(UnscopedAll(args[..arity - 1], ifExist, s), Unscoped(args[arity - 1], ifExist, s), vals0, more);
            Regroup(got, more, Firsts(Unscoped(args[arity - 1], ifExist, s), Elems(vals0 + more)));
            got := got + more;
            term := heap[at + arity];
            rest := args[arity - 1];
          case List(at) =>
            NowPair(h0, b, heap, term, rest);
            ReadyPair(rest, ifExist, s);
            ghost var h1, vals0, tail0 := heap, vars.vals, tail;
            ghost var more := Firsts(Unscoped(rest.head, ifExist, s), Elems(vals0));
            FirstsNext(Unscoped(rest.head, ifExist, s), Unscoped(rest.tail, ifExist, s), vals0, more);
            tail, wild := ExcessVars(heap[at], tail, ifExist, templ, vars, h0, s, rest.head);
            if wild { return; }
            CollectedMore(h0, old(heap), v0, varlist, got, h1, vals0, tail0, more, heap, vars.vals, tail, hreg);
            Regroup(got, more, Firsts(Unscoped(rest.tail, ifExist, s), Elems(vals0 + more)));
            got := got + more;
            NowPair(h0, s + Elems(vars.vals), heap, term, rest);
            term := heap[at + 1];
            rest := rest.tail;
          case Con(_) =>
            NothingListed(term, rest, ifExist, s, Elems(vars.vals));
            assert got + [] == got;
            return tail, false;
          case Num(_) =>
            NothingListed(term, rest, ifExist, s, Elems(vars.vals));
            assert got + [] == got;
            return tail, false;
        }
      }
    }

    /** All arguments but the last of a structure that is not scoping. */
    method FirstArgs(c: Cell, varlist: Addr, ifExist: bool, templ: Trail, vars: Trail, ghost h0: Heap, ghost s: set<Addr>, ghost t: Term)
      returns (tail: Addr, wild: bool)
      requires templ != vars && Room(h0, varlist, hreg) && t.Struct? && |t.args| > 0
      requires Under(h0, s + Elems(vars.vals), heap) && Shows(h0, c, t)
      modifies this, templ, vars
      ensures wild <==> exists i :: 0 <= i < |t.args| - 1 && !Ready(t.args[i], ifExist)
      ensures !wild ==> templ.vals == old(templ.vals) && Under(h0, s + Elems(vars.vals), heap)
      ensures !wild ==> Collected(h0, old(heap), old(vars.vals), varlist,
                        Firsts(UnscopedAll(t.args[..|t.args| - 1], ifExist, s), Elems(old(vars.vals))), heap, vars.vals, tail, hreg)
      decreases Size(t), 0
    {
      hide Shows, Under, Now, Reached, Occ, OccAll, Size, SizeAll, End, Firsts, Elems, Apart, Full, Ready, Unscoped, UnscopedAll, Scope, Released, Collected;
      ghost var args, v0, more := t.args, vars.vals, [];
      NowStruct(h0, s + Elems(v0), heap, c, t);
      var at, arity := c.at, heap[c.at].psc.arity;
      tail := varlist;
      CollectedNone(h0, heap, v0, tail, hreg);
      NoArgs(ifExist, s, Elems(v0));
      for i := 1 to arity
        invariant templ.vals == old(templ.vals) && Room(h0, tail, hreg) && Under(h0, s + Elems(vars.vals), heap)
        invariant forall k :: 0 <= k < i - 1 ==> Ready(args[k], ifExist)
        invariant Collected(h0, old(heap), v0, varlist, more, heap, vars.vals, tail, hreg)
        invariant more == Firsts(UnscopedAll(args[..i - 1], ifExist, s), Elems(v0)) && vars.vals == v0 + more
      {
        NowArg(h0, s + Elems(vars.vals), heap, c, t, i - 1);
        ReadyArg(t, ifExist, i - 1);
        UnscopedNext(args, i - 1, ifExist, s);
        FirstsNext(UnscopedAll(args[..i - 1], ifExist, s), Unscoped(args[i - 1], ifExist, s), v0, more);
        ghost var h2, vals2, tail2 := heap, vars.vals, tail;
        tail, wild := ExcessVars(heap[at + i], tail, ifExist, templ, vars, h0, s, args[i - 1]);
        if wild { return; }
        ghost var next := Firsts(Unscoped(args[i - 1], ifExist, s), Elems(vals2));
        CollectedMore(h0, old(heap), v0, varlist, more, h2, vals2, tail2, next, heap, vars.vals, tail, hreg);
        more := more + next;
      }
      wild := false;
    }

    /** The arguments of a scoping structure: the variables of the first one are bound meanwhile. */
    method ScopedVars(c: Cell, varlist: Addr, templ: Trail, vars: Trail, ghost h0: Heap, ghost s: set<Addr>, ghost t: Term)
      returns (tail: Addr, wild: bool)
      requires templ != vars && Room(h0, varlist, hreg) && t.Struct? && Scoping(t.psc)
      requires Under(h0, s + Elems(vars.vals), heap) && Shows(h0, c, t)
      modifies this, templ, vars
      ensures wild <==> !Ready(t, true)
      ensures !wild ==> templ.vals == old(templ.vals) && Under(h0, s + Elems(vars.vals), heap)
      ensures !wild ==>
        Collected(h0, old(heap), old(vars.vals), varlist, Firsts(Unscoped(t, true, s), Elems(old(vars.vals))), heap, vars.vals, tail, hreg)
      decreases Size(t), 0
    {
      hide Shows, Under, Now, Reached, Occ, OccAll, Size, SizeAll, End, Firsts, Elems, Apart, Full, Ready, Unscoped, UnscopedAll, Scope, Released, Collected;
      ghost var b := s + Elems(vars.vals);
      NowStruct(h0, b, heap, c, t);
      ghost var args, v0, s1 := t.args, vars.vals, s + Elems(Occ(t.args[0]));
      NowArg(h0, b, heap, c, t, 0);
      NowArg(h0, b, heap, c, t, 1);
      ScopedSplit(t, s);
      ReadyScope(t);
      var base, at, psc := |templ.vals|, c.at, heap[c.at].psc;
      tail := varlist;
      wild := MakeGround(heap[at + 1], templ, h0, b, args[0]);
      if wild { return; }
      ApartCollected(h0, old(heap), heap, v0, varlist, hreg);
      assert b + Elems(Occ(args[0])) == s1 + Elems(v0);
      NowArg(h0, s1 + Elems(v0), heap, c, t, 1);
      ghost var h1, more := heap, Firsts(Unscoped(args[1], true, s1), Elems(v0));
      tail, wild := ExcessVars(heap[at + 2], varlist, true, templ, vars, h0, s1, args[1]);
      if wild { return; }
      CollectedMore(h0, old(heap), v0, varlist, [], h1, v0, varlist, more, heap, vars.vals, tail, hreg);
      assert [] + more == more;
      if psc != CARET {
        NowArg(h0, s1 + Elems(vars.vals), heap, c, t, 2);
        ghost var h2, v2, tail2 := heap, vars.vals, tail;
        FirstsNext(Unscoped(args[1], true, s1), Unscoped(args[2], true, s1), v0, more);
        tail, wild := ExcessVars(heap[at + 3], tail, true, templ, vars, h0, s1, args[2]);
        if wild { return; }
        ghost var next := Firsts(Unscoped(args[2], true, s1), Elems(v2));
        CollectedMore(h0, old(heap), v0, varlist, more, h2, v2, tail2, next, heap, vars.vals, tail, hreg);
        more := more + next;
      }
      assert psc == CARET ==> Unscoped(args[1], true, s1) + [] == Unscoped(args[1], true, s1);
      assert more == Firsts(Unscoped(t, true, s), Elems(v0));
      ListedOutside(t, s, Elems(v0), more);
      ghost var h3 := heap;
      assert templ.vals[base..] == Firsts(Occ(args[0]), b);
      CollectedVals(h0, old(heap), v0, varlist, more, heap, vars.vals, tail, hreg);
      assert s1 + Elems(vars.vals) == s + Elems(Occ(args[0])) + Elems(v0 + more);
      UndoLtrailBindings(templ, base);
      LeaveScope(h0, s, Occ(args[0]), v0, more, h3, heap);
      CollectedApart(h0, old(heap), v0, varlist, more, h3, heap, vars.vals, tail, hreg);
      assert templ.vals == old(templ.vals);
    }

    /** The loop over the start list: its variables are listed and bound. */
    method StartVars(arg3: Cell, anslist: Addr, vars: Trail, ghost h0: Heap, ghost t3: Term) returns (ok: bool, tanslist: Addr)
      requires h0 == heap && Shows(h0, arg3, t3) && vars.vals == [] && Room(h0, anslist, hreg)
      modifies this, vars
      ensures StartOf(t3, []) == if ok then Accepted(vars.vals) else Refused(vars.vals)
      ensures Under(h0, Elems(vars.vals), heap) && Room(h0, tanslist, hreg)
      ensures Collected(h0, h0, [], anslist, vars.vals, heap, vars.vals, tanslist, hreg)
    {
      hide Shows, Under, Now, Reached, Size, SizeAll, End, Elems, Collected, StartOf, Occ;
      CollectedNone(h0, h0, [], anslist, hreg);
      tanslist := anslist;
      NoElems();
      UnderNothing(h0);
      NowShown(h0, {}, arg3, t3);
      var startvlist := Deref(arg3, h0, {}, t3);
      ghost var rest := t3;
      while startvlist != NIL
        invariant Room(h0, tanslist, hreg)
        invariant Under(h0, Elems(vars.vals), heap) && Reached(h0, Elems(vars.vals), startvlist, rest)
        invariant Collected(h0, h0, [], anslist, vars.vals, heap, vars.vals, tanslist, hreg)
        invariant StartOf(rest, vars.vals) == StartOf(t3, [])
        decreases Size(rest)
      {
        ghost var b := Elems(vars.vals);
        ghost var u := Ended(h0, b, startvlist, rest);
        StartStep(rest, vars.vals);
        InElems(u, vars.vals);
        if !startvlist.List? { return false, tanslist; }
        var at := startvlist.at;
        NowPair(h0, b, heap, startvlist, u);
        var ovar := Deref(heap[at], h0, b, u.head);
        ghost var x := Ended(h0, b, ovar, u.head);
        InElems(x, vars.vals);
        if !ovar.Ref? { return false, tanslist; }
        ghost var v, vals, h1 := ovar.to, vars.vals, heap;
        NoScope(vals, [v]);
        OneListed(h0, {}, vals, heap, tanslist, hreg, v, true);
        CollectedMore(h0, h0, [], anslist, vals, heap, vals, tanslist, [v], h1[tanslist := List(hreg)][hreg := Ref(v)][v := NIL],
                      vals + [v], tanslist + 2, hreg + 2);
        heap := heap[tanslist := List(hreg)];
        heap := heap[hreg := ovar];
        LocalBindVar(ovar.to, vars);
        tanslist := hreg + 1;
        hreg := hreg + 2;
        NowPair(h0, Elems(vars.vals), heap, startvlist, u);
        startvlist := Deref(heap[at + 1], h0, Elems(vars.vals), u.tail);
        rest := u.tail;
      }
      ghost var u := Ended(h0, Elems(vars.vals), startvlist, rest);
      StartStep(rest, vars.vals);
      InElems(u, vars.vals);
      ok := true;
    }

    /** excess_vars(T1, T2, T3, ifExist, List) up to the unification of the list with the last argument.
        Overflow ends the program; a type error leaves this method without undoing anything. */
    method ExcessVarsBuiltin(arg1: Cell, arg2: Cell, arg3: Cell, ifExist: bool, ghost t1: Term, ghost t2: Term, ghost t3: Term)
      returns (r: Outcome)
      requires Shows(heap, arg1, t1) && Shows(heap, arg2, t2) && Shows(heap, arg3, t3)
      requires forall a :: a in heap ==> a < hreg
      modifies this
      ensures r == Wild ==> StartOf(t3, []).Accepted? && !Tame(t1, t2, t3, ifExist)
      ensures r == Overflow <==> |Occ(t1)| + |Occ(t3)| > MAX_LOCAL_TRAIL_SIZE
      ensures r == TypeError ==> StartOf(t3, []).Refused? && Under(old(heap), Elems(StartOf(t3, []).vars), heap)
      ensures r.Answer? ==> StartOf(t3, []).Accepted? && Tame(t1, t2, t3, ifExist) && Under(old(heap), {}, heap)
      ensures r.Answer? ==> r.list in heap && ListIs(heap, heap[r.list], Excess(t1, t2, t3, ifExist))
    {
      hide Shows, Under, Now, Reached, Occ, OccAll, Size, SizeAll, End, Firsts, Elems, Apart, Full, Ready, Unscoped, UnscopedAll, Released, Collected, StartOf, ListIs, Grown, Tame;
      ghost var h0 := heap;
      var max := CountVariableOccurrences(arg1, t1);
      var n := CountVariableOccurrences(arg3, t3);
      if max + n > MAX_LOCAL_TRAIL_SIZE { return Overflow; }
      var templ := new Trail();
      var vars := new Trail();
      var anslist := hreg;
      hreg := hreg + 1;
      var ok, tanslist := StartVars(arg3, anslist, vars, h0, t3);
      if !ok { return TypeError; }
      ghost var start, h1 := vars.vals, heap;
      NowShown(h0, Elems(start), arg2, t2);
      var wild := MakeGround(arg2, vars, h0, Elems(start), t2);
      TameIs(t1, t2, t3, ifExist, start, vars.vals);
      if wild || |vars.vals| > MAX_LOCAL_TRAIL_SIZE { return Wild; }
      ghost var ground, h2 := vars.vals, heap;
      GroundElems(start, Occ(t2));
      NowShown(h0, {} + Elems(ground), arg1, t1);
      NoScopeSet(Elems(ground));
      var tail;
      tail, wild := ExcessVars(arg1, tanslist, ifExist, templ, vars, h0, {}, t1);
      if wild { return Wild; }
      CollectedVals(h0, h2, ground, tanslist, Firsts(Unscoped(t1, ifExist, {}), Elems(ground)), heap, vars.vals, tail, hreg);
      if |vars.vals| > MAX_LOCAL_TRAIL_SIZE { return Wild; }
      ghost var more, h3, all := Firsts(Unscoped(t1, ifExist, {}), Elems(ground)), heap, vars.vals;
      heap := heap[tail := NIL];
      UndoLtrailBindings(templ, 0);
      ghost var h4 := heap;
      assert all[0..] == all && templ.vals == [];
      NoScopeSet(Elems(all));
      UndoLtrailBindings(vars, 0);
      Finish(h0, anslist, start, h1, ground, h2, tanslist, more, h3, all, tail, hreg, h4, heap);
      r := Answer(anslist);
    }
  }

  /** The end of the list under construction is the cell before the top of the heap. */
  ghost predicate Room(h0: Heap, tail: Addr, hreg: Addr) {
    hreg == tail + 1 && forall a :: a in h0 ==> a < tail
  }

  /** The list and the trail have grown by more. */
  ghost predicate Collected(h0: Heap, h: Heap, v0: seq<Addr>, tail0: Addr, more: seq<Addr>, h1: Heap, v1: seq<Addr>, tail: Addr, hreg: Addr) {
    v1 == v0 + more && Grown(h0, h, h1, tail0, more) && tail == tail0 + 2 * |more| && hreg == tail + 1
  }

  lemma Regroup(a: seq<Addr>, b: seq<Addr>, c: seq<Addr>)
    ensures a + (b + c) == a + b + c
  {
  }

  lemma RoomTop(h0: Heap, tail: Addr, hreg: Addr)
    requires Room(h0, tail, hreg)
    ensures hreg == tail + 1
  {
  }

  lemma ScopingIs(psc: Psc)
    ensures Scoping(psc) <==> psc == CARET || psc == SETOF || psc == BAGOF
  {
  }

  lemma CollectedNone(h0: Heap, h: Heap, v0: seq<Addr>, tail: Addr, hreg: Addr)
    requires hreg == tail + 1
    ensures Collected(h0, h, v0, tail, [], h, v0, tail, hreg)
  {
  }

  lemma CollectedVals(h0: Heap, h: Heap, v0: seq<Addr>, tail0: Addr, more: seq<Addr>, h1: Heap, v1: seq<Addr>, tail: Addr, hreg: Addr)
    requires Collected(h0, h, v0, tail0, more, h1, v1, tail, hreg)
    ensures v1 == v0 + more
  {
  }

  lemma ApartCollected(h0: Heap, h: Heap, h1: Heap, v0: seq<Addr>, tail: Addr, hreg: Addr)
    requires Apart(h0, h, h1) && Room(h0, tail, hreg)
    ensures Collected(h0, h, v0, tail, [], h1, v0, tail, hreg)
  {
  }

  lemma CollectedMore(h0: Heap, h: Heap, v0: seq<Addr>, tail0: Addr, got: seq<Addr>, h1: Heap, v1: seq<Addr>, tail1: Addr,
                      more: seq<Addr>, h2: Heap, v2: seq<Addr>, tail: Addr, hreg: Addr)
    requires Room(h0, tail0, tail0 + 1) && Collected(h0, h, v0, tail0, got, h1, v1, tail1, tail1 + 1) && Collected(h0, h1, v1, tail1, more, h2, v2, tail, hreg)
    ensures Collected(h0, h, v0, tail0, got + more, h2, v2, tail, hreg) && Room(h0, tail, hreg)
    ensures v2 == v1 + more
  {
    hide Grown;
    GrownTrans(h0, h, h1, h2, tail0, got, more);
  }

  lemma CollectedApart(h0: Heap, h: Heap, v0: seq<Addr>, tail0: Addr, more: seq<Addr>, h1: Heap, h2: Heap, v1: seq<Addr>, tail: Addr, hreg: Addr)
    requires Room(h0, tail0, tail0 + 1) && Collected(h0, h, v0, tail0, more, h1, v1, tail, hreg) && Apart(h0, h1, h2)
    ensures Collected(h0, h, v0, tail0, more, h2, v1, tail, hreg)
  {
    GrownApart(h0, h, h1, h2, tail0, more);
  }

  lemma OneListed(h0: Heap, s: set<Addr>, vals: seq<Addr>, h: Heap, tail: Addr, hreg: Addr, v: Addr, e: bool)
    requires Under(h0, s + Elems(vals), h) && Room(h0, tail, hreg) && v in h0 && h0[v] == Ref(v) && v !in s + Elems(vals)
    ensures var h1 := h[tail := List(hreg)][hreg := Ref(v)][v := NIL];
      (Under(h0, s + Elems(vals + [v]), h1) && Collected(h0, h, vals, tail, [v], h1, vals + [v], tail + 2, hreg + 2))
    ensures Firsts(Unscoped(Free(v), e, s), Elems(vals)) == [v] && Ready(Free(v), e)
  {
    var h1 := h[tail := List(hreg)][hreg := Ref(v)][v := NIL];
    assert BuiltAt(h1, tail, [v], 0);
  }

  lemma NothingListed(c: Cell, t: Term, e: bool, s: set<Addr>, b: set<Addr>)
    requires (t.Const? && t.c == c) || (t.Free? && t.v in s + b)
    ensures Firsts(Unscoped(t, e, s), b) == [] && Ready(t, e)
  {
  }

  lemma NothingIn(t: Term, e: bool, s: set<Addr>, b: set<Addr>)
    requires t.Struct? && t.args == []
    ensures Firsts(Unscoped(t, e, s), b) == [] && Ready(t, e)
  {
  }

  lemma ArgsUnscoped(t: Term, e: bool, s: set<Addr>)
    requires t.Struct? && !(e && Scoping(t.psc))
    ensures Unscoped(t, e, s) == UnscopedAll(t.args, e, s)
  {
  }

  lemma NoArgs(e: bool, s: set<Addr>, b: set<Addr>)
    ensures Firsts(UnscopedAll([], e, s), b) == []
  {
  }

  lemma UnscopedNext(args: seq<Term>, i: nat, e: bool, s: set<Addr>)
    requires i < |args|
    ensures UnscopedAll(args[..i + 1], e, s) == UnscopedAll(args[..i], e, s) + Unscoped(args[i], e, s)
  {
    assert args[..i + 1][..i] == args[..i];
  }

  lemma FirstsNext(xs: seq<Addr>, ys: seq<Addr>, vals: seq<Addr>, more: seq<Addr>)
    requires more == Firsts(xs, Elems(vals))
    ensures Firsts(xs + ys, Elems(vals)) == more + Firsts(ys, Elems(vals + more))
  {
    FirstsAppend(xs, ys, Elems(vals));
    FirstsElems(xs, Elems(vals));
    ElemsAppend(vals, more);
    assert Elems(vals) + Elems(xs) == Elems(vals + more);
  }

  lemma ReadyArgs(t: Term, e: bool)
    requires t.Struct? && !(e && Scoping(t.psc))
    ensures Ready(t, e) <==> forall i :: 0 <= i < |t.args| ==> Ready(t.args[i], e)
  {
  }

  lemma ReadyArg(t: Term, e: bool, i: nat)
    requires t.Struct? && i < |t.args|
    ensures Size(t.args[i]) < Size(t)
  {
    ArgSmaller(t.args, i);
  }

  lemma ReadyPair(t: Term, e: bool, s: set<Addr>)
    requires t.Pair?
    ensures (Ready(t, e) <==> Ready(t.head, e) && Ready(t.tail, e)) && Size(t.head) < Size(t) && Size(t.tail) < Size(t)
    ensures Unscoped(t, e, s) == Unscoped(t.head, e, s) + Unscoped(t.tail, e, s)
  {
  }

  lemma ReadyScope(t: Term)
    requires t.Struct? && Scoping(t.psc) && |t.args| == t.psc.arity
    ensures Ready(t, true) <==> Full(t.args[0]) && Ready(t.args[1], true) && (t.psc != CARET ==> Ready(t.args[2], true))
    ensures forall i :: 0 <= i < |t.args| ==> Size(t.args[i]) < Size(t)
  {
    if Full(t.args[0]) { FullReady(t.args[0], true); }
    forall i | 0 <= i < |t.args| ensures Size(t.args[i]) < Size(t) { ArgSmaller(t.args, i); }
  }

  lemma {:induction false} FullReady(t: Term, e: bool)
    requires Full(t)
    ensures Ready(t, e)
    decreases t
  {
    match t
    case Link(_, next) => FullReady(next, e);
    case Struct(_, _, args) =>
      forall i | 0 <= i < |args| ensures Ready(args[i], e) { FullReady(args[i], e); }
    case Pair(_, head, tail) =>
      FullReady(head, e);
      FullReady(tail, e);
    case _ =>
  }

  lemma ScopedSplit(t: Term, s: set<Addr>)
    requires t.Struct? && Scoping(t.psc) && |t.args| == t.psc.arity
    ensures var s1 := s + Elems(Occ(t.args[0]));
      Unscoped(t, true, s) == Unscoped(t.args[1], true, s1) + (if t.psc == CARET then [] else Unscoped(t.args[2], true, s1))
  {
    var ts, s1 := t.args[1..], s + Elems(Occ(t.args[0]));
    UnscopedNext(ts, 0, true, s1);
    if t.psc == CARET {
      assert ts[..1] == ts;
    } else {
      UnscopedNext(ts, 1, true, s1);
      assert ts[..2] == ts;
    }
  }

  /** What a scoping structure adds to the list is not hidden by it. */
  lemma ListedOutside(t: Term, s: set<Addr>, b: set<Addr>, more: seq<Addr>)
    requires t.Struct? && Scoping(t.psc) && |t.args| == t.psc.arity && more == Firsts(Unscoped(t, true, s), b)
    ensures forall x :: x in more ==> x !in s + Elems(Occ(t.args[0]))
  {
    var s1 := s + Elems(Occ(t.args[0]));
    ScopedSplit(t, s);
    FirstsElems(Unscoped(t, true, s), b);
    forall x | x in more ensures x !in s1 {
      assert x in Elems(more);
      if x in s1 {
        UnscopedOut(t.args[1], true, s1, x);
        if t.psc != CARET { UnscopedOut(t.args[2], true, s1, x); }
      }
    }
  }

  /** The result: the start variables and then the unscoped variables of t1 that are not among these nor in t2. */
  function Excess(t1: Term, t2: Term, t3: Term, e: bool): seq<Addr> {
    var start := StartOf(t3, []).vars;
    start + Firsts(Unscoped(t1, e, {}), Elems(start) + Elems(Occ(t2)))
  }

  /** The template and the scopes hold no structure without arguments, and the start variables, those of the template and
      the excess variables together fit a local trail. */
  ghost predicate Tame(t1: Term, t2: Term, t3: Term, e: bool) {
    var start := StartOf(t3, []).vars;
    var ground := start + Firsts(Occ(t2), Elems(start));
    Full(t2) && Ready(t1, e) && |ground| + |Firsts(Unscoped(t1, e, {}), Elems(ground))| <= MAX_LOCAL_TRAIL_SIZE
  }

  lemma TameIs(t1: Term, t2: Term, t3: Term, e: bool, start: seq<Addr>, ground: seq<Addr>)
    requires start == StartOf(t3, []).vars
    ensures ground == start + Firsts(Occ(t2), Elems(start)) ==>
      (Tame(t1, t2, t3, e) <==>
        Full(t2) && Ready(t1, e) && |ground| + |Firsts(Unscoped(t1, e, {}), Elems(ground))| <= MAX_LOCAL_TRAIL_SIZE)
    ensures !Full(t2) ==> !Tame(t1, t2, t3, e)
  {
  }

  /** The argument that is read of a structure without arguments is its functor cell, which is no term. */
  lemma ArgumentZero(h: Heap, at: Addr, psc: Psc, t: Term)
    requires Shows(h, Str(at), Struct(at, psc, []))
    ensures psc.arity == 0 && h[at + psc.arity] == Functor(psc) && !Shows(h, h[at + psc.arity], t) && !Full(Struct(at, psc, []))
  {
  }

  predicate Distinct(xs: seq<Addr>) {
    forall i, j :: 0 <= i < j < |xs| ==> xs[i] != xs[j]
  }

  /** What the result contains: the elements of the start list, and every variable of t1 with an occurrence that no
      scope hides and that is not in t2; each of them once, in the order of these occurrences after the start list. */
  lemma {:induction false} ExcessExactly(t1: Term, t2: Term, t3: Term, e: bool)
    requires StartOf(t3, []).Accepted?
    ensures SameVars(StartOf(t3, []).vars, Spine(t3), [])
    ensures Excess(t1, t2, t3, e)[..|Spine(t3)|] == StartOf(t3, []).vars && Distinct(Excess(t1, t2, t3, e))
    ensures forall x :: x in Excess(t1, t2, t3, e) <==> Free(x) in Spine(t3) || (HasFree(t1, e, x) && x !in Occ(t2))
    ensures forall i, j :: |Spine(t3)| <= i < j < |Excess(t1, t2, t3, e)| ==>
      Before(Unscoped(t1, e, {}), Excess(t1, t2, t3, e)[i], Excess(t1, t2, t3, e)[j])
  {
    hide Unscoped, Spine, StartOf, HasFree, Occ, Before;
    var start, occ := StartOf(t3, []).vars, Unscoped(t1, e, {});
    var b := Elems(start) + Elems(Occ(t2));
    var rest, r := Firsts(occ, b), Excess(t1, t2, t3, e);
    StartExactly(t3, []);
    FirstsElems(occ, b);
    forall x ensures x in r <==> Free(x) in Spine(t3) || (HasFree(t1, e, x) && x !in Occ(t2)) {
      UnscopedExactly(t1, e, {}, x);
      assert x in rest <==> x in Elems(rest);
      StartMembers(start, Spine(t3), x);
    }
    forall i, j | |start| <= i < j < |r| ensures Before(occ, r[i], r[j]) {
      FirstsOrdered(occ, b, i - |start|, j - |start|);
    }
    forall i, j | 0 <= i < j < |r| ensures r[i] != r[j] {
      if i >= |start| { BeforeDiffers(occ, r[i], r[j]); }
      else if j >= |start| { assert r[j] in Elems(rest); }
      else { StartDistinct(start, Spine(t3), i, j); }
    }
  }

  lemma BeforeDiffers(xs: seq<Addr>, x: Addr, y: Addr)
    requires Before(xs, x, y)
    ensures x != y
  {
  }

  lemma StartMembers(start: seq<Addr>, ts: seq<Term>, x: Addr)
    requires SameVars(start, ts, [])
    ensures x in start <==> Free(x) in ts
  {
    if x in start {
      var i :| 0 <= i < |start| && start[i] == x;
      assert ts[i] == Free(start[i]);
    }
  }

  lemma StartDistinct(start: seq<Addr>, ts: seq<Term>, i: nat, j: nat)
    requires SameVars(start, ts, []) && Fresh(ts, []) && i < j < |start|
    ensures start[i] != start[j]
  {
    assert ts[i] == Free(start[i]) && ts[j] == Free(start[j]);
  }

  lemma NoElems()
    ensures Elems([]) == {}
  {
  }

  lemma StartStep(t: Term, seen: seq<Addr>)
    ensures End(t).Free? ==> StartOf(t, seen) == if End(t).v in seen then Accepted(seen) else Refused(seen)
    ensures End(t).Const? ==> StartOf(t, seen) == if End(t).c == NIL then Accepted(seen) else Refused(seen)
    ensures End(t).Struct? ==> StartOf(t, seen) == Refused(seen)
    ensures End(t).Pair? ==> Size(End(t).tail) < Size(t)
    ensures End(t).Pair? && End(End(t).head).Free? && End(End(t).head).v !in seen ==>
      StartOf(t, seen) == StartOf(End(t).tail, seen + [End(End(t).head).v])
    ensures End(t).Pair? && !(End(End(t).head).Free? && End(End(t).head).v !in seen) ==> StartOf(t, seen) == Refused(seen)
  {
  }

  lemma InElems(t: Term, vals: seq<Addr>)
    ensures t.Free? ==> (t.v in Elems(vals) <==> t.v in vals)
  {
  }

  lemma NoScopeSet(b: set<Addr>)
    ensures {} + b == b
  {
  }

  lemma NoScope(vals: seq<Addr>, more: seq<Addr>)
    ensures {} + Elems(vals) == Elems(vals) && {} + Elems(vals + more) == Elems(vals + more)
  {
  }

  lemma GroundElems(start: seq<Addr>, occ: seq<Addr>)
    ensures Elems(start + Firsts(occ, Elems(start))) == Elems(start) + Elems(occ)
  {
    FirstsElems(occ, Elems(start));
    ElemsAppend(start, Firsts(occ, Elems(start)));
  }

  /** The list is closed and everything is unbound. */
  lemma Finish(h0: Heap, anslist: Addr, start: seq<Addr>, h1: Heap, ground: seq<Addr>, h2: Heap, tanslist: Addr, more: seq<Addr>,
               h3: Heap, vals: seq<Addr>, tail: Addr, hreg: Addr, h4: Heap, h5: Heap)
    requires Room(h0, anslist, anslist + 1) && Collected(h0, h0, [], anslist, start, h1, start, tanslist, tanslist + 1)
    requires Apart(h0, h1, h2) && Collected(h0, h2, ground, tanslist, more, h3, vals, tail, hreg)
    requires Under(h0, Elems(vals), h3) && Released(h3[tail := NIL], [], h4) && Released(h4, vals, h5)
    ensures Under(h0, {}, h5) && anslist in h5 && ListIs(h5, h5[anslist], start + more)
  {
    hide Grown, Built, ListIs;
    assert h4 == h3[tail := NIL] by { ReleasedNone(h3[tail := NIL], h4); }
    assert Room(h0, tail, tail + 1);
    assert Under(h0, Elems(vals), h4);
    LeaveAll(h0, vals, h4, h5);
    GrownApart(h0, h0, h1, h2, anslist, start);
    GrownTrans(h0, h0, h2, h3, anslist, start, more);
    GrownClosed(h0, h0, h3, anslist, start + more, tail);
    GrownApart(h0, h0, h4, h5, anslist, start + more);
    GrownBuilt(h0, h0, h5, anslist, start + more);
    BuiltList(h5, anslist, start + more);
  }

  lemma ReleasedNone(h: Heap, h1: Heap)
    requires Released(h, [], h1)
    ensures h1 == h
  {
    assert forall a :: a in h1 <==> a in h;
    assert forall a :: a in h1 ==> h1[a] == h[a];
  }

  lemma GrownBuilt(h0: Heap, h: Heap, h1: Heap, tail: Addr, vs: seq<Addr>)
    requires Grown(h0, h, h1, tail, vs)
    ensures Built(h1, tail, vs)
  {
  }

  lemma GrownClosed(h0: Heap, h: Heap, h1: Heap, tail: Addr, vs: seq<Addr>, last: Addr)
    requires Grown(h0, h, h1, tail, vs) && last == tail + 2 * |vs|
    ensures Grown(h0, h, h1[last := NIL], tail, vs)
  {
    var h2 := h1[last := NIL];
    forall i: nat | i < |vs| ensures BuiltAt(h2, tail, vs, i) { assert BuiltAt(h1, tail, vs, i); }
  }

  lemma UnderNothing(h: Heap)
    ensures Under(h, {}, h)
  {
  }

  lemma NowShown(h0: Heap, b: set<Addr>, c: Cell, t: Term)
    requires Shows(h0, c, t)
    ensures Now(h0, b, c, t)
  {
  }

  lemma ApartRefl(h0: Heap, h: Heap)
    ensures Apart(h0, h, h)
  {
  }

  lemma ApartTrans(h0: Heap, h: Heap, h1: Heap, h2: Heap)
    requires Apart(h0, h, h1) && Apart(h0, h1, h2)
    ensures Apart(h0, h, h2)
  {
  }

  lemma ApartBind(h0: Heap, h: Heap, h1: Heap, v: Addr)
    requires Apart(h0, h, h1) && v in h0
    ensures Apart(h0, h, h1[v := NIL])
  {
  }

  /** What the cell at the end of the references tells about the term. */
  lemma Ended(h0: Heap, b: set<Addr>, c: Cell, t: Term) returns (u: Term)
    requires Reached(h0, b, c, t)
    ensures u == End(t) && !u.Link? && Occ(u) == Occ(t) && Size(u) <= Size(t) && !c.Functor?
    ensures c.Ref? ==> u == Free(c.to) && c.to !in b && c.to in h0 && h0[c.to] == Ref(c.to)
    ensures c.Str? ==> u.Struct? && Shows(h0, c, u)
    ensures c.List? ==> u.Pair? && Shows(h0, c, u)
    ensures c.Con? || c.Num? ==> (u.Const? && u.c == c) || (u.Free? && u.v in b && c == NIL)
  {
    u := End(t);
    OccEnd(t);
  }

  lemma NowStruct(h0: Heap, b: set<Addr>, h: Heap, c: Cell, t: Term)
    requires Under(h0, b, h) && Shows(h0, c, t) && t.Struct?
    ensures c == Str(t.at) && t.at in h && h[t.at] == Functor(t.psc) && |t.args| == t.psc.arity
    ensures t.args == [] ==> Occ(t) == []
    ensures Occ(t) == OccAll(t.args) && OccAll([]) == []
  {
  }

  lemma ShownArg(h: Heap, c: Cell, t: Term, i: nat)
    requires Shows(h, c, t) && t.Struct? && i < |t.args|
    ensures c == Str(t.at) && t.at + 1 + i in h && Shows(h, h[t.at + 1 + i], t.args[i])
    ensures Size(t.args[i]) < Size(t)
  {
    ArgSmaller(t.args, i);
  }

  lemma ShownPair(h: Heap, c: Cell, t: Term)
    requires Shows(h, c, t) && t.Pair?
    ensures c == List(t.at) && t.at in h && t.at + 1 in h && Shows(h, h[t.at], t.head) && Shows(h, h[t.at + 1], t.tail)
    ensures Size(t.head) < Size(t) && Size(t.tail) < Size(t) && Occ(t) == Occ(t.head) + Occ(t.tail)
  {
  }

  lemma OccNext(args: seq<Term>, i: nat)
    requires i < |args|
    ensures OccAll(args[..i + 1]) == OccAll(args[..i]) + Occ(args[i])
  {
    assert args[..i + 1][..i] == args[..i];
  }

  lemma OneOcc(t: Term)
    ensures t.Free? ==> Occ(t) == [t.v]
    ensures t.Const? ==> Occ(t) == []
  {
  }

  lemma OneNew(t: Term, b: set<Addr>)
    requires t.Free? && t.v !in b
    ensures Occ(t) == [t.v] && Elems(Occ(t)) == {t.v} && Firsts(Occ(t), b) == [t.v] && Full(t)
  {
  }

  lemma FullArgs(t: Term)
    requires t.Struct?
    ensures Full(t) <==> t.args != [] && forall i :: 0 <= i < |t.args| ==> Full(t.args[i])
  {
  }

  lemma FullArg(t: Term, i: nat)
    requires t.Struct? && i < |t.args|
    ensures Size(t.args[i]) < Size(t)
  {
    ArgSmaller(t.args, i);
  }

  lemma PairNext(t: Term, b: set<Addr>)
    requires t.Pair?
    ensures Size(t.head) < Size(t) && Size(t.tail) < Size(t)
    ensures Full(t) <==> Full(t.head) && Full(t.tail)
    ensures Elems(Occ(t)) == Elems(Occ(t.head)) + Elems(Occ(t.tail))
    ensures Firsts(Occ(t), b) == Firsts(Occ(t.head), b) + Firsts(Occ(t.tail), b + Elems(Occ(t.head)))
  {
    FirstsAppend(Occ(t.head), Occ(t.tail), b);
  }

  lemma ArgsNone(b: set<Addr>)
    ensures OccAll([]) == [] && Elems([]) == {} && Firsts([], b) == []
  {
  }

  lemma ArgsNext(args: seq<Term>, i: nat, b: set<Addr>)
    requires i < |args|
    ensures OccAll(args[..i + 1]) == OccAll(args[..i]) + Occ(args[i])
    ensures Elems(OccAll(args[..i + 1])) == Elems(OccAll(args[..i])) + Elems(Occ(args[i]))
    ensures Firsts(OccAll(args[..i + 1]), b) == Firsts(OccAll(args[..i]), b) + Firsts(Occ(args[i]), b + Elems(OccAll(args[..i])))
  {
    assert args[..i + 1][..i] == args[..i];
    FirstsAppend(OccAll(args[..i]), Occ(args[i]), b);
  }

  /** A cell that reads as a constant adds no variable: it is one, or a variable that is bound already. */
  lemma NothingNew(h0: Heap, b: set<Addr>, c: Cell, t: Term)
    requires (t.Const? && t.c == c) || (t.Free? && t.v in b)
    ensures Firsts(Occ(t), b) == [] && b + Elems(Occ(t)) == b && Full(t)
  {
  }
}
