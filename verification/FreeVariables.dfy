/** Terms as they lie on the heap, and which of their variables are excess variables. */
module FreeVariables {

  type Addr = nat

  datatype Psc = Psc(name: string, arity: nat)

  datatype Cell = Ref(to: Addr) | Con(name: string) | Num(n: int) | Str(at: Addr) | List(at: Addr) | Functor(psc: Psc)

  type Heap = map<Addr, Cell>

  const NIL := Con("[]")

  /** The descriptors of module setof, which init_xsb.c sets up. */
  const CARET := Psc("^", 2)
  const SETOF := Psc("setof", 3)
  const BAGOF := Psc("bagof", 3)

  /** A term together with its place: v and at are addresses of cells; Link is a reference that has to be followed. */
  datatype Term = Free(v: Addr) | Link(v: Addr, next: Term) | Const(c: Cell) | Struct(at: Addr, psc: Psc, args: seq<Term>) | Pair(at: Addr, head: Term, tail: Term)

  /** Cell c of heap h holds term t. */
  ghost predicate Shows(h: Heap, c: Cell, t: Term)
    decreases t
  {
    match t
    case Free(v) => c == Ref(v) && v in h && h[v] == Ref(v)
    case Link(v, next) => c == Ref(v) && v in h && h[v] != Ref(v) && Shows(h, h[v], next)
    case Const(k) => c == k && (k.Con? || k.Num?)
    case Struct(at, psc, args) =>
      && c == Str(at) && at in h && h[at] == Functor(psc) && |args| == psc.arity
      && forall i :: 0 <= i < |args| ==> at + 1 + i in h && Shows(h, h[at + 1 + i], args[i])
    case Pair(at, head, tail) => c == List(at) && at in h && at + 1 in h && Shows(h, h[at], head) && Shows(h, h[at + 1], tail)
  }

  /** What is at the end of the references. */
  function End(t: Term): (r: Term)
    ensures !r.Link? && Size(r) <= Size(t)
  {
    if t.Link? then End(t.next) else t
  }

  function Size(t: Term): (n: nat)
    ensures n > 0
    decreases t
  {
    match t
    case Link(_, next) => 1 + Size(next)
    case Struct(_, _, args) => 1 + SizeAll(args)
    case Pair(_, head, tail) => 1 + Size(head) + Size(tail)
    case _ => 1
  }

  function SizeAll(ts: seq<Term>): nat
    decreases ts
  {
    if ts == [] then 0 else SizeAll(ts[..|ts| - 1]) + Size(ts[|ts| - 1])
  }

  lemma {:induction false} ArgSmaller(ts: seq<Term>, i: nat)
    requires i < |ts|
    ensures Size(ts[i]) <= SizeAll(ts)
  {
    if i < |ts| - 1 { ArgSmaller(ts[..|ts| - 1], i); }
  }

  // ---- variables ------------------------------------------------------------------------------

  /** The variable occurrences of a term from left to right. */
  function Occ(t: Term): seq<Addr>
    decreases t
  {
    match t
    case Free(v) => [v]
    case Link(_, next) => Occ(next)
    case Const(_) => []
    case Struct(_, _, args) => OccAll(args)
    case Pair(_, head, tail) => Occ(head) + Occ(tail)
  }

  function OccAll(ts: seq<Term>): seq<Addr>
    decreases ts
  {
    if ts == [] then [] else OccAll(ts[..|ts| - 1]) + Occ(ts[|ts| - 1])
  }

  function Elems(xs: seq<Addr>): set<Addr> {
    set x | x in xs
  }

  predicate Scoping(psc: Psc) {
    psc == CARET || psc == SETOF || psc == BAGOF
  }

  /** The variables that the first argument of a scoping structure takes away from the others. */
  function Scope(args: seq<Term>): set<Addr> {
    if args == [] then {} else Elems(Occ(args[0]))
  }

  /** The occurrences from left to right that no scope hides; s are the variables hidden from outside. Without e
      nothing is scoping. */
  function Unscoped(t: Term, e: bool, s: set<Addr>): seq<Addr>
    decreases t
  {
    match t
    case Free(v) => if v in s then [] else [v]
    case Link(_, next) => Unscoped(next, e, s)
    case Const(_) => []
    case Struct(_, psc, args) =>
      if args == [] then []
      else if e && Scoping(psc) then UnscopedAll(args[1..], e, s + Scope(args))
      else UnscopedAll(args, e, s)
    case Pair(_, head, tail) => Unscoped(head, e, s) + Unscoped(tail, e, s)
  }

  function UnscopedAll(ts: seq<Term>, e: bool, s: set<Addr>): seq<Addr>
    decreases ts
  {
    if ts == [] then [] else UnscopedAll(ts[..|ts| - 1], e, s) + Unscoped(ts[|ts| - 1], e, s)
  }

  /** The first occurrences in xs of what is not in b. */
  function Firsts(xs: seq<Addr>, b: set<Addr>): seq<Addr> {
    if xs == [] then [] else if xs[0] in b then Firsts(xs[1..], b) else [xs[0]] + Firsts(xs[1..], b + {xs[0]})
  }

  lemma {:induction false} FirstsAppend(xs: seq<Addr>, ys: seq<Addr>, b: set<Addr>)
    ensures Firsts(xs + ys, b) == Firsts(xs, b) + Firsts(ys, b + Elems(xs))
  {
    if xs == [] {
      assert xs + ys == ys && b + Elems(xs) == b;
    } else {
      assert (xs + ys)[1..] == xs[1..] + ys;
      var b1 := if xs[0] in b then b else b + {xs[0]};
      FirstsAppend(xs[1..], ys, b1);
      assert b1 + Elems(xs[1..]) == b + Elems(xs) by { ElemsHead(xs); }
    }
  }

  lemma ElemsHead(xs: seq<Addr>)
    requires xs != []
    ensures Elems(xs) == {xs[0]} + Elems(xs[1..])
  {
    assert xs == [xs[0]] + xs[1..];
  }

  lemma ElemsAppend(xs: seq<Addr>, ys: seq<Addr>)
    ensures Elems(xs + ys) == Elems(xs) + Elems(ys)
  {
  }

  lemma {:induction false} FirstsElems(xs: seq<Addr>, b: set<Addr>)
    ensures Elems(Firsts(xs, b)) == Elems(xs) - b
  {
    if xs != [] {
      ElemsHead(xs);
      if xs[0] in b {
        FirstsElems(xs[1..], b);
      } else {
        FirstsElems(xs[1..], b + {xs[0]});
        ElemsAppend([xs[0]], Firsts(xs[1..], b + {xs[0]}));
      }
    }
  }

  /** Some occurrence of x in xs is before every one of y. */
  ghost predicate Before(xs: seq<Addr>, x: Addr, y: Addr) {
    exists i :: 0 <= i < |xs| && xs[i] == x && y !in xs[..i + 1]
  }

  /** Firsts lists each variable outside b once, in the order of their first occurrences. */
  lemma {:induction false} FirstsOrdered(xs: seq<Addr>, b: set<Addr>, i: nat, j: nat)
    requires i < j < |Firsts(xs, b)|
    ensures Before(xs, Firsts(xs, b)[i], Firsts(xs, b)[j])
  {
    var r := Firsts(xs, b);
    if xs[0] in b {
      FirstsOrdered(xs[1..], b, i, j);
      BeforeLater(xs, r[i], r[j]);
      FirstsElems(xs, b);
      assert r[j] in Elems(r);
    } else {
      var b1 := b + {xs[0]};
      FirstsElems(xs[1..], b1);
      assert r[j] in Elems(Firsts(xs[1..], b1));
      if i == 0 {
        assert xs[..1] == [xs[0]];
      } else {
        FirstsOrdered(xs[1..], b1, i - 1, j - 1);
        BeforeLater(xs, r[i], r[j]);
      }
    }
  }

  lemma BeforeLater(xs: seq<Addr>, x: Addr, y: Addr)
    requires xs != [] && Before(xs[1..], x, y)
    ensures xs[0] != y ==> Before(xs, x, y)
  {
    var i :| 0 <= i < |xs| - 1 && xs[1..][i] == x && y !in xs[1..][..i + 1];
    assert xs[i + 1] == x;
    assert xs[..i + 2] == [xs[0]] + xs[1..][..i + 1];
  }

  // ---- what is hidden --------------------------------------------------------------------------

  /** The structures whose first argument hides variables: V ^ G, setof(T, G, L) and bagof(T, G, L). */
  predicate Hides(name: string, arity: nat) {
    (name == "^" && arity == 2) || (arity == 3 && (name == "setof" || name == "bagof"))
  }

  /** Path p leads to a free occurrence of x: it ends at x, never enters the first argument of a scoping
      structure, and enters another one only if that first argument does not contain x. */
  ghost predicate FreeAt(t: Term, e: bool, p: seq<nat>, x: Addr)
    decreases t
  {
    match t
    case Free(v) => p == [] && v == x
    case Link(_, next) => FreeAt(next, e, p, x)
    case Const(_) => false
    case Struct(_, psc, args) =>
      && p != [] && p[0] < |args| && (e && Hides(psc.name, psc.arity) ==> p[0] > 0 && x !in Occ(args[0]))
      && FreeAt(args[p[0]], e, p[1..], x)
    case Pair(_, head, tail) =>
      p != [] && p[0] < 2 && (if p[0] == 0 then FreeAt(head, e, p[1..], x) else FreeAt(tail, e, p[1..], x))
  }

  ghost predicate HasFree(t: Term, e: bool, x: Addr) {
    exists p :: FreeAt(t, e, p, x)
  }

  lemma LinkFree(t: Term, e: bool, x: Addr)
    requires t.Link?
    ensures HasFree(t, e, x) <==> HasFree(t.next, e, x)
  {
    if HasFree(t, e, x) {
      var p :| FreeAt(t, e, p, x);
      assert FreeAt(t.next, e, p, x);
    }
    if HasFree(t.next, e, x) {
      var p :| FreeAt(t.next, e, p, x);
      assert FreeAt(t, e, p, x);
    }
  }

  /** The unscoped variables are those with a free occurrence, unless they are hidden from outside. */
  lemma {:induction false} UnscopedExactly(t: Term, e: bool, s: set<Addr>, x: Addr)
    ensures x in Unscoped(t, e, s) <==> x !in s && HasFree(t, e, x)
    decreases t
  {
    match t
    case Free(v) => assert x == v ==> FreeAt(t, e, [], x);
    case Const(_) =>
    case Link(_, next) =>
      UnscopedExactly(next, e, s, x);
      LinkFree(t, e, x);
    case Pair(_, head, tail) =>
      UnscopedExactly(head, e, s, x);
      UnscopedExactly(tail, e, s, x);
      PairFree(t, e, x);
    case Struct(_, psc, args) =>
      if args != [] {
        var first, s1 := FirstSeen(t, e), Hidden(t, e, s);
        forall i | first <= i < |args| ensures x in Unscoped(args[i], e, s1) <==> x !in s1 && HasFree(args[i], e, x) {
          UnscopedExactly(args[i], e, s1, x);
        }
        StructFree(t, e, s, x);
      }
  }

  lemma PairFree(t: Term, e: bool, x: Addr)
    requires t.Pair?
    ensures HasFree(t, e, x) <==> HasFree(t.head, e, x) || HasFree(t.tail, e, x)
  {
    if HasFree(t.head, e, x) {
      var p :| FreeAt(t.head, e, p, x);
      Enter(t, e, 0, p, x);
    }
    if HasFree(t.tail, e, x) {
      var p :| FreeAt(t.tail, e, p, x);
      Enter(t, e, 1, p, x);
    }
    if HasFree(t, e, x) {
      var p :| FreeAt(t, e, p, x);
      assert FreeAt(t.head, e, p[1..], x) || FreeAt(t.tail, e, p[1..], x);
    }
  }

  /** The first argument looked into, and what is hidden from the arguments. */
  function FirstSeen(t: Term, e: bool): nat
    requires t.Struct?
  {
    if e && Scoping(t.psc) then 1 else 0
  }

  function Hidden(t: Term, e: bool, s: set<Addr>): set<Addr>
    requires t.Struct?
  {
    if e && Scoping(t.psc) then s + Scope(t.args) else s
  }

  lemma StructFree(t: Term, e: bool, s: set<Addr>, x: Addr)
    requires t.Struct? && t.args != []
    requires forall i :: FirstSeen(t, e) <= i < |t.args| ==>
      (x in Unscoped(t.args[i], e, Hidden(t, e, s)) <==> x !in Hidden(t, e, s) && HasFree(t.args[i], e, x))
    ensures x in Unscoped(t, e, s) <==> x !in s && HasFree(t, e, x)
  {
    hide HasFree, Unscoped, FirstSeen, Scope;
    StructListed(t, e, s, x);
    ChildFree(t, e, x);
  }

  lemma StructListed(t: Term, e: bool, s: set<Addr>, x: Addr)
    requires t.Struct? && t.args != []
    ensures x in Unscoped(t, e, s) <==> exists i :: FirstSeen(t, e) <= i < |t.args| && x in Unscoped(t.args[i], e, Hidden(t, e, s))
  {
    hide Scope, UnscopedAll;
    var args, first, s1 := t.args, FirstSeen(t, e), Hidden(t, e, s);
    assert args[0..] == args;
    assert Unscoped(t, e, s) == UnscopedAll(args[first..], e, s1);
    UnscopedSome(args[first..], e, s1, x);
    forall i | first <= i < |args| ensures args[first..][i - first] == args[i] { }
  }

  lemma ChildFree(t: Term, e: bool, x: Addr)
    requires t.Struct? && t.args != []
    ensures HasFree(t, e, x) <==>
      exists i :: FirstSeen(t, e) <= i < |t.args| && x !in Hidden(t, e, {}) && HasFree(t.args[i], e, x)
  {
    if HasFree(t, e, x) {
      var p :| FreeAt(t, e, p, x);
      assert FreeAt(t.args[p[0]], e, p[1..], x);
    }
    if i :| FirstSeen(t, e) <= i < |t.args| && x !in Hidden(t, e, {}) && HasFree(t.args[i], e, x) {
      var p :| FreeAt(t.args[i], e, p, x);
      Enter(t, e, i, p, x);
    }
  }

  predicate HasChild(t: Term, i: nat) {
    if t.Struct? then i < |t.args| else t.Pair? && i < 2
  }

  function Child(t: Term, i: nat): Term
    requires HasChild(t, i)
  {
    if t.Struct? then t.args[i] else if i == 0 then t.head else t.tail
  }

  lemma Enter(t: Term, e: bool, i: nat, p: seq<nat>, x: Addr)
    requires HasChild(t, i)
    requires FreeAt(Child(t, i), e, p, x)
    requires t.Struct? && e && Scoping(t.psc) ==> i > 0 && x !in Occ(t.args[0])
    ensures FreeAt(t, e, [i] + p, x)
  {
    assert ([i] + p)[1..] == p;
  }

  lemma {:induction false} UnscopedSome(ts: seq<Term>, e: bool, s: set<Addr>, x: Addr)
    ensures x in UnscopedAll(ts, e, s) <==> exists i :: 0 <= i < |ts| && x in Unscoped(ts[i], e, s)
  {
    if ts != [] {
      var n := |ts| - 1;
      UnscopedSome(ts[..n], e, s, x);
      if i :| 0 <= i < n && x in Unscoped(ts[..n][i], e, s) { assert ts[i] == ts[..n][i]; }
      if i :| 0 <= i < |ts| && x in Unscoped(ts[i], e, s) { assert i < n ==> ts[i] == ts[..n][i]; }
    }
  }

  /** If nothing is scoping, all variables are unscoped: the builtin then computes term_variables. */
  lemma {:induction false} UnscopedPlain(t: Term)
    ensures Unscoped(t, false, {}) == Occ(t)
    decreases t
  {
    match t
    case Free(_) =>
    case Const(_) =>
    case Link(_, next) => UnscopedPlain(next);
    case Pair(_, head, tail) => UnscopedPlain(head); UnscopedPlain(tail);
    case Struct(_, _, args) => UnscopedPlainAll(args);
  }

  lemma {:induction false} UnscopedPlainAll(ts: seq<Term>)
    ensures UnscopedAll(ts, false, {}) == OccAll(ts)
    decreases ts
  {
    if ts != [] {
      UnscopedPlainAll(ts[..|ts| - 1]);
      UnscopedPlain(ts[|ts| - 1]);
    }
  }

  /** What is hidden is not listed. */
  lemma {:induction false} UnscopedOut(t: Term, e: bool, s: set<Addr>, x: Addr)
    requires x in s
    ensures x !in Unscoped(t, e, s)
  {
    UnscopedExactly(t, e, s, x);
  }

  /** References in front of a term add no variables. */
  lemma OccEnd(t: Term)
    ensures Occ(End(t)) == Occ(t)
  {
  }

  lemma UnscopedEnd(t: Term, e: bool, s: set<Addr>)
    ensures Unscoped(End(t), e, s) == Unscoped(t, e, s)
  {
  }

  // ---- the list of variables to start with -----------------------------------------------------

  datatype Start = Accepted(vars: seq<Addr>) | Refused(vars: seq<Addr>)

  /** What the loop over the start list reads; its variables become bound to [] one after the other. */
  function StartOf(t: Term, seen: seq<Addr>): Start
    decreases Size(t)
  {
    match End(t)
    case Free(v) => if v in seen then Accepted(seen) else Refused(seen)
    case Const(c) => if c == NIL then Accepted(seen) else Refused(seen)
    case Pair(_, head, tail) =>
      if End(head).Free? && End(head).v !in seen then StartOf(tail, seen + [End(head).v]) else Refused(seen)
    case Struct(_, _, _) => Refused(seen)
    case Link(_, _) => Refused(seen)
  }

  /** The elements of a list. */
  function Spine(t: Term): seq<Term>
    decreases Size(t)
  {
    if End(t).Pair? then [End(End(t).head)] + Spine(End(t).tail) else []
  }

  /** What follows the elements. */
  function Last(t: Term): (r: Term)
    ensures !r.Pair? && !r.Link?
    decreases Size(t)
  {
    if End(t).Pair? then Last(End(t).tail) else End(t)
  }

  predicate Fresh(ts: seq<Term>, seen: seq<Addr>) {
    && (forall i :: 0 <= i < |ts| ==> ts[i].Free? && ts[i].v !in seen)
    && forall i, j :: 0 <= i < j < |ts| ==> ts[i] != ts[j]
  }

  predicate Ends(t: Term, ts: seq<Term>, seen: seq<Addr>) {
    t == Const(NIL) || (t.Free? && (t in ts || t.v in seen))
  }

  predicate SameVars(vars: seq<Addr>, ts: seq<Term>, seen: seq<Addr>) {
    |vars| == |seen| + |ts| && vars[..|seen|] == seen && forall i :: 0 <= i < |ts| ==> ts[i] == Free(vars[|seen| + i])
  }

  /** The start list is accepted if and only if its elements are distinct variables and it ends in [] or, which is
      not noticed, in one of its own elements. */
  lemma {:induction false} StartExactly(t: Term, seen: seq<Addr>)
    ensures StartOf(t, seen).Accepted? <==> Fresh(Spine(t), seen) && Ends(Last(t), Spine(t), seen)
    ensures StartOf(t, seen).Accepted? ==> SameVars(StartOf(t, seen).vars, Spine(t), seen)
    decreases Size(t)
  {
    if End(t).Pair? {
      var x, rest := End(End(t).head), Spine(End(t).tail);
      var ts := [x] + rest;
      assert ts[0] == x;
      assert forall i :: 0 <= i < |rest| ==> ts[i + 1] == rest[i];
      if x.Free? && x.v !in seen {
        var seen1 := seen + [x.v];
        StartExactly(End(t).tail, seen1);
        FreshHead(x, rest, seen);
        assert Ends(Last(t), ts, seen) <==> Ends(Last(t), rest, seen1);
        if StartOf(t, seen).Accepted? {
          var vars := StartOf(t, seen).vars;
          assert vars[..|seen|] == vars[..|seen1|][..|seen|];
          assert vars[|seen|] == vars[..|seen1|][|seen|];
          assert forall i :: 0 < i < |ts| ==> ts[i] == rest[i - 1];
        }
      }
    }
  }

  lemma FreshHead(x: Term, rest: seq<Term>, seen: seq<Addr>)
    requires x.Free? && x.v !in seen
    ensures Fresh([x] + rest, seen) <==> Fresh(rest, seen + [x.v])
  {
    var ts := [x] + rest;
    assert forall i :: 0 <= i < |rest| ==> ts[i + 1] == rest[i];
    assert ts[0] == x;
    if Fresh(ts, seen) {
      forall i | 0 <= i < |rest| ensures rest[i].Free? && rest[i].v !in seen + [x.v] {
        assert ts[i + 1] != ts[0];
      }
      forall i, j | 0 <= i < j < |rest| ensures rest[i] != rest[j] { assert ts[i + 1] != ts[j + 1]; }
    }
  }
}
