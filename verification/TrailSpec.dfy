/** What undoing a trail does (XSB/emu/binding.h, untrail2; XSB/emu/sw_envs.h, table_undo_bindings). */
module TrailSpec {

  datatype Value = Free | Word(w: int)

  datatype Option<T> = None | Some(value: T)

  /** A trail frame: a variable to be made free again, or a cell with the value it had before. */
  datatype TrailFrame = TrailFrame(variable: int, value: Value, preImage: Option<Value>, parent: nat)

  /** Trail condition registers of a choice point, and the top of the trail when it was made. */
  datatype ChoicePoint = ChoicePoint(trreg: nat, hreg: int, ebreg: int)

  type Store = map<int, Value>
  type Trail = map<nat, TrailFrame>

  /** Cells outside the part of the stacks that is newer than the choice point: the test `conditional`
      without frozen segments. */
  predicate Conditional(a: int, hb: int, eb: int) {
    a >= eb || a < hb
  }

  function Image(f: TrailFrame): Value {
    if f.preImage.Some? then f.preImage.value else Free
  }

  // ---- frames on the trail, oldest first -------------------------------------------------

  predicate Rising(chain: seq<nat>) {
    forall i, j :: 0 <= i < j < |chain| ==> chain[i] < chain[j]
  }

  /** The frame pointers from the bottom up to t. */
  ghost predicate Chained(trail: Trail, chain: seq<nat>, t: nat) {
    && t == (if chain == [] then 0 else chain[|chain| - 1])
    && (forall i :: 0 <= i < |chain| ==> chain[i] in trail && chain[i] > 0)
    && Rising(chain) && Linked(trail, chain)
  }

  /** Every frame points to the one before. */
  predicate Linked(trail: Trail, chain: seq<nat>) {
    forall i {:trigger trail[chain[i]]} :: 0 <= i < |chain| && chain[i] in trail ==> trail[chain[i]].parent == Under(chain, i)
  }

  function Under(chain: seq<nat>, i: nat): nat
    requires i < |chain|
  {
    if i == 0 then 0 else chain[i - 1]
  }

  /** How many frames are at or below t. */
  function Count(chain: seq<nat>, t: nat): (n: nat)
    ensures n <= |chain|
  {
    if chain == [] || chain[|chain| - 1] <= t then |chain| else Count(chain[..|chain| - 1], t)
  }

  /** The part of the chain above frame pointer t. */
  function Above(chain: seq<nat>, t: nat): seq<nat> {
    chain[Count(chain, t)..]
  }

  /** Undoing the frames of chain, newest first. */
  function Undo(cells: Store, trail: Trail, chain: seq<nat>): (r: Store)
    ensures cells.Keys <= r.Keys
    decreases |chain|
  {
    if chain == [] then cells
    else
      var t := chain[|chain| - 1];
      Undo(if t in trail then cells[trail[t].variable := Image(trail[t])] else cells, trail, chain[..|chain| - 1])
  }

  /** The frames that are kept: up to tb all, above it those that are still conditional. */
  function Filtered(trail: Trail, chain: seq<nat>, tb: nat, hb: int, eb: int): (r: seq<nat>) {
    if chain == [] then []
    else
      var t := chain[|chain| - 1];
      Filtered(trail, chain[..|chain| - 1], tb, hb, eb) +
      (if t > tb && t in trail && !Conditional(trail[t].variable, hb, eb) then [] else [t])
  }

  // ---- undoing -----------------------------------------------------------------------------

  lemma {:induction false} UndoSplit(cells: Store, trail: Trail, a: seq<nat>, b: seq<nat>)
    ensures Undo(cells, trail, a + b) == Undo(Undo(cells, trail, b), trail, a)
    decreases |b|
  {
    if b == [] {
      assert a + b == a;
    } else {
      var n := |b| - 1;
      assert (a + b)[..|a + b| - 1] == a + b[..n];
      var t := b[n];
      UndoSplit(if t in trail then cells[trail[t].variable := Image(trail[t])] else cells, trail, a, b[..n]);
    }
  }

  /** Two stores that agree on x still do after the same frames have been undone. */
  lemma {:induction false} UndoAgree(cells: Store, cells1: Store, trail: Trail, chain: seq<nat>, x: int)
    requires x in cells && x in cells1 && cells[x] == cells1[x]
    ensures Undo(cells, trail, chain)[x] == Undo(cells1, trail, chain)[x]
    decreases |chain|
  {
    if chain != [] {
      var t := chain[|chain| - 1];
      UndoAgree(if t in trail then cells[trail[t].variable := Image(trail[t])] else cells,
                if t in trail then cells1[trail[t].variable := Image(trail[t])] else cells1, trail, chain[..|chain| - 1], x);
    }
  }

  /** Frames that do not belong to x can be left out. */
  lemma {:induction false} UndoFiltered(cells: Store, trail: Trail, chain: seq<nat>, tb: nat, hb: int, eb: int, x: int)
    requires x in cells && Conditional(x, hb, eb)
    ensures Undo(cells, trail, Filtered(trail, chain, tb, hb, eb))[x] == Undo(cells, trail, chain)[x]
    decreases |chain|
  {
    if chain != [] {
      var n := |chain| - 1;
      var t, front := chain[n], chain[..n];
      var kept := Filtered(trail, front, tb, hb, eb);
      var cells1 := if t in trail then cells[trail[t].variable := Image(trail[t])] else cells;
      UndoFiltered(cells1, trail, front, tb, hb, eb, x);
      if t > tb && t in trail && !Conditional(trail[t].variable, hb, eb) {
        assert kept + [] == kept;
        UndoAgree(cells, cells1, trail, kept, x);
      } else {
        assert (kept + [t])[..|kept + [t]| - 1] == kept;
      }
    }
  }

  predicate SameFrame(trail: Trail, trail1: Trail, t: nat) {
    t in trail && t in trail1 && trail1[t].variable == trail[t].variable && trail1[t].preImage == trail[t].preImage
  }

  /** The links of a frame do not matter to what it undoes. */
  lemma {:induction false} UndoTrail(cells: Store, trail: Trail, trail1: Trail, chain: seq<nat>)
    requires forall i :: 0 <= i < |chain| ==> SameFrame(trail, trail1, chain[i])
    ensures Undo(cells, trail1, chain) == Undo(cells, trail, chain)
    decreases |chain|
  {
    if chain != [] {
      var n := |chain| - 1;
      var t := chain[n];
      UndoTrail(cells[trail[t].variable := Image(trail[t])], trail, trail1, chain[..n]);
    }
  }

  // ---- parts of a chain ------------------------------------------------------------------------

  lemma RisingFront(chain: seq<nat>, n: nat)
    requires Rising(chain) && n <= |chain|
    ensures Rising(chain[..n])
  {
  }

  lemma RisingAt(chain: seq<nat>, i: nat, j: nat)
    requires Rising(chain) && i <= j < |chain|
    ensures chain[i] <= chain[j] && (i < j ==> chain[i] < chain[j])
  {
  }

  lemma {:induction false} CountAt(chain: seq<nat>, t: nat, i: nat)
    requires Rising(chain) && i < |chain|
    ensures chain[i] <= t <==> i < Count(chain, t)
  {
    hide Rising;
    var n := |chain| - 1;
    RisingAt(chain, i, n);
    RisingFront(chain, n);
    if chain[n] > t && i < n {
      CountAt(chain[..n], t, i);
    }
  }

  lemma CountUnique(chain: seq<nat>, t: nat, n: nat)
    requires Rising(chain) && n <= |chain| && (n > 0 ==> chain[n - 1] <= t) && (n < |chain| ==> chain[n] > t)
    ensures Count(chain, t) == n
  {
    hide Rising, Count;
    if n > 0 { CountAt(chain, t, n - 1); }
    if n < |chain| { CountAt(chain, t, n); }
  }

  lemma CountMore(chain: seq<nat>, t: nat, t1: nat)
    requires Rising(chain) && t <= t1
    ensures Count(chain, t) <= Count(chain, t1)
    ensures Count(chain[..Count(chain, t1)], t) == Count(chain, t)
  {
    hide Rising, Count;
    var c, c1 := Count(chain, t), Count(chain, t1);
    if c > 0 { CountAt(chain, t, c - 1); CountAt(chain, t1, c - 1); }
    if c < |chain| { CountAt(chain, t, c); }
    RisingFront(chain, c1);
    CountUnique(chain[..c1], t, c);
  }

  /** Undoing down to an older frame goes through the newer one. */
  lemma AboveSplit(chain: seq<nat>, t: nat, t1: nat)
    requires Rising(chain) && t <= t1
    ensures Above(chain[..Count(chain, t1)], t) + Above(chain, t1) == Above(chain, t)
  {
    hide Rising, Count;
    CountMore(chain, t, t1);
    Glue(chain, Count(chain, t), Count(chain, t1));
  }

  lemma Glue(chain: seq<nat>, c: nat, c1: nat)
    requires c <= c1 <= |chain|
    ensures chain[..c1][c..] + chain[c1..] == chain[c..]
  {
  }
}
