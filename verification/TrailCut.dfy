/** Binding, choice points, backtracking and cut without frozen segments: the trail and its
    filtering in place (XSB/emu/binding.h, pushtrail0 to untrail2; XSB/emu/cut_xsb.h, cut_code
    and unwind_trail). */
module TrailCut {
  import opened TrailSpec

  // ---- what every operation keeps ------------------------------------------------------------

  /** A newer choice point protects more of both stacks. */
  ghost predicate Nested(cps: seq<ChoicePoint>) {
    forall i, j :: 0 <= i <= j < |cps| ==> Within(cps[i], cps[j])
  }

  predicate Within(a: ChoicePoint, b: ChoicePoint) {
    a.hreg <= b.hreg && b.ebreg <= a.ebreg && a.trreg <= b.trreg
  }

  /** Choice points know frames that are on the chain. */
  predicate Marks(chain: seq<nat>, cps: seq<ChoicePoint>) {
    forall k :: 0 <= k < |cps| ==> cps[k].trreg == 0 || cps[k].trreg in chain
  }

  /** Frame t was pushed above choice point k and below choice point k + 1. */
  predicate InSegment(cps: seq<ChoicePoint>, k: int, t: nat) {
    0 <= k < |cps| && t > cps[k].trreg && (k + 1 < |cps| ==> t <= cps[k + 1].trreg)
  }

  /** The frames of each segment are conditional for its choice point. */
  ghost predicate Segments(trail: Trail, chain: seq<nat>, cps: seq<ChoicePoint>) {
    forall k, i :: 0 <= i < |chain| && chain[i] in trail && InSegment(cps, k, chain[i]) ==>
      Conditional(trail[chain[i]].variable, cps[k].hreg, cps[k].ebreg)
  }

  /** Undoing the trail down to the choice point gives every cell that it protects its old contents. */
  ghost predicate Restores(cells: Store, trail: Trail, chain: seq<nat>, cp: ChoicePoint, snap: Store) {
    forall x :: x in snap && Conditional(x, cp.hreg, cp.ebreg) ==> x in cells && Undo(cells, trail, Above(chain, cp.trreg))[x] == snap[x]
  }

  ghost predicate AllRestore(cells: Store, trail: Trail, chain: seq<nat>, cps: seq<ChoicePoint>, snaps: seq<Store>) {
    |snaps| == |cps| && forall k :: 0 <= k < |cps| ==> Restores(cells, trail, chain, cps[k], snaps[k])
  }

  ghost predicate Sound(cells: Store, trail: Trail, chain: seq<nat>, t: nat, cps: seq<ChoicePoint>, snaps: seq<Store>) {
    && Chained(trail, chain, t) && Nested(cps) && Marks(chain, cps) && Segments(trail, chain, cps)
    && AllRestore(cells, trail, chain, cps, snaps)
  }

  // ---- pushing a frame -----------------------------------------------------------------------

  lemma PushChained(trail: Trail, chain: seq<nat>, t: nat, t1: nat, f: TrailFrame)
    requires Chained(trail, chain, t) && t1 > t && f.parent == t
    ensures Chained(trail[t1 := f], chain + [t1], t1)
    ensures t1 !in chain
  {
    hide Rising, Linked;
    BelowTop(trail, chain, t);
    PushRising(chain, t1);
    PushLinked(trail, chain, t, t1, f);
  }

  lemma BelowTop(trail: Trail, chain: seq<nat>, t: nat)
    requires Chained(trail, chain, t)
    ensures forall i :: 0 <= i < |chain| ==> chain[i] <= t
  {
    hide Rising, Linked;
    forall i | 0 <= i < |chain| ensures chain[i] <= t { RisingAt(chain, i, |chain| - 1); }
  }

  lemma PushRising(chain: seq<nat>, t1: nat)
    requires Rising(chain) && forall i :: 0 <= i < |chain| ==> chain[i] < t1
    ensures Rising(chain + [t1])
  {
  }

  lemma PushLinked(trail: Trail, chain: seq<nat>, t: nat, t1: nat, f: TrailFrame)
    requires Linked(trail, chain) && t1 !in chain && f.parent == t && t == (if chain == [] then 0 else chain[|chain| - 1])
    requires forall i :: 0 <= i < |chain| ==> chain[i] in trail
    ensures Linked(trail[t1 := f], chain + [t1])
  {
    var chain1 := chain + [t1];
    forall i | 0 <= i < |chain1| ensures chain1[i] in trail[t1 := f] && trail[t1 := f][chain1[i]].parent == Under(chain1, i) {
      if i < |chain| { assert chain1[i] == chain[i] && trail[chain[i]].parent == Under(chain, i); }
    }
  }

  lemma AboveMore(chain: seq<nat>, e: nat, t: nat)
    requires e > t
    ensures Above(chain + [e], t) == Above(chain, t) + [e]
  {
    assert (chain + [e])[..|chain + [e]| - 1] == chain;
  }

  lemma AboveNone(chain: seq<nat>, t: nat)
    requires chain == [] || chain[|chain| - 1] <= t
    ensures Above(chain, t) == []
  {
  }

  /** A conditional cell is changed and its frame pushed. */
  lemma PushRestores(cells: Store, trail: Trail, chain: seq<nat>, t1: nat, f: TrailFrame, v: Value, cp: ChoicePoint, snap: Store)
    requires Restores(cells, trail, chain, cp, snap) && t1 > cp.trreg && t1 !in chain && f.variable in cells && Image(f) == cells[f.variable]
    requires forall i :: 0 <= i < |chain| ==> chain[i] in trail
    ensures Restores(cells[f.variable := v], trail[t1 := f], chain + [t1], cp, snap)
  {
    hide Undo, Conditional, Image, Above, Count;
    var cells1, trail1 := cells[f.variable := v], trail[t1 := f];
    AboveMore(chain, t1, cp.trreg);
    AboveIn(chain, cp.trreg);
    forall x | x in snap && Conditional(x, cp.hreg, cp.ebreg)
      ensures x in cells1 && Undo(cells1, trail1, Above(chain + [t1], cp.trreg))[x] == snap[x]
    {
      UndoLast(cells1, trail1, Above(chain, cp.trreg), t1);
      UndoTrail(cells, trail, trail1, Above(chain, cp.trreg));
      assert cells1[f.variable := Image(f)] == cells;
    }
  }

  lemma AboveIn(chain: seq<nat>, t: nat)
    ensures forall i :: 0 <= i < |Above(chain, t)| ==> Above(chain, t)[i] in chain
  {
  }

  lemma UndoLast(cells: Store, trail: Trail, chain: seq<nat>, t: nat)
    requires t in trail
    ensures Undo(cells, trail, chain + [t]) == Undo(cells[trail[t].variable := Image(trail[t])], trail, chain)
  {
    assert (chain + [t])[..|chain + [t]| - 1] == chain;
  }

  /** The cells that the choice point protects are the same. */
  ghost predicate Agree(cells: Store, cells1: Store, hb: int, eb: int) {
    forall x :: x in cells && Conditional(x, hb, eb) ==> x in cells1 && cells1[x] == cells[x]
  }

  /** Only cells newer than the choice point are changed, added or given up. */
  lemma NewRestores(cells: Store, cells1: Store, trail: Trail, chain: seq<nat>, cp: ChoicePoint, snap: Store)
    requires Restores(cells, trail, chain, cp, snap) && Agree(cells, cells1, cp.hreg, cp.ebreg)
    ensures Restores(cells1, trail, chain, cp, snap)
  {
    hide Undo, Above;
    forall x | x in snap && Conditional(x, cp.hreg, cp.ebreg)
      ensures x in cells1 && Undo(cells1, trail, Above(chain, cp.trreg))[x] == snap[x]
    {
      UndoAgree(cells, cells1, trail, Above(chain, cp.trreg), x);
    }
  }

  // ---- backtracking --------------------------------------------------------------------------

  /** Undoing the frames above t leaves older choice points what they had. */
  lemma BackRestores(cells: Store, trail: Trail, chain: seq<nat>, t: nat, cp: ChoicePoint, snap: Store)
    requires Restores(cells, trail, chain, cp, snap) && Rising(chain) && cp.trreg <= t
    ensures Restores(Undo(cells, trail, Above(chain, t)), trail, chain[..Count(chain, t)], cp, snap)
  {
    hide Undo, Conditional, Rising, Above, Count;
    AboveSplit(chain, cp.trreg, t);
    UndoSplit(cells, trail, Above(chain[..Count(chain, t)], cp.trreg), Above(chain, t));
  }

  // ---- the frames that a cut keeps -----------------------------------------------------------

  lemma {:induction false} FilteredLow(trail: Trail, chain: seq<nat>, tb: nat, hb: int, eb: int)
    requires forall i :: 0 <= i < |chain| ==> chain[i] <= tb
    ensures Filtered(trail, chain, tb, hb, eb) == chain
  {
    if chain != [] {
      FilteredLow(trail, chain[..|chain| - 1], tb, hb, eb);
    }
  }

  lemma {:induction false} AboveFiltered(trail: Trail, chain: seq<nat>, tb: nat, hb: int, eb: int, t: nat)
    requires Rising(chain) && t <= tb
    ensures Above(Filtered(trail, chain, tb, hb, eb), t) == Filtered(trail, Above(chain, t), tb, hb, eb)
  {
    hide Rising;
    if chain != [] {
      var n := |chain| - 1;
      var front, e := chain[..n], chain[n];
      assert chain == front + [e];
      RisingFront(chain, n);
      if e > t {
        AboveFiltered(trail, front, tb, hb, eb, t);
        AboveMore(front, e, t);
        var kept := Filtered(trail, front, tb, hb, eb);
        assert (Above(front, t) + [e])[..|Above(front, t)|] == Above(front, t);
        if !(e > tb && e in trail && !Conditional(trail[e].variable, hb, eb)) { AboveMore(kept, e, t); } else { assert kept + [] == kept; }
      } else {
        forall i | 0 <= i < |chain| ensures chain[i] <= t { RisingAt(chain, i, n); }
        FilteredLow(trail, chain, tb, hb, eb);
        AboveNone(chain, t);
      }
    }
  }

  /** Only frames of cells that no remaining choice point protects are dropped. */
  lemma CutRestores(cells: Store, trail: Trail, trail1: Trail, chain: seq<nat>, tb: nat, top: ChoicePoint, cp: ChoicePoint, snap: Store)
    requires Restores(cells, trail, chain, cp, snap) && Rising(chain) && Within(cp, top) && cp.trreg <= tb
    requires forall i :: 0 <= i < |chain| ==> SameFrame(trail, trail1, chain[i])
    ensures Restores(cells, trail1, Filtered(trail, chain, tb, top.hreg, top.ebreg), cp, snap)
  {
    hide Undo, Rising, Above, Count, Filtered, SameFrame;
    var kept := Filtered(trail, Above(chain, cp.trreg), tb, top.hreg, top.ebreg);
    AboveFiltered(trail, chain, tb, top.hreg, top.ebreg, cp.trreg);
    AboveIn(chain, cp.trreg);
    FilteredIn(trail, Above(chain, cp.trreg), tb, top.hreg, top.ebreg);
    UndoTrail(cells, trail, trail1, kept);
    forall x | x in snap && Conditional(x, cp.hreg, cp.ebreg) ensures x in cells && Undo(cells, trail1, kept)[x] == snap[x] {
      UndoFiltered(cells, trail, Above(chain, cp.trreg), tb, top.hreg, top.ebreg, x);
    }
  }

  lemma {:induction false} FilteredIn(trail: Trail, chain: seq<nat>, tb: nat, hb: int, eb: int)
    ensures forall i :: 0 <= i < |Filtered(trail, chain, tb, hb, eb)| ==> Filtered(trail, chain, tb, hb, eb)[i] in chain
    ensures forall t :: t in chain && (t <= tb || t !in trail || Conditional(trail[t].variable, hb, eb)) ==> t in Filtered(trail, chain, tb, hb, eb)
    ensures forall t :: t in Filtered(trail, chain, tb, hb, eb) ==> t <= tb || t !in trail || Conditional(trail[t].variable, hb, eb)
  {
    if chain != [] {
      var n := |chain| - 1;
      assert chain == chain[..n] + [chain[n]];
      FilteredIn(trail, chain[..n], tb, hb, eb);
    }
  }

  lemma {:induction false} FilteredRising(trail: Trail, chain: seq<nat>, tb: nat, hb: int, eb: int)
    requires Rising(chain)
    ensures Rising(Filtered(trail, chain, tb, hb, eb))
  {
    if chain != [] {
      var n := |chain| - 1;
      FilteredRising(trail, chain[..n], tb, hb, eb);
      FilteredIn(trail, chain[..n], tb, hb, eb);
    }
  }

  // ---- the invariant, operation by operation -------------------------------------------------

  lemma NewSound(cells: Store, cells1: Store, trail: Trail, chain: seq<nat>, t: nat, cps: seq<ChoicePoint>, snaps: seq<Store>)
    requires Sound(cells, trail, chain, t, cps, snaps) && cps != [] && Agree(cells, cells1, cps[|cps| - 1].hreg, cps[|cps| - 1].ebreg)
    ensures Sound(cells1, trail, chain, t, cps, snaps)
  {
    hide Restores, Segments, Chained;
    forall k | 0 <= k < |cps| ensures Restores(cells1, trail, chain, cps[k], snaps[k]) {
      assert Within(cps[k], cps[|cps| - 1]);
      NewRestores(cells, cells1, trail, chain, cps[k], snaps[k]);
    }
  }

  lemma PushSound(cells: Store, trail: Trail, chain: seq<nat>, t: nat, cps: seq<ChoicePoint>, snaps: seq<Store>, t1: nat, f: TrailFrame, v: Value)
    requires Sound(cells, trail, chain, t, cps, snaps) && cps != [] && cps[|cps| - 1].trreg <= t < t1 && f.parent == t
    requires f.variable in cells && Image(f) == cells[f.variable] && Conditional(f.variable, cps[|cps| - 1].hreg, cps[|cps| - 1].ebreg)
    ensures Sound(cells[f.variable := v], trail[t1 := f], chain + [t1], t1, cps, snaps)
  {
    hide Restores, Conditional, Rising;
    PushChained(trail, chain, t, t1, f);
    forall k | 0 <= k < |cps| ensures Restores(cells[f.variable := v], trail[t1 := f], chain + [t1], cps[k], snaps[k]) {
      assert Within(cps[k], cps[|cps| - 1]);
      PushRestores(cells, trail, chain, t1, f, v, cps[k], snaps[k]);
    }
    PushSegments(trail, chain, cps, t1, f);
  }

  lemma PushSegments(trail: Trail, chain: seq<nat>, cps: seq<ChoicePoint>, t1: nat, f: TrailFrame)
    requires Segments(trail, chain, cps) && Nested(cps) && cps != [] && cps[|cps| - 1].trreg < t1 && t1 !in chain
    requires Conditional(f.variable, cps[|cps| - 1].hreg, cps[|cps| - 1].ebreg)
    ensures Segments(trail[t1 := f], chain + [t1], cps)
  {
    hide Conditional;
    var chain1 := chain + [t1];
    forall k, i | 0 <= i < |chain1| && chain1[i] in trail[t1 := f] && InSegment(cps, k, chain1[i])
      ensures Conditional(trail[t1 := f][chain1[i]].variable, cps[k].hreg, cps[k].ebreg)
    {
      if i < |chain| { assert chain1[i] == chain[i]; } else { assert k + 1 < |cps| ==> Within(cps[k + 1], cps[|cps| - 1]); }
    }
  }

  lemma ChoiceSound(cells: Store, trail: Trail, chain: seq<nat>, t: nat, cps: seq<ChoicePoint>, snaps: seq<Store>, cp: ChoicePoint)
    requires Sound(cells, trail, chain, t, cps, snaps) && cps != [] && cp.trreg == t && Within(cps[|cps| - 1], cp)
    ensures Sound(cells, trail, chain, t, cps + [cp], snaps + [cells])
  {
    hide Restores, Conditional;
    var cps1, snaps1 := cps + [cp], snaps + [cells];
    forall i, j | 0 <= i <= j < |cps1| ensures Within(cps1[i], cps1[j]) {
      if i < |cps| && j == |cps| { assert Within(cps[i], cps[|cps| - 1]); }
    }
    NewestRestores(cells, trail, chain, t, cp);
    TopInChain(trail, chain, t);
    forall k, i | 0 <= i < |chain| && chain[i] in trail && InSegment(cps1, k, chain[i])
      ensures Conditional(trail[chain[i]].variable, cps1[k].hreg, cps1[k].ebreg)
    {
      assert InSegment(cps, k, chain[i]);
    }
  }

  /** Without its newest frame a chain ends at the parent of that frame. */
  lemma ChainedFront(trail: Trail, chain: seq<nat>, t: nat)
    requires Chained(trail, chain, t) && chain != []
    ensures chain[|chain| - 1] == t > 0 && t in trail && trail[t].parent < t
    ensures Chained(trail, chain[..|chain| - 1], trail[t].parent)
    ensures chain == chain[..|chain| - 1] + [t]
  {
    hide Rising, Linked;
    var n := |chain| - 1;
    ChainedTo(trail, chain, t, n);
    ChainedIn(trail, chain, t, n);
    if n > 0 { RisingAt(chain, n - 1, n); }
  }

  lemma TopInChain(trail: Trail, chain: seq<nat>, t: nat)
    requires Chained(trail, chain, t)
    ensures t == 0 || t in chain
    ensures forall i :: 0 <= i < |chain| ==> chain[i] <= t
  {
  }

  lemma NewestRestores(cells: Store, trail: Trail, chain: seq<nat>, t: nat, cp: ChoicePoint)
    requires Chained(trail, chain, t) && cp.trreg == t
    ensures Restores(cells, trail, chain, cp, cells)
  {
    AboveNone(chain, t);
  }

  lemma UndoNone(cells: Store, trail: Trail)
    ensures Undo(cells, trail, []) == cells
  {
  }

  /** One frame is undone: the n-th of the chain. */
  lemma BackStep(cells: Store, trail: Trail, chain: seq<nat>, t: nat, n: nat, tr: nat)
    requires Chained(trail, chain, t) && n < |chain| && tr < chain[n] && (tr == 0 || tr in chain)
    ensures chain[n] in trail
    ensures Undo(cells, trail, chain[n..]) == Undo(cells, trail, chain[n + 1..])[trail[chain[n]].variable := Image(trail[chain[n]])]
    ensures Chained(trail, chain[..n], trail[chain[n]].parent) && tr <= trail[chain[n]].parent
  {
    UndoSplit(cells, trail, [chain[n]], chain[n + 1..]);
    assert [chain[n]] + chain[n + 1..] == chain[n..];
    UndoOne(Undo(cells, trail, chain[n + 1..]), trail, chain[n]);
    ChainedTo(trail, chain, t, n);
    if tr != 0 {
      var j :| 0 <= j < |chain| && chain[j] == tr;
      if j < n { RisingAt(chain, j, n - 1); } else { RisingAt(chain, n, j); }
    }
  }

  lemma ChainedTo(trail: Trail, chain: seq<nat>, t: nat, n: nat)
    requires Chained(trail, chain, t) && n < |chain|
    ensures chain[n] in trail && Rising(chain) && trail[chain[n]].parent == (if n == 0 then 0 else chain[n - 1])
    ensures Chained(trail, chain[..n], trail[chain[n]].parent)
  {
    hide Rising, Linked;
    RisingFront(chain, n);
    LinkedFront(trail, chain, n);
  }

  lemma LinkedFront(trail: Trail, chain: seq<nat>, n: nat)
    requires Linked(trail, chain) && n < |chain| && chain[n] in trail
    ensures Linked(trail, chain[..n]) && trail[chain[n]].parent == Under(chain, n)
  {
    forall i | 0 <= i < n && chain[..n][i] in trail ensures trail[chain[..n][i]].parent == Under(chain[..n], i) { assert chain[..n][i] == chain[i]; }
  }

  lemma UndoOne(cells: Store, trail: Trail, t: nat)
    requires t in trail
    ensures Undo(cells, trail, [t]) == cells[trail[t].variable := Image(trail[t])]
  {
    UndoLast(cells, trail, [], t);
    assert [] + [t] == [t];
  }

  lemma BackSound(cells: Store, trail: Trail, chain: seq<nat>, t: nat, cps: seq<ChoicePoint>, snaps: seq<Store>, n: nat, t1: nat)
    requires Sound(cells, trail, chain, t, cps, snaps) && cps != [] && n <= |chain| && Chained(trail, chain[..n], t1) && t1 == cps[|cps| - 1].trreg <= t
    ensures Sound(Undo(cells, trail, chain[n..]), trail, chain[..n], t1, cps, snaps)
    ensures Restores(Undo(cells, trail, chain[n..]), trail, chain[..n], cps[|cps| - 1], snaps[|snaps| - 1]) && Above(chain[..n], t1) == []
  {
    hide Restores, Conditional, Undo, Count, Linked, Rising;
    BackCount(trail, chain, t, n, t1);
    forall k | 0 <= k < |cps| ensures Restores(Undo(cells, trail, chain[n..]), trail, chain[..n], cps[k], snaps[k]) {
      assert Within(cps[k], cps[|cps| - 1]);
      BackRestores(cells, trail, chain, t1, cps[k], snaps[k]);
    }
    BackMarks(chain, cps, n, t1);
    forall k, i | 0 <= i < n && chain[..n][i] in trail && InSegment(cps, k, chain[..n][i])
      ensures Conditional(trail[chain[..n][i]].variable, cps[k].hreg, cps[k].ebreg) { assert chain[..n][i] == chain[i]; }
    AboveNone(chain[..n], t1);
  }

  lemma BackCount(trail: Trail, chain: seq<nat>, t: nat, n: nat, t1: nat)
    requires Chained(trail, chain, t) && n <= |chain| && Chained(trail, chain[..n], t1)
    ensures Count(chain, t1) == n
  {
    if n < |chain| { assert n > 0 ==> chain[n - 1] < chain[n]; }
    CountUnique(chain, t1, n);
  }

  lemma BackMarks(chain: seq<nat>, cps: seq<ChoicePoint>, n: nat, t1: nat)
    requires Marks(chain, cps) && Nested(cps) && cps != [] && t1 == cps[|cps| - 1].trreg && n <= |chain| && Rising(chain) && Count(chain, t1) == n
    ensures Marks(chain[..n], cps)
  {
    hide Count, Rising;
    forall k | 0 <= k < |cps| ensures cps[k].trreg == 0 || cps[k].trreg in chain[..n] {
      assert Within(cps[k], cps[|cps| - 1]);
      if cps[k].trreg != 0 {
        var j :| 0 <= j < |chain| && chain[j] == cps[k].trreg;
        CountAt(chain, t1, j);
        assert chain[..n][j] == cps[k].trreg;
      }
    }
  }

  /** Choice points above k are cut off, and the frames above the lowest of them are filtered. */
  lemma CutSound(cells: Store, trail: Trail, trail1: Trail, chain: seq<nat>, t: nat, t1: nat, cps: seq<ChoicePoint>, snaps: seq<Store>, k: nat)
    requires Sound(cells, trail, chain, t, cps, snaps) && k + 1 < |cps|
    requires forall i :: 0 <= i < |chain| ==> SameFrame(trail, trail1, chain[i])
    requires Chained(trail1, Filtered(trail, chain, cps[k + 1].trreg, cps[k].hreg, cps[k].ebreg), t1)
    ensures Sound(cells, trail1, Filtered(trail, chain, cps[k + 1].trreg, cps[k].hreg, cps[k].ebreg), t1, cps[..k + 1], snaps[..k + 1])
    ensures cps[k].trreg <= t1
  {
    hide Restores, Conditional, Undo, Filtered, SameFrame, Chained;
    var tb := cps[k + 1].trreg;
    var kept := Filtered(trail, chain, tb, cps[k].hreg, cps[k].ebreg);
    ChainedRises(trail, chain, t);
    forall j | 0 <= j < k + 1 ensures Restores(cells, trail1, kept, cps[j], snaps[j]) {
      assert Within(cps[j], cps[k]) && Within(cps[j], cps[k + 1]);
      CutRestores(cells, trail, trail1, chain, tb, cps[k], cps[j], snaps[j]);
    }
    FilteredIn(trail, chain, tb, cps[k].hreg, cps[k].ebreg);
    CutSegments(trail, trail1, chain, cps, k, kept);
    CutMarks(chain, cps, k, kept);
    TopInChain(trail1, kept, t1);
  }

  lemma ChainedRises(trail: Trail, chain: seq<nat>, t: nat)
    requires Chained(trail, chain, t)
    ensures Rising(chain) && forall i :: 0 <= i < |chain| ==> chain[i] in trail
  {
  }

  lemma CutMarks(chain: seq<nat>, cps: seq<ChoicePoint>, k: nat, kept: seq<nat>)
    requires Marks(chain, cps) && Nested(cps) && k + 1 < |cps|
    requires forall t :: t in chain && t <= cps[k + 1].trreg ==> t in kept
    ensures Marks(kept, cps[..k + 1])
  {
    forall j | 0 <= j < k + 1 ensures cps[j].trreg == 0 || cps[j].trreg in kept { assert Within(cps[j], cps[k + 1]); }
  }

  lemma CutSegments(trail: Trail, trail1: Trail, chain: seq<nat>, cps: seq<ChoicePoint>, k: nat, kept: seq<nat>)
    requires Segments(trail, chain, cps) && Nested(cps) && k + 1 < |cps|
    requires forall i :: 0 <= i < |chain| ==> SameFrame(trail, trail1, chain[i])
    requires forall i :: 0 <= i < |kept| ==> kept[i] in chain
    requires forall t :: t in kept ==> t <= cps[k + 1].trreg || t !in trail || Conditional(trail[t].variable, cps[k].hreg, cps[k].ebreg)
    ensures Segments(trail1, kept, cps[..k + 1])
  {
    hide Conditional;
    forall j, i | 0 <= i < |kept| && kept[i] in trail1 && InSegment(cps[..k + 1], j, kept[i])
      ensures Conditional(trail1[kept[i]].variable, cps[j].hreg, cps[j].ebreg)
    {
      var m :| 0 <= m < |chain| && chain[m] == kept[i];
      assert SameFrame(trail, trail1, chain[m]);
      if j < k || kept[i] <= cps[k + 1].trreg { assert InSegment(cps, j, chain[m]); }
    }
  }

  // ---- which cells there are -------------------------------------------------------------------

  predicate Between(lo: int, a: int, hi: int) {
    lo <= a < hi
  }

  function Span(lo: int, hi: int): (r: set<int>)
    ensures forall a :: a in r <==> lo <= a < hi
  {
    set a: int | lo <= a < hi && Between(lo, a, hi)
  }

  /** The heap from low up to h and the environments from e up to high. */
  function Used(low: int, high: int, h: int, e: int): (r: set<int>)
    ensures forall a :: a in r <==> low <= a < h || e <= a < high
  {
    Span(low, h) + Span(e, high)
  }

  /** The cells remembered with each choice point are those that there were. */
  ghost predicate Extents(low: int, high: int, cps: seq<ChoicePoint>, snaps: seq<Store>) {
    && |snaps| == |cps|
    && forall k :: 0 <= k < |cps| ==> low <= cps[k].hreg <= cps[k].ebreg <= high && snaps[k].Keys == Used(low, high, cps[k].hreg, cps[k].ebreg)
  }

  /** Frames are for cells of the two stacks. */
  ghost predicate Framed(trail: Trail, chain: seq<nat>, low: int, high: int) {
    forall t :: t in chain && t in trail ==> low <= trail[t].variable < high
  }

  /** For a cell of the machine the trail test tells whether it was there when the choice point was made. */
  lemma TestIs(low: int, high: int, cps: seq<ChoicePoint>, snaps: seq<Store>, k: nat, a: int)
    requires Extents(low, high, cps, snaps) && k < |cps| && low <= a < high
    ensures Conditional(a, cps[k].hreg, cps[k].ebreg) <==> a in snaps[k]
  {
  }

  /** No frame is for a cell newer than every choice point. */
  lemma FramesThere(cells: Store, trail: Trail, chain: seq<nat>, t: nat, cps: seq<ChoicePoint>, snaps: seq<Store>, low: int, high: int, f: nat)
    requires Sound(cells, trail, chain, t, cps, snaps) && Extents(low, high, cps, snaps) && Framed(trail, chain, low, high)
    requires f in chain && cps != [] && cps[0].trreg == 0
    ensures f in trail && exists k :: InSegment(cps, k, f) && trail[f].variable in snaps[k] && trail[f].variable in snaps[|snaps| - 1]
  {
    hide AllRestore, Marks, Rising, Linked, Conditional;
    var k := SegmentOf(cps, f);
    var i :| 0 <= i < |chain| && chain[i] == f;
    assert Within(cps[k], cps[|cps| - 1]);
    TestIs(low, high, cps, snaps, k, trail[f].variable);
    assert trail[f].variable in snaps[k] && trail[f].variable in snaps[|snaps| - 1];
  }

  lemma SegmentOf(cps: seq<ChoicePoint>, t: nat) returns (k: nat)
    requires cps != [] && cps[0].trreg == 0 && t > 0
    ensures InSegment(cps, k, t)
  {
    k := |cps| - 1;
    while cps[k].trreg >= t
      invariant 0 <= k < |cps| && (k + 1 < |cps| ==> t <= cps[k + 1].trreg)
      decreases k
    {
      k := k - 1;
    }
  }

  lemma {:induction false} UndoKeys(cells: Store, trail: Trail, chain: seq<nat>)
    requires forall t :: t in chain && t in trail ==> trail[t].variable in cells
    ensures Undo(cells, trail, chain).Keys == cells.Keys
    decreases |chain|
  {
    if chain != [] {
      var n := |chain| - 1;
      var cells1 := if chain[n] in trail then cells[trail[chain[n]].variable := Image(trail[chain[n]])] else cells;
      assert chain[n] in chain;
      assert cells1.Keys == cells.Keys;
      UndoKeys(cells1, trail, chain[..n]);
    }
  }

  // ---- the machine ---------------------------------------------------------------------------

  class Machine {
    const low: int
    const high: int
    /** What the cells of both stacks hold. */
    var cells: Store
    /** First cell above the heap; lowest cell of the environments. */
    var hreg: int
    var etop: int
    var trail: Trail
    var trreg: nat
    var hbreg: int
    var ebreg: int
    /** breg is the last one. */
    var cps: seq<ChoicePoint>
    ghost var chain: seq<nat>
    /** The cells as they were when each choice point was made. */
    ghost var snaps: seq<Store>

    ghost predicate Valid()
      reads this
    {
      && Sound(cells, trail, chain, trreg, cps, snaps) && cps != [] && cps[0].trreg == 0
      && Extents(low, high, cps, snaps) && Framed(trail, chain, low, high) && cells.Keys == Used(low, high, hreg, etop)
      && hbreg == cps[|cps| - 1].hreg && ebreg == cps[|cps| - 1].ebreg && cps[|cps| - 1].trreg <= trreg
      && low <= hbreg <= hreg <= etop <= ebreg <= high
    }

    /** Both stacks are empty, and there is one choice point. */
    constructor (low: int, high: int)
      requires low <= high
      ensures Valid() && cells == map[] && |cps| == 1 && chain == [] && snaps == [map[]]
      ensures this.low == low && this.high == high && hreg == low && etop == high
    {
      this.low, this.high := low, high;
      cells, hreg, etop := map[], low, high;
      trail, trreg, hbreg, ebreg := map[], 0, low, high;
      cps := [ChoicePoint(0, low, high)];
      chain, snaps := [], [map[]];
      new;
      assert cells.Keys == Used(low, high, low, high);
    }

    /** A new cell on the heap. */
    method NewHeapCell(v: Value)
      requires Valid() && hreg < etop
      modifies `cells, `hreg
      ensures Valid() && old(hreg) !in old(cells) && cells == old(cells)[old(hreg) := v] && hreg == old(hreg) + 1
    {
      hide Sound, Extents, Framed;
      NewSound(cells, cells[hreg := v], trail, chain, trreg, cps, snaps);
      cells := cells[hreg := v];
      hreg := hreg + 1;
      assert cells.Keys == Used(low, high, hreg, etop);
    }

    /** An environment of n cells, all of them free. */
    method Allocate(n: nat)
      requires Valid() && hreg <= etop - n
      modifies `cells, `etop
      ensures Valid() && etop == old(etop) - n
      ensures cells.Keys == old(cells).Keys + Span(etop, old(etop))
      ensures forall a :: a in cells ==> cells[a] == if a in old(cells) then old(cells)[a] else Free
    {
      hide Sound, Extents, Framed;
      var e := etop - n;
      var cells1 := cells + (map a | a in Span(e, etop) :: Free);
      NewSound(cells, cells1, trail, chain, trreg, cps, snaps);
      cells := cells1;
      etop := e;
      assert cells.Keys == Used(low, high, hreg, etop);
    }

    /** Environments below e are given up, as far as they are newer than the newest choice point. */
    method Deallocate(e: int)
      requires Valid() && etop <= e <= ebreg
      modifies `cells, `etop
      ensures Valid() && etop == e && cells == old(cells) - Span(old(etop), e)
    {
      hide Sound, Extents, Framed;
      var cells1 := cells - Span(etop, e);
      NewSound(cells, cells1, trail, chain, trreg, cps, snaps);
      cells := cells1;
      etop := e;
      assert cells.Keys == Used(low, high, hreg, etop);
    }

    /** A variable is bound; it was free. It is trailed if and only if it was there when the newest choice point was made. */
    method Bind(a: int, v: Value)
      requires Valid() && a in cells && cells[a] == Free
      modifies `cells, `trail, `trreg, `chain
      ensures Valid() && cells == old(cells)[a := v]
      ensures a in snaps[|snaps| - 1] ==> chain == old(chain) + [trreg] && trail == old(trail)[trreg := TrailFrame(a, v, None, old(trreg))]
      ensures a !in snaps[|snaps| - 1] ==> chain == old(chain) && trail == old(trail) && trreg == old(trreg)
    {
      hide Sound, Extents, Framed;
      SoundTop(cells, trail, chain, trreg, cps, snaps);
      TestIs(low, high, cps, snaps, |cps| - 1, a);
      if Conditional(a, hbreg, ebreg) {
        PushFrame(TrailFrame(a, v, None, trreg), 3, v);
      } else {
        NewSound(cells, cells[a := v], trail, chain, trreg, cps, snaps);
      }
      cells := cells[a := v];
      assert cells.Keys == Used(low, high, hreg, etop);
    }

    /** A cell that may hold something is overwritten. */
    method BindPreImage(a: int, v: Value)
      requires Valid() && a in cells
      modifies `cells, `trail, `trreg, `chain
      ensures Valid() && cells == old(cells)[a := v]
      ensures a in snaps[|snaps| - 1] ==>
        chain == old(chain) + [trreg] && trail == old(trail)[trreg := TrailFrame(a, v, Some(old(cells)[a]), old(trreg))]
      ensures a !in snaps[|snaps| - 1] ==> chain == old(chain) && trail == old(trail) && trreg == old(trreg)
    {
      hide Sound, Extents, Framed;
      SoundTop(cells, trail, chain, trreg, cps, snaps);
      TestIs(low, high, cps, snaps, |cps| - 1, a);
      if Conditional(a, hbreg, ebreg) {
        PushFrame(TrailFrame(a, v, Some(cells[a]), trreg), 4, v);
      } else {
        NewSound(cells, cells[a := v], trail, chain, trreg, cps, snaps);
      }
      cells := cells[a := v];
      assert cells.Keys == Used(low, high, hreg, etop);
    }

    /** pushtrail0 and push_pre_image_trail0; the caller then writes the cell. */
    method PushFrame(f: TrailFrame, size: nat, ghost v: Value)
      requires Valid() && size > 0 && f.parent == trreg && f.variable in cells && Image(f) == cells[f.variable] && Conditional(f.variable, hbreg, ebreg)
      modifies `trail, `trreg, `chain
      ensures Sound(cells[f.variable := v], trail, chain, trreg, cps, snaps) && cps[|cps| - 1].trreg <= trreg
      ensures chain == old(chain) + [trreg] && trail == old(trail)[trreg := f] && Framed(trail, chain, low, high)
    {
      hide Sound;
      FrameMore(trail, chain, low, high, trreg + size, f);
      PushSound(cells, trail, chain, trreg, cps, snaps, trreg + size, f, v);
      trreg := trreg + size;
      trail := trail[trreg := f];
      chain := chain + [trreg];
    }

    /** A choice point protects all cells that there are. */
    method PushChoicePoint()
      requires Valid()
      modifies `cps, `hbreg, `ebreg, `snaps
      ensures Valid() && cps == old(cps) + [ChoicePoint(trreg, hreg, etop)] && snaps == old(snaps) + [cells]
    {
      hide Sound;
      ChoiceSound(cells, trail, chain, trreg, cps, snaps, ChoicePoint(trreg, hreg, etop));
      cps := cps + [ChoicePoint(trreg, hreg, etop)];
      snaps := snaps + [cells];
      hbreg, ebreg := hreg, etop;
    }

    /** Backtracking to the newest choice point: the stacks are as they were when it was made, cell by cell. */
    method Backtrack()
      requires Valid()
      modifies `cells, `hreg, `etop, `trreg, `chain
      ensures Valid() && cells == snaps[|snaps| - 1] && trreg == cps[|cps| - 1].trreg
      ensures hreg == cps[|cps| - 1].hreg && etop == cps[|cps| - 1].ebreg
    {
      hide Sound, Undo, Count, Restores, Linked, Rising, Extents, Framed;
      ghost var cells0, chain0, trreg0, h0, e0 := cells, chain, trreg, hreg, etop;
      var top := cps[|cps| - 1];
      SoundTop(cells, trail, chain, trreg, cps, snaps);
      UndoNone(cells0, trail);
      assert chain0[|chain0|..] == [] && chain0[..|chain0|] == chain0;
      while trreg > top.trreg
        invariant Chained(trail, chain, trreg) && top.trreg <= trreg && |chain| <= |chain0| && chain == chain0[..|chain|]
        invariant cells == Undo(cells0, trail, chain0[|chain|..])
        decreases |chain|
      {
        ghost var n := |chain| - 1;
        BackStep(cells0, trail, chain0, trreg0, n, top.trreg);
        assert chain0[..n] == chain[..n];
        var f := trail[trreg];
        cells := cells[f.variable := Image(f)];
        trreg := f.parent;
        chain := chain[..n];
      }
      BackSound(cells0, trail, chain0, trreg0, cps, snaps, |chain|, trreg);
      BackCells(cells0, cells, trail, chain0, trreg0, cps, snaps, |chain|, low, high, h0, e0);
      RestoresNow(cells, trail, chain, top, snaps[|snaps| - 1]);
      SnapIs(low, high, cps, snaps, |cps| - 1);
      FramedFront(trail, chain0, |chain|, low, high);
      ghost var cells1 := cells;
      // the heap above hreg and the environments below etop are no longer there
      cells := cells - Span(top.hreg, top.ebreg);
      hreg, etop := top.hreg, top.ebreg;
      NewSound(cells1, cells, trail, chain, trreg, cps, snaps);
      NowSnap(cells1, cells, snaps[|snaps| - 1], top, low, high);
    }

    /** The newest choice point has no alternative left. */
    method Trust()
      requires Valid() && |cps| > 1 && trreg == cps[|cps| - 1].trreg
      modifies `cps, `hbreg, `ebreg, `snaps
      ensures Valid() && cps == old(cps)[..|old(cps)| - 1] && snaps == old(snaps)[..|old(snaps)| - 1]
    {
      hide Sound;
      SoundTop(cells, trail, chain, trreg, cps, snaps);
      NestedAt(cells, trail, chain, trreg, cps, snaps, |cps| - 2);
      TrustSound(cells, trail, chain, trreg, cps, snaps);
      cps := cps[..|cps| - 1];
      snaps := snaps[..|snaps| - 1];
      hbreg, ebreg := cps[|cps| - 1].hreg, cps[|cps| - 1].ebreg;
    }

    /** unwind_trail: drops the frames above tb that are no longer conditional, relinking in place. */
    method UnwindTrail(tb: nat)
      requires Chained(trail, chain, trreg)
      modifies `trail, `trreg, `chain
      ensures chain == Filtered(old(trail), old(chain), tb, hbreg, ebreg) && Chained(trail, chain, trreg)
      ensures forall i :: 0 <= i < |old(chain)| ==> SameFrame(old(trail), trail, old(chain)[i])
    {
      hide Filtered, SameFrame, Rising, Linked;
      ghost var trail0, chain0 := trail, chain;
      SameFrames(trail0, chain0);
      while trreg > 0 && !Conditional(trail[trreg].variable, hbreg, ebreg) && trreg > tb
        invariant Chained(trail, chain, trreg) && trail == trail0
        invariant Filtered(trail0, chain0, tb, hbreg, ebreg) == Filtered(trail0, chain, tb, hbreg, ebreg)
        decreases |chain|
      {
        DropLast(trail, chain, trreg, tb, hbreg, ebreg);
        trreg := trail[trreg].parent;
        chain := chain[..|chain| - 1];
      }
      if trreg > 0 {
        ghost var low: seq<nat>, high: seq<nat> := chain[..|chain| - 1], [trreg];
        KeepLast(trail, chain, trreg, tb, hbreg, ebreg);
        var t1: nat := trreg;
        var t2: nat := trail[t1].parent;
        while t2 > tb && t2 > 0
          invariant chain == low + high && high != [] && high[0] == t1 && Chained(trail, chain, trreg) && Chained(trail, low, t2)
          invariant t1 in trail && trail[t1].parent == t2
          invariant t1 <= tb ==> t2 <= tb
          invariant Filtered(trail0, chain0, tb, hbreg, ebreg) == Filtered(trail0, low, tb, hbreg, ebreg) + high
          invariant forall i :: 0 <= i < |chain0| ==> SameFrame(trail0, trail, chain0[i])
          invariant forall i :: 0 <= i < |chain| ==> SameFrame(trail0, trail, chain[i])
          decreases |low|
        {
          LowFacts(trail0, trail, low, high, trreg, t1, t2);
          if !Conditional(trail[t2].variable, hbreg, ebreg) {
            DropMiddle(trail0, trail, low, high, trreg, t1, t2, tb, hbreg, ebreg);
            Relinked(trail0, trail, chain0, t1, trail[t2].parent);
            SkipFrames(trail0, trail, low, high, low[..|low| - 1] + high);
            Relinked(trail0, trail, low[..|low| - 1] + high, t1, trail[t2].parent);
            t2 := trail[t2].parent;
            trail := trail[t1 := trail[t1].(parent := t2)];
          } else {
            KeepMiddle(trail0, trail, low, high, trreg, t1, t2, tb, hbreg, ebreg);
            high := [t2] + high;
            t1 := t2;
            t2 := trail[t2].parent;
          }
          low := low[..|low| - 1];
          chain := low + high;
        }
        LowRest(trail0, trail, low, t2, tb, hbreg, ebreg);
      } else {
        NothingLeft(trail0, chain, tb, hbreg, ebreg);
      }
    }

    /** cut_code: back to choice point k. The frames that stay are those at or below its own and those of cells that
        were there when it was made. */
    method Cut(k: nat)
      requires Valid() && k < |cps|
      modifies `trail, `trreg, `chain, `cps, `snaps, `hbreg, `ebreg
      ensures Valid() && cps == old(cps)[..k + 1] && snaps == old(snaps)[..k + 1]
      ensures forall t :: t in chain <==> t in old(chain) && (t <= cps[k].trreg || (t in old(trail) && old(trail)[t].variable in snaps[k]))
      ensures forall t :: t in chain ==> SameFrame(old(trail), trail, t)
      ensures k + 1 < |old(cps)| ==> chain == Filtered(old(trail), old(chain), cps[k].trreg, hbreg, ebreg)
      ensures k + 1 == |old(cps)| ==> chain == old(chain) && trail == old(trail)
    {
      hide Sound, Filtered, Restores, Linked, Rising, Extents, Framed, Conditional, SameFrame;
      ghost var trail0, chain0, trreg0 := trail, chain, trreg;
      SoundTop(cells, trail, chain, trreg, cps, snaps);
      NestedAt(cells, trail, chain, trreg, cps, snaps, k);
      ExtentsFront(low, high, cps, snaps, k);
      CutFrames(cells, trail, chain, trreg, cps, snaps, k, low, high);
      SameFrames(trail, chain);
      hbreg, ebreg := cps[k].hreg, cps[k].ebreg;
      if |cps| - 1 != k {
        var b := |cps| - 1;
        while b - 1 != k
          invariant k < b < |cps|
        {
          b := b - 1;
        }
        UnwindTrail(cps[b].trreg);
        CutSound(cells, trail0, trail, chain0, trreg0, trreg, cps, snaps, k);
        CutExactly(cells, trail0, chain0, trreg0, cps, snaps, k);
        FramedKept(trail0, trail, chain0, chain, low, high);
        cps, snaps := cps[..k + 1], snaps[..k + 1];
      } else {
        assert cps[..k + 1] == cps && snaps[..k + 1] == snaps;
      }
    }
  }

  lemma FrameMore(trail: Trail, chain: seq<nat>, low: int, high: int, t1: nat, f: TrailFrame)
    requires Framed(trail, chain, low, high) && low <= f.variable < high
    ensures Framed(trail[t1 := f], chain + [t1], low, high)
  {
  }

  lemma FramedFront(trail: Trail, chain: seq<nat>, n: nat, low: int, high: int)
    requires Framed(trail, chain, low, high) && n <= |chain|
    ensures Framed(trail, chain[..n], low, high)
  {
  }

  lemma FramedKept(trail: Trail, trail1: Trail, chain: seq<nat>, chain1: seq<nat>, low: int, high: int)
    requires Framed(trail, chain, low, high) && (forall t :: t in chain1 ==> t in chain) && forall i :: 0 <= i < |chain| ==> SameFrame(trail, trail1, chain[i])
    ensures Framed(trail1, chain1, low, high) && forall t :: t in chain1 ==> SameFrame(trail, trail1, t)
  {
    forall t | t in chain1 ensures SameFrame(trail, trail1, t) && (t in trail1 ==> low <= trail1[t].variable < high) {
      var i :| 0 <= i < |chain| && chain[i] == t;
    }
  }

  lemma NestedAt(cells: Store, trail: Trail, chain: seq<nat>, t: nat, cps: seq<ChoicePoint>, snaps: seq<Store>, k: nat)
    requires Sound(cells, trail, chain, t, cps, snaps) && k < |cps|
    ensures Within(cps[k], cps[|cps| - 1])
  {
  }

  lemma ExtentsFront(low: int, high: int, cps: seq<ChoicePoint>, snaps: seq<Store>, k: nat)
    requires Extents(low, high, cps, snaps) && k < |cps|
    ensures Extents(low, high, cps[..k + 1], snaps[..k + 1]) && low <= cps[k].hreg <= cps[k].ebreg <= high
  {
  }

  lemma SnapIs(low: int, high: int, cps: seq<ChoicePoint>, snaps: seq<Store>, k: nat)
    requires Extents(low, high, cps, snaps) && k < |cps|
    ensures snaps[k].Keys == Used(low, high, cps[k].hreg, cps[k].ebreg) && low <= cps[k].hreg <= cps[k].ebreg <= high
  {
  }

  /** Undoing touches cells only that are there. */
  lemma BackCells(cells0: Store, cells: Store, trail: Trail, chain: seq<nat>, t: nat, cps: seq<ChoicePoint>, snaps: seq<Store>, n: nat,
                  low: int, high: int, h: int, e: int)
    requires Sound(cells0, trail, chain, t, cps, snaps) && Extents(low, high, cps, snaps) && Framed(trail, chain, low, high)
    requires cps != [] && cps[0].trreg == 0 && n <= |chain| && cells == Undo(cells0, trail, chain[n..])
    requires cells0.Keys == Used(low, high, h, e) && cps[|cps| - 1].hreg <= h && e <= cps[|cps| - 1].ebreg
    ensures cells.Keys == cells0.Keys
  {
    hide Sound, Undo, Framed;
    SnapIs(low, high, cps, snaps, |cps| - 1);
    forall f | f in chain[n..] && f in trail ensures trail[f].variable in cells0 {
      FramesThere(cells0, trail, chain, t, cps, snaps, low, high, f);
    }
    UndoKeys(cells0, trail, chain[n..]);
  }

  /** Without the newer cells the restored ones are all there is. */
  lemma NowSnap(cells1: Store, cells: Store, snap: Store, top: ChoicePoint, low: int, high: int)
    requires snap.Keys == Used(low, high, top.hreg, top.ebreg) && cells == cells1 - Span(top.hreg, top.ebreg)
    requires forall a :: a in cells1 ==> low <= a < high
    requires forall x :: x in snap && Conditional(x, top.hreg, top.ebreg) ==> x in cells1 && cells1[x] == snap[x]
    ensures cells == snap
  {
    forall x ensures x in cells <==> x in snap { }
  }

  /** What filtering keeps, said without the trail test. */
  lemma CutFrames(cells: Store, trail: Trail, chain: seq<nat>, t: nat, cps: seq<ChoicePoint>, snaps: seq<Store>, k: nat, low: int, high: int)
    requires Sound(cells, trail, chain, t, cps, snaps) && Extents(low, high, cps, snaps) && Framed(trail, chain, low, high) && k < |cps|
    requires cps[0].trreg == 0
    ensures forall f :: f in Filtered(trail, chain, cps[k].trreg, cps[k].hreg, cps[k].ebreg) <==>
      f in chain && (f <= cps[k].trreg || (f in trail && trail[f].variable in snaps[k]))
    ensures k + 1 == |cps| ==> forall f :: f in chain ==> f <= cps[k].trreg || (f in trail && trail[f].variable in snaps[k])
  {
    hide Sound, Filtered, Conditional;
    FilteredIn(trail, chain, cps[k].trreg, cps[k].hreg, cps[k].ebreg);
    forall f | f in chain ensures f in trail && (Conditional(trail[f].variable, cps[k].hreg, cps[k].ebreg) <==> trail[f].variable in snaps[k]) {
      FramesThere(cells, trail, chain, t, cps, snaps, low, high, f);
      TestIs(low, high, cps, snaps, k, trail[f].variable);
    }
    if k + 1 == |cps| {
      forall f | f in chain ensures trail[f].variable in snaps[k] { FramesThere(cells, trail, chain, t, cps, snaps, low, high, f); }
    }
  }

  // ---- steps of the filtering ------------------------------------------------------------------

  lemma SoundTop(cells: Store, trail: Trail, chain: seq<nat>, t: nat, cps: seq<ChoicePoint>, snaps: seq<Store>)
    requires Sound(cells, trail, chain, t, cps, snaps) && cps != []
    ensures Chained(trail, chain, t) && |snaps| == |cps| && (cps[|cps| - 1].trreg == 0 || cps[|cps| - 1].trreg in chain)
  {
    hide Restores, Chained, Segments, Nested;
  }

  lemma RestoresNow(cells: Store, trail: Trail, chain: seq<nat>, cp: ChoicePoint, snap: Store)
    requires Restores(cells, trail, chain, cp, snap) && Above(chain, cp.trreg) == []
    ensures forall x :: x in snap && Conditional(x, cp.hreg, cp.ebreg) ==> x in cells && cells[x] == snap[x]
  {
    UndoNone(cells, trail);
  }

  lemma TrustSound(cells: Store, trail: Trail, chain: seq<nat>, t: nat, cps: seq<ChoicePoint>, snaps: seq<Store>)
    requires Sound(cells, trail, chain, t, cps, snaps) && |cps| > 1 && t == cps[|cps| - 1].trreg
    ensures Sound(cells, trail, chain, t, cps[..|cps| - 1], snaps[..|snaps| - 1]) && cps[|cps| - 2].trreg <= t
  {
    hide Restores, Conditional;
    TopInChain(trail, chain, t);
    var cps1 := cps[..|cps| - 1];
    assert Within(cps[|cps| - 2], cps[|cps| - 1]);
    forall k, i | 0 <= i < |chain| && chain[i] in trail && InSegment(cps1, k, chain[i])
      ensures Conditional(trail[chain[i]].variable, cps1[k].hreg, cps1[k].ebreg)
    {
      assert InSegment(cps, k, chain[i]);
    }
  }

  lemma SameFrames(trail: Trail, chain: seq<nat>)
    requires forall i :: 0 <= i < |chain| ==> chain[i] in trail
    ensures forall i :: 0 <= i < |chain| ==> SameFrame(trail, trail, chain[i])
  {
  }

  lemma DropLast(trail: Trail, chain: seq<nat>, t: nat, tb: nat, hb: int, eb: int)
    requires Chained(trail, chain, t) && t > 0
    ensures chain != [] && t in trail && chain[|chain| - 1] == t && Chained(trail, chain[..|chain| - 1], trail[t].parent)
    ensures t > tb && !Conditional(trail[t].variable, hb, eb) ==> Filtered(trail, chain, tb, hb, eb) == Filtered(trail, chain[..|chain| - 1], tb, hb, eb)
  {
    ChainedFront(trail, chain, t);
  }

  lemma KeepLast(trail: Trail, chain: seq<nat>, t: nat, tb: nat, hb: int, eb: int)
    requires Chained(trail, chain, t) && t > 0
    ensures chain != [] && t in trail && chain == chain[..|chain| - 1] + [t] && Chained(trail, chain[..|chain| - 1], trail[t].parent)
    ensures trail[t].parent < t
    ensures t <= tb || Conditional(trail[t].variable, hb, eb) ==> Filtered(trail, chain, tb, hb, eb) == Filtered(trail, chain[..|chain| - 1], tb, hb, eb) + [t]
    ensures forall i :: 0 <= i < |chain| ==> SameFrame(trail, trail, chain[i])
  {
    ChainedFront(trail, chain, t);
  }

  lemma LowFacts(trail0: Trail, trail: Trail, low: seq<nat>, high: seq<nat>, t: nat, t1: nat, t2: nat)
    requires Chained(trail, low + high, t) && Chained(trail, low, t2) && high != [] && high[0] == t1 && t2 > 0
    requires forall i :: 0 <= i < |low + high| ==> SameFrame(trail0, trail, (low + high)[i])
    ensures low != [] && low[|low| - 1] == t2 && t2 in trail && t1 in trail && t2 in trail0
    ensures trail[t2].variable == trail0[t2].variable && trail[t2].parent < t2 < t1
    ensures Chained(trail, low[..|low| - 1], trail[t2].parent)
  {
    hide Rising;
    ChainedFront(trail, low, t2);
    var n := |low| - 1;
    assert (low + high)[n] == t2 && (low + high)[n + 1] == t1;
    ChainedIn(trail, low + high, t, n + 1);
    RisingAt(low + high, n, n + 1);
    assert SameFrame(trail0, trail, (low + high)[n]);
  }

  lemma ChainedIn(trail: Trail, chain: seq<nat>, t: nat, i: nat)
    requires Chained(trail, chain, t) && i < |chain|
    ensures chain[i] in trail && chain[i] > 0 && Rising(chain)
  {
  }

  lemma DropMiddle(trail0: Trail, trail: Trail, low: seq<nat>, high: seq<nat>, t: nat, t1: nat, t2: nat, tb: nat, hb: int, eb: int)
    requires Chained(trail, low + high, t) && high != [] && high[0] == t1 && t1 in trail && t2 in trail && t2 in trail0
    requires low != [] && low[|low| - 1] == t2 && trail[t2].variable == trail0[t2].variable && t2 > tb && !Conditional(trail[t2].variable, hb, eb)
    requires Chained(trail, low[..|low| - 1], trail[t2].parent)
    ensures var low1 := low[..|low| - 1]; var trail1 := trail[t1 := trail[t1].(parent := trail[t2].parent)];
      (Chained(trail1, low1 + high, t) && Chained(trail1, low1, trail[t2].parent)
      && Filtered(trail0, low, tb, hb, eb) == Filtered(trail0, low1, tb, hb, eb))
  {
    hide Rising;
    var n := |low| - 1;
    var low1, trail1 := low[..n], trail[t1 := trail[t1].(parent := trail[t2].parent)];
    RisingSkip(low, high);
    T1Above(low, high);
    forall i | 0 <= i < |low1 + high| ensures (low1 + high)[i] == (low + high)[if i < n then i else i + 1] { }
    forall i | 0 <= i < |low1 + high| && i != n ensures (low1 + high)[i] != t1 { }
  }

  lemma RisingSkip(low: seq<nat>, high: seq<nat>)
    requires Rising(low + high) && low != []
    ensures Rising(low[..|low| - 1] + high)
  {
    var n := |low| - 1;
    var xs := low[..n] + high;
    forall i | 0 <= i < |xs| ensures xs[i] == (low + high)[if i < n then i else i + 1] { }
  }

  /** The first of the upper part occurs once. */
  lemma T1Above(low: seq<nat>, high: seq<nat>)
    requires Rising(low + high) && high != []
    ensures forall i :: 0 <= i < |low + high| && i != |low| ==> (low + high)[i] != high[0]
    ensures forall i :: 0 <= i < |low| ==> low[i] != high[0]
  {
    forall i | 0 <= i < |low + high| && i != |low| ensures (low + high)[i] != high[0] {
      assert (low + high)[|low|] == high[0];
    }
    forall i | 0 <= i < |low| ensures low[i] != high[0] { assert low[i] == (low + high)[i]; }
  }

  lemma KeepMiddle(trail0: Trail, trail: Trail, low: seq<nat>, high: seq<nat>, t: nat, t1: nat, t2: nat, tb: nat, hb: int, eb: int)
    requires Chained(trail, low + high, t) && low != [] && low[|low| - 1] == t2 && t2 in trail && t2 in trail0
    requires trail[t2].variable == trail0[t2].variable && Conditional(trail[t2].variable, hb, eb)
    ensures low[..|low| - 1] + ([t2] + high) == low + high
    ensures Filtered(trail0, low, tb, hb, eb) + high == Filtered(trail0, low[..|low| - 1], tb, hb, eb) + ([t2] + high)
  {
    hide Rising;
    var n := |low| - 1;
    assert low == low[..n] + [t2];
  }

  lemma SkipFrames(trail0: Trail, trail: Trail, low: seq<nat>, high: seq<nat>, both: seq<nat>)
    requires low != [] && forall i :: 0 <= i < |low + high| ==> SameFrame(trail0, trail, (low + high)[i])
    requires both == low[..|low| - 1] + high
    ensures forall i :: 0 <= i < |both| ==> SameFrame(trail0, trail, both[i])
  {
    hide SameFrame;
    var n := |low| - 1;
    forall i | 0 <= i < |both| ensures SameFrame(trail0, trail, both[i]) {
      assert both[i] == (low + high)[if i < n then i else i + 1];
    }
  }

  lemma Relinked(trail0: Trail, trail: Trail, chain: seq<nat>, t1: nat, p: nat)
    requires t1 in trail && forall i :: 0 <= i < |chain| ==> SameFrame(trail0, trail, chain[i])
    ensures forall i :: 0 <= i < |chain| ==> SameFrame(trail0, trail[t1 := trail[t1].(parent := p)], chain[i])
  {
  }

  lemma LowRest(trail0: Trail, trail: Trail, low: seq<nat>, t2: nat, tb: nat, hb: int, eb: int)
    requires Chained(trail, low, t2) && (t2 <= tb || t2 == 0)
    ensures Filtered(trail0, low, tb, hb, eb) == low
  {
    TopInChain(trail, low, t2);
    FilteredLow(trail0, low, tb, hb, eb);
  }

  lemma NothingLeft(trail: Trail, chain: seq<nat>, tb: nat, hb: int, eb: int)
    requires Chained(trail, chain, 0)
    ensures chain == [] && Filtered(trail, chain, tb, hb, eb) == chain
  {
  }

  /** Frames between the two choice points are conditional for the lower one, so nothing else is dropped. */
  lemma CutExactly(cells: Store, trail: Trail, chain: seq<nat>, t: nat, cps: seq<ChoicePoint>, snaps: seq<Store>, k: nat)
    requires Sound(cells, trail, chain, t, cps, snaps) && k + 1 < |cps|
    ensures Filtered(trail, chain, cps[k + 1].trreg, cps[k].hreg, cps[k].ebreg) == Filtered(trail, chain, cps[k].trreg, cps[k].hreg, cps[k].ebreg)
  {
    hide Restores, Conditional, Filtered;
    assert Within(cps[k], cps[k + 1]);
    forall i | 0 <= i < |chain| && cps[k].trreg < chain[i] <= cps[k + 1].trreg
      ensures chain[i] in trail && Conditional(trail[chain[i]].variable, cps[k].hreg, cps[k].ebreg)
    {
      assert InSegment(cps, k, chain[i]);
    }
    FilteredSame(trail, chain, cps[k].trreg, cps[k + 1].trreg, cps[k].hreg, cps[k].ebreg);
  }

  lemma {:induction false} FilteredSame(trail: Trail, chain: seq<nat>, ta: nat, tb: nat, hb: int, eb: int)
    requires ta <= tb
    requires forall i :: 0 <= i < |chain| && ta < chain[i] <= tb ==> chain[i] in trail && Conditional(trail[chain[i]].variable, hb, eb)
    ensures Filtered(trail, chain, tb, hb, eb) == Filtered(trail, chain, ta, hb, eb)
  {
    if chain != [] {
      FilteredSame(trail, chain[..|chain| - 1], ta, tb, hb, eb);
    }
  }
}
