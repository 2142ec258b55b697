/** The doubly linked chains that hold dynamic clauses (XSB/emu/biassert.c).

    One cell layout serves every chain: a back pointer, a try-type instruction and a
    forward pointer.  The opcode of a cell is not free: it encodes where the cell stands
    in its chain. */
module Chains {

  datatype Op = Noop | Dynnoop | Trymeelse | Dyntrymeelse | Dynretrymeelse | Dyntrustmeelsefail

  /** Whatever a chain pointer can point at. */
  datatype Loc =
    | Root                          // the predicate reference
    | SubPred(sob: nat)             // the predicate reference inside an index record
    | Bucket(sob: nat, slot: nat)   // one slot of a hash table
    | SobCell(sob: nat)             // an index record, on the chain of its parent
    | ClauseCell(clause: nat)       // a clause, on an all-chain
    | IndCell(clause: nat, level: nat)  // a clause, on a bucket chain
    | Dynfail                       // the content of an empty hash slot

  datatype Cell = Cell(op: Op, prev: Loc, next: Loc)

  type Mem = map<Loc, Cell>

  /** The opcode that belongs at position i of a chain of n cells; index records use the
      plain instructions, clauses the dyn- ones. */
  function PosOp(isSob: bool, i: nat, n: nat): Op
    requires i < n
  {
    if n == 1 then (if isSob then Noop else Dynnoop)
    else if i == 0 then (if isSob then Trymeelse else Dyntrymeelse)
    else if i == n - 1 then Dyntrustmeelsefail
    else Dynretrymeelse
  }

  /** Opcodes equal to position, links mutually inverse, both ends anchored. */
  ghost predicate CellOk(cells: Mem, xs: seq<Loc>, isSob: bool, before: Loc, after: Loc, i: nat)
    requires i < |xs|
  {
    && xs[i] in cells
    && cells[xs[i]].op == PosOp(isSob, i, |xs|)
    && cells[xs[i]].prev == (if i == 0 then before else xs[i - 1])
    && cells[xs[i]].next == (if i == |xs| - 1 then after else xs[i + 1])
  }

  ghost predicate Distinct<T>(xs: seq<T>) {
    forall i, j :: 0 <= i < j < |xs| ==> xs[i] != xs[j]
  }

  ghost predicate IsChain(cells: Mem, xs: seq<Loc>, isSob: bool, before: Loc, after: Loc) {
    && Distinct(xs)
    && forall i :: 0 <= i < |xs| ==> CellOk(cells, xs, isSob, before, after, i)
  }

  /** Only the cells of xs and the cell x may differ. */
  ghost predicate Untouched(m0: Mem, m1: Mem, xs: seq<Loc>, x: Loc) {
    && m1.Keys == m0.Keys
    && forall y :: y in m0 && y != x && y !in xs ==> m1[y] == m0[y]
  }

  /** xs without the element at position k. */
  function Drop<T>(xs: seq<T>, k: nat): seq<T>
    requires k < |xs|
  {
    xs[..k] + xs[k + 1..]
  }

  lemma ChainFrame(old_: Mem, new_: Mem, xs: seq<Loc>, isSob: bool, before: Loc, after: Loc)
    requires IsChain(old_, xs, isSob, before, after)
    requires forall x :: x in xs ==> x in new_ && x in old_ && new_[x] == old_[x]
    ensures IsChain(new_, xs, isSob, before, after)
  {
    forall i | 0 <= i < |xs| ensures CellOk(new_, xs, isSob, before, after, i) {
      assert CellOk(old_, xs, isSob, before, after, i);
      assert xs[i] in xs;
    }
  }

  lemma Touch(m: Mem, xs: seq<Loc>, x: Loc, c: Cell)
    requires x in m
    ensures Untouched(m, m[x := c], xs, x)
  {
  }

  lemma SingleChain(m: Mem, x: Loc, isSob: bool, before: Loc, after: Loc)
    requires x in m && m[x] == Cell(if isSob then Noop else Dynnoop, before, after)
    ensures IsChain(m, [x], isSob, before, after)
  {
    assert CellOk(m, [x], isSob, before, after, 0);
  }

  lemma HeadCell(m: Mem, xs: seq<Loc>, isSob: bool, before: Loc, after: Loc)
    requires IsChain(m, xs, isSob, before, after) && xs != []
    ensures xs[0] in m && m[xs[0]].prev == before && m[xs[0]].op == PosOp(isSob, 0, |xs|)
  {
    assert CellOk(m, xs, isSob, before, after, 0);
  }

  lemma TailCell(m: Mem, xs: seq<Loc>, isSob: bool, before: Loc, after: Loc)
    requires IsChain(m, xs, isSob, before, after) && xs != []
    ensures xs[|xs| - 1] in m && m[xs[|xs| - 1]].next == after && m[xs[|xs| - 1]].op == PosOp(isSob, |xs| - 1, |xs|)
  {
    assert CellOk(m, xs, isSob, before, after, |xs| - 1);
  }

  /** x has been written behind the last cell, whose opcode has been shifted to its new position. */
  lemma AppendedChain(m0: Mem, m1: Mem, xs: seq<Loc>, x: Loc, isSob: bool, before: Loc, after: Loc)
    requires IsChain(m0, xs, isSob, before, after) && xs != [] && x !in xs
    requires var l := xs[|xs| - 1];
      && l in m0 && l in m1 && x in m1
      && m1[l] == Cell(PosOp(isSob, |xs| - 1, |xs| + 1), m0[l].prev, x)
      && m1[x] == Cell(Dyntrustmeelsefail, l, after)
      && forall y :: y in m0 && y != l && y != x ==> y in m1 && m1[y] == m0[y]
    ensures IsChain(m1, xs + [x], isSob, before, after)
  {
    hide CellOk, Distinct;
    var ys := xs + [x];
    AppendedDistinct(xs, x);
    forall i | 0 <= i < |ys| ensures CellOk(m1, ys, isSob, before, after, i) {
      if i < |xs| { ChainAt(m0, xs, isSob, before, after, i, |xs| - 1); }
      AppendedCell(m0, m1, xs, x, isSob, before, after, i);
    }
  }

  lemma AppendedDistinct(xs: seq<Loc>, x: Loc)
    requires Distinct(xs) && x !in xs
    ensures Distinct(xs + [x]) && Distinct([x] + xs)
  {
  }

  lemma ChainAt(m: Mem, xs: seq<Loc>, isSob: bool, before: Loc, after: Loc, i: nat, j: nat)
    requires IsChain(m, xs, isSob, before, after) && i < |xs| && j < |xs|
    ensures CellOk(m, xs, isSob, before, after, i) && xs[i] in m && (i != j ==> xs[i] != xs[j])
  {
  }

  lemma AppendedCell(m0: Mem, m1: Mem, xs: seq<Loc>, x: Loc, isSob: bool, before: Loc, after: Loc, i: nat)
    requires xs != [] && i <= |xs| && (i < |xs| ==> CellOk(m0, xs, isSob, before, after, i) && xs[i] != x && (i < |xs| - 1 ==> xs[i] != xs[|xs| - 1]))
    requires xs[|xs| - 1] in m0 && xs[|xs| - 1] in m1 && x in m1
    requires m1[xs[|xs| - 1]] == Cell(PosOp(isSob, |xs| - 1, |xs| + 1), m0[xs[|xs| - 1]].prev, x)
    requires m1[x] == Cell(Dyntrustmeelsefail, xs[|xs| - 1], after)
    requires forall y :: y in m0 && y != xs[|xs| - 1] && y != x ==> y in m1 && m1[y] == m0[y]
    ensures CellOk(m1, xs + [x], isSob, before, after, i)
  {
  }

  /** x has been written in front of the first cell, whose opcode has been shifted to its new position. */
  lemma PrefixedChain(m0: Mem, m1: Mem, xs: seq<Loc>, x: Loc, isSob: bool, before: Loc, after: Loc)
    requires IsChain(m0, xs, isSob, before, after) && xs != [] && x !in xs
    requires xs[0] in m0 && xs[0] in m1 && x in m1
    requires m1[xs[0]] == Cell(PosOp(isSob, 1, |xs| + 1), x, m0[xs[0]].next)
    requires m1[x] == Cell(if isSob then Trymeelse else Dyntrymeelse, before, xs[0])
    requires forall y :: y in m0 && y != xs[0] && y != x ==> y in m1 && m1[y] == m0[y]
    ensures IsChain(m1, [x] + xs, isSob, before, after)
  {
    hide CellOk, Distinct;
    var ys := [x] + xs;
    AppendedDistinct(xs, x);
    forall i | 0 <= i < |ys| ensures CellOk(m1, ys, isSob, before, after, i) {
      if i > 0 { ChainAt(m0, xs, isSob, before, after, i - 1, 0); }
      PrefixedCell(m0, m1, xs, x, isSob, before, after, i);
    }
  }

  lemma PrefixedCell(m0: Mem, m1: Mem, xs: seq<Loc>, x: Loc, isSob: bool, before: Loc, after: Loc, i: nat)
    requires xs != [] && i <= |xs| && (i > 0 ==> CellOk(m0, xs, isSob, before, after, i - 1) && xs[i - 1] != x && (i > 1 ==> xs[i - 1] != xs[0]))
    requires xs[0] in m0 && xs[0] in m1 && x in m1
    requires m1[xs[0]] == Cell(PosOp(isSob, 1, |xs| + 1), x, m0[xs[0]].next)
    requires m1[x] == Cell(if isSob then Trymeelse else Dyntrymeelse, before, xs[0])
    requires forall y :: y in m0 && y != xs[0] && y != x ==> y in m1 && m1[y] == m0[y]
    ensures CellOk(m1, [x] + xs, isSob, before, after, i)
  {
  }

  lemma ChainAllocated(m: Mem, xs: seq<Loc>, isSob: bool, before: Loc, after: Loc)
    requires IsChain(m, xs, isSob, before, after)
    ensures forall x :: x in xs ==> x in m
  {
    forall x | x in xs ensures x in m {
      var i :| 0 <= i < |xs| && xs[i] == x;
      assert CellOk(m, xs, isSob, before, after, i);
    }
  }

  /** What unlinking writes: the neighbours of the dropped cell and nothing else. */
  ghost predicate DropWrites(m0: Mem, m1: Mem, xs: seq<Loc>, k: nat, isSob: bool, before: Loc, after: Loc)
    requires k < |xs|
  {
    && (forall x :: x in m0 && !(k > 0 && x == xs[k - 1]) && !(k < |xs| - 1 && x == xs[k + 1]) ==> x in m1 && m1[x] == m0[x])
    && (k > 0 && xs[k - 1] in m0 ==>
          && xs[k - 1] in m1
          && m1[xs[k - 1]] == Cell(PosOp(isSob, k - 1, |xs| - 1), m0[xs[k - 1]].prev, if k == |xs| - 1 then after else xs[k + 1]))
    && (k < |xs| - 1 && xs[k + 1] in m0 ==>
          && xs[k + 1] in m1
          && m1[xs[k + 1]] == Cell(PosOp(isSob, k, |xs| - 1), if k == 0 then before else xs[k - 1], m0[xs[k + 1]].next))
  }

  lemma DroppedCell(m0: Mem, m1: Mem, xs: seq<Loc>, k: nat, isSob: bool, before: Loc, after: Loc, i: nat)
    requires IsChain(m0, xs, isSob, before, after) && k < |xs| && i < |xs| - 1
    requires DropWrites(m0, m1, xs, k, isSob, before, after)
    ensures CellOk(m1, Drop(xs, k), isSob, before, after, i)
  {
    hide IsChain, CellOk, Distinct, DropWrites;
    var j := if i < k then i else i + 1;
    DropAt(xs, k, i);
    if k > 0 { ChainAt(m0, xs, isSob, before, after, j, k - 1); ChainAt(m0, xs, isSob, before, after, k - 1, k - 1); }
    if k < |xs| - 1 { ChainAt(m0, xs, isSob, before, after, j, k + 1); ChainAt(m0, xs, isSob, before, after, k + 1, k + 1); }
    DropWritten(m0, m1, xs, k, isSob, before, after, i, j);
  }

  lemma DropAt<T>(xs: seq<T>, k: nat, i: nat)
    requires k < |xs| && i < |xs| - 1
    ensures |Drop(xs, k)| == |xs| - 1 && Drop(xs, k)[i] == xs[if i < k then i else i + 1]
    ensures i > 0 ==> Drop(xs, k)[i - 1] == if i - 1 < k then xs[i - 1] else xs[i]
    ensures i < |xs| - 2 ==> Drop(xs, k)[i + 1] == if i + 1 < k then xs[i + 1] else xs[i + 2]
  {
  }

  lemma DropWritten(m0: Mem, m1: Mem, xs: seq<Loc>, k: nat, isSob: bool, before: Loc, after: Loc, i: nat, j: nat)
    requires k < |xs| && i < |xs| - 1 && j == (if i < k then i else i + 1) && CellOk(m0, xs, isSob, before, after, j)
    requires DropWrites(m0, m1, xs, k, isSob, before, after)
    requires k > 0 ==> xs[k - 1] in m0 && (j != k - 1 ==> xs[j] != xs[k - 1])
    requires k < |xs| - 1 ==> xs[k + 1] in m0 && (j != k + 1 ==> xs[j] != xs[k + 1])
    requires k > 0 ==> CellOk(m0, xs, isSob, before, after, k - 1)
    requires k < |xs| - 1 ==> CellOk(m0, xs, isSob, before, after, k + 1)
    ensures CellOk(m1, Drop(xs, k), isSob, before, after, i)
  {
    hide Drop;
    DropAt(xs, k, i);
  }

  lemma DropMembers<T>(xs: seq<T>, k: nat)
    requires k < |xs| && Distinct(xs)
    ensures Distinct(Drop(xs, k))
    ensures forall y :: y in Drop(xs, k) <==> y in xs && y != xs[k]
  {
    forall y | y in xs && y != xs[k] ensures y in Drop(xs, k) {
      var j :| 0 <= j < |xs| && xs[j] == y;
      assert Drop(xs, k)[if j < k then j else j - 1] == y;
    }
  }

  lemma DroppedChain(m0: Mem, m1: Mem, xs: seq<Loc>, k: nat, isSob: bool, before: Loc, after: Loc)
    requires IsChain(m0, xs, isSob, before, after) && k < |xs|
    requires DropWrites(m0, m1, xs, k, isSob, before, after)
    ensures IsChain(m1, Drop(xs, k), isSob, before, after)
  {
    DropMembers(xs, k);
    assert |Drop(xs, k)| == |xs| - 1;
    hide CellOk, Distinct, Drop, DropWrites;
    forall i | 0 <= i < |Drop(xs, k)| ensures CellOk(m1, Drop(xs, k), isSob, before, after, i) {
      DroppedCell(m0, m1, xs, k, isSob, before, after, i);
    }
  }

  /** What the words of the cell at position k say about its place. */
  lemma PlaceOf(m: Mem, xs: seq<Loc>, isSob: bool, before: Loc, after: Loc, k: nat)
    requires IsChain(m, xs, isSob, before, after) && k < |xs|
    ensures xs[k] in m && m[xs[k]].op == PosOp(isSob, k, |xs|)
    ensures m[xs[k]].prev == (if k == 0 then before else xs[k - 1])
    ensures m[xs[k]].next == (if k == |xs| - 1 then after else xs[k + 1])
  {
    assert CellOk(m, xs, isSob, before, after, k);
  }

  lemma DroppedEnds(xs: seq<Loc>, k: nat)
    requires k < |xs|
    ensures |Drop(xs, k)| == |xs| - 1
    ensures |xs| > 1 ==> Drop(xs, k)[0] == if k == 0 then xs[1] else xs[0]
    ensures |xs| > 1 ==> Drop(xs, k)[|xs| - 2] == if k == |xs| - 1 then xs[k - 1] else xs[|xs| - 1]
  {
  }

  lemma DroppedUntouched(m0: Mem, m1: Mem, xs: seq<Loc>, k: nat, isSob: bool, before: Loc, after: Loc)
    requires k < |xs| && DropWrites(m0, m1, xs, k, isSob, before, after) && m1.Keys == m0.Keys
    ensures Untouched(m0, m1, xs, xs[k])
  {
  }

  /** The cells on either side of position k. */
  lemma Neighbours(m: Mem, xs: seq<Loc>, isSob: bool, before: Loc, after: Loc, k: nat)
    requires IsChain(m, xs, isSob, before, after) && k < |xs|
    ensures k > 0 ==> xs[k - 1] in m && xs[k - 1] != xs[k] && m[xs[k - 1]].op == PosOp(isSob, k - 1, |xs|) && m[xs[k - 1]].next == xs[k]
    ensures k < |xs| - 1 ==> xs[k + 1] in m && xs[k + 1] != xs[k] && m[xs[k + 1]].op == PosOp(isSob, k + 1, |xs|) && m[xs[k + 1]].prev == xs[k]
    ensures 0 < k < |xs| - 1 ==> xs[k - 1] != xs[k + 1]
  {
    if k > 0 { PlaceOf(m, xs, isSob, before, after, k - 1); }
    if k < |xs| - 1 { PlaceOf(m, xs, isSob, before, after, k + 1); }
  }

  /** The first cell goes: the second one becomes the first. */
  lemma WroteFirst(m0: Mem, xs: seq<Loc>, isSob: bool, before: Loc, after: Loc, o: Op)
    requires |xs| > 1 && xs[0] in m0 && xs[1] in m0 && xs[0] != xs[1] && o == PosOp(isSob, 0, |xs| - 1)
    ensures var m1 := m0[xs[1] := Cell(o, before, m0[xs[1]].next)];
      DropWrites(m0, m1, xs, 0, isSob, before, after) && m1.Keys == m0.Keys && m1[xs[0]] == m0[xs[0]]
  {
  }

  /** A middle cell goes: its neighbours are linked. */
  lemma WroteMiddle(m0: Mem, xs: seq<Loc>, k: nat, isSob: bool, before: Loc, after: Loc)
    requires 0 < k < |xs| - 1 && xs[k] in m0 && xs[k - 1] in m0 && xs[k + 1] in m0 && xs[k - 1] != xs[k] && xs[k + 1] != xs[k] && xs[k - 1] != xs[k + 1]
    requires m0[xs[k - 1]].op == PosOp(isSob, k - 1, |xs| - 1) && m0[xs[k + 1]].op == PosOp(isSob, k, |xs| - 1)
    ensures var m1 := m0[xs[k + 1] := m0[xs[k + 1]].(prev := xs[k - 1])][xs[k - 1] := m0[xs[k - 1]].(next := xs[k + 1])];
      DropWrites(m0, m1, xs, k, isSob, before, after) && m1.Keys == m0.Keys && m1[xs[k]] == m0[xs[k]]
  {
  }

  /** The last cell goes: the one before becomes the last. */
  lemma WroteLast(m0: Mem, xs: seq<Loc>, isSob: bool, before: Loc, after: Loc, o: Op)
    requires |xs| > 1 && xs[|xs| - 1] in m0 && xs[|xs| - 2] in m0 && xs[|xs| - 1] != xs[|xs| - 2] && o == PosOp(isSob, |xs| - 2, |xs| - 1)
    ensures var k := |xs| - 1; var m1 := m0[xs[k - 1] := Cell(o, m0[xs[k - 1]].prev, after)];
      DropWrites(m0, m1, xs, k, isSob, before, after) && m1.Keys == m0.Keys && m1[xs[k]] == m0[xs[k]]
  {
  }

  /** The only cell goes: nothing is written. */
  lemma WroteNone(m0: Mem, xs: seq<Loc>, isSob: bool, before: Loc, after: Loc)
    requires |xs| == 1
    ensures DropWrites(m0, m0, xs, 0, isSob, before, after)
  {
  }
}
