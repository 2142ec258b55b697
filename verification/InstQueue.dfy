/** The ring buffer of instructions used while a clause is compiled
    (XSB/emu/biassert.c, inst_queue_init to inst_queue_rotate). */
module InstQueue {

  const INST_QUEUE_SIZE: nat := 256
  const FIRST_SLOT: nat := 10

  /** The part of the queue that a scan from bottom up to top sees: all of it, or nothing
      once top has wrapped round. */
  function Seen<T>(q: seq<T>, bottom: nat): (v: seq<T>)
    ensures v == q || v == []
  {
    if bottom + |q| < INST_QUEUE_SIZE then q else []
  }

  /** The first k entries move to the end, one after the other. */
  function Rotated<T>(q: seq<T>, k: nat): (r: seq<T>)
    requires k <= |q|
    ensures |r| == |q|
  {
    q[k..] + q[..k]
  }

  class Queue<T(0)> {
    const slots: array<T>
    var bottom: nat
    var top: nat
    var added: int

    ghost predicate Valid()
      reads `bottom, `top
    {
      slots.Length == INST_QUEUE_SIZE && bottom < INST_QUEUE_SIZE && top < INST_QUEUE_SIZE
    }

    ghost function Contents(): (q: seq<T>)
      requires Valid()
      reads `bottom, `top, slots
      ensures |q| < INST_QUEUE_SIZE
      ensures top == (bottom + |q|) % INST_QUEUE_SIZE
      ensures bottom <= top <==> bottom + |q| < INST_QUEUE_SIZE
    {
      if bottom <= top then slots[bottom..top] else slots[bottom..] + slots[..top]
    }

    constructor ()
      ensures Valid() && fresh(slots) && Contents() == [] && bottom == FIRST_SLOT
    {
      slots := new T[INST_QUEUE_SIZE];
      bottom, top, added := FIRST_SLOT, FIRST_SLOT, 0;
    }

    /** At the top; fails when the ring is full. */
    method Push(x: T) returns (ok: bool)
      requires Valid()
      modifies `top, slots
      ensures Valid()
      ensures ok <==> |old(Contents())| < INST_QUEUE_SIZE - 1
      ensures ok ==> Contents() == old(Contents()) + [x]
    {
      slots[top] := x;
      top := (top + 1) % INST_QUEUE_SIZE;
      ok := top != bottom;
    }

    /** From the top. */
    method Pop() returns (x: T)
      requires Valid() && Contents() != []
      modifies `top
      ensures Valid()
      ensures old(Contents()) == Contents() + [x]
    {
      if top == 0 { top := INST_QUEUE_SIZE; }
      top := top - 1;
      x := slots[top];
    }

    /** From the bottom. */
    method Rem() returns (x: T)
      requires Valid() && Contents() != []
      modifies `bottom
      ensures Valid() && bottom == (old(bottom) + 1) % INST_QUEUE_SIZE
      ensures old(Contents()) == [x] + Contents()
    {
      x := slots[bottom];
      bottom := (bottom + 1) % INST_QUEUE_SIZE;
    }

    /** At the bottom; fails when the ring is full. */
    method Add(x: T) returns (ok: bool)
      requires Valid()
      modifies `bottom, `added, slots
      ensures Valid()
      ensures ok <==> |old(Contents())| < INST_QUEUE_SIZE - 1
      ensures ok ==> Contents() == [x] + old(Contents()) && added == old(added) + 1
    {
      if bottom == 0 { bottom := INST_QUEUE_SIZE; }
      bottom := bottom - 1;
      if top == bottom { return false; }
      slots[bottom] := x;
      added := added + 1;
      ok := true;
    }

    /** The entries added at the bottom go, oldest nearest the top, to the top. */
    method Rotate()
      requires Valid() && 0 <= added <= |Contents()|
      modifies this, slots
      ensures Valid() && added == -1
      ensures Contents() == Rotated(old(Contents()), old(added))
    {
      hide Rotated, Valid, Contents;
      ghost var q, k := Contents(), 0;
      RotateStart(q);
      while added > 0
        invariant Valid() && 0 <= added && k == old(added) - added <= |q|
        invariant Contents() == Rotated(q, k)
        decreases added
      {
        added := added - 1;
        RotateMore(q, k);
        ghost var q0 := Contents();
        var x := Rem();
        RotateStep(q, k, q0, Contents(), x);
        var ok := Push(x);
        k := k + 1;
      }
      added := added - 1;
    }
  }

  lemma RotateStart<T>(q: seq<T>)
    ensures Rotated(q, 0) == q
  {
  }

  lemma RotateMore<T>(q: seq<T>, k: nat)
    requires k < |q|
    ensures Rotated(q, k) != []
  {
  }

  lemma RotateStep<T>(q: seq<T>, k: nat, q0: seq<T>, q1: seq<T>, x: T)
    requires k < |q| && q0 == Rotated(q, k) && q0 == [x] + q1
    ensures q1 + [x] == Rotated(q, k + 1) && |q1| < |q|
  {
    assert q0[0] == q[k] && q1 == q0[1..];
    assert q[..k + 1] == q[..k] + [q[k]];
    assert q0[1..] == q[k + 1..] + q[..k];
  }
}
