/** The incremental call graph as the engine keeps it: marks and counts updated in place
    (XSB/emu/call_graph_xsb.c, invalidate_call, dfs_outedges and propagate_no_change). */
module IncrGraph {
  import opened Reach
  import opened Invalidate
  import opened NoChange

  class CallGraph {
    /** The affected calls of each call, in the order of its hash table. */
    const outedges: Graph
    const fact: seq<bool>
    /** Which calls have a table that is not completed. */
    const incomplete: seq<bool>
    const falsecount: array<nat>
    const deleted: array<bool>

    ghost function Begin(cn: nat): Task
      reads falsecount, deleted
    {
      Task(outedges, cn, deleted[..], falsecount[..], fact, incomplete)
    }

    constructor (outedges: Graph, fact: seq<bool>, incomplete: seq<bool>)
      requires Closed(outedges) && Simple(outedges) && |fact| == |incomplete| == |outedges|
      ensures fresh(falsecount) && fresh(deleted) && this.outedges == outedges && this.fact == fact && this.incomplete == incomplete
      ensures falsecount.Length == deleted.Length == |outedges|
      ensures forall u :: 0 <= u < |outedges| ==> falsecount[u] == 0 && !deleted[u]
    {
      this.outedges, this.fact, this.incomplete := outedges, fact, incomplete;
      falsecount := new nat[|outedges|](_ => 0);
      deleted := new bool[|outedges|](_ => false);
    }

    /** ok is false when the search meets a table that is not completed, which is an error. */
    method InvalidateCall(cn: nat) returns (ok: bool)
      requires cn < |outedges| == deleted.Length == falsecount.Length && (!deleted[cn] ==> TaskOk(Begin(cn)))
      modifies falsecount, deleted
      ensures old(deleted[cn]) ==> ok && deleted[..] == old(deleted[..]) && falsecount[..] == old(falsecount[..])
      ensures !old(deleted[cn]) && ok ==> Invalidated(old(Begin(cn)), deleted[..], falsecount[..])
      ensures !ok ==> exists u: nat :: u < |incomplete| && Passed(old(Begin(cn)), u) && incomplete[u]
    {
      ok := true;
      if !deleted[cn] {
        ghost var k := Begin(cn);
        falsecount[cn] := (falsecount[cn] + 1) % LIMIT;
        ok := DfsOutedges(cn, k);
      }
    }

    method DfsOutedges(call1: nat, ghost k: Task) returns (ok: bool)
      requires TaskOk(k) && k == Task(outedges, call1, deleted[..], k.falsecount, fact, incomplete)
      requires falsecount[..] == k.falsecount[call1 := (k.falsecount[call1] + 1) % LIMIT]
      modifies falsecount, deleted
      ensures ok ==> Invalidated(k, deleted[..], falsecount[..])
      ensures !ok ==> exists u: nat :: u < |incomplete| && Passed(k, u) && incomplete[u]
    {
      hide Passed, DfsOk, Invalidated, Left, Closed, Simple;
      if incomplete[call1] {
        StartPassed(k);
        return false;
      }
      if !fact[call1] { deleted[call1] := true; }
      var stack: seq<Frame> := if |outedges[call1]| > 0 then [Frame(call1, -1)] else [];
      ghost var done: map<nat, nat> := map[call1 := 0];
      FirstOk(k);
      assert Dfs(stack, deleted[..], falsecount[..], done) == First(k);
      while stack != []
        invariant DfsOk(k, Dfs(stack, deleted[..], falsecount[..], done))
        decreases Left(k.g, done), |stack|
      {
        ghost var d := Dfs(stack, deleted[..], falsecount[..], done);
        NextEdge(k, d);
        var top := stack[|stack| - 1];
        if top.itr + 1 >= |outedges[top.cn]| {
          PopOk(k, d);
          stack := stack[..|stack| - 1];
        } else {
          var w := outedges[top.cn][top.itr + 1];
          LeftShrinks(k.g, done, top.cn, top.itr + 1);
          stack := stack[|stack| - 1 := Frame(top.cn, top.itr + 1)];
          done := done[top.cn := top.itr + 2];
          falsecount[w] := (falsecount[w] + 1) % LIMIT;
          assert Dfs(stack, deleted[..], falsecount[..], done) == Looked(k, d);
          if !deleted[w] {
            NewNode(k, d);
            if incomplete[w] { return false; }
            LeftEntered(k.g, done, w);
            EnterOk(k, d);
            deleted[w] := true;
            stack := stack + [Frame(w, -1)];
            done := done[w := 0];
            assert Dfs(stack, deleted[..], falsecount[..], done) == EnteredDfs(Looked(k, d), w);
          } else {
            SkipOk(k, d);
          }
        }
      }
      FinishOk(k, Dfs(stack, deleted[..], falsecount[..], done));
      ok := true;
    }

    /** Takes back the invalidation that call c caused. If the counts are those of a propagation in progress in
        which c is told (inst is c, or the extra node when c begins), they are so afterwards, and everyone told
        about c or later has told those they affect. */
    method PropagateNoChange(c: nat, ghost b: Base, ghost inst: nat, ghost p: Progress) returns (ghost p1: Progress)
      requires c < |outedges| == deleted.Length == falsecount.Length && Closed(outedges)
      requires b.g == outedges && b.start < |outedges| && (inst == c || (inst == |outedges| && c == b.start))
      modifies falsecount, deleted
      ensures forall u :: 0 <= u < |outedges| ==> falsecount[u] <= old(falsecount[u])
      ensures forall u :: 0 <= u < |outedges| && deleted[u] != old(deleted[u]) ==> !deleted[u] && falsecount[u] == 0 < old(falsecount[u])
      ensures old(Sweep(b, p, falsecount[..], deleted[..])) && inst in p.done && p.done[inst] == 0 ==>
        Sweep(b, p1, falsecount[..], deleted[..]) && Spoken(Ext(b), p, inst, p1)
      decreases Total(falsecount[..])
    {
      hide Sweep, Total, Closed, Ext, Speaking;
      ghost var good := Sweep(b, p, falsecount[..], deleted[..]) && inst in p.done && p.done[inst] == 0;
      ghost var fc0 := falsecount[..];
      p1 := p;
      var i := 0;
      TotalLe(fc0, fc0);
      ExtNode(b, inst, c);
      if good { SpeakFirst(Ext(b), p, inst); }
      while i < |outedges[c]|
        invariant 0 <= i <= |outedges[c]|
        invariant forall u :: 0 <= u < |outedges| ==> falsecount[u] <= old(falsecount[u])
        invariant forall u :: 0 <= u < |outedges| && deleted[u] != old(deleted[u]) ==> !deleted[u] && falsecount[u] == 0 < old(falsecount[u])
        invariant good ==> Sweep(b, p1, falsecount[..], deleted[..]) && Speaking(Ext(b), p, inst, p1, i)
      {
        var cn := outedges[c][i];
        EdgeInside(outedges, c, i);
        ghost var fc, del, p0 := falsecount[..], deleted[..], p1;
        if good { NextTold(b, p, inst, p0, i); }
        if falsecount[cn] > 0 {
          falsecount[cn] := falsecount[cn] - 1;
          TotalUpdate(fc, cn, fc[cn] - 1);
          TotalLe(fc0, fc);
          assert falsecount[..] == fc[cn := fc[cn] - 1];
          if falsecount[cn] == 0 {
            deleted[cn] := false;
            if good {
              FollowTell(b, p0, fc, del, inst, cn);
              p1 := Tell(Follow(p0, inst), cn);
            }
            assert deleted[..] == del[cn := false];
            ghost var p2 := p1;
            p1 := PropagateNoChange(cn, b, cn, p2);
            if good { SpeakTold(Ext(b), p, inst, p0, i, cn, p1); }
          } else if good {
            FollowOn(b, p0, fc, del, inst, cn);
            p1 := Follow(p0, inst);
            SpeakOn(Ext(b), p, inst, p0, i);
          }
        } else if good {
          FollowOn(b, p0, fc, del, inst, cn);
          assert falsecount[..] == fc[cn := 0];
          p1 := Follow(p0, inst);
          SpeakOn(Ext(b), p, inst, p0, i);
        }
        i := i + 1;
      }
    }

    /** A call of a valid graph is updated and what depends on it is invalidated; then it turns out to be unchanged.
        Whatever the counts, those valid again are the least set that has to be. When no count overflows everyone
        else is valid again, unless some of them affect each other in a cycle. */
    method UpdateUnchanged(cn: nat) returns (ok: bool, ghost passed: set<nat>)
      requires cn < |outedges| == deleted.Length == falsecount.Length && TaskOk(Begin(cn)) && AllValid(Begin(cn))
      modifies falsecount, deleted
      ensures ok ==> passed == PassedSet(old(Begin(cn))) && Swept(AfterInvalidation(old(Begin(cn))), falsecount[..], deleted[..])
      ensures ok && Fits(old(Begin(cn))) ==> (Restored(passed, cn, falsecount[..], deleted[..]) <==> forall c: seq<nat> :: !Cycle(outedges, passed - {cn}, c))
      ensures !ok ==> exists u: nat :: u < |incomplete| && Passed(old(Begin(cn)), u) && incomplete[u]
    {
      hide Passed, TaskOk, AllValid, Invalidated, Sweep, Swept, Restored, Cycle, Fits, AfterInvalidation;
      ghost var k := Begin(cn);
      TaskFacts(k);
      passed := PassedSet(k);
      ok := InvalidateCall(cn);
      if ok {
        ghost var b := AfterInvalidation(k);
        AfterIs(k, deleted[..], falsecount[..]);
        SweepBegins(b);
        ghost var p := PropagateNoChange(cn, b, |outedges|, Beginning(|outedges|));
        SpokenQuiet(Ext(b), |outedges|, p);
        SweepDone(b, p, falsecount[..], deleted[..]);
        if Fits(k) { RestoredExactly(k, falsecount[..], deleted[..]); }
      }
    }
  }

  lemma ExtNode(b: Base, inst: nat, c: nat)
    requires b.start < |b.g| && (inst == c < |b.g| || (inst == |b.g| && c == b.start))
    ensures inst < |Ext(b)| && Ext(b)[inst] == b.g[c]
  {
  }

  /** The edge that is followed next. */
  lemma NextTold(b: Base, p: Progress, c: nat, p0: Progress, i: nat)
    requires b.start < |b.g| && Closed(b.g) && Speaking(Ext(b), p, c, p0, i) && i < |Ext(b)[c]|
    ensures AtEdge(b, p0, c, Ext(b)[c][i])
  {
  }

  lemma SpeakFirst(g: Graph, p: Progress, c: nat)
    requires c in p.done && p.done[c] == 0 && c < |g|
    ensures Speaking(g, p, c, p, 0)
  {
  }

  lemma TaskFacts(k: Task)
    requires TaskOk(k) && AllValid(k)
    ensures Closed(k.g) && k.start < |k.g| == |k.deleted| && !k.deleted[k.start]
  {
  }

  lemma EdgeInside(g: Graph, c: nat, i: nat)
    requires Closed(g) && c < |g| && i < |g[c]|
    ensures g[c][i] < |g|
  {
  }

  /** Between p and p1 call c has told the targets of its first n edges, and those who were told have told on. */
  predicate Speaking(g: Graph, p: Progress, c: nat, p1: Progress, n: nat) {
    && c in p.done && c in p1.done && p1.done[c] == n && c < |g| && n <= |g[c]|
    && (forall v: nat :: v in p.done && v != c ==> v in p1.done && p1.done[v] == p.done[v])
    && (forall v: nat :: v in p1.done && v !in p.done && v < |g| ==> p1.done[v] == |g[v]|)
  }

  predicate Spoken(g: Graph, p: Progress, c: nat, p1: Progress) {
    c < |g| && Speaking(g, p, c, p1, |g[c]|)
  }

  lemma SpeakOn(g: Graph, p: Progress, c: nat, p0: Progress, i: nat)
    requires Speaking(g, p, c, p0, i) && i < |g[c]|
    ensures Speaking(g, p, c, Follow(p0, c), i + 1)
  {
  }

  lemma SpeakTold(g: Graph, p: Progress, c: nat, p0: Progress, i: nat, cn: nat, p1: Progress)
    requires Speaking(g, p, c, p0, i) && i < |g[c]| && cn != c && cn !in p0.done
    requires Spoken(g, Tell(Follow(p0, c), cn), cn, p1)
    ensures Speaking(g, p, c, p1, i + 1)
  {
  }

  lemma SpokenQuiet(g: Graph, c: nat, p1: Progress)
    requires Spoken(g, Beginning(c), c, p1)
    ensures Quiet(g, p1)
  {
  }
}
