/** Solving the data-flow equations one block at a time, in any order. */
module ChaoticIteration {
  import opened MachineCode
  import opened ControlFlowGraphs
  import opened FlowContexts
  import opened ReachingDefinitions

  /** The outputs after visiting one block. */
  ghost function Visited(f: Problem, out: Outs, b: nat): (r: Outs)
    requires f.Valid() && Shaped(f, out) && f.graph.Internal(b)
    ensures Shaped(f, r)
  {
    out[b := RecomputedContext(f, out, b)]
  }

  /** Recomputing a block cannot lose a definition, and nothing is there that no path brings. */
  ghost predicate Growing(f: Problem, out: Outs)
    requires f.Valid()
  {
    && Shaped(f, out)
    && (forall b {:trigger RecomputedContext(f, out, b)} ::
          f.graph.Internal(b) ==> Within(out[b], RecomputedContext(f, out, b)))
    && (forall b :: 0 <= b < |out| && !f.graph.Internal(b) ==> out[b] == EmptyContext())
    && Leq(out, PathOuts(f))
  }

  ghost predicate Solved(f: Problem, out: Outs, b: nat)
    requires f.Valid() && Shaped(f, out) && f.graph.Internal(b)
  {
    out[b] == RecomputedContext(f, out, b)
  }

  /** Every block that is not waiting satisfies its equation. */
  ghost predicate OthersSolved(f: Problem, out: Outs, waiting: set<nat>)
    requires f.Valid() && Shaped(f, out)
  {
    forall b {:trigger Solved(f, out, b)} :: f.graph.Internal(b) && b !in waiting ==> Solved(f, out, b)
  }

  ghost function Nothing(f: Problem): (out: Outs)
    ensures Shaped(f, out)
  {
    seq(|f.graph.blocks|, _ => EmptyContext())
  }

  lemma NothingGrowing(f: Problem)
    requires f.Valid()
    ensures Growing(f, Nothing(f))
  {
    hide AllCells;
  }

  lemma RecomputedSame(f: Problem, x: Outs, y: Outs, b: nat)
    requires f.Valid() && Shaped(f, x) && Shaped(f, y) && f.graph.Internal(b)
    requires forall p :: p in f.graph.psTable[b].pred && p < |x| ==> x[p] == y[p]
    ensures RecomputedContext(f, x, b) == RecomputedContext(f, y, b)
  {
    hide AllCells, Graph.Valid;
    forall c | c in AllCells()
      ensures Recomputed(f, x, b, c) == Recomputed(f, y, b, c)
    {
      assert In(f, x, b, c) == In(f, y, b, c);
    }
  }

  lemma WithinTransitive(a: Context<Site>, b: Context<Site>, c: Context<Site>)
    requires Within(a, b) && Within(b, c)
    ensures Within(a, c)
  {
    hide AllCells;
  }

  lemma VisitGrows(f: Problem, out: Outs, b: nat)
    requires f.Valid() && Growing(f, out) && f.graph.Internal(b)
    ensures Leq(out, Visited(f, out, b))
    ensures Growing(f, Visited(f, out, b))
  {
    hide AllCells, Graph.Valid, RecomputedContext, PathOuts, Within;
    var out' := Visited(f, out, b);
    forall k | 0 <= k < |out|
      ensures Within(out[k], out'[k])
    {
      if k != b { WithinRefl(out[k]); }
    }
    forall k | f.graph.Internal(k)
      ensures Within(out'[k], RecomputedContext(f, out', k))
    {
      RecomputedMonotone(f, out, out', k);
      if k != b { WithinTransitive(out[k], RecomputedContext(f, out, k), RecomputedContext(f, out', k)); }
    }
    PathOutsFixpoint(f);
    RecomputedMonotone(f, out, PathOuts(f), b);
    assert PathOuts(f)[b] == RecomputedContext(f, PathOuts(f), b);
  }

  lemma WithinRefl(a: Context<Site>)
    requires Total(a)
    ensures Within(a, a)
  {
  }

  /** Comparing the number of definitions per cell detects exactly the visits that change something. */
  lemma SizesDetectChange(f: Problem, out: Outs, b: nat)
    requires f.Valid() && Growing(f, out) && f.graph.Internal(b)
    ensures Sizes(out[b]) == Sizes(Visited(f, out, b)[b]) <==> Visited(f, out, b) == out
  {
    hide AllCells, Graph.Valid, RecomputedContext;
    SizesDetectGrowth(out[b], RecomputedContext(f, out, b));
  }

  /** After a visit, blocks outside the new waiting set satisfy their equations, if a change puts the successors
      of the visited block into it. */
  lemma VisitSolves(f: Problem, out: Outs, b: nat, waiting: set<nat>, waiting': set<nat>)
    requires f.Valid() && Shaped(f, out) && f.graph.Internal(b) && OthersSolved(f, out, waiting)
    requires waiting - {b} <= waiting'
    requires Visited(f, out, b) != out ==>
      forall s :: s in f.graph.psTable[b].succ && f.graph.Internal(s) ==> s in waiting'
    ensures OthersSolved(f, Visited(f, out, b), waiting')
  {
    hide AllCells, RecomputedContext, Graph.Dual, Graph.UniqueStarts, Graph.OutsideIsLeaf;
    var out' := Visited(f, out, b);
    forall k | f.graph.Internal(k) && k !in waiting'
      ensures Solved(f, out', k)
    {
      if k != b { assert Solved(f, out, k); }
      if out' != out {
        f.graph.EdgeBothWays(b, k);
        RecomputedSame(f, out, out', k);
      }
    }
  }

  /** Nothing waiting: the equations are solved, and by their least solution. */
  lemma AllSolvedIsLeast(f: Problem, out: Outs)
    requires f.Valid() && Growing(f, out) && OthersSolved(f, out, {})
    ensures out == PathOuts(f) && LeastFixpoint(f, out)
  {
    hide AllCells, RecomputedContext, PathOuts;
    assert Fixpoint(f, out) by {
      forall b | 0 <= b < |out|
        ensures out[b] == if f.graph.Internal(b) then RecomputedContext(f, out, b) else EmptyContext()
      {
        if f.graph.Internal(b) { assert Solved(f, out, b); }
      }
    }
    PathOutsBelow(f, out);
    LeqAntisymmetric(out, PathOuts(f));
    LeastIffPaths(f, out);
  }

  // ---- Termination ----

  /** What the outputs still lack. */
  ghost function Missing(f: Problem, out: Outs): set<(nat, Cell, Site)>
    requires f.Valid() && Shaped(f, out)
  {
    set b: nat, c, d | b < |out| && c in AllCells() && d in PathOuts(f)[b][c] && d !in out[b][c] :: (b, c, d)
  }

  lemma ChangeShrinksMissing(f: Problem, out: Outs, b: nat)
    requires f.Valid() && Growing(f, out) && f.graph.Internal(b) && Visited(f, out, b) != out
    ensures Missing(f, Visited(f, out, b)) < Missing(f, out)
  {
    hide AllCells, Graph.Valid, RecomputedContext, PathOuts;
    VisitGrows(f, out, b);
    var out' := Visited(f, out, b);
    assert out[b] != out'[b];
    assert Within(out[b], out'[b]);
    var c :| c in AllCells() && out[b][c] != out'[b][c];
    var d :| d in out'[b][c] && d !in out[b][c];
    assert Within(out'[b], PathOuts(f)[b]);
    assert (b, c, d) in Missing(f, out) && (b, c, d) !in Missing(f, out');
    forall k: nat, e, s | (k, e, s) in Missing(f, out')
      ensures (k, e, s) in Missing(f, out)
    {
      assert Within(out[k], out'[k]);
    }
  }

  // ---- Order ----

  /** The outputs after visiting blocks in the given order. */
  ghost function Scheduled(f: Problem, schedule: seq<nat>): (out: Outs)
    requires f.Valid() && forall i :: 0 <= i < |schedule| ==> f.graph.Internal(schedule[i])
    ensures Shaped(f, out)
  {
    if schedule == [] then Nothing(f)
    else Visited(f, Scheduled(f, schedule[..|schedule| - 1]), schedule[|schedule| - 1])
  }

  lemma {:induction false} ScheduleGrowing(f: Problem, schedule: seq<nat>)
    requires f.Valid() && forall i :: 0 <= i < |schedule| ==> f.graph.Internal(schedule[i])
    ensures Growing(f, Scheduled(f, schedule))
    decreases |schedule|
  {
    hide Growing;
    if schedule == [] {
      NothingGrowing(f);
    } else {
      ScheduleGrowing(f, schedule[..|schedule| - 1]);
      VisitGrows(f, Scheduled(f, schedule[..|schedule| - 1]), schedule[|schedule| - 1]);
    }
  }

  /** However the visits are ordered, once no block changes the result is the same. */
  lemma OrderIrrelevant(f: Problem, s: seq<nat>, t: seq<nat>)
    requires f.Valid() && forall i :: 0 <= i < |s| ==> f.graph.Internal(s[i])
    requires forall i :: 0 <= i < |t| ==> f.graph.Internal(t[i])
    requires OthersSolved(f, Scheduled(f, s), {}) && OthersSolved(f, Scheduled(f, t), {})
    ensures Scheduled(f, s) == Scheduled(f, t)
  {
    hide Growing, OthersSolved, Scheduled;
    ScheduleGrowing(f, s);
    ScheduleGrowing(f, t);
    AllSolvedIsLeast(f, Scheduled(f, s));
    AllSolvedIsLeast(f, Scheduled(f, t));
  }
}
