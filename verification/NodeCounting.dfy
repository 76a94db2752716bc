/** The worklist run as it goes when definitions are counted by node, not by site.  Every visit makes new nodes, so a
    definition is a site together with the number of the visit that made it. */
module NodeCounting {
  import opened MachineCode
  import opened ControlFlowGraphs
  import opened FlowContexts
  import opened ReachingDefinitions
  import opened ChaoticIteration

  datatype Def = Def(site: Site, visit: nat)

  datatype Run = Run(out: seq<Context<Def>>, worklist: seq<nat>, visits: nat)

  ghost function ApplyNew(e: Effect, s: set<Def>, visit: nat): set<Def> {
    match e
    case Pass => s
    case Kill => {}
    case Gen(site) => {Def(site, visit)}
  }

  ghost function ThroughNew(f: Problem, b: nat, pc: nat, c: Cell, s: set<Def>, visit: nat): set<Def>
    requires b < |f.graph.blocks| && pc <= |f.code|
  {
    if pc <= f.Start(b) then s
    else ApplyNew(EffectOf(f, b, pc - 1, c), ThroughNew(f, b, pc - 1, c, s, visit), visit)
  }

  ghost predicate TotalOuts(f: Problem, out: seq<Context<Def>>) {
    |out| == |f.graph.blocks| && forall k :: 0 <= k < |out| ==> Total(out[k])
  }

  ghost function InNew(f: Problem, out: seq<Context<Def>>, b: nat, c: Cell): set<Def>
    requires f.Valid() && TotalOuts(f, out) && b < |out| && c in AllCells()
  {
    set p, d | p in f.graph.psTable[b].pred && p < |out| && d in out[p][c] :: d
  }

  ghost function NewContext(f: Problem, out: seq<Context<Def>>, b: nat, visit: nat): (ctx: Context<Def>)
    requires f.Valid() && TotalOuts(f, out) && f.graph.Internal(b)
    ensures Total(ctx)
  {
    map c | c in AllCells() :: ThroughNew(f, b, f.Stop(b), c, InNew(f, out, b, c), visit)
  }

  ghost predicate Proper(f: Problem, r: Run) {
    && f.Valid() && TotalOuts(f, r.out)
    && f.graph.Distinct(r.worklist)
  }

  ghost function Advance(f: Problem, r: Run): Run
    requires Proper(f, r)
  {
    if r.worklist == [] then r
    else
      var b := r.worklist[0];
      var ctx := NewContext(f, r.out, b, r.visits + 1);
      Run(r.out[b := ctx],
          if Sizes(r.out[b]) != Sizes(ctx) then f.graph.Pushed(r.worklist[1..], f.graph.psTable[b].succ)
          else r.worklist[1..],
          r.visits + 1)
  }

  lemma StepProper(f: Problem, r: Run)
    requires Proper(f, r)
    ensures Proper(f, Advance(f, r))
  {
    hide AllCells, NewContext, Graph.Dual, Graph.UniqueStarts, Graph.OutsideIsLeaf;
    if r.worklist != [] {
      f.graph.TailDistinct(r.worklist);
      f.graph.PushedDistinct(r.worklist[1..], f.graph.psTable[r.worklist[0]].succ);
    }
  }

  ghost function After(f: Problem, r: Run, n: nat): (s: Run)
    requires Proper(f, r)
    ensures Proper(f, s)
  {
    if n == 0 then r
    else
      var s := After(f, r, n - 1);
      StepProper(f, s);
      Advance(f, s)
  }

  ghost function Initial(f: Problem, worklist: seq<nat>): Run {
    Run(seq(|f.graph.blocks|, _ => EmptyContext()), worklist, 0)
  }

  function Members(w: seq<nat>): set<nat> { set k | k in w }

  lemma EmptyStays(f: Problem, r: Run)
    requires Proper(f, r) && r.worklist == []
    ensures Advance(f, r) == r
  {
  }

  lemma {:induction false} AfterFirst(f: Problem, r: Run, n: nat)
    requires Proper(f, r)
    ensures Proper(f, Advance(f, r)) && After(f, Advance(f, r), n) == After(f, r, n + 1)
    decreases n
  {
    hide AllCells, Proper, Advance;
    StepProper(f, r);
    if n > 0 { AfterFirst(f, r, n - 1); }
  }

  lemma {:induction false} EndedStays(f: Problem, r: Run, n: nat)
    requires Proper(f, r) && r.worklist == []
    ensures After(f, r, n) == r
    decreases n
  {
    hide AllCells, Proper;
    if n > 0 { EndedStays(f, r, n - 1); }
  }

  lemma InitialProper(f: Problem, worklist: seq<nat>)
    requires f.Valid() && f.graph.Distinct(worklist)
    ensures Proper(f, Initial(f, worklist))
  {
    hide AllCells;
  }

  // ---- What is found is right ----

  ghost function SitesOf(s: set<Def>): set<Site> { set d | d in s :: d.site }

  ghost function OutSites(out: seq<Context<Def>>): (r: Outs)
    ensures |r| == |out|
  {
    seq(|out|, k requires 0 <= k < |out| => map c | c in out[k] :: SitesOf(out[k][c]))
  }

  lemma {:induction false} ThroughSites(f: Problem, b: nat, pc: nat, c: Cell, s: set<Def>, visit: nat)
    requires b < |f.graph.blocks| && pc <= |f.code|
    ensures SitesOf(ThroughNew(f, b, pc, c, s, visit)) == Through(f, b, pc, c, SitesOf(s))
    decreases pc
  {
    hide EffectOf;
    if pc > f.Start(b) {
      ThroughSites(f, b, pc - 1, c, s, visit);
      var e := EffectOf(f, b, pc - 1, c);
      if e.Gen? {
        var made := ApplyNew(e, ThroughNew(f, b, pc - 1, c, s, visit), visit);
        assert made == {Def(e.site, visit)};
        assert SitesOf(made) == {e.site};
      }
    }
  }

  lemma OutSitesShaped(f: Problem, out: seq<Context<Def>>)
    requires TotalOuts(f, out)
    ensures Shaped(f, OutSites(out))
  {
    hide AllCells;
    forall k | 0 <= k < |out|
      ensures Total(OutSites(out)[k])
    {
      assert Total(out[k]);
    }
  }

  /** A visit recomputes the same sites, whatever the nodes. */
  lemma VisitSites(f: Problem, out: seq<Context<Def>>, b: nat, visit: nat)
    requires f.Valid() && TotalOuts(f, out) && f.graph.Internal(b)
    ensures Shaped(f, OutSites(out))
    ensures OutSites(out[b := NewContext(f, out, b, visit)]) == Visited(f, OutSites(out), b)
  {
    hide AllCells, Through, ThroughNew, Graph.Dual, Graph.UniqueStarts, Graph.OutsideIsLeaf;
    OutSitesShaped(f, out);
    var ctx := NewContext(f, out, b, visit);
    forall c | c in AllCells()
      ensures SitesOf(ctx[c]) == Recomputed(f, OutSites(out), b, c)
    {
      ThroughSites(f, b, f.Stop(b), c, InNew(f, out, b, c), visit);
      InSites(f, out, b, c);
    }
    assert OutSites(out[b := ctx])[b] == RecomputedContext(f, OutSites(out), b);
  }

  lemma InSites(f: Problem, out: seq<Context<Def>>, b: nat, c: Cell)
    requires f.Valid() && TotalOuts(f, out) && f.graph.Internal(b) && c in AllCells() && Shaped(f, OutSites(out))
    ensures SitesOf(InNew(f, out, b, c)) == In(f, OutSites(out), b, c)
  {
    hide AllCells, Graph.Dual, Graph.UniqueStarts, Graph.OutsideIsLeaf;
    var s := OutSites(out);
    var pred := f.graph.psTable[b].pred;
    forall d | d in In(f, s, b, c)
      ensures d in SitesOf(InNew(f, out, b, c))
    {
      var p :| p in pred && p < |s| && d in s[p][c];
      var e :| e in out[p][c] && e.site == d;
      assert e in InNew(f, out, b, c);
    }
    forall d | d in SitesOf(InNew(f, out, b, c))
      ensures d in In(f, s, b, c)
    {
      var e :| e in InNew(f, out, b, c) && e.site == d;
      var p :| p in pred && p < |out| && e in out[p][c];
      assert d in s[p][c];
    }
  }

  /** In every state of every such run the outputs hold only definitions that reach, and all of them exactly when
      every block satisfies its equation. */
  lemma {:induction false} CountedRunsAreSound(f: Problem, worklist: seq<nat>, n: nat)
    requires Proper(f, Initial(f, worklist))
    ensures var out := OutSites(After(f, Initial(f, worklist), n).out);
      && Growing(f, out) && Leq(out, PathOuts(f))
      && (OthersSolved(f, out, {}) <==> LeastFixpoint(f, out))
    decreases n
  {
    hide AllCells, Growing, Advance, OthersSolved, LeastFixpoint, PathOuts, Visited;
    var r := After(f, Initial(f, worklist), n);
    if n == 0 {
      InitialSites(f, worklist);
      NothingGrowing(f);
    } else {
      CountedRunsAreSound(f, worklist, n - 1);
      var q := After(f, Initial(f, worklist), n - 1);
      StepSites(f, q);
    }
    GrowingBelow(f, OutSites(r.out));
  }

  lemma GrowingBelow(f: Problem, out: Outs)
    requires f.Valid() && Growing(f, out)
    ensures Shaped(f, out) && Leq(out, PathOuts(f))
    ensures OthersSolved(f, out, {}) <==> LeastFixpoint(f, out)
  {
    hide PathOuts;
    if OthersSolved(f, out, {}) { AllSolvedIsLeast(f, out); }
  }

  lemma StepSites(f: Problem, r: Run)
    requires Proper(f, r) && Growing(f, OutSites(r.out))
    ensures Growing(f, OutSites(Advance(f, r).out))
  {
    hide AllCells, Growing, NewContext, Visited;
    if r.worklist != [] {
      VisitSites(f, r.out, r.worklist[0], r.visits + 1);
      VisitGrows(f, OutSites(r.out), r.worklist[0]);
    }
  }

  lemma InitialSites(f: Problem, worklist: seq<nat>)
    ensures OutSites(Initial(f, worklist).out) == Nothing(f)
  {
    hide AllCells;
    forall k | 0 <= k < |f.graph.blocks|
      ensures OutSites(Initial(f, worklist).out)[k] == EmptyContext()
    {
      forall c | c in AllCells()
        ensures OutSites(Initial(f, worklist).out)[k][c] == {}
      {
      }
    }
  }

  // ---- Steps ----

  /** Definitions carry the numbers of visits already made. */
  ghost predicate Dated(f: Problem, r: Run)
    requires Proper(f, r)
  {
    forall k, c, d :: 0 <= k < |r.out| && c in AllCells() && d in r.out[k][c] ==> d.visit <= r.visits
  }

  ghost predicate Precedes(worklist: seq<nat>, a: nat, l: nat) {
    exists i, j :: 0 <= i < j < |worklist| && worklist[i] == a && worklist[j] == l
  }

  lemma {:induction false} ThroughClear(f: Problem, b: nat, pc: nat, c: Cell, s: set<Def>, visit: nat)
    requires f.Valid() && f.graph.Internal(b) && f.Start(b) <= pc <= f.Stop(b)
    requires Clear(f, b, f.Start(b), pc, c)
    ensures ThroughNew(f, b, pc, c, s, visit) == s
    decreases pc
  {
    hide EffectOf, Graph.Valid;
    if pc > f.Start(b) { ThroughClear(f, b, pc - 1, c, s, visit); }
  }

  lemma {:induction false} ThroughBorn(f: Problem, d: Site, pc: nat, s: set<Def>, visit: nat)
    requires f.Valid() && Born(f, d) && d.pc < pc <= f.Stop(d.block)
    ensures ThroughNew(f, d.block, pc, d.cell, s, visit) == {Def(d, visit)}
    decreases pc
  {
    hide EffectOf, Graph.Valid;
    if pc > d.pc + 1 { ThroughBorn(f, d, pc - 1, s, visit); }
  }

  /** A cell that the block defines or kills holds only what this visit made. */
  lemma {:induction false} ThroughRecent(f: Problem, b: nat, pc: nat, c: Cell, s: set<Def>, visit: nat)
    requires b < |f.graph.blocks| && f.Start(b) <= pc <= |f.code| && !Clear(f, b, f.Start(b), pc, c)
    ensures forall d :: d in ThroughNew(f, b, pc, c, s, visit) ==> d.visit == visit
    decreases pc
  {
    hide EffectOf;
    if pc > f.Start(b) && EffectOf(f, b, pc - 1, c) == Pass {
      ThroughRecent(f, b, pc - 1, c, s, visit);
    }
  }

  /** Whatever leaves a block came in or was made there by this visit. */
  lemma {:induction false} ThroughOrigin(f: Problem, b: nat, pc: nat, c: Cell, s: set<Def>, visit: nat)
    requires b < |f.graph.blocks| && pc <= |f.code|
    ensures forall d :: d in ThroughNew(f, b, pc, c, s, visit) ==> d in s || (d.site.block == b && d.visit == visit)
    decreases pc
  {
    hide IsCall, Names;
    if pc > f.Start(b) { ThroughOrigin(f, b, pc - 1, c, s, visit); }
  }

  lemma {:induction false} ThroughDated(f: Problem, b: nat, pc: nat, c: Cell, s: set<Def>, visit: nat)
    requires b < |f.graph.blocks| && pc <= |f.code| && forall e :: e in s ==> e.visit <= visit
    ensures forall e :: e in ThroughNew(f, b, pc, c, s, visit) ==> e.visit <= visit
    decreases pc
  {
    hide EffectOf;
    if pc > f.Start(b) { ThroughDated(f, b, pc - 1, c, s, visit); }
  }

  lemma StepDated(f: Problem, r: Run)
    requires Proper(f, r) && Dated(f, r)
    ensures Proper(f, Advance(f, r)) && Dated(f, Advance(f, r))
  {
    hide AllCells, ThroughNew, Graph.Pushed, Sizes, Graph.Dual, Graph.UniqueStarts, Graph.OutsideIsLeaf;
    StepProper(f, r);
    if r.worklist != [] {
      var b := r.worklist[0];
      var visit := r.visits + 1;
      forall c, d | c in AllCells() && d in NewContext(f, r.out, b, visit)[c]
        ensures d.visit <= visit
      {
        forall e | e in InNew(f, r.out, b, c)
          ensures e.visit <= visit
        {
          var p :| p in f.graph.psTable[b].pred && p < |r.out| && e in r.out[p][c];
        }
        ThroughDated(f, b, f.Stop(b), c, InNew(f, r.out, b, c), visit);
      }
    }
  }

  lemma PrecedesInFront(worklist: seq<nat>, worklist': seq<nat>, a: nat, l: nat)
    requires |worklist| <= |worklist'| && worklist'[|worklist'| - |worklist|..] == worklist
    requires Precedes(worklist, a, l)
    ensures Precedes(worklist', a, l)
  {
    var i, j :| 0 <= i < j < |worklist| && worklist[i] == a && worklist[j] == l;
    var n := |worklist'| - |worklist|;
    assert worklist'[n + i] == worklist'[n..][i] && worklist'[n + j] == worklist'[n..][j];
  }

  lemma PrecedesTail(worklist: seq<nat>, a: nat, l: nat)
    requires Precedes(worklist, a, l) && worklist[0] != a
    ensures Precedes(worklist[1..], a, l)
  {
    var i, j :| 0 <= i < j < |worklist| && worklist[i] == a && worklist[j] == l;
    assert worklist[1..][i - 1] == a && worklist[1..][j - 1] == l;
  }

  /** What one step does to the outputs and the worklist. */
  lemma StepFacts(f: Problem, r: Run, c: Cell)
    requires Proper(f, r) && r.worklist != [] && c in AllCells()
    ensures var (b, q) := (r.worklist[0], Advance(f, r));
      && Proper(f, q) && f.graph.Internal(b) && |f.graph.blocks| <= |f.graph.psTable|
      && |q.out| == |r.out| == |f.graph.blocks|
      && q.out == r.out[b := NewContext(f, r.out, b, r.visits + 1)]
      && (forall k :: 0 <= k < |r.out| ==> c in r.out[k]) && (forall k :: 0 <= k < |q.out| ==> c in q.out[k])
      && StepLists(f, r, q)
      && (|r.out[b][c]| != |q.out[b][c]| ==>
            q.worklist == f.graph.Pushed(r.worklist[1..], f.graph.psTable[b].succ))
  {
    hide AllCells, NewContext, Graph.Pushed, Sizes, StepLists, Graph.Dual, Graph.UniqueStarts, Graph.OutsideIsLeaf;
    StepProper(f, r);
    var b := r.worklist[0];
    var ctx := NewContext(f, r.out, b, r.visits + 1);
    assert Total(r.out[b]) && Total(ctx);
    if |r.out[b][c]| != |ctx[c]| { SizesDiffer(r.out[b], ctx, c); }
    forall k | 0 <= k < |r.out|
      ensures c in r.out[k] && c in Advance(f, r).out[k]
    {
      assert Total(r.out[k]);
    }
    StepKeepsLists(f, r);
  }

  /** The worklist after a step: the rest of the old one behind successors of the visited block, or alone. */
  ghost predicate StepLists(f: Problem, r: Run, q: Run)
    requires r.worklist != [] && r.worklist[0] < |f.graph.psTable|
  {
    var (b, tail) := (r.worklist[0], r.worklist[1..]);
    && b !in tail
    && (forall k :: k in tail ==> k in q.worklist)
    && (forall k :: k in q.worklist ==> k in tail || k in f.graph.psTable[b].succ)
    && |tail| <= |q.worklist| && q.worklist[|q.worklist| - |tail|..] == tail
    && (q.worklist == f.graph.Pushed(tail, f.graph.psTable[b].succ) ==>
          forall k :: k in f.graph.psTable[b].succ && f.graph.Internal(k) ==> k in q.worklist)
  }

  lemma StepKeepsLists(f: Problem, r: Run)
    requires Proper(f, r) && r.worklist != []
    ensures r.worklist[0] < |f.graph.psTable| && StepLists(f, r, Advance(f, r))
  {
    hide AllCells, NewContext, Graph.Pushed, Sizes, TotalOuts, Graph.Dual, Graph.UniqueStarts, Graph.OutsideIsLeaf;
    var (b, tail) := (r.worklist[0], r.worklist[1..]);
    assert TotalOuts(f, r.out);
    f.graph.PushedMembers(tail, f.graph.psTable[b].succ);
    f.graph.TailDistinct(r.worklist);
    assert Advance(f, r).worklist == tail || Advance(f, r).worklist == f.graph.Pushed(tail, f.graph.psTable[b].succ);
  }

  lemma SizesDiffer(a: Context<Def>, b: Context<Def>, c: Cell)
    requires c in a && c in b && |a[c]| != |b[c]|
    ensures Sizes(a) != Sizes(b)
  {
    assert Sizes(a)[c] == |a[c]| && Sizes(b)[c] == |b[c]|;
  }

  lemma InTail(worklist: seq<nat>, k: nat)
    requires worklist != [] && worklist[0] != k
    ensures k in worklist <==> k in worklist[1..]
  {
    assert worklist == [worklist[0]] + worklist[1..];
  }
}
