/** The data-flow equations, their least solution, and what it means in terms of paths. */
module ReachingDefinitions {
  import opened MachineCode
  import opened ControlFlowGraphs
  import opened FlowContexts

  /** Where a definition is made: by an instruction scanned for a block, for one cell, as a result of the
      instruction or as a value returned by the function it calls. */
  datatype Site = Site(block: nat, pc: nat, cell: Cell, fromCall: bool)

  /** A function with its block graph, and the calling convention. */
  datatype Problem = Problem(
    code: seq<Insn>, graph: Graph, killedByCall: seq<Location>, definedByCall: seq<Location>)
  {
    ghost predicate Valid() {
      && graph.Valid() && graph.Internal(0)
      && (forall b :: graph.Internal(b) ==> graph.blocks[b].start <= graph.blocks[b].end < |code|)
      && AllKnown(killedByCall) && AllKnown(definedByCall)
    }

    function Start(b: nat): nat
      requires b < |graph.blocks|
    {
      graph.blocks[b].start
    }

    /** One past the last instruction of the block. */
    function Stop(b: nat): nat
      requires b < |graph.blocks|
    {
      graph.blocks[b].end + 1
    }
  }

  /** What one instruction does to one cell. */
  datatype Effect = Pass | Kill | Gen(site: Site)

  function Apply(e: Effect, s: set<Site>): set<Site> {
    match e
    case Pass => s
    case Kill => {}
    case Gen(site) => {site}
  }

  predicate IsCall(f: Problem, b: nat, pc: nat)
    requires b < |f.graph.blocks| && pc < |f.code|
  {
    !f.code[pc].isStore && f.code[pc].kind.Branch? && f.graph.blocks[b].endsInCall
  }

  /** The results of the instruction are assigned first; the branch of a call then clears the volatile registers,
      and defines those a function returns values in. */
  ghost function EffectOf(f: Problem, b: nat, pc: nat, c: Cell): Effect
    requires b < |f.graph.blocks| && pc < |f.code|
  {
    if IsCall(f, b, pc) && Names(f.definedByCall, c) then Gen(Site(b, pc, c, true))
    else if IsCall(f, b, pc) && Names(f.killedByCall, c) then Kill
    else if Names(f.code[pc].outputs, c) then Gen(Site(b, pc, c, false))
    else Pass
  }

  /** The definitions of a cell just before instruction `pc` of block `b`, if they are `s` on entry. */
  ghost function Through(f: Problem, b: nat, pc: nat, c: Cell, s: set<Site>): set<Site>
    requires b < |f.graph.blocks| && pc <= |f.code|
  {
    if pc <= f.Start(b) then s else Apply(EffectOf(f, b, pc - 1, c), Through(f, b, pc - 1, c, s))
  }

  type Outs = seq<Context<Site>>

  ghost predicate Shaped(f: Problem, out: Outs) {
    |out| == |f.graph.blocks| && forall b :: 0 <= b < |out| ==> Total(out[b])
  }

  /** The union of the predecessors' outputs. */
  ghost function In(f: Problem, out: Outs, b: nat, c: Cell): set<Site>
    requires f.Valid() && Shaped(f, out) && b < |out| && c in AllCells()
  {
    set p, d | p in f.graph.psTable[b].pred && p < |out| && d in out[p][c] :: d
  }

  /** The right-hand side of the equation of block `b`. */
  ghost function Recomputed(f: Problem, out: Outs, b: nat, c: Cell): set<Site>
    requires f.Valid() && Shaped(f, out) && f.graph.Internal(b) && c in AllCells()
  {
    Through(f, b, f.Stop(b), c, In(f, out, b, c))
  }

  ghost function RecomputedContext(f: Problem, out: Outs, b: nat): (ctx: Context<Site>)
    requires f.Valid() && Shaped(f, out) && f.graph.Internal(b)
    ensures Total(ctx)
  {
    map c | c in AllCells() :: Recomputed(f, out, b, c)
  }

  ghost predicate Leq(x: Outs, y: Outs) {
    |x| == |y| && forall b :: 0 <= b < |x| ==> Within(x[b], y[b])
  }

  ghost predicate Fixpoint(f: Problem, x: Outs)
    requires f.Valid()
  {
    && Shaped(f, x)
    && forall b {:trigger RecomputedContext(f, x, b)} :: 0 <= b < |x| ==>
         x[b] == if f.graph.Internal(b) then RecomputedContext(f, x, b) else EmptyContext()
  }

  ghost predicate LeastFixpoint(f: Problem, x: Outs)
    requires f.Valid()
  {
    Fixpoint(f, x) && forall y :: Fixpoint(f, y) ==> Leq(x, y)
  }

  // ---- Monotonicity ----

  lemma {:induction false} ThroughMonotone(f: Problem, b: nat, pc: nat, c: Cell, s: set<Site>, t: set<Site>)
    requires b < |f.graph.blocks| && pc <= |f.code| && s <= t
    ensures Through(f, b, pc, c, s) <= Through(f, b, pc, c, t)
    decreases pc
  {
    hide AllCells;
    if pc > f.Start(b) { ThroughMonotone(f, b, pc - 1, c, s, t); }
  }

  lemma RecomputedMonotone(f: Problem, x: Outs, y: Outs, b: nat)
    requires f.Valid() && Shaped(f, x) && Shaped(f, y) && Leq(x, y) && f.graph.Internal(b)
    ensures Within(RecomputedContext(f, x, b), RecomputedContext(f, y, b))
  {
    hide AllCells;
    forall c | c in AllCells()
      ensures Recomputed(f, x, b, c) <= Recomputed(f, y, b, c)
    {
      forall d | d in In(f, x, b, c)
        ensures d in In(f, y, b, c)
      {
        var p :| p in f.graph.psTable[b].pred && p < |x| && d in x[p][c];
        assert Within(x[p], y[p]);
        assert d in y[p][c];
      }
      ThroughMonotone(f, b, f.Stop(b), c, In(f, x, b, c), In(f, y, b, c));
    }
  }

  // ---- Paths ----

  /** No instruction of the block in the range redefines or kills the cell. */
  ghost predicate Clear(f: Problem, b: nat, from: nat, to: nat, c: Cell)
    requires b < |f.graph.blocks| && to <= |f.code|
  {
    forall q :: from <= q < to ==> EffectOf(f, b, q, c) == Pass
  }

  /** The site is a definition that survives to the end of its own block. */
  ghost predicate Born(f: Problem, d: Site)
    requires f.Valid()
  {
    && f.graph.Internal(d.block) && f.Start(d.block) <= d.pc < f.Stop(d.block)
    && EffectOf(f, d.block, d.pc, d.cell) == Gen(d)
    && Clear(f, d.block, d.pc + 1, f.Stop(d.block), d.cell)
  }

  /** A path over blocks from the site's own, along which its cell is never redefined or killed. */
  ghost predicate Carries(f: Problem, d: Site, w: seq<nat>)
    requires f.Valid()
  {
    && 0 < |w| && Born(f, d) && w[0] == d.block
    && forall i :: 0 <= i < |w| - 1 ==> CarriedOn(f, d.cell, w[i], w[i + 1])
  }

  ghost predicate CarriedOn(f: Problem, c: Cell, p: nat, b: nat)
    requires f.Valid()
  {
    && f.graph.Internal(p) && f.graph.Internal(b) && b in f.graph.psTable[p].succ
    && Clear(f, b, f.Start(b), f.Stop(b), c)
  }

  ghost predicate Reaches(f: Problem, d: Site, b: nat)
    requires f.Valid()
  {
    exists w :: Carries(f, d, w) && w[|w| - 1] == b
  }

  /** A definition leaves a block iff it entered and nothing cleared it, or it was made inside and survived. */
  lemma {:induction false} ThroughMeaning(f: Problem, b: nat, pc: nat, c: Cell, s: set<Site>, d: Site)
    requires f.Valid() && f.graph.Internal(b) && f.Start(b) <= pc <= f.Stop(b)
    ensures d in Through(f, b, pc, c, s) <==>
      || (d in s && Clear(f, b, f.Start(b), pc, c))
      || (f.Start(b) <= d.pc < pc && EffectOf(f, b, d.pc, c) == Gen(d) && Clear(f, b, d.pc + 1, pc, c))
    decreases pc
  {
    hide AllCells, Names, Clear;
    ClearEmpty(f, b, pc, c);
    if pc > f.Start(b) {
      ThroughMeaning(f, b, pc - 1, c, s, d);
      ClearOneMore(f, b, f.Start(b), pc, c);
      if f.Start(b) <= d.pc < pc - 1 { ClearOneMore(f, b, d.pc + 1, pc, c); }
    }
  }

  lemma ClearEmpty(f: Problem, b: nat, pc: nat, c: Cell)
    requires b < |f.graph.blocks| && pc <= |f.code|
    ensures Clear(f, b, pc, pc, c)
  {
  }

  lemma ClearOneMore(f: Problem, b: nat, from: nat, pc: nat, c: Cell)
    requires b < |f.graph.blocks| && from < pc <= |f.code|
    ensures Clear(f, b, from, pc, c) <==> Clear(f, b, from, pc - 1, c) && EffectOf(f, b, pc - 1, c) == Pass
  {
    hide AllCells, EffectOf;
  }

  /** The right-hand side of an equation, read as a statement about its definitions. */
  lemma RecomputedMeaning(f: Problem, x: Outs, b: nat, c: Cell, d: Site)
    requires f.Valid() && Shaped(f, x) && f.graph.Internal(b) && c in AllCells()
    ensures d in Recomputed(f, x, b, c) <==>
      || (d.block == b && d.cell == c && Born(f, d))
      || (d in In(f, x, b, c) && Clear(f, b, f.Start(b), f.Stop(b), c))
  {
    hide AllCells;
    ThroughMeaning(f, b, f.Stop(b), c, In(f, x, b, c), d);
  }

  /** Reaching the end of a block unfolds the same way. */
  lemma ReachesMeaning(f: Problem, d: Site, b: nat)
    requires f.Valid() && f.graph.Internal(b)
    ensures Reaches(f, d, b) <==>
      || (d.block == b && Born(f, d))
      || (&& Clear(f, b, f.Start(b), f.Stop(b), d.cell)
          && exists p :: p in f.graph.psTable[b].pred && f.graph.Internal(p) && Reaches(f, d, p))
  {
    hide AllCells, EffectOf, Clear, Graph.Dual, Graph.UniqueStarts, Graph.OutsideIsLeaf;
    if Reaches(f, d, b) {
      var w :| Carries(f, d, w) && w[|w| - 1] == b;
      if |w| > 1 {
        var v := w[..|w| - 1];
        var p := w[|w| - 2];
        assert Carries(f, d, v) && v[|v| - 1] == p;
        f.graph.EdgeBothWays(p, b);
      }
    }
    if d.block == b && Born(f, d) {
      assert Carries(f, d, [b]) && [b][|[b]| - 1] == b;
    }
    if Clear(f, b, f.Start(b), f.Stop(b), d.cell) {
      if p: nat :| p in f.graph.psTable[b].pred && f.graph.Internal(p) && Reaches(f, d, p) {
        var w :| Carries(f, d, w) && w[|w| - 1] == p;
        f.graph.EdgeBothWays(p, b);
        var w' := w + [b];
        assert Carries(f, d, w') && w'[|w'| - 1] == b;
      }
    }
  }

  ghost function AllSites(f: Problem): set<Site> {
    set b: nat, pc: nat, c, k | b < |f.graph.blocks| && pc < |f.code| && c in AllCells() && k in {true, false}
      :: Site(b, pc, c, k)
  }

  /** The definitions of a cell that reach the end of a block. */
  ghost function Reaching(f: Problem, b: nat, c: Cell): set<Site>
    requires f.Valid()
  {
    set d | d in AllSites(f) && d.cell == c && f.graph.Internal(b) && Reaches(f, d, b)
  }

  ghost function PathOuts(f: Problem): (x: Outs)
    requires f.Valid()
    ensures Shaped(f, x)
  {
    seq(|f.graph.blocks|, b requires 0 <= b < |f.graph.blocks| => map c | c in AllCells() :: Reaching(f, b, c))
  }

  lemma InReaching(f: Problem, b: nat, c: Cell, d: Site)
    requires f.Valid() && b < |f.graph.blocks| && c in AllCells()
    ensures d in Reaching(f, b, c) <==> d.cell == c && f.graph.Internal(b) && Reaches(f, d, b)
  {
    hide AllCells;
    if Reaches(f, d, b) && d.cell == c {
      var w :| Carries(f, d, w) && w[|w| - 1] == b;
      assert Site(d.block, d.pc, d.cell, d.fromCall) in AllSites(f);
    }
  }

  lemma PathOutsFixpoint(f: Problem)
    requires f.Valid()
    ensures Fixpoint(f, PathOuts(f))
  {
    hide AllCells;
    var x := PathOuts(f);
    forall b | 0 <= b < |x|
      ensures x[b] == if f.graph.Internal(b) then RecomputedContext(f, x, b) else EmptyContext()
    {
      forall c | c in AllCells()
        ensures x[b][c] == if f.graph.Internal(b) then Recomputed(f, x, b, c) else {}
      {
        if f.graph.Internal(b) { PathOutsAt(f, b, c); }
      }
    }
  }

  lemma PathOutsAt(f: Problem, b: nat, c: Cell)
    requires f.Valid() && f.graph.Internal(b) && c in AllCells()
    ensures Reaching(f, b, c) == Recomputed(f, PathOuts(f), b, c)
  {
    hide AllCells, Born, Clear, Reaches, Recomputed, AllSites, Graph.Dual, Graph.UniqueStarts, Graph.OutsideIsLeaf;
    var x := PathOuts(f);
    forall d: Site
      ensures d in Reaching(f, b, c) <==> d in Recomputed(f, x, b, c)
    {
      InReaching(f, b, c, d);
      RecomputedMeaning(f, x, b, c, d);
      ReachesMeaning(f, d, b);
      if d in In(f, x, b, c) {
        var p :| p in f.graph.psTable[b].pred && p < |x| && d in x[p][c];
        InReaching(f, p, c, d);
      }
      if p: nat :| p in f.graph.psTable[b].pred && f.graph.Internal(p) && Reaches(f, d, p) && d.cell == c {
        InReaching(f, p, c, d);
        assert p < |x| && d in x[p][c];
      }
    }
  }

  /** Whatever solves the equations contains every definition that reaches. */
  lemma {:induction false} PathInFixpoint(f: Problem, y: Outs, d: Site, w: seq<nat>)
    requires f.Valid() && Fixpoint(f, y) && Carries(f, d, w)
    ensures w[|w| - 1] < |y| && d.cell in AllCells() && d in y[w[|w| - 1]][d.cell]
    decreases |w|
  {
    hide AllCells, Clear, Recomputed, Graph.Dual, Graph.UniqueStarts, Graph.OutsideIsLeaf;
    var b := w[|w| - 1];
    BornCell(f, d);
    if |w| > 1 { assert CarriedOn(f, d.cell, w[|w| - 2], w[|w| - 1]); }
    assert y[b] == RecomputedContext(f, y, b);
    RecomputedMeaning(f, y, b, d.cell, d);
    if |w| > 1 {
      var v := w[..|w| - 1];
      PathInFixpoint(f, y, d, v);
      f.graph.EdgeBothWays(w[|w| - 2], b);
      assert d in y[w[|w| - 2]][d.cell];
    }
  }

  lemma BornCell(f: Problem, d: Site)
    requires f.Valid() && Born(f, d)
    ensures d.cell in AllCells()
  {
    hide AllCells;
  }

  lemma PathOutsBelow(f: Problem, y: Outs)
    requires f.Valid() && Fixpoint(f, y)
    ensures Leq(PathOuts(f), y)
  {
    hide AllCells, Fixpoint, Born, CarriedOn;
    assert Shaped(f, y) by { FixpointShaped(f, y); }
    forall b, c, d | 0 <= b < |y| && c in AllCells() && d in PathOuts(f)[b][c]
      ensures d in y[b][c]
    {
      var w :| Carries(f, d, w) && w[|w| - 1] == b;
      PathInFixpoint(f, y, d, w);
    }
  }

  lemma FixpointShaped(f: Problem, y: Outs)
    requires f.Valid() && Fixpoint(f, y)
    ensures Shaped(f, y)
  {
    hide AllCells;
  }

  lemma LeqAntisymmetric(x: Outs, y: Outs)
    requires Leq(x, y) && Leq(y, x)
    ensures x == y
  {
    hide AllCells;
    forall b | 0 <= b < |x|
      ensures x[b] == y[b]
    {
      assert Within(x[b], y[b]) && Within(y[b], x[b]);
      assert forall c :: c in AllCells() ==> x[b][c] == y[b][c];
    }
  }

  /** The least solution is unique and consists of the definitions that reach along some path. */
  lemma LeastIffPaths(f: Problem, x: Outs)
    requires f.Valid()
    ensures LeastFixpoint(f, x) <==> x == PathOuts(f)
  {
    hide AllCells, Fixpoint;
    PathOutsFixpoint(f);
    forall y | Fixpoint(f, y)
      ensures Leq(PathOuts(f), y)
    {
      PathOutsBelow(f, y);
    }
    if LeastFixpoint(f, x) { LeqAntisymmetric(x, PathOuts(f)); }
  }

  /** The characterisation, definition by definition. */
  lemma LeastMeansReaching(f: Problem, x: Outs, b: nat, c: Cell, d: Site)
    requires f.Valid() && LeastFixpoint(f, x) && f.graph.Internal(b) && c in AllCells()
    ensures d in x[b][c] <==> d.cell == c && Reaches(f, d, b)
  {
    hide AllCells, LeastFixpoint;
    LeastIffPaths(f, x);
    InReaching(f, b, c, d);
  }
}
