/** Evaluating the run that counts nodes on a given function, for two registers. */
module ExampleRuns {
  import opened Wrappers
  import opened MachineCode
  import opened ControlFlowGraphs
  import opened FlowContexts
  import opened ReachingDefinitions
  import opened ChaoticIteration
  import DI = DataFlowInvariants
  import NC = NodeCounting
  import opened NodeRuns

  const R3 := Gpr(3)
  const R4 := Gpr(4)

  /** The definition each block makes of the two registers, if any. */
  datatype Sketch = Sketch(graph: Graph, of3: seq<Option<Site>>, of4: seq<Option<Site>>)

  /** What the blocks hold in the two registers, and the worklist. */
  datatype Column = Column(out3: seq<set<NC.Def>>, out4: seq<set<NC.Def>>, worklist: seq<nat>)

  ghost predicate Makes(f: Problem, makers: seq<Option<Site>>, c: Cell)
    requires f.Valid()
  {
    && |makers| == |f.graph.blocks|
    && forall b {:trigger makers[b]} :: f.graph.Internal(b) ==>
         match makers[b]
         case None => Clear(f, b, f.Start(b), f.Stop(b), c)
         case Some(d) => Born(f, d) && d.block == b && d.cell == c
  }

  /** The other cells stay empty. */
  ghost predicate IsSketch(f: Problem, k: Sketch) {
    && f.Valid() && f.graph == k.graph && Makes(f, k.of3, R3) && Makes(f, k.of4, R4)
    && (forall b {:trigger f.graph.psTable[b]} :: 0 <= b < |f.graph.psTable| ==>
          |f.graph.psTable[b].pred| <= 2 && |f.graph.psTable[b].succ| <= 2)
    && forall b, c :: f.graph.Internal(b) && c != R3 && c != R4 ==> Clear(f, b, f.Start(b), f.Stop(b), c)
  }

  ghost predicate Shows(f: Problem, r: NC.Run, k: Column) {
    && NC.Proper(f, r) && |k.out3| == |k.out4| == |r.out| && r.worklist == k.worklist
    && forall m, c :: 0 <= m < |r.out| && c in AllCells() ==>
         r.out[m][c] == if c == R3 then k.out3[m] else if c == R4 then k.out4[m] else {}
  }

  // ---- One visit ----

  function At(s: seq<set<NC.Def>>, m: nat): set<NC.Def> { if m < |s| then s[m] else {} }

  function Joined(s: seq<set<NC.Def>>, pred: seq<nat>): set<NC.Def>
    requires |pred| <= 2
  {
    if |pred| == 0 then {} else if |pred| == 1 then At(s, pred[0]) else At(s, pred[0]) + At(s, pred[1])
  }

  function Made(maker: Option<Site>, s: seq<set<NC.Def>>, pred: seq<nat>, visit: nat): set<NC.Def>
    requires |pred| <= 2
  {
    match maker
    case Some(d) => {NC.Def(d, visit)}
    case None => Joined(s, pred)
  }

  function Tried(g: Graph, wl: seq<nat>, s: nat): seq<nat> {
    if g.Internal(s) && s !in wl then [s] + wl else wl
  }

  function Queue(g: Graph, tail: seq<nat>, succ: seq<nat>): seq<nat>
    requires |succ| <= 2
  {
    if |succ| == 0 then tail
    else if |succ| == 1 then Tried(g, tail, succ[0])
    else Tried(g, Tried(g, tail, succ[0]), succ[1])
  }

  /** `d` is what a visit to the next block makes of `c`. */
  predicate Next(k: Sketch, c: Column, visit: nat, d: Column) {
    && |c.out3| == |c.out4| == |d.out3| == |d.out4| == |k.of3| == |k.of4| && c.worklist != []
    && var b := c.worklist[0];
      && b < |c.out3| && b < |k.graph.psTable|
      && |k.graph.psTable[b].pred| <= 2 && |k.graph.psTable[b].succ| <= 2
      && d.out3[b] == Made(k.of3[b], c.out3, k.graph.psTable[b].pred, visit)
      && d.out4[b] == Made(k.of4[b], c.out4, k.graph.psTable[b].pred, visit)
      && (forall m :: 0 <= m < |c.out3| && m != b ==> d.out3[m] == c.out3[m] && d.out4[m] == c.out4[m])
      && d.worklist == if |d.out3[b]| != |c.out3[b]| || |d.out4[b]| != |c.out4[b]|
                       then Queue(k.graph, c.worklist[1..], k.graph.psTable[b].succ) else c.worklist[1..]
  }

  lemma QueuePushed(g: Graph, tail: seq<nat>, succ: seq<nat>)
    requires |succ| <= 2
    ensures g.Pushed(tail, succ) == Queue(g, tail, succ)
  {
    if |succ| == 1 {
      assert succ[..0] == [];
    } else if |succ| == 2 {
      assert succ[..1][..0] == [] && succ[..1][0] == succ[0];
      assert g.Pushed(tail, succ[..1]) == Tried(g, tail, succ[0]);
    }
  }

  lemma JoinedGiven(f: Problem, out: seq<Context<NC.Def>>, s: seq<set<NC.Def>>, b: nat, c: Cell)
    requires f.Valid() && NC.TotalOuts(f, out) && f.graph.Internal(b) && c in AllCells() && |s| == |out|
    requires b < |f.graph.psTable| && |f.graph.psTable[b].pred| <= 2
    requires forall m :: 0 <= m < |out| ==> out[m][c] == s[m]
    ensures NC.InNew(f, out, b, c) == Joined(s, f.graph.psTable[b].pred)
  {
    hide AllCells, Graph.Dual, Graph.UniqueStarts, Graph.OutsideIsLeaf, Graph.Distinct;
    var pred := f.graph.psTable[b].pred;
    forall d | d in Joined(s, pred)
      ensures d in NC.InNew(f, out, b, c)
    {
      var i := if |pred| == 1 || d in At(s, pred[0]) then 0 else 1;
      assert pred[i] in pred && pred[i] < |out| && d in out[pred[i]][c];
    }
  }

  lemma VisitCell(f: Problem, out: seq<Context<NC.Def>>, s: seq<set<NC.Def>>, maker: Option<Site>, b: nat, c: Cell,
                  visit: nat)
    requires f.Valid() && NC.TotalOuts(f, out) && f.graph.Internal(b) && c in AllCells() && |s| == |out|
    requires b < |f.graph.psTable| && |f.graph.psTable[b].pred| <= 2
    requires forall m :: 0 <= m < |out| ==> out[m][c] == s[m]
    requires match maker
      case None => Clear(f, b, f.Start(b), f.Stop(b), c)
      case Some(d) => Born(f, d) && d.block == b && d.cell == c
    ensures NC.NewContext(f, out, b, visit)[c] == Made(maker, s, f.graph.psTable[b].pred, visit)
  {
    hide AllCells, Clear, EffectOf, Joined, NC.ThroughNew, NC.InNew, Graph.Dual, Graph.UniqueStarts,
         Graph.OutsideIsLeaf;
    JoinedGiven(f, out, s, b, c);
    var given := NC.InNew(f, out, b, c);
    if maker.Some? {
      NC.ThroughBorn(f, maker.value, f.Stop(b), given, visit);
    } else {
      NC.ThroughClear(f, b, f.Stop(b), c, given, visit);
    }
  }

  lemma Head(f: Problem, r: NC.Run, c: Column)
    requires Shows(f, r, c) && c.worklist != []
    ensures f.Valid() && f.graph.Internal(c.worklist[0])
  {
    hide AllCells, Graph.Valid;
    f.graph.TailDistinct(r.worklist);
  }

  lemma ShownSizes(f: Problem, r: NC.Run, k: Sketch, c: Column, b: nat)
    requires IsSketch(f, k) && Shows(f, r, c) && f.graph.Internal(b)
    ensures NC.TotalOuts(f, r.out) && b < |r.out| && b < |f.graph.psTable| && |k.of3| == |k.of4| == |r.out|
    ensures |f.graph.psTable[b].pred| <= 2 && |f.graph.psTable[b].succ| <= 2
  {
    hide AllCells, Clear, Born, Graph.Dual, Graph.UniqueStarts, Graph.OutsideIsLeaf;
  }

  /** What a visit leaves in each cell. */
  lemma VisitShows(f: Problem, r: NC.Run, k: Sketch, c: Column, b: nat, visit: nat, x: Cell)
    requires IsSketch(f, k) && Shows(f, r, c) && f.graph.Internal(b) && x in AllCells()
    ensures NC.TotalOuts(f, r.out) && b < |k.of3| && b < |k.of4| && b < |f.graph.psTable|
    ensures |f.graph.psTable[b].pred| <= 2
    ensures NC.NewContext(f, r.out, b, visit)[x]
         == if x == R3 then Made(k.of3[b], c.out3, f.graph.psTable[b].pred, visit)
            else if x == R4 then Made(k.of4[b], c.out4, f.graph.psTable[b].pred, visit) else {}
  {
    hide AllCells, Clear, Born, NC.NewContext, Made, Graph.Dual, Graph.UniqueStarts, Graph.OutsideIsLeaf,
         Graph.Distinct;
    ShownSizes(f, r, k, c, b);
    if x == R3 {
      VisitCell(f, r.out, c.out3, k.of3[b], b, x, visit);
    } else if x == R4 {
      VisitCell(f, r.out, c.out4, k.of4[b], b, x, visit);
    } else {
      var nothing := seq(|r.out|, _ => {});
      VisitCell(f, r.out, nothing, None, b, x, visit);
      NothingMade(nothing, f.graph.psTable[b].pred, visit);
    }
  }

  lemma NothingMade(s: seq<set<NC.Def>>, pred: seq<nat>, visit: nat)
    requires |pred| <= 2 && forall m :: 0 <= m < |s| ==> s[m] == {}
    ensures Made(None, s, pred, visit) == {}
  {
  }

  /** One step of the run. */
  lemma Step(f: Problem, r: NC.Run, k: Sketch, c: Column, d: Column)
    requires IsSketch(f, k) && Shows(f, r, c) && Next(k, c, r.visits + 1, d)
    ensures NC.Proper(f, r) && Shows(f, NC.Advance(f, r), d) && NC.Advance(f, r).visits == r.visits + 1
  {
    hide AllCells, Clear, Makes, NC.NewContext, Made, Queue, Graph.Pushed, Graph.Valid, Graph.Distinct;
    Head(f, r, c);
    var b := c.worklist[0];
    ShownSizes(f, r, k, c, b);
    var ctx := NC.NewContext(f, r.out, b, r.visits + 1);
    NC.StepProper(f, r);
    QueuePushed(f.graph, c.worklist[1..], f.graph.psTable[b].succ);
    assert Total(r.out[b]);
    forall x | x in AllCells()
      ensures ctx[x] == if x == R3 then d.out3[b] else if x == R4 then d.out4[b] else {}
    {
      VisitShows(f, r, k, c, b, r.visits + 1, x);
    }
    TwoSizes(r.out[b], ctx, c.out3[b], c.out4[b], d.out3[b], d.out4[b]);
  }

  lemma TwoSizes(a: Context<NC.Def>, b: Context<NC.Def>, s3: set<NC.Def>, s4: set<NC.Def>,
                 t3: set<NC.Def>, t4: set<NC.Def>)
    requires Total(a) && Total(b)
    requires forall x :: x in AllCells() ==> a[x] == if x == R3 then s3 else if x == R4 then s4 else {}
    requires forall x :: x in AllCells() ==> b[x] == if x == R3 then t3 else if x == R4 then t4 else {}
    ensures Sizes(a) != Sizes(b) <==> |s3| != |t3| || |s4| != |t4|
  {
    hide AllCells;
    assert R3 in AllCells() && R4 in AllCells();
    assert Sizes(a)[R3] == |s3| && Sizes(b)[R3] == |t3| && Sizes(a)[R4] == |s4| && Sizes(b)[R4] == |t4|;
    if |s3| == |t3| && |s4| == |t4| {
      assert forall x :: x in AllCells() ==> Sizes(a)[x] == Sizes(b)[x];
    }
  }

  // ---- Visits in a table ----

  /** The block visited, what it then holds in the two registers, and the worklist after it. */
  datatype Visit = Visit(block: nat, made3: set<NC.Def>, made4: set<NC.Def>, worklist: seq<nat>)

  function Then(c: Column, v: Visit): Column {
    if v.block < |c.out3| && v.block < |c.out4| then
      Column(c.out3[v.block := v.made3], c.out4[v.block := v.made4], v.worklist)
    else c
  }

  /** The column after the first `n` visits. */
  function State(start: Column, visits: seq<Visit>, n: nat): Column
    requires n <= |visits|
  {
    if n == 0 then start else Then(State(start, visits, n - 1), visits[n - 1])
  }

  /** The visit is what the run makes of the column. */
  predicate Right(k: Sketch, c: Column, visit: nat, v: Visit) {
    var b := v.block;
    && b < |c.out3| == |c.out4| == |k.of3| == |k.of4| && c.worklist != [] && c.worklist[0] == b
    && b < |k.graph.psTable|
    && var row := k.graph.psTable[b];
      && |row.pred| <= 2 && |row.succ| <= 2
      && v.made3 == Made(k.of3[b], c.out3, row.pred, visit) && v.made4 == Made(k.of4[b], c.out4, row.pred, visit)
      && v.worklist == if |v.made3| != |c.out3[b]| || |v.made4| != |c.out4[b]|
                       then Queue(k.graph, c.worklist[1..], row.succ) else c.worklist[1..]
  }

  lemma RightNext(k: Sketch, c: Column, visit: nat, v: Visit)
    requires Right(k, c, visit, v)
    ensures Next(k, c, visit, Then(c, v))
  {
    hide Made, Queue;
  }

  ghost predicate AllRight(k: Sketch, start: Column, visits: seq<Visit>) {
    forall n :: 0 <= n < |visits| ==> Right(k, State(start, visits, n), n + 1, visits[n])
  }

  // ---- Effects ----

  /** An instruction that is not a call defines the register it lists, and does nothing else. */
  lemma PlainEffect(f: Problem, b: nat, pc: nat, c: Cell)
    requires b < |f.graph.blocks| && pc < |f.code| && !f.graph.blocks[b].endsInCall && |f.code[pc].outputs| <= 1
    ensures var locs := f.code[pc].outputs;
      EffectOf(f, b, pc, c)
      == if locs != [] && CellOf(locs[0]) == Some(c) then Gen(Site(b, pc, c, false)) else Pass
  {
    hide AllCells, CellOf;
    var locs := f.code[pc].outputs;
    if locs != [] && CellOf(locs[0]) == Some(c) { assert Names(locs, c); }
  }

  /** The last definition of the cell among the instructions before `pc`. */
  function Maker(code: seq<Insn>, b: nat, from: nat, pc: nat, c: Cell): Option<Site>
    requires pc <= |code|
  {
    if pc <= from then None
    else if Defines(code[pc - 1], c) then Some(Site(b, pc - 1, c, false))
    else Maker(code, b, from, pc - 1, c)
  }

  predicate Defines(insn: Insn, c: Cell) { insn.outputs != [] && CellOf(insn.outputs[0]) == Some(c) }

  /** The makers of short blocks. */
  lemma MakerShort(code: seq<Insn>, b: nat, from: nat, c: Cell)
    requires from + 1 <= |code|
    ensures Maker(code, b, from, from + 1, c)
         == if Defines(code[from], c) then Some(Site(b, from, c, false)) else None
    ensures from + 2 <= |code| ==>
      Maker(code, b, from, from + 2, c)
      == if Defines(code[from + 1], c) then Some(Site(b, from + 1, c, false))
         else if Defines(code[from], c) then Some(Site(b, from, c, false)) else None
  {
    hide AllCells, CellOf;
    assert Maker(code, b, from, from, c) == None;
  }

  /** No calls, at most one result per instruction, and that in r3 or r4. */
  ghost predicate Simple(f: Problem) {
    && (forall b {:trigger f.graph.blocks[b]} :: 0 <= b < |f.graph.blocks| ==> !f.graph.blocks[b].endsInCall)
    && (forall b {:trigger f.graph.psTable[b]} :: 0 <= b < |f.graph.psTable| ==>
          |f.graph.psTable[b].pred| <= 2 && |f.graph.psTable[b].succ| <= 2)
    && forall pc {:trigger f.code[pc]} :: 0 <= pc < |f.code| ==>
         |f.code[pc].outputs| <= 1
         && forall c :: c != R3 && c != R4 && f.code[pc].outputs != [] ==> CellOf(f.code[pc].outputs[0]) != Some(c)
  }

  ghost predicate MakerRight(f: Problem, b: nat, pc: nat, c: Cell, m: Option<Site>)
    requires f.Valid() && f.graph.Internal(b) && f.Start(b) <= pc <= f.Stop(b)
  {
    match m
    case None => Clear(f, b, f.Start(b), pc, c)
    case Some(d) =>
      && d.block == b && d.cell == c && f.Start(b) <= d.pc < pc && EffectOf(f, b, d.pc, c) == Gen(d)
      && Clear(f, b, d.pc + 1, pc, c)
  }

  lemma {:induction false} MakerMeaning(f: Problem, b: nat, pc: nat, c: Cell)
    requires f.Valid() && Simple(f) && f.graph.Internal(b) && f.Start(b) <= pc <= f.Stop(b)
    ensures MakerRight(f, b, pc, c, Maker(f.code, b, f.Start(b), pc, c))
    decreases pc
  {
    hide AllCells, CellOf, EffectOf, Graph.Valid;
    if pc > f.Start(b) {
      MakerMeaning(f, b, pc - 1, c);
      PlainEffect(f, b, pc - 1, c);
      var locs := f.code[pc - 1].outputs;
      assert locs == f.code[pc - 1].outputs;
    }
  }

  /** The sketch gives each block's last definitions of r3 and r4. */
  ghost predicate Sketches(f: Problem, k: Sketch)
    requires f.Valid()
  {
    && f.graph == k.graph && |k.of3| == |k.of4| == |f.graph.blocks|
    && forall b {:trigger k.of3[b]} :: f.graph.Internal(b) ==>
         && k.of3[b] == Maker(f.code, b, f.Start(b), f.Stop(b), R3)
         && k.of4[b] == Maker(f.code, b, f.Start(b), f.Stop(b), R4)
  }

  lemma SketchFits(f: Problem, k: Sketch)
    requires f.Valid() && Simple(f) && Sketches(f, k)
    ensures IsSketch(f, k)
  {
    hide AllCells, CellOf, EffectOf, Maker, Graph.Valid;
    forall b | f.graph.Internal(b)
      ensures MakerRight(f, b, f.Stop(b), R3, k.of3[b]) && MakerRight(f, b, f.Stop(b), R4, k.of4[b])
    {
      MakerMeaning(f, b, f.Stop(b), R3);
      MakerMeaning(f, b, f.Stop(b), R4);
    }
    forall b, c | f.graph.Internal(b) && c != R3 && c != R4
      ensures Clear(f, b, f.Start(b), f.Stop(b), c)
    {
      forall pc | f.Start(b) <= pc < f.Stop(b)
        ensures EffectOf(f, b, pc, c) == Pass
      {
        assert |f.code[pc].outputs| <= 1;
        PlainEffect(f, b, pc, c);
      }
    }
  }

  // ---- Whole runs ----

  /** The run has come to this column after `n` visits. */
  ghost predicate Comes(f: Problem, c: Column, n: nat)
    requires f.Valid()
  {
    Shows(f, RunOf(f, n), c) && RunOf(f, n).visits == n
  }

  lemma StepTo(f: Problem, k: Sketch, c: Column, n: nat, d: Column)
    requires IsSketch(f, k) && Comes(f, c, n) && Next(k, c, n + 1, d)
    ensures Comes(f, d, n + 1)
  {
    hide AllCells, Makes, Shows, Next, Graph.Valid, DI.First, NC.Advance, NC.Initial;
    Step(f, RunOf(f, n), k, c, d);
  }

  ghost predicate IsStart(f: Problem, c: Column)
    requires f.Valid()
  {
    && DI.First(f) == c.worklist && |c.out3| == |c.out4| == |f.graph.blocks|
    && forall m :: 0 <= m < |c.out3| ==> c.out3[m] == {} && c.out4[m] == {}
  }

  lemma ComesFirst(f: Problem, c: Column)
    requires f.Valid() && IsStart(f, c)
    ensures Comes(f, c, 0)
  {
    hide AllCells, CellSet, Graph.Valid, DI.Explored;
    RunStarts(f);
  }

  /** The run goes through the states of a table that is right throughout. */
  lemma {:induction false} ComesBy(f: Problem, k: Sketch, start: Column, visits: seq<Visit>, n: nat)
    requires f.Valid() && IsSketch(f, k) && IsStart(f, start) && AllRight(k, start, visits) && n <= |visits|
    ensures Comes(f, State(start, visits, n), n)
    decreases n
  {
    hide AllCells, IsSketch, IsStart, Comes, Right, Next, Graph.Valid;
    if n == 0 {
      ComesFirst(f, start);
    } else {
      ComesBy(f, k, start, visits, n - 1);
      assert Right(k, State(start, visits, n - 1), n, visits[n - 1]);
      RightNext(k, State(start, visits, n - 1), n, visits[n - 1]);
      StepTo(f, k, State(start, visits, n - 1), n - 1, State(start, visits, n));
    }
  }

  lemma ComesShows(f: Problem, c: Column, n: nat)
    requires f.Valid() && Comes(f, c, n)
    ensures Shows(f, RunOf(f, n), c)
  {
  }

  lemma ShowsWorklist(f: Problem, r: NC.Run, c: Column)
    requires Shows(f, r, c)
    ensures r.worklist == c.worklist
  {
  }

  /** The definitions in a cell, as sites. */
  lemma ShowsSites(f: Problem, r: NC.Run, c: Column, b: nat)
    requires Shows(f, r, c) && b < |r.out|
    ensures R3 in AllCells() && R4 in AllCells() && R3 in r.out[b] && R4 in r.out[b]
    ensures |NC.OutSites(r.out)| == |r.out| && R3 in NC.OutSites(r.out)[b]
    ensures NC.OutSites(r.out)[b][R3] == NC.SitesOf(c.out3[b])
  {
    hide AllCells, Graph.Valid, Graph.Distinct;
    assert R3 in AllCells() && R4 in AllCells();
    assert Total(r.out[b]);
  }

  /** If visiting a block would bring the same sites again, it satisfies its equation. */
  lemma SolvedIfSame(f: Problem, r: NC.Run, k: Sketch, c: Column, b: nat)
    requires IsSketch(f, k) && Shows(f, r, c) && f.graph.Internal(b)
    requires b < |c.out3| && b < |k.of3| == |k.of4| && b < |f.graph.psTable| && |f.graph.psTable[b].pred| <= 2
    requires NC.SitesOf(Made(k.of3[b], c.out3, f.graph.psTable[b].pred, 0)) == NC.SitesOf(c.out3[b])
    requires NC.SitesOf(Made(k.of4[b], c.out4, f.graph.psTable[b].pred, 0)) == NC.SitesOf(c.out4[b])
    ensures Shaped(f, NC.OutSites(r.out)) && Solved(f, NC.OutSites(r.out), b)
  {
    hide AllCells, Clear, Makes, Made, NC.NewContext, RecomputedContext, Graph.Valid, Graph.Distinct;
    ShownSizes(f, r, k, c, b);
    NC.VisitSites(f, r.out, b, 0);
    var ctx := NC.NewContext(f, r.out, b, 0);
    assert Total(r.out[b]);
    forall x | x in AllCells()
      ensures NC.SitesOf(ctx[x]) == NC.SitesOf(r.out[b][x])
    {
      VisitShows(f, r, k, c, b, 0, x);
    }
    assert NC.OutSites(r.out[b := ctx])[b] == NC.OutSites(r.out)[b];
  }

  /** What comes to a block in r3. */
  lemma EntryShown(f: Problem, r: NC.Run, c: Column, b: nat)
    requires Shows(f, r, c) && f.graph.Internal(b) && b < |f.graph.psTable| && |f.graph.psTable[b].pred| <= 2
    ensures R3 in AllCells() && Shaped(f, NC.OutSites(r.out))
    ensures DI.EntryContext(f, NC.OutSites(r.out), b)[R3] == NC.SitesOf(Joined(c.out3, f.graph.psTable[b].pred))
  {
    hide AllCells, Joined, NC.InNew, In, Graph.Valid, Graph.Distinct;
    assert R3 in AllCells();
    NC.OutSitesShaped(f, r.out);
    JoinedGiven(f, r.out, c.out3, b, R3);
    NC.InSites(f, r.out, b, R3);
  }

  /** The visits since the last one to a block do not change what it was given. */
  lemma GivenSame(f: Problem, n: nat, c: Column, b: nat)
    requires f.Valid() && Comes(f, c, n) && c.worklist != [] && f.graph.Internal(b) && c.worklist[0] != b
    ensures Given(f, n + 1, b) == Given(f, n, b)
  {
    hide AllCells, Graph.Valid, DI.First, DI.EntryContext;
  }

  lemma GivenNow(f: Problem, n: nat, c: Column, b: nat)
    requires f.Valid() && Comes(f, c, n) && c.worklist != [] && f.graph.Internal(b) && c.worklist[0] == b
    ensures Shaped(f, NC.OutSites(RunOf(f, n).out))
    ensures Given(f, n + 1, b) == Some(DI.EntryContext(f, NC.OutSites(RunOf(f, n).out), b))
  {
    hide AllCells, Graph.Valid, DI.First, DI.EntryContext, NC.OutSites, NC.Initial;
    NC.OutSitesShaped(f, RunOf(f, n).out);
  }

  // ---- First listings ----

  lemma ExploreTwo(f: Problem, wl: seq<nat>, b: nat, x: nat, y: nat)
    requires f.Valid() && f.graph.Internal(b) && b !in wl && f.graph.psTable[b].succ == [x, y]
    ensures DI.Explored(f, wl, b) == DI.Tried(f, DI.Tried(f, wl + [b], x), y)
  {
    hide Graph.Valid;
    assert [x, y][..1] == [x] && [x][..0] == [];
    assert DI.AllExplored(f, wl + [b], [x]) == DI.Tried(f, wl + [b], x);
  }

  lemma ExploreOne(f: Problem, wl: seq<nat>, b: nat, x: nat)
    requires f.Valid() && f.graph.Internal(b) && b !in wl && f.graph.psTable[b].succ == [x]
    ensures DI.Explored(f, wl, b) == DI.Tried(f, wl + [b], x)
  {
    hide Graph.Valid;
    assert [x][..0] == [];
    assert DI.AllExplored(f, wl + [b], []) == wl + [b];
    assert DI.AllExplored(f, wl + [b], [x]) == DI.Tried(f, wl + [b], x);
  }
}
