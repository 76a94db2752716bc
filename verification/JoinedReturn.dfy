/** A function that need not match itself: two definitions of r3 meet at its return. */
module JoinedReturn {
  import opened Wrappers
  import opened Instructions
  import opened MachineCode
  import opened ControlFlowGraphs
  import opened BlockInvariants
  import opened BlockConstruction
  import opened BuiltProblems
  import opened ExampleGraphs
  import opened ExampleRuns
  import opened FlowContexts
  import opened ReachingDefinitions
  import opened DataFlowNodes
  import DI = DataFlowInvariants
  import NC = NodeCounting
  import opened NodeRuns
  import opened FlowEquivalence
  import SC = SameCode
  import opened Pipeline

  /** r3 = 1; if (!c) r3 = 1; return r3; */
  function Code(): seq<Insn> {
    [Define(3), BranchTo(3), Define(3), RETURN]
  }

  // ---- Its blocks, as they are made ----

  function G0(): Graph {
    Graph([Block(0, 0, false)],
          [NONE])
  }

  function G1(): Graph {
    Graph([Block(0, 1, false), Block(3, 3, false)],
          [PSEntry([], [1]), PSEntry([0], [])])
  }

  function G2(): Graph {
    Graph([Block(0, 1, false), Block(3, 3, true), NewBlock(3, RUNTIME)],
          [PSEntry([], [1]), PSEntry([0], [2]), PSEntry([1], [])])
  }

  function G3(): Graph {
    Graph([Block(0, 1, false), Block(3, 3, true), NewBlock(3, RUNTIME), Block(2, 2, false)],
          [PSEntry([], [1, 3]), PSEntry([0], [2]), PSEntry([1], []), PSEntry([0], [])])
  }

  function G4(): Graph {
    Graph([Block(0, 1, false), Block(3, 3, true), NewBlock(3, RUNTIME), Block(2, 2, false)],
          [PSEntry([], [1, 3]), PSEntry([0, 3], [2]), PSEntry([1], []), PSEntry([0], [1])])
  }

  lemma Scanned3()
    ensures ValidCode(Code()) && Scan(Code(), G3(), 3, 2) == Some(G4())
  {
    hide Scan, EndIn, Follow, Taken;
    FallsThrough(Code(), G3(), 3, 2, 2, 1, G4());
  }

  lemma Scanned1()
    ensures ValidCode(Code()) && Scan(Code(), G1(), 1, 3) == Some(G2())
  {
    hide Scan, EndIn, Follow, Taken;
    EndsInReturn(Code(), G1(), 1, 3, 3, G2());
  }

  lemma Scanned0()
    ensures ValidCode(Code()) && Scan(Code(), G0(), 0, 0) == Some(G4())
  {
    hide Scan, EndIn, Follow, Taken, Runs;
    Edge0();
    Edge2();
    PlainFirst(Code(), G0(), 0);
    EndsInBranch(Code(), G0(), 0, 0, 1, 3, G2(), G4());
  }

  lemma Edge0()
    ensures ValidCode(Code()) && Follow(Code(), G0(), 0, 1, 3) == Some(G2())
  {
    hide Scan, EndIn, Follow, Taken;
    Scanned1();
    FollowsNew(Code(), G0(), 0, 1, 3, G1(), G2());
  }

  lemma Edge2()
    ensures ValidCode(Code()) && Follow(Code(), G2(), 0, 1, 2) == Some(G4())
  {
    hide Scan, EndIn, Follow, Taken;
    Scanned3();
    FollowsNew(Code(), G2(), 0, 1, 2, G3(), G4());
  }

  lemma Blocks()
    ensures ValidCode(Code()) && Constructed(Code()) == Some(G4())
  {
    hide Scan;
    Scanned0();
    SameEqual(G0(), ENTRY);
  }

  lemma ExampleValid(f: Problem)
    requires IsInput(f, Code())
    ensures f.Valid() && DI.Connected(f) && f.graph == G4()
  {
    hide AllCells, Scan, Built, Problem.Valid, G4, Code, DI.Connected;
    Blocks();
    InputValid(f, Code(), G4());
  }

  // ---- The run ----

  const FIRST3 := Site(0, 0, R3, false)
  const SECOND3 := Site(3, 2, R3, false)

  function A(visit: nat): NC.Def { NC.Def(FIRST3, visit) }

  function B(visit: nat): NC.Def { NC.Def(SECOND3, visit) }

  function SKETCH(): Sketch {
    Sketch(G4(), [Some(FIRST3), None, None, Some(SECOND3)], [None, None, None, None])
  }

  lemma Plain(f: Problem)
    requires f.code == Code() && f.graph == G4()
    ensures Simple(f)
  {
    hide AllCells;
  }

  lemma Sketched(f: Problem)
    requires IsInput(f, Code()) && f.Valid() && f.graph == G4()
    ensures IsSketch(f, SKETCH())
  {
    hide AllCells, Graph.Valid, Scan, Simple, IsSketch;
    Plain(f);
    forall b | f.graph.Internal(b)
      ensures SKETCH().of3[b] == Maker(f.code, b, f.Start(b), f.Stop(b), R3)
      ensures SKETCH().of4[b] == Maker(f.code, b, f.Start(b), f.Stop(b), R4)
    {
      MakerShort(f.code, b, f.Start(b), R3);
      MakerShort(f.code, b, f.Start(b), R4);
    }
    SketchFits(f, SKETCH());
  }

  function START(): Column {
    Column([{}, {}, {}, {}], [{}, {}, {}, {}], [0, 1, 3])
  }

  function VISITS(): seq<Visit> {
    [Visit(0, {A(1)}, {}, [1, 3]),
     Visit(1, {A(1)}, {}, [3]),
     Visit(3, {B(3)}, {}, [1]),
     Visit(1, {A(1), B(3)}, {}, [])]
  }

  function S(n: nat): Column
    requires n <= 4
  {
    State(START(), VISITS(), n)
  }

  lemma Right1() ensures Right(SKETCH(), S(0), 1, VISITS()[0]) {}

  lemma Right2() ensures Right(SKETCH(), S(1), 2, VISITS()[1]) {}

  lemma Right3() ensures Right(SKETCH(), S(2), 3, VISITS()[2]) {}

  lemma Right4() ensures Right(SKETCH(), S(3), 4, VISITS()[3]) {}

  lemma TableRight()
    ensures AllRight(SKETCH(), START(), VISITS())
  {
    hide Right, SKETCH, START, State, G4;
    Right1(); Right2(); Right3(); Right4();
  }

  lemma Listing(f: Problem)
    requires IsInput(f, Code()) && f.Valid() && f.graph == G4()
    ensures DI.First(f) == [0, 1, 3]
  {
    hide Graph.Valid, DI.Explored, AllCells, Scan;
    ExploreOne(f, [0], 1, 2);
    assert [0] + [1] == [0, 1];
    ExploreOne(f, [0, 1], 3, 1);
    assert [0, 1] + [3] == [0, 1, 3];
    ExploreTwo(f, [], 0, 1, 3);
    assert [] + [0] == [0];
  }

  lemma ComesTo(f: Problem, n: nat)
    requires IsInput(f, Code()) && f.Valid() && f.graph == G4() && n <= 4
    ensures Comes(f, S(n), n)
  {
    hide AllCells, IsSketch, SKETCH, VISITS, Right, Comes, AllRight, State, Scan, Graph.Valid, DI.First;
    Listing(f);
    Sketched(f);
    TableRight();
    VisitsSize();
    ComesBy(f, SKETCH(), START(), VISITS(), n);
  }

  lemma VisitsSize()
    ensures |VISITS()| == 4
  {
  }

  /** Both definitions come to the return. */
  lemma GivenAtReturn(f: Problem)
    requires IsInput(f, Code()) && f.Valid() && f.graph == G4()
    ensures f.graph.Internal(1) && RunOf(f, 4).worklist == []
    ensures Given(f, 4, 1).Some? && R3 in Given(f, 4, 1).value && Given(f, 4, 1).value[R3] == {FIRST3, SECOND3}
  {
    hide AllCells, Graph.Valid, Scan, Given, Comes, RunOf, DI.EntryContext, NC.OutSites, Shows, Joined, NC.SitesOf, S;
    ComesTo(f, 3);
    ComesTo(f, 4);
    BeforeReturn();
    GivenNow(f, 3, S(3), 1);
    ComesShows(f, S(3), 3);
    ComesShows(f, S(4), 4);
    ShowsWorklist(f, RunOf(f, 4), S(4));
    EntryShown(f, RunOf(f, 3), S(3), 1);
  }

  lemma BeforeReturn()
    ensures S(3).worklist == [1] && NC.SitesOf(Joined(S(3).out3, [0, 3])) == {FIRST3, SECOND3} && S(4).worklist == []
  {
    assert Joined(S(3).out3, [0, 3]) == {A(1), B(3)};
  }

  // ---- The phi node at the return ----

  lemma {:induction false} ReturnListed(end: nat, locations: seq<Location>, at: Context<Site>, loc: Location)
    requires loc in locations && ReadAt(loc, at).DefOperand?
    ensures ReturnShape(end, loc, ReadAt(loc, at)) in ExpectedReturns(end, locations, at)
    decreases |locations|
  {
    hide AllCells, CellOf;
    var i := |locations| - 1;
    assert locations == locations[..i] + [locations[i]];
    if loc != locations[i] { ReturnListed(end, locations[..i], at, loc); }
  }

  lemma ReturnExpected(f: Problem, e: Context<Site>)
    requires IsInput(f, Code()) && f.Valid() && f.graph == G4() && R3 in e && e[R3] == {FIRST3, SECOND3}
    requires Location(GPR, 3) in f.definedByCall
    ensures f.graph.Internal(1)
    ensures ReturnShape(3, Location(GPR, 3), DefOperand({FIRST3, SECOND3})) in ExpectedShapes(f, 1, e)
  {
    hide AllCells, Graph.Valid, Scan, EffectOf, CellOf, ExpectedReturns, ExpectedSinks;
    var at := Before(f, 1, 4, e);
    PlainEffect(f, 1, 3, R3);
    assert Through(f, 1, 3, R3, e[R3]) == e[R3];
    assert at[R3] == e[R3];
    GprThree();
    assert ReadAt(Location(GPR, 3), at) == DefOperand({FIRST3, SECOND3});
    ReturnListed(3, f.definedByCall, at, Location(GPR, 3));
  }

  lemma GprThree()
    ensures CellOf(Location(GPR, 3)) == Some(R3)
  {
    hide AllCells;
  }

  /** An operand of two definitions is a phi node, and has a node of each among its inputs. */
  lemma TwoDefinitions(nodes: seq<Node>, x: nat, d: Site, e: Site) returns (p: nat, q: nat)
    requires x < |nodes| && OperandOf(nodes, x) == DefOperand({d, e}) && d != e
    ensures nodes[x].kind.PhiNode? && p in nodes[x].inputs && q in nodes[x].inputs
    ensures p < |nodes| && IsDefinition(nodes[p]) && SiteOf(nodes[p]) == d
    ensures q < |nodes| && IsDefinition(nodes[q]) && SiteOf(nodes[q]) == e
  {
    hide AllCells, CellOf, IsDefinition;
    assert d in {d, e} && e in {d, e};
    assert forall s, t :: s in Sites(nodes, {x}) && t in Sites(nodes, {x}) ==> s == t;
    assert nodes[x].kind.PhiNode?;
    var ids := set k | k in nodes[x].inputs;
    assert Sites(nodes, ids) == {d, e};
    p :| p in ids && p < |nodes| && IsDefinition(nodes[p]) && SiteOf(nodes[p]) == d;
    q :| q in ids && q < |nodes| && IsDefinition(nodes[q]) && SiteOf(nodes[q]) == e;
  }

  lemma DefinitionLabel(flow: Flow, p: nat, d: Site)
    requires flow.Valid() && flow.code == Code() && flow.graph == G4() && p < |flow.nodes|
    requires IsDefinition(flow.nodes[p]) && SiteOf(flow.nodes[p]) == d && (d == FIRST3 || d == SECOND3)
    ensures Unfold(flow, p).root == ResultLabel(1, d.block)
  {
    hide AllCells, CellOf, FirstHolding;
    FirstHoldingIs(G4().blocks, 0, 0);
    FirstHoldingIs(G4().blocks, 2, 3);
  }

  /** In no result of its analysis are the trees of that phi node's inputs the same. */
  lemma PhiNotUniform(flow: Flow, killedByCall: seq<Location>, definedByCall: seq<Location>,
                      contexts: seq<Context<nat>>)
    requires AllKnown(killedByCall) && AllKnown(definedByCall) && Location(GPR, 3) in definedByCall
    requires flow.code == Code() && AnalysedByNodes(flow, killedByCall, definedByCall, contexts, 4)
    ensures flow.Valid() && !SC.UniformPhis(flow) && Ended(flow, killedByCall, definedByCall, 4)
  {
    hide AllCells, Scan, Graph.Valid, DI.Complete, DI.Connected, AllFound, PassOf, RunOf, Given, ExpectedShapes, Unfold,
         G4, Code, CellOf, DI.UpToDate, DefinitionsOnly, OperandOf;
    var f := Problem(flow.code, flow.graph, killedByCall, definedByCall);
    Blocks();
    ExampleValid(f);
    GivenAtReturn(f);
    var e := Given(f, 4, 1).value;
    var r := DI.Results(flow.nodes, contexts, flow.sinks);
    assert DI.SunkFrom(f, r, 1, e);
    ReturnExpected(f, e);
    var shapes := ShapesOf(f, flow.nodes, flow.sinks[1]);
    var m :| 0 <= m < |shapes| && shapes[m] == ReturnShape(3, Location(GPR, 3), DefOperand({FIRST3, SECOND3}));
    ReturnInput(f, flow, m);
  }

  lemma ReturnInput(f: Problem, flow: Flow, m: nat)
    requires flow.Valid() && flow.code == Code() && flow.graph == G4() && 1 < |flow.sinks|
    requires Sinks(f, flow.nodes, flow.sinks[1]) && m < |flow.sinks[1]|
    requires ShapesOf(f, flow.nodes, flow.sinks[1])[m]
          == ReturnShape(3, Location(GPR, 3), DefOperand({FIRST3, SECOND3}))
    ensures !SC.UniformPhis(flow)
  {
    hide AllCells, CellOf, Unfold, OperandOf, G4, Code, Flow.Valid;
    var s := flow.sinks[1][m];
    assert WellMade(f, flow.nodes, s);
    InputsBelow(flow, s);
    var x := flow.nodes[s].inputs[0];
    var p, q := TwoDefinitions(flow.nodes, x, FIRST3, SECOND3);
    DefinitionLabel(flow, p, FIRST3);
    DefinitionLabel(flow, q, SECOND3);
    SC.SinkUsed(flow, 1, m);
    SC.InputUsed(flow, s, x);
    InputsBelow(flow, x);
    var a := flow.nodes[x].inputs;
    var k :| 0 <= k < |a| && a[k] == p;
    var n :| 0 <= n < |a| && a[n] == q;
    assert Unfold(flow, a[k]) != Unfold(flow, a[n]);
  }

  // ---- Two results that do not match ----

  lemma NotRefused()
    ensures !Refused(Code())
  {
    hide AllCells, Scan, Reachable;
    Blocks();
    ConstructedBuilt(Code());
    forall p | 0 <= p < |Code()|
      ensures DI.KnownRegisters(Code()[p])
    {
      GprThree();
    }
  }

  /** The analysis of this function, if it returns r3, can have two results that the comparison finds different. */
  method AnalysesDiffer(killedByCall: seq<Location>, definedByCall: seq<Location>)
    returns (flow: Flow, ghost other: Flow)
    requires AllKnown(killedByCall) && AllKnown(definedByCall) && Location(GPR, 3) in definedByCall
    ensures flow.code == Code() && flow.Valid() && other.Valid()
    ensures AnotherResult(flow, flow, killedByCall, definedByCall)
    ensures AnotherResult(flow, other, killedByCall, definedByCall) && !FlowsMatch(flow, other)
  {
    hide AllCells, Scan, Refused, AnalysedByNodes, Ended, FlowsMatch, SC.UniformPhis, Flow.Valid, AllKnown, Code;
    Blocks();
    NotRefused();
    var ok, ended;
    ghost var contexts;
    ok, ended, flow, contexts := AnalyseByNodes(Code(), killedByCall, definedByCall, 4);
    PhiNotUniform(flow, killedByCall, definedByCall, contexts);
    MatchesItselfIff(flow, killedByCall, definedByCall, contexts, 4);
    other :| AnotherResult(flow, other, killedByCall, definedByCall) && !(other.Valid() && FlowsMatch(flow, other));
    ResultValid(flow, other, killedByCall, definedByCall);
  }

  lemma ResultValid(flow: Flow, other: Flow, killedByCall: seq<Location>, definedByCall: seq<Location>)
    requires AnotherResult(flow, other, killedByCall, definedByCall)
    ensures other.Valid()
  {
    hide AnalysedByNodes, Ended;
    var contexts, limit :| AnalysedByNodes(other, killedByCall, definedByCall, contexts, limit)
                           && Ended(other, killedByCall, definedByCall, limit);
    AnalysedFlow(other, killedByCall, definedByCall, contexts, limit);
  }
}
