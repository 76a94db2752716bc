/** A function on which the run that counts nodes ends with every output right and a sink wrong. */
module StaleSink {
  import opened Wrappers
  import opened Instructions
  import opened MachineCode
  import opened ControlFlowGraphs
  import opened BlockInvariants
  import opened BlockConstruction
  import opened BuiltProblems
  import opened ExampleGraphs
  import opened ExampleRuns
  import opened FlowContexts
  import opened ReachingDefinitions
  import opened ChaoticIteration
  import opened DataFlowNodes
  import DI = DataFlowInvariants
  import NC = NodeCounting
  import opened NodeRuns

  /** Instruction 3 stores through r3 and moves it. */
  function Code(): seq<Insn> {
    [Define(3), BranchTo(4), BranchTo(6), StoreWithUpdate(3), BranchTo(0), BranchTo(2), RETURN]
  }

  // ---- Its blocks, as they are made ----

  function G0(): Graph {
    Graph([Block(0, 0, false)],
          [NONE])
  }

  function G1(): Graph {
    Graph([Block(0, 1, false), Block(4, 4, false)],
          [PSEntry([], [1]), PSEntry([0], [])])
  }

  function G2(): Graph {
    Graph([Block(0, 1, false), Block(4, 4, false)],
          [PSEntry([1], [1]), PSEntry([0], [0]), NONE])
  }

  function G3(): Graph {
    Graph([Block(0, 1, false), Block(4, 4, false), Block(5, 5, false)],
          [PSEntry([1], [1]), PSEntry([0], [0, 2]), PSEntry([1], []), NONE])
  }

  function G4(): Graph {
    Graph([Block(0, 1, false), Block(4, 4, false), Block(5, 5, false), Block(2, 2, false)],
          [PSEntry([1], [1]), PSEntry([0], [0, 2]), PSEntry([1], [3]), PSEntry([2], []), NONE])
  }

  function G5(): Graph {
    Graph([Block(0, 1, false), Block(4, 4, false), Block(5, 5, false), Block(2, 2, false),
           Block(6, 6, false)],
          [PSEntry([1], [1]), PSEntry([0], [0, 2]), PSEntry([1], [3]), PSEntry([2], [4]), PSEntry([3], []),
           NONE])
  }

  function G6(): Graph {
    Graph([Block(0, 1, false), Block(4, 4, false), Block(5, 5, false), Block(2, 2, false), Block(6, 6, true),
           NewBlock(6, RUNTIME)],
          [PSEntry([1], [1]), PSEntry([0], [0, 2]), PSEntry([1], [3]), PSEntry([2], [4]), PSEntry([3], [5]),
           PSEntry([4], []), NONE])
  }

  function G7(): Graph {
    Graph([Block(0, 1, false), Block(4, 4, false), Block(5, 5, false), Block(2, 2, false), Block(6, 6, true),
           NewBlock(6, RUNTIME), Block(3, 3, false)],
          [PSEntry([1], [1]), PSEntry([0], [0, 2]), PSEntry([1], [3]), PSEntry([2], [4, 6]),
           PSEntry([3], [5]), PSEntry([4], []), PSEntry([3], []), NONE])
  }

  function G8(): Graph {
    Graph([Block(0, 1, false), Block(4, 4, false), Block(5, 5, false), Block(2, 2, false), Block(6, 6, true),
           NewBlock(6, RUNTIME), Block(3, 3, false)],
          [PSEntry([1], [1]), PSEntry([0, 6], [0, 2]), PSEntry([1], [3]), PSEntry([2], [4, 6]),
           PSEntry([3], [5]), PSEntry([4], []), PSEntry([3], [1]), NONE])
  }

  function G9(): Graph {
    Graph([Block(0, 1, false), Block(4, 4, false), Block(5, 5, false), Block(2, 2, false), Block(6, 6, true),
           NewBlock(6, RUNTIME), Block(3, 3, false)],
          [PSEntry([1], [1]), PSEntry([0, 6], [0, 2]), PSEntry([1], [3, 4]), PSEntry([2], [4, 6]),
           PSEntry([3, 2], [5]), PSEntry([4], []), PSEntry([3], [1]), NONE, NONE])
  }

  function G10(): Graph {
    Graph([Block(0, 1, false), Block(4, 4, false), Block(5, 5, false), Block(2, 2, false), Block(6, 6, true),
           NewBlock(6, RUNTIME), Block(3, 3, false)],
          [PSEntry([1], [1, 3]), PSEntry([0, 6], [0, 2]), PSEntry([1], [3, 4]), PSEntry([2, 0], [4, 6]),
           PSEntry([3, 2], [5]), PSEntry([4], []), PSEntry([3], [1]), NONE, NONE, NONE])
  }

  lemma Scanned6()
    ensures ValidCode(Code()) && Scan(Code(), G7(), 6, 3) == Some(G8())
  {
    hide Scan, EndIn, Follow, Taken;
    FallsThrough(Code(), G7(), 6, 3, 3, 1, G8());
  }

  lemma Scanned4()
    ensures ValidCode(Code()) && Scan(Code(), G5(), 4, 6) == Some(G6())
  {
    hide Scan, EndIn, Follow, Taken;
    EndsInReturn(Code(), G5(), 4, 6, 6, G6());
  }

  lemma Scanned3()
    ensures ValidCode(Code()) && Scan(Code(), G4(), 3, 2) == Some(G8())
  {
    hide Scan, EndIn, Follow, Taken;
    Edge4();
    Edge6();
    EndsInBranch(Code(), G4(), 3, 2, 2, 6, G6(), G8());
  }

  lemma Scanned2()
    ensures ValidCode(Code()) && Scan(Code(), G3(), 2, 5) == Some(G9())
  {
    hide Scan, EndIn, Follow, Taken;
    Edge3();
    Edge8();
    EndsInBranch(Code(), G3(), 2, 5, 5, 2, G8(), G9());
  }

  lemma Scanned1()
    ensures ValidCode(Code()) && Scan(Code(), G1(), 1, 4) == Some(G9())
  {
    hide Scan, EndIn, Follow, Taken;
    Edge1();
    Edge2();
    EndsInBranch(Code(), G1(), 1, 4, 4, 0, G2(), G9());
  }

  lemma Scanned0()
    ensures ValidCode(Code()) && Scan(Code(), G0(), 0, 0) == Some(G10())
  {
    hide Scan, EndIn, Follow, Taken, Runs;
    Edge0();
    Edge9();
    PlainFirst(Code(), G0(), 0);
    EndsInBranch(Code(), G0(), 0, 0, 1, 4, G9(), G10());
  }

  lemma Edge1()
    ensures ValidCode(Code()) && Follow(Code(), G1(), 1, 4, 0) == Some(G2())
  {
    hide Scan, EndIn, Follow, Taken;
    FollowsOld(Code(), G1(), 1, 4, 0, 0, G2());
  }

  lemma Edge4()
    ensures ValidCode(Code()) && Follow(Code(), G4(), 3, 2, 6) == Some(G6())
  {
    hide Scan, EndIn, Follow, Taken;
    Scanned4();
    FollowsNew(Code(), G4(), 3, 2, 6, G5(), G6());
  }

  lemma Edge6()
    ensures ValidCode(Code()) && Follow(Code(), G6(), 3, 2, 3) == Some(G8())
  {
    hide Scan, EndIn, Follow, Taken;
    Scanned6();
    FollowsNew(Code(), G6(), 3, 2, 3, G7(), G8());
  }

  lemma Edge3()
    ensures ValidCode(Code()) && Follow(Code(), G3(), 2, 5, 2) == Some(G8())
  {
    hide Scan, EndIn, Follow, Taken;
    Scanned3();
    FollowsNew(Code(), G3(), 2, 5, 2, G4(), G8());
  }

  lemma Edge8()
    ensures ValidCode(Code()) && Follow(Code(), G8(), 2, 5, 6) == Some(G9())
  {
    hide Scan, EndIn, Follow, Taken;
    FollowsOld(Code(), G8(), 2, 5, 6, 4, G9());
  }

  lemma Edge2()
    ensures ValidCode(Code()) && Follow(Code(), G2(), 1, 4, 5) == Some(G9())
  {
    hide Scan, EndIn, Follow, Taken;
    Scanned2();
    FollowsNew(Code(), G2(), 1, 4, 5, G3(), G9());
  }

  lemma Edge0()
    ensures ValidCode(Code()) && Follow(Code(), G0(), 0, 1, 4) == Some(G9())
  {
    hide Scan, EndIn, Follow, Taken;
    Scanned1();
    FollowsNew(Code(), G0(), 0, 1, 4, G1(), G9());
  }

  lemma Edge9()
    ensures ValidCode(Code()) && Follow(Code(), G9(), 0, 1, 2) == Some(G10())
  {
    hide Scan, EndIn, Follow, Taken;
    FollowsOld(Code(), G9(), 0, 1, 2, 3, G10());
  }

  lemma Blocks()
    ensures ValidCode(Code()) && Constructed(Code()) == Some(G10())
  {
    hide Scan;
    Scanned0();
    SameEqual(G0(), ENTRY);
  }

  lemma ExampleValid(f: Problem)
    requires IsInput(f, Code())
    ensures f.Valid() && DI.Connected(f) && f.graph == G10()
  {
    hide AllCells, Scan, Built, Problem.Valid, G10, Code, DI.Connected;
    Blocks();
    InputValid(f, Code(), G10());
  }

  // ---- Its definitions ----

  const ATENTRY := Site(0, 0, R3, false)
  const ATSTORE := Site(6, 3, R3, false)

  function A(visit: nat): NC.Def { NC.Def(ATENTRY, visit) }

  function B(visit: nat): NC.Def { NC.Def(ATSTORE, visit) }

  function SKETCH(): Sketch {
    Sketch(G10(), [Some(ATENTRY), None, None, None, None, None, Some(ATSTORE)],
           [None, None, None, None, None, None, None])
  }

  lemma Plain(f: Problem)
    requires f.code == Code() && f.graph == G10()
    ensures Simple(f)
  {
    hide AllCells;
  }

  lemma Sketched(f: Problem)
    requires IsInput(f, Code()) && f.Valid() && f.graph == G10()
    ensures IsSketch(f, SKETCH())
  {
    hide AllCells, Graph.Valid, Scan, Simple, IsSketch;
    Plain(f);
    forall b | f.graph.Internal(b)
      ensures SKETCH().of3[b] == Maker(f.code, b, f.Start(b), f.Stop(b), R3)
      ensures SKETCH().of4[b] == Maker(f.code, b, f.Start(b), f.Stop(b), R4)
    {
      MakerShort(f.code, b, f.Start(b), R3);
      MakerShort(f.code, b, f.Start(b), R4);
    }
    SketchFits(f, SKETCH());
  }

  // ---- The run ----

  function START(): Column {
    Column([{}, {}, {}, {}, {}, {}, {}], [{}, {}, {}, {}, {}, {}, {}], [0, 1, 2, 3, 4, 6])
  }

  function VISITS(): seq<Visit> {
    [Visit(0, {A(1)}, {}, [1, 2, 3, 4, 6]),
     Visit(1, {A(1)}, {}, [0, 2, 3, 4, 6]),
     Visit(0, {A(3)}, {}, [2, 3, 4, 6]),
     Visit(2, {A(1)}, {}, [3, 4, 6]),
     Visit(3, {A(1), A(3)}, {}, [4, 6]),
     Visit(4, {A(1), A(3)}, {}, [6]),
     Visit(6, {B(7)}, {}, [1]),
     Visit(1, {A(3), B(7)}, {}, [2, 0]),
     Visit(2, {A(3), B(7)}, {}, [4, 3, 0]),
     Visit(4, {A(1), A(3), B(7)}, {}, [3, 0]),
     Visit(3, {A(3), B(7)}, {}, [0]),
     Visit(0, {A(12)}, {}, [])]
  }

  function S(n: nat): Column
    requires n <= 12
  {
    State(START(), VISITS(), n)
  }

  lemma Rows()
    ensures |G10().blocks| == 7 && |G10().psTable| >= 7
    ensures forall b: nat :: G10().Internal(b) <==> b < 7 && b != 5
    ensures G10().psTable[0].pred == [1] && G10().psTable[0].succ == [1, 3]
    ensures G10().psTable[1].pred == [0, 6] && G10().psTable[1].succ == [0, 2]
    ensures G10().psTable[2].pred == [1] && G10().psTable[2].succ == [3, 4]
    ensures G10().psTable[3].pred == [2, 0] && G10().psTable[3].succ == [4, 6]
    ensures G10().psTable[4].pred == [3, 2] && G10().psTable[4].succ == [5]
    ensures G10().psTable[5].pred == [4] && G10().psTable[5].succ == []
    ensures G10().psTable[6].pred == [3] && G10().psTable[6].succ == [1]
  {
  }

  lemma Right1() ensures Right(SKETCH(), S(0), 1, VISITS()[0]) { hide G10; Rows(); }

  lemma Right2() ensures Right(SKETCH(), S(1), 2, VISITS()[1]) { hide G10; Rows(); }

  lemma Right3() ensures Right(SKETCH(), S(2), 3, VISITS()[2]) { hide G10; Rows(); }

  lemma Right4() ensures Right(SKETCH(), S(3), 4, VISITS()[3]) { hide G10; Rows(); }

  lemma Right5() ensures Right(SKETCH(), S(4), 5, VISITS()[4]) { hide G10; Rows(); }

  lemma Right6() ensures Right(SKETCH(), S(5), 6, VISITS()[5]) { hide G10; Rows(); }

  lemma Right7() ensures Right(SKETCH(), S(6), 7, VISITS()[6]) { hide G10; Rows(); }

  lemma Right8() ensures Right(SKETCH(), S(7), 8, VISITS()[7]) { hide G10; Rows(); }

  lemma Right9() ensures Right(SKETCH(), S(8), 9, VISITS()[8]) { hide G10; Rows(); }

  lemma Right10() ensures Right(SKETCH(), S(9), 10, VISITS()[9]) { hide G10; Rows(); }

  lemma Right11() ensures Right(SKETCH(), S(10), 11, VISITS()[10]) { hide G10; Rows(); }

  lemma Right12() ensures Right(SKETCH(), S(11), 12, VISITS()[11]) { hide G10; Rows(); }

  lemma TableRight()
    ensures AllRight(SKETCH(), START(), VISITS())
  {
    hide Right, SKETCH, START, State, G10;
    Right1(); Right2(); Right3(); Right4(); Right5(); Right6();
    Right7(); Right8(); Right9(); Right10(); Right11(); Right12();
  }

  lemma ListedFrom3(f: Problem)
    requires IsInput(f, Code()) && f.Valid() && f.graph == G10()
    ensures f.graph.Internal(3) && DI.Explored(f, [0, 1, 2], 3) == [0, 1, 2, 3, 4, 6]
  {
    hide Graph.Valid, DI.Explored, AllCells, Scan;
    ExploreOne(f, [0, 1, 2, 3], 4, 5);
    assert [0, 1, 2, 3] + [4] == [0, 1, 2, 3, 4];
    ExploreOne(f, [0, 1, 2, 3, 4], 6, 1);
    assert [0, 1, 2, 3, 4] + [6] == [0, 1, 2, 3, 4, 6];
    ExploreTwo(f, [0, 1, 2], 3, 4, 6);
    assert [0, 1, 2] + [3] == [0, 1, 2, 3];
  }

  lemma ListedFrom1(f: Problem)
    requires IsInput(f, Code()) && f.Valid() && f.graph == G10()
    ensures f.graph.Internal(1) && DI.Explored(f, [0], 1) == [0, 1, 2, 3, 4, 6]
  {
    hide Graph.Valid, DI.Explored, AllCells, Scan;
    ListedFrom3(f);
    ExploreTwo(f, [0, 1], 2, 3, 4);
    assert [0, 1] + [2] == [0, 1, 2];
    ExploreTwo(f, [0], 1, 0, 2);
    assert [0] + [1] == [0, 1];
  }

  lemma Listing(f: Problem)
    requires IsInput(f, Code()) && f.Valid() && f.graph == G10()
    ensures DI.First(f) == [0, 1, 2, 3, 4, 6]
  {
    hide Graph.Valid, DI.Explored, AllCells, Scan;
    ListedFrom1(f);
    ExploreTwo(f, [], 0, 1, 3);
    assert [] + [0] == [0];
  }

  lemma ComesTo(f: Problem, n: nat)
    requires IsInput(f, Code()) && f.Valid() && f.graph == G10() && n <= 12
    ensures Comes(f, S(n), n)
  {
    hide AllCells, IsSketch, SKETCH, VISITS, Right, Comes, AllRight, State, Scan, Graph.Valid, DI.First;
    Listing(f);
    Sketched(f);
    TableRight();
    VisitsSize();
    ComesBy(f, SKETCH(), START(), VISITS(), n);
  }

  lemma VisitsSize()
    ensures |VISITS()| == 12
  {
  }

  // ---- Every output is right ----

  lemma AllSolved(f: Problem, b: nat)
    requires IsInput(f, Code()) && f.Valid() && f.graph == G10() && f.graph.Internal(b) && Comes(f, S(12), 12)
    ensures Shaped(f, NC.OutSites(RunOf(f, 12).out)) && Solved(f, NC.OutSites(RunOf(f, 12).out), b)
  {
    hide AllCells, Graph.Valid, Scan, RunOf, Shows, IsSketch, NC.OutSites, Solved;
    Sketched(f);
    SameSites(b);
    SolvedIfSame(f, RunOf(f, 12), SKETCH(), S(12), b);
  }

  lemma SameSites(b: nat)
    requires G10().Internal(b)
    ensures b < |S(12).out3| && |G10().psTable[b].pred| <= 2
    ensures NC.SitesOf(Made(SKETCH().of3[b], S(12).out3, G10().psTable[b].pred, 0)) == NC.SitesOf(S(12).out3[b])
    ensures NC.SitesOf(Made(SKETCH().of4[b], S(12).out4, G10().psTable[b].pred, 0)) == NC.SitesOf(S(12).out4[b])
  {
    hide S, G10;
    Rows();
    AtLast();
    NoneInR4(12);
  }

  lemma AtLast()
    ensures |S(12).out3| == 7
    ensures S(12).out3[0] == {A(12)} && S(12).out3[4] == {A(1), A(3), B(7)} && S(12).out3[6] == {B(7)}
    ensures S(12).out3[1] == S(12).out3[2] == S(12).out3[3] == {A(3), B(7)}
  {
  }

  lemma {:induction false} NoneInR4(n: nat)
    requires n <= 12
    ensures |S(n).out4| == 7 && forall b :: 0 <= b < 7 ==> S(n).out4[b] == {}
  {
    if n > 0 { NoneInR4(n - 1); }
  }

  lemma OutputsRight(f: Problem)
    requires IsInput(f, Code()) && f.Valid() && f.graph == G10() && Comes(f, S(12), 12)
    ensures RunOf(f, 12).worklist == [] && LeastFixpoint(f, NC.OutSites(RunOf(f, 12).out))
  {
    hide AllCells, Graph.Valid, Scan, Solved, LeastFixpoint, G10, IsSketch, NC.OutSites, NC.After, DI.First, Leq,
         Growing;
    forall b | f.graph.Internal(b) { AllSolved(f, b); }
    NC.CountedRunsAreSound(f, DI.First(f), 12);
  }

  // ---- The store's sink is not ----

  lemma GivenAtStore(f: Problem)
    requires IsInput(f, Code()) && f.Valid() && f.graph == G10()
    ensures f.graph.Internal(6) && R3 in AllCells()
    ensures Given(f, 12, 6).Some? && R3 in Given(f, 12, 6).value && Given(f, 12, 6).value[R3] == {ATENTRY}
  {
    hide AllCells, Graph.Valid, Scan, Given, Comes, RunOf, DI.EntryContext, NC.OutSites, Shows, Joined, NC.SitesOf, S;
    ComesTo(f, 6);
    GivenSince(f);
    BeforeStore();
    GivenNow(f, 6, S(6), 6);
    ComesShows(f, S(6), 6);
    EntryShown(f, RunOf(f, 6), S(6), 6);
  }

  lemma GivenSince(f: Problem)
    requires IsInput(f, Code()) && f.Valid() && f.graph == G10()
    ensures f.graph.Internal(6) && Given(f, 12, 6) == Given(f, 7, 6)
  {
    hide AllCells, Graph.Valid, Scan, Given, Comes, RunOf, S, State;
    GivenKept(f, 7);
    GivenKept(f, 8);
    GivenKept(f, 9);
    GivenKept(f, 10);
    GivenKept(f, 11);
  }

  lemma GivenKept(f: Problem, n: nat)
    requires IsInput(f, Code()) && f.Valid() && f.graph == G10() && 7 <= n <= 11
    ensures f.graph.Internal(6) && Given(f, n + 1, 6) == Given(f, n, 6)
  {
    hide AllCells, Graph.Valid, Scan, Given, Comes, RunOf, S;
    ComesTo(f, n);
    Elsewhere(n);
    GivenSame(f, n, S(n), 6);
  }

  lemma Elsewhere(n: nat)
    requires 7 <= n <= 11
    ensures S(n).worklist != [] && S(n).worklist[0] != 6
  {
    hide START, SKETCH, State;
    TableRight();
    VisitsSize();
    assert Right(SKETCH(), State(START(), VISITS(), n), n + 1, VISITS()[n]);
  }

  lemma BeforeStore()
    ensures S(6).worklist == [6] && NC.SitesOf(Joined(S(6).out3, [3])) == {ATENTRY}
  {
    assert Joined(S(6).out3, [3]) == {A(1), A(3)};
  }

  lemma EntryAtEnd(f: Problem)
    requires f.Valid() && f.graph == G10() && Comes(f, S(12), 12)
    ensures f.graph.Internal(6) && R3 in AllCells() && Shaped(f, NC.OutSites(RunOf(f, 12).out))
    ensures DI.EntryContext(f, NC.OutSites(RunOf(f, 12).out), 6)[R3] == {ATENTRY, ATSTORE}
  {
    hide AllCells, Graph.Valid, Comes, RunOf, DI.EntryContext, NC.OutSites, Shaped, Shows, S, Joined, NC.SitesOf;
    ComesShows(f, S(12), 12);
    EntryShown(f, RunOf(f, 12), S(12), 6);
    JoinedAtStore();
  }

  lemma JoinedAtStore()
    ensures NC.SitesOf(Joined(S(12).out3, [3])) == {ATENTRY, ATSTORE}
  {
    assert Joined(S(12).out3, [3]) == {A(3), B(7)};
  }

  lemma BothReachStore(f: Problem)
    requires f.Valid() && f.graph == G10() && Comes(f, S(12), 12)
    requires LeastFixpoint(f, NC.OutSites(RunOf(f, 12).out))
    ensures f.graph.Internal(6) && R3 in AllCells()
    ensures DI.EntryContext(f, PathOuts(f), 6)[R3] == {ATENTRY, ATSTORE}
  {
    hide AllCells, Graph.Valid, Comes, RunOf, DI.EntryContext, NC.OutSites, LeastFixpoint, PathOuts, S;
    LeastIffPaths(f, NC.OutSites(RunOf(f, 12).out));
    EntryAtEnd(f);
  }

  /** The store's operand is the register's definitions on entry to the block. */
  lemma StoreShape(f: Problem, e: Context<Site>)
    requires IsInput(f, Code()) && f.Valid() && f.graph == G10() && R3 in e && e[R3] != {}
    ensures f.graph.Internal(6)
    ensures ExpectedShapes(f, 6, e) == [SinkShape(3, [ImmOperand(4), DefOperand(e[R3])])]
  {
    hide AllCells, Graph.Valid, Scan, EffectOf;
    assert CellOf(Location(GPR, 3)) == Some(R3);
    assert Before(f, 6, 3, e)[R3] == e[R3];
    assert ExpectedOperands(f.code[3], Before(f, 6, 3, e)) == [ImmOperand(4), DefOperand(e[R3])];
    assert ExpectedSinks(f, 6, 3, e) == [];
  }

  /** The run of the code ends after twelve visits with the least solution; but the sink of the store has as its
      address only the definition at the entry, although the one at the store itself reaches it too.  No pass that
      follows this run is complete. */
  lemma EndsStale(f: Problem)
    requires IsInput(f, Code())
    ensures f.Valid() && RunOf(f, 12).worklist == [] && LeastFixpoint(f, NC.OutSites(RunOf(f, 12).out))
    ensures f.graph.Internal(6) && Given(f, 12, 6).Some?
    ensures ExpectedShapes(f, 6, Given(f, 12, 6).value) == [SinkShape(3, [ImmOperand(4), DefOperand({ATENTRY})])]
    ensures ExpectedShapes(f, 6, DI.EntryContext(f, PathOuts(f), 6))
         == [SinkShape(3, [ImmOperand(4), DefOperand({ATENTRY, ATSTORE})])]
    ensures forall r: DI.Results :: AsGiven(f, 12, r) ==> !DI.Complete(f, r.nodes, r.contexts, r.sinks)
  {
    hide AllCells, Graph.Valid, Scan, Given, Comes, RunOf, DI.EntryContext, NC.OutSites, LeastFixpoint, PathOuts, G10,
         ExpectedShapes, IsSketch;
    ExampleValid(f);
    ComesTo(f, 12);
    OutputsRight(f);
    GivenAtStore(f);
    BothReachStore(f);
    StoreShape(f, Given(f, 12, 6).value);
    StoreShape(f, DI.EntryContext(f, PathOuts(f), 6));
    forall r: DI.Results | AsGiven(f, 12, r) && DI.Complete(f, r.nodes, r.contexts, r.sinks)
      ensures false
    {
      CompleteIsFresh(f, 12, r, 6);
    }
  }

  lemma CompleteIsFresh(f: Problem, n: nat, r: DI.Results, b: nat)
    requires f.Valid() && AsGiven(f, n, r) && DI.Complete(f, r.nodes, r.contexts, r.sinks)
    requires f.graph.Internal(b) && Given(f, n, b).Some?
    ensures ExpectedShapes(f, b, Given(f, n, b).value) == ExpectedShapes(f, b, DI.EntryContext(f, PathOuts(f), b))
  {
    hide AllCells, Graph.Valid, Given, DI.EntryContext, DI.SiteOuts, LeastFixpoint, PathOuts, ExpectedShapes, ShapesOf,
         Sinks, DI.UpToDate, DefinitionsOnly;
    var out := DI.SiteOuts(r.nodes, r.contexts);
    LeastIffPaths(f, out);
    assert DI.Sunk(f, DI.Results(r.nodes, r.contexts, r.sinks), out, b);
  }
}
