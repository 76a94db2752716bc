/** A function without loops on which the run that counts nodes ends too early: a definition that reaches the return
    is missing there. */
module MissedDefinition {
  import opened Wrappers
  import opened Instructions
  import opened MachineCode
  import opened ControlFlowGraphs
  import opened BlockInvariants
  import opened BlockConstruction
  import opened BuiltProblems
  import opened ExampleGraphs
  import opened ExampleRuns
  import opened FlowContexts
  import opened ReachingDefinitions
  import DI = DataFlowInvariants
  import NC = NodeCounting
  import opened NodeRuns
  import LF = LoopFreeRuns

  /** r3 and r4 are defined and branches only go forward. */
  function Code(): seq<Insn> {
    [Define(3), BranchTo(4), Define(4), BranchTo(6), Define(3), BranchTo(7), GoTo(7), BranchTo(8), RETURN]
  }

  // ---- Its blocks, as they are made ----

  function G0(): Graph {
    Graph([Block(0, 0, false)],
          [NONE])
  }

  function G1(): Graph {
    Graph([Block(0, 1, false), Block(4, 4, false)],
          [PSEntry([], [1]), PSEntry([0], [])])
  }

  function G2(): Graph {
    Graph([Block(0, 1, false), Block(4, 5, false), Block(7, 7, false)],
          [PSEntry([], [1]), PSEntry([0], [2]), PSEntry([1], [])])
  }

  function G3(): Graph {
    Graph([Block(0, 1, false), Block(4, 5, false), Block(7, 7, false), Block(8, 8, false)],
          [PSEntry([], [1]), PSEntry([0], [2]), PSEntry([1], [3]), PSEntry([2], [])])
  }

  function G4(): Graph {
    Graph([Block(0, 1, false), Block(4, 5, false), Block(7, 7, false), Block(8, 8, true),
           NewBlock(8, RUNTIME)],
          [PSEntry([], [1]), PSEntry([0], [2]), PSEntry([1], [3]), PSEntry([2], [4]), PSEntry([3], [])])
  }

  function G5(): Graph {
    Graph([Block(0, 1, false), Block(4, 5, false), Block(7, 7, false), Block(8, 8, true),
           NewBlock(8, RUNTIME)],
          [PSEntry([], [1]), PSEntry([0], [2]), PSEntry([1], [3, 3]), PSEntry([2, 2], [4]), PSEntry([3], []),
           NONE])
  }

  function G6(): Graph {
    Graph([Block(0, 1, false), Block(4, 5, false), Block(7, 7, false), Block(8, 8, true),
           NewBlock(8, RUNTIME), Block(6, 6, false)],
          [PSEntry([], [1]), PSEntry([0], [2, 5]), PSEntry([1], [3, 3]), PSEntry([2, 2], [4]),
           PSEntry([3], []), PSEntry([1], []), NONE])
  }

  function G7(): Graph {
    Graph([Block(0, 1, false), Block(4, 5, false), Block(7, 7, false), Block(8, 8, true),
           NewBlock(8, RUNTIME), Block(6, 6, false)],
          [PSEntry([], [1]), PSEntry([0], [2, 5]), PSEntry([1, 5], [3, 3]), PSEntry([2, 2], [4]),
           PSEntry([3], []), PSEntry([1], [2]), NONE, NONE])
  }

  function G8(): Graph {
    Graph([Block(0, 1, false), Block(4, 5, false), Block(7, 7, false), Block(8, 8, true),
           NewBlock(8, RUNTIME), Block(6, 6, false), Block(2, 2, false)],
          [PSEntry([], [1, 6]), PSEntry([0], [2, 5]), PSEntry([1, 5], [3, 3]), PSEntry([2, 2], [4]),
           PSEntry([3], []), PSEntry([1], [2]), PSEntry([0], []), NONE, NONE])
  }

  function G9(): Graph {
    Graph([Block(0, 1, false), Block(4, 5, false), Block(7, 7, false), Block(8, 8, true),
           NewBlock(8, RUNTIME), Block(6, 6, false), Block(2, 3, false)],
          [PSEntry([], [1, 6]), PSEntry([0], [2, 5]), PSEntry([1, 5], [3, 3]), PSEntry([2, 2], [4]),
           PSEntry([3], []), PSEntry([1, 6], [2]), PSEntry([0], [5]), NONE, NONE, NONE])
  }

  function G10(): Graph {
    Graph([Block(0, 1, false), Block(4, 5, false), Block(7, 7, false), Block(8, 8, true),
           NewBlock(8, RUNTIME), Block(6, 6, false), Block(2, 3, false)],
          [PSEntry([], [1, 6]), PSEntry([0, 6], [2, 5]), PSEntry([1, 5], [3, 3]), PSEntry([2, 2], [4]),
           PSEntry([3], []), PSEntry([1, 6], [2]), PSEntry([0], [5, 1]), NONE, NONE, NONE, NONE])
  }

  lemma Scanned6()
    ensures ValidCode(Code()) && Scan(Code(), G8(), 6, 2) == Some(G10())
  {
    hide Scan, EndIn, Follow, Taken, Runs;
    Edge8();
    Edge9();
    PlainFirst(Code(), G8(), 2);
    EndsInBranch(Code(), G8(), 6, 2, 3, 6, G9(), G10());
  }

  lemma Scanned5()
    ensures ValidCode(Code()) && Scan(Code(), G6(), 5, 6) == Some(G7())
  {
    hide Scan, EndIn, Follow, Taken;
    Edge6();
    EndsInJump(Code(), G6(), 5, 6, 6, 7, G7());
  }

  lemma Scanned3()
    ensures ValidCode(Code()) && Scan(Code(), G3(), 3, 8) == Some(G4())
  {
    hide Scan, EndIn, Follow, Taken;
    EndsInReturn(Code(), G3(), 3, 8, 8, G4());
  }

  lemma Scanned2()
    ensures ValidCode(Code()) && Scan(Code(), G2(), 2, 7) == Some(G5())
  {
    hide Scan, EndIn, Follow, Taken;
    Edge2();
    Edge4();
    EndsInBranch(Code(), G2(), 2, 7, 7, 8, G4(), G5());
  }

  lemma Scanned1()
    ensures ValidCode(Code()) && Scan(Code(), G1(), 1, 4) == Some(G7())
  {
    hide Scan, EndIn, Follow, Taken, Runs;
    Edge1();
    Edge5();
    PlainFirst(Code(), G1(), 4);
    EndsInBranch(Code(), G1(), 1, 4, 5, 7, G5(), G7());
  }

  lemma Scanned0()
    ensures ValidCode(Code()) && Scan(Code(), G0(), 0, 0) == Some(G10())
  {
    hide Scan, EndIn, Follow, Taken, Runs;
    Edge0();
    Edge7();
    PlainFirst(Code(), G0(), 0);
    EndsInBranch(Code(), G0(), 0, 0, 1, 4, G7(), G10());
  }

  lemma Edge2()
    ensures ValidCode(Code()) && Follow(Code(), G2(), 2, 7, 8) == Some(G4())
  {
    hide Scan, EndIn, Follow, Taken;
    Scanned3();
    FollowsNew(Code(), G2(), 2, 7, 8, G3(), G4());
  }

  lemma Edge4()
    ensures ValidCode(Code()) && Follow(Code(), G4(), 2, 7, 8) == Some(G5())
  {
    hide Scan, EndIn, Follow, Taken;
    FollowsOld(Code(), G4(), 2, 7, 8, 3, G5());
  }

  lemma Edge1()
    ensures ValidCode(Code()) && Follow(Code(), G1(), 1, 5, 7) == Some(G5())
  {
    hide Scan, EndIn, Follow, Taken;
    Scanned2();
    FollowsNew(Code(), G1(), 1, 5, 7, G2(), G5());
  }

  lemma Edge6()
    ensures ValidCode(Code()) && Follow(Code(), G6(), 5, 6, 7) == Some(G7())
  {
    hide Scan, EndIn, Follow, Taken;
    FollowsOld(Code(), G6(), 5, 6, 7, 2, G7());
  }

  lemma Edge5()
    ensures ValidCode(Code()) && Follow(Code(), G5(), 1, 5, 6) == Some(G7())
  {
    hide Scan, EndIn, Follow, Taken;
    Scanned5();
    FollowsNew(Code(), G5(), 1, 5, 6, G6(), G7());
  }

  lemma Edge0()
    ensures ValidCode(Code()) && Follow(Code(), G0(), 0, 1, 4) == Some(G7())
  {
    hide Scan, EndIn, Follow, Taken;
    Scanned1();
    FollowsNew(Code(), G0(), 0, 1, 4, G1(), G7());
  }

  lemma Edge8()
    ensures ValidCode(Code()) && Follow(Code(), G8(), 6, 3, 6) == Some(G9())
  {
    hide Scan, EndIn, Follow, Taken;
    FollowsOld(Code(), G8(), 6, 3, 6, 5, G9());
  }

  lemma Edge9()
    ensures ValidCode(Code()) && Follow(Code(), G9(), 6, 3, 4) == Some(G10())
  {
    hide Scan, EndIn, Follow, Taken;
    FollowsOld(Code(), G9(), 6, 3, 4, 1, G10());
  }

  lemma Edge7()
    ensures ValidCode(Code()) && Follow(Code(), G7(), 0, 1, 2) == Some(G10())
  {
    hide Scan, EndIn, Follow, Taken;
    Scanned6();
    FollowsNew(Code(), G7(), 0, 1, 2, G8(), G10());
  }

  lemma Blocks()
    ensures ValidCode(Code()) && Constructed(Code()) == Some(G10())
  {
    hide Scan;
    Scanned0();
    SameEqual(G0(), ENTRY);
  }

  lemma ExampleValid(f: Problem)
    requires IsInput(f, Code())
    ensures f.Valid() && DI.Connected(f) && f.graph == G10()
  {
    hide AllCells, Scan, Built, Problem.Valid, G10, Code, DI.Connected;
    Blocks();
    InputValid(f, Code(), G10());
  }

  // ---- Its definitions ----

  const FIRST3 := Site(0, 0, R3, false)
  const SECOND3 := Site(1, 4, R3, false)
  const ONLY4 := Site(6, 2, R4, false)

  function A(visit: nat): NC.Def { NC.Def(FIRST3, visit) }

  function B(visit: nat): NC.Def { NC.Def(SECOND3, visit) }

  function C(visit: nat): NC.Def { NC.Def(ONLY4, visit) }

  function SKETCH(): Sketch {
    Sketch(G10(), [Some(FIRST3), Some(SECOND3), None, None, None, None, None],
           [None, None, None, None, None, None, Some(ONLY4)])
  }

  lemma Plain(f: Problem)
    requires f.code == Code() && f.graph == G10()
    ensures Simple(f)
  {
    hide AllCells;
  }

  lemma Sketched(f: Problem)
    requires IsInput(f, Code()) && f.Valid() && f.graph == G10()
    ensures IsSketch(f, SKETCH())
  {
    hide AllCells, Graph.Valid, Scan, Simple, IsSketch;
    Plain(f);
    forall b | f.graph.Internal(b)
      ensures SKETCH().of3[b] == Maker(f.code, b, f.Start(b), f.Stop(b), R3)
      ensures SKETCH().of4[b] == Maker(f.code, b, f.Start(b), f.Stop(b), R4)
    {
      MakerShort(f.code, b, f.Start(b), R3);
      MakerShort(f.code, b, f.Start(b), R4);
    }
    SketchFits(f, SKETCH());
  }

  // ---- The run ----

  function START(): Column {
    Column([{}, {}, {}, {}, {}, {}, {}], [{}, {}, {}, {}, {}, {}, {}], [0, 1, 2, 3, 5, 6])
  }

  function VISITS(): seq<Visit> {
    [Visit(0, {A(1)}, {}, [1, 2, 3, 5, 6]),
     Visit(1, {B(2)}, {}, [2, 3, 5, 6]),
     Visit(2, {B(2)}, {}, [3, 5, 6]),
     Visit(3, {B(2)}, {}, [5, 6]),
     Visit(5, {B(2)}, {}, [2, 6]),
     Visit(2, {B(2)}, {}, [6]),
     Visit(6, {A(1)}, {C(7)}, [1, 5]),
     Visit(1, {B(8)}, {C(7)}, [2, 5]),
     Visit(2, {B(2), B(8)}, {C(7)}, [3, 5]),
     Visit(3, {B(2), B(8)}, {C(7)}, [5]),
     Visit(5, {A(1), B(8)}, {C(7)}, [2]),
     Visit(2, {A(1), B(8)}, {C(7)}, [])]
  }

  function S(n: nat): Column
    requires n <= 12
  {
    State(START(), VISITS(), n)
  }

  lemma Rows()
    ensures |G10().blocks| == 7 && |G10().psTable| >= 7
    ensures forall b: nat :: G10().Internal(b) <==> b < 7 && b != 4
    ensures G10().psTable[0].pred == [] && G10().psTable[0].succ == [1, 6]
    ensures G10().psTable[1].pred == [0, 6] && G10().psTable[1].succ == [2, 5]
    ensures G10().psTable[2].pred == [1, 5] && G10().psTable[2].succ == [3, 3]
    ensures G10().psTable[3].pred == [2, 2] && G10().psTable[3].succ == [4]
    ensures G10().psTable[4].pred == [3] && G10().psTable[4].succ == []
    ensures G10().psTable[5].pred == [1, 6] && G10().psTable[5].succ == [2]
    ensures G10().psTable[6].pred == [0] && G10().psTable[6].succ == [5, 1]
  {
  }

  lemma Right1() ensures Right(SKETCH(), S(0), 1, VISITS()[0]) { hide G10; Rows(); }

  lemma Right2() ensures Right(SKETCH(), S(1), 2, VISITS()[1]) { hide G10; Rows(); }

  lemma Right3() ensures Right(SKETCH(), S(2), 3, VISITS()[2]) { hide G10; Rows(); }

  lemma Right4() ensures Right(SKETCH(), S(3), 4, VISITS()[3]) { hide G10; Rows(); }

  lemma Right5() ensures Right(SKETCH(), S(4), 5, VISITS()[4]) { hide G10; Rows(); }

  lemma Right6() ensures Right(SKETCH(), S(5), 6, VISITS()[5]) { hide G10; Rows(); }

  lemma Right7() ensures Right(SKETCH(), S(6), 7, VISITS()[6]) { hide G10; Rows(); }

  lemma Right8() ensures Right(SKETCH(), S(7), 8, VISITS()[7]) { hide G10; Rows(); }

  lemma Right9() ensures Right(SKETCH(), S(8), 9, VISITS()[8]) { hide G10; Rows(); }

  lemma Right10() ensures Right(SKETCH(), S(9), 10, VISITS()[9]) { hide G10; Rows(); }

  lemma Right11() ensures Right(SKETCH(), S(10), 11, VISITS()[10]) { hide G10; Rows(); }

  lemma Right12() ensures Right(SKETCH(), S(11), 12, VISITS()[11]) { hide G10; Rows(); }

  lemma TableRight()
    ensures AllRight(SKETCH(), START(), VISITS())
  {
    hide Right, SKETCH, START, State, G10;
    Right1(); Right2(); Right3(); Right4(); Right5(); Right6();
    Right7(); Right8(); Right9(); Right10(); Right11(); Right12();
  }

  lemma ListedFrom2(f: Problem)
    requires IsInput(f, Code()) && f.Valid() && f.graph == G10()
    ensures f.graph.Internal(2) && DI.Explored(f, [0, 1], 2) == [0, 1, 2, 3]
  {
    hide Graph.Valid, DI.Explored, AllCells, Scan;
    ExploreOne(f, [0, 1, 2], 3, 4);
    assert [0, 1, 2] + [3] == [0, 1, 2, 3];
    ExploreTwo(f, [0, 1], 2, 3, 3);
    assert [0, 1] + [2] == [0, 1, 2];
  }

  lemma ListedFrom1(f: Problem)
    requires IsInput(f, Code()) && f.Valid() && f.graph == G10()
    ensures f.graph.Internal(1) && DI.Explored(f, [0], 1) == [0, 1, 2, 3, 5]
  {
    hide Graph.Valid, DI.Explored, AllCells, Scan;
    ListedFrom2(f);
    ExploreOne(f, [0, 1, 2, 3], 5, 2);
    assert [0, 1, 2, 3] + [5] == [0, 1, 2, 3, 5];
    ExploreTwo(f, [0], 1, 2, 5);
    assert [0] + [1] == [0, 1];
  }

  lemma Listing(f: Problem)
    requires IsInput(f, Code()) && f.Valid() && f.graph == G10()
    ensures DI.First(f) == [0, 1, 2, 3, 5, 6]
  {
    hide Graph.Valid, DI.Explored, AllCells, Scan;
    ListedFrom1(f);
    ExploreTwo(f, [0, 1, 2, 3, 5], 6, 5, 1);
    assert [0, 1, 2, 3, 5] + [6] == [0, 1, 2, 3, 5, 6];
    ExploreTwo(f, [], 0, 1, 6);
    assert [] + [0] == [0];
  }

  lemma Comes12(f: Problem)
    requires IsInput(f, Code()) && f.Valid() && f.graph == G10()
    ensures Comes(f, S(12), 12)
  {
    hide AllCells, IsSketch, SKETCH, VISITS, Right, Comes, AllRight, State, Scan, Graph.Valid, DI.First;
    Listing(f);
    Sketched(f);
    TableRight();
    VisitsSize();
    ComesBy(f, SKETCH(), START(), VISITS(), 12);
  }

  lemma VisitsSize()
    ensures |VISITS()| == 12
  {
  }

  // ---- What is missing ----

  lemma Effects(f: Problem, b: nat, pc: nat, c: Cell)
    requires IsInput(f, Code()) && f.graph == G10() && f.graph.Internal(b) && pc < 9
    ensures EffectOf(f, b, pc, c)
         == if (c == R3 && (pc == 0 || pc == 4)) || (c == R4 && pc == 2) then Gen(Site(b, pc, c, false)) else Pass
  {
    hide AllCells, Scan, EffectOf;
    PlainEffect(f, b, pc, c);
  }

  lemma Reaching(f: Problem)
    requires IsInput(f, Code()) && f.Valid() && f.graph == G10()
    ensures Reaches(f, FIRST3, 3)
  {
    hide AllCells, EffectOf, Graph.Valid, Scan;
    forall b, pc, c | f.graph.Internal(b) && f.Start(b) <= pc < f.Stop(b)
      ensures EffectOf(f, b, pc, c)
           == if (c == R3 && (pc == 0 || pc == 4)) || (c == R4 && pc == 2) then Gen(Site(b, pc, c, false)) else Pass
    {
      Effects(f, b, pc, c);
    }
    var w := [0, 6, 5, 2, 3];
    assert CarriedOn(f, R3, 0, 6) && CarriedOn(f, R3, 6, 5) && CarriedOn(f, R3, 5, 2) && CarriedOn(f, R3, 2, 3);
    assert Carries(f, FIRST3, w) && w[|w| - 1] == 3;
  }

  /** The order in which the blocks can be left for good. */
  function Rank(b: nat): nat {
    if b == 0 then 5 else if b == 6 then 4 else if b == 1 then 3 else if b == 5 then 2 else if b == 2 then 1
    else if b == 3 then 0 else 6
  }

  lemma EdgeDown(i: nat, j: nat)
    requires G10().Internal(i) && G10().Internal(j) && j in G10().psTable[i].succ
    ensures Rank(j) < Rank(i)
  {
  }

  lemma NoLoops(f: Problem)
    requires f.Valid() && f.graph == G10()
    ensures LF.LoopFree(f)
  {
    hide Graph.Valid, LF.LoopFree, Rank;
    var rank := seq(7, b requires 0 <= b < 7 => Rank(b));
    forall i, j | f.graph.Internal(i) && f.graph.Internal(j)
      ensures j in f.graph.psTable[i].succ ==> rank[j] < rank[i]
      ensures rank[i] == rank[j] ==> i == j
    {
      hide G10;
      if j in f.graph.psTable[i].succ { EdgeDown(i, j); }
      RankApart(i, j);
    }
    LF.RankDown(f, rank);
    LF.LoopFreeIffDownhill(f);
  }

  lemma RankApart(i: nat, j: nat)
    requires i < 7 && j < 7
    ensures Rank(i) == Rank(j) ==> i == j
  {
  }

  /** There are no loops; the run of the code ends after twelve visits; the definition in instruction 0 reaches the
      return, and is not among those found there. */
  lemma EndsTooEarly(f: Problem)
    requires IsInput(f, Code())
    ensures f.Valid() && LF.LoopFree(f)
    ensures var r := RunOf(f, 12);
      && r.worklist == [] && 3 < |r.out| && R3 in r.out[3]
      && Reaches(f, FIRST3, 3) && FIRST3 !in NC.SitesOf(r.out[3][R3])
      && !LeastFixpoint(f, NC.OutSites(r.out))
  {
    hide AllCells, Graph.Valid, Scan, Reaches, LeastFixpoint, LF.LoopFree, RunOf, G10, Shows, S, NC.OutSites,
         IsSketch;
    ExampleValid(f);
    NoLoops(f);
    Reaching(f);
    Comes12(f);
    Internal3(f);
    FoundAtReturn(f, RunOf(f, 12));
    var found := NC.OutSites(RunOf(f, 12).out);
    if LeastFixpoint(f, found) { LeastMeansReaching(f, found, 3, R3, FIRST3); }
  }

  lemma Internal3(f: Problem)
    requires f.graph == G10()
    ensures f.graph.Internal(3)
  {
  }

  lemma FoundAtReturn(f: Problem, r: NC.Run)
    requires Shows(f, r, S(12))
    ensures r.worklist == [] && 3 < |r.out| && R3 in r.out[3] && FIRST3 !in NC.SitesOf(r.out[3][R3])
    ensures R3 in AllCells() && |NC.OutSites(r.out)| == |r.out| && R3 in NC.OutSites(r.out)[3]
    ensures FIRST3 !in NC.OutSites(r.out)[3][R3]
  {
    hide AllCells, Graph.Valid, Graph.Distinct;
    ShowsSites(f, r, S(12), 3);
    assert FIRST3 !in NC.SitesOf(S(12).out3[3]);
  }
}
