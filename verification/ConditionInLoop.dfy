/** A four-instruction function with one loop and one register on which the run that counts nodes never ends. */
module ConditionInLoop {
  import opened Wrappers
  import opened Instructions
  import opened MachineCode
  import opened ControlFlowGraphs
  import opened BlockInvariants
  import opened BlockConstruction
  import opened BuiltProblems
  import opened ExampleGraphs
  import opened FlowContexts
  import opened ReachingDefinitions
  import DI = DataFlowInvariants
  import NC = NodeCounting
  import NR = NodeRuns
  import ER = EndlessRuns

  /** do { if (!c) r3 = 1; } while (d); return r3; */
  function Code(): seq<Insn> {
    [BranchTo(2), Define(3), BranchTo(0), RETURN]
  }

  // ---- Its blocks, as they are made ----

  function G0(): Graph {
    Graph([Block(0, 0, false)],
          [NONE])
  }

  function G1(): Graph {
    Graph([Block(0, 0, false), Block(2, 2, false)],
          [PSEntry([], [1]), PSEntry([0], [])])
  }

  function G2(): Graph {
    Graph([Block(0, 0, false), Block(2, 2, false)],
          [PSEntry([1], [1]), PSEntry([0], [0]), NONE])
  }

  function G3(): Graph {
    Graph([Block(0, 0, false), Block(2, 2, false), Block(3, 3, false)],
          [PSEntry([1], [1]), PSEntry([0], [0, 2]), PSEntry([1], []), NONE])
  }

  function G4(): Graph {
    Graph([Block(0, 0, false), Block(2, 2, false), Block(3, 3, true), NewBlock(3, RUNTIME)],
          [PSEntry([1], [1]), PSEntry([0], [0, 2]), PSEntry([1], [3]), PSEntry([2], []), NONE])
  }

  function G5(): Graph {
    Graph([Block(0, 0, false), Block(2, 2, false), Block(3, 3, true), NewBlock(3, RUNTIME),
           Block(1, 1, false)],
          [PSEntry([1], [1, 4]), PSEntry([0], [0, 2]), PSEntry([1], [3]), PSEntry([2], []), PSEntry([0], []),
           NONE])
  }

  function G6(): Graph {
    Graph([Block(0, 0, false), Block(2, 2, false), Block(3, 3, true), NewBlock(3, RUNTIME),
           Block(1, 1, false)],
          [PSEntry([1], [1, 4]), PSEntry([0, 4], [0, 2]), PSEntry([1], [3]), PSEntry([2], []),
           PSEntry([0], [1]), NONE])
  }

  lemma Scanned4()
    ensures ValidCode(Code()) && Scan(Code(), G5(), 4, 1) == Some(G6())
  {
    hide Scan, EndIn, Follow, Taken;
    FallsThrough(Code(), G5(), 4, 1, 1, 1, G6());
  }

  lemma Scanned2()
    ensures ValidCode(Code()) && Scan(Code(), G3(), 2, 3) == Some(G4())
  {
    hide Scan, EndIn, Follow, Taken;
    EndsInReturn(Code(), G3(), 2, 3, 3, G4());
  }

  lemma Scanned1()
    ensures ValidCode(Code()) && Scan(Code(), G1(), 1, 2) == Some(G4())
  {
    hide Scan, EndIn, Follow, Taken;
    Edge1();
    Edge2();
    EndsInBranch(Code(), G1(), 1, 2, 2, 0, G2(), G4());
  }

  lemma Scanned0()
    ensures ValidCode(Code()) && Scan(Code(), G0(), 0, 0) == Some(G6())
  {
    hide Scan, EndIn, Follow, Taken;
    Edge0();
    Edge4();
    EndsInBranch(Code(), G0(), 0, 0, 0, 2, G4(), G6());
  }

  lemma Edge1()
    ensures ValidCode(Code()) && Follow(Code(), G1(), 1, 2, 0) == Some(G2())
  {
    hide Scan, EndIn, Follow, Taken;
    FollowsOld(Code(), G1(), 1, 2, 0, 0, G2());
  }

  lemma Edge2()
    ensures ValidCode(Code()) && Follow(Code(), G2(), 1, 2, 3) == Some(G4())
  {
    hide Scan, EndIn, Follow, Taken;
    Scanned2();
    FollowsNew(Code(), G2(), 1, 2, 3, G3(), G4());
  }

  lemma Edge0()
    ensures ValidCode(Code()) && Follow(Code(), G0(), 0, 0, 2) == Some(G4())
  {
    hide Scan, EndIn, Follow, Taken;
    Scanned1();
    FollowsNew(Code(), G0(), 0, 0, 2, G1(), G4());
  }

  lemma Edge4()
    ensures ValidCode(Code()) && Follow(Code(), G4(), 0, 0, 1) == Some(G6())
  {
    hide Scan, EndIn, Follow, Taken;
    Scanned4();
    FollowsNew(Code(), G4(), 0, 0, 1, G5(), G6());
  }

  lemma Blocks()
    ensures ValidCode(Code()) && Constructed(Code()) == Some(G6())
  {
    hide Scan;
    Scanned0();
    SameEqual(G0(), ENTRY);
  }

  // ---- The run ----

  const SITE := Site(4, 1, Gpr(3), false)

  lemma ExampleValid(f: Problem)
    requires IsInput(f, Code())
    ensures f.Valid() && DI.Connected(f) && f.graph == G6()
  {
    hide AllCells, Scan, Built, Problem.Valid, G6, Code, DI.Connected;
    Blocks();
    InputValid(f, Code(), G6());
  }

  /** For every first listing of the blocks and every number of steps, something is still waiting. */
  lemma NeverEnds(f: Problem, worklist: seq<nat>, n: nat)
    requires IsInput(f, Code()) && f.Valid()
    requires f.graph.Distinct(worklist) && forall b :: f.graph.Internal(b) ==> b in worklist
    ensures NC.Proper(f, NC.Initial(f, worklist)) && NC.After(f, NC.Initial(f, worklist), n).worklist != []
  {
    hide AllCells, Graph.Valid, Graph.Distinct, Scan, ER.LoopAround, NC.After, NC.Initial;
    ExampleValid(f);
    assert f.graph.Internal(4);
    NC.InitialProper(f, worklist);
    ExampleAround(f);
    ER.LoopNeverEnds(f, worklist, [1, 0], 4, SITE, n);
  }

  /** In particular the run of the code does not end. */
  lemma RunNeverEnds(f: Problem, n: nat)
    requires IsInput(f, Code())
    ensures f.Valid() && NR.RunOf(f, n).worklist != []
  {
    hide AllCells, Graph.Valid, Graph.Distinct, Graph.Entered, DI.Explored, Scan, NC.After, NC.Initial;
    ExampleValid(f);
    DI.ExploredFromEntry(f);
    NeverEnds(f, DI.First(f), n);
  }

  lemma ExampleAround(f: Problem)
    requires IsInput(f, Code()) && f.Valid() && f.graph == G6()
    ensures ER.LoopAround(f, [1, 0], 4, SITE)
  {
    hide AllCells, Graph.Valid, Scan;
    assert CellOf(f.code[1].outputs[0]) == Some(Gpr(3)) && Names(f.code[1].outputs, Gpr(3));
    assert EffectOf(f, 4, 1, Gpr(3)) == Gen(SITE);
    assert Born(f, SITE);
    assert ER.Passing(f, 1, Gpr(3)) && ER.Passing(f, 0, Gpr(3));
  }
}
