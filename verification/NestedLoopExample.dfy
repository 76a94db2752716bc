/** A four-instruction function on which the run that counts nodes never ends. */
module NestedLoopExample {
  import opened Wrappers
  import opened Instructions
  import opened MachineCode
  import opened ControlFlowGraphs
  import opened BlockInvariants
  import opened BlockConstruction
  import opened BuiltProblems
  import opened ExampleGraphs
  import opened FlowContexts
  import opened ReachingDefinitions
  import DI = DataFlowInvariants
  import NC = NodeCounting
  import NR = NodeRuns
  import ER = EndlessRuns

  /** do { while (c) {} ; r3 = 1; } while (d); return r3; */
  function Code(): seq<Insn> {
    [BranchTo(0), Define(3), BranchTo(0), RETURN]
  }

  // ---- Its blocks, as they are made ----

  function G0(): Graph {
    Graph([Block(0, 0, false)],
          [NONE])
  }

  function G1(): Graph {
    Graph([Block(0, 0, false)],
          [PSEntry([0], [0]), NONE])
  }

  function G2(): Graph {
    Graph([Block(0, 0, false), Block(1, 1, false)],
          [PSEntry([0], [0, 1]), PSEntry([0], []), NONE])
  }

  function G3(): Graph {
    Graph([Block(0, 0, false), Block(1, 2, false)],
          [PSEntry([0, 1], [0, 1]), PSEntry([0], [0]), NONE, NONE])
  }

  function G4(): Graph {
    Graph([Block(0, 0, false), Block(1, 2, false), Block(3, 3, false)],
          [PSEntry([0, 1], [0, 1]), PSEntry([0], [0, 2]), PSEntry([1], []), NONE, NONE])
  }

  function G5(): Graph {
    Graph([Block(0, 0, false), Block(1, 2, false), Block(3, 3, true), NewBlock(3, RUNTIME)],
          [PSEntry([0, 1], [0, 1]), PSEntry([0], [0, 2]), PSEntry([1], [3]), PSEntry([2], []), NONE, NONE])
  }

  lemma Scanned2()
    ensures ValidCode(Code()) && Scan(Code(), G4(), 2, 3) == Some(G5())
  {
    hide Scan, EndIn, Follow, Taken;
    EndsInReturn(Code(), G4(), 2, 3, 3, G5());
  }

  lemma Scanned1()
    ensures ValidCode(Code()) && Scan(Code(), G2(), 1, 1) == Some(G5())
  {
    hide Scan, EndIn, Follow, Taken, Runs;
    Edge2();
    Edge3();
    PlainFirst(Code(), G2(), 1);
    EndsInBranch(Code(), G2(), 1, 1, 2, 0, G3(), G5());
  }

  lemma Scanned0()
    ensures ValidCode(Code()) && Scan(Code(), G0(), 0, 0) == Some(G5())
  {
    hide Scan, EndIn, Follow, Taken;
    Edge0();
    Edge1();
    EndsInBranch(Code(), G0(), 0, 0, 0, 0, G1(), G5());
  }

  lemma Edge0()
    ensures ValidCode(Code()) && Follow(Code(), G0(), 0, 0, 0) == Some(G1())
  {
    hide Scan, EndIn, Follow, Taken;
    FollowsOld(Code(), G0(), 0, 0, 0, 0, G1());
  }

  lemma Edge2()
    ensures ValidCode(Code()) && Follow(Code(), G2(), 1, 2, 0) == Some(G3())
  {
    hide Scan, EndIn, Follow, Taken;
    FollowsOld(Code(), G2(), 1, 2, 0, 0, G3());
  }

  lemma Edge3()
    ensures ValidCode(Code()) && Follow(Code(), G3(), 1, 2, 3) == Some(G5())
  {
    hide Scan, EndIn, Follow, Taken;
    Scanned2();
    FollowsNew(Code(), G3(), 1, 2, 3, G4(), G5());
  }

  lemma Edge1()
    ensures ValidCode(Code()) && Follow(Code(), G1(), 0, 0, 1) == Some(G5())
  {
    hide Scan, EndIn, Follow, Taken;
    Scanned1();
    FollowsNew(Code(), G1(), 0, 0, 1, G2(), G5());
  }

  /** The two conditional branches to an existing block each leave a surplus row. */
  lemma Blocks()
    ensures ValidCode(Code()) && Constructed(Code()) == Some(G5())
  {
    hide Scan;
    Scanned0();
    SameEqual(G0(), ENTRY);
  }

  // ---- The run ----

  const SITE := Site(1, 1, Gpr(3), false)

  lemma ExampleValid(f: Problem)
    requires IsInput(f, Code())
    ensures f.Valid() && DI.Connected(f) && f.graph == G5()
  {
    hide AllCells, Scan, Built, Problem.Valid, G5, Code, DI.Connected;
    Blocks();
    InputValid(f, Code(), G5());
  }

  /** For every first listing of the blocks and every number of steps, something is still waiting. */
  lemma NeverEnds(f: Problem, worklist: seq<nat>, n: nat)
    requires IsInput(f, Code()) && f.Valid()
    requires f.graph.Distinct(worklist) && forall b :: f.graph.Internal(b) ==> b in worklist
    ensures NC.Proper(f, NC.Initial(f, worklist)) && NC.After(f, NC.Initial(f, worklist), n).worklist != []
  {
    hide AllCells, Graph.Valid, Graph.Distinct, Scan, ER.NestedLoop, NC.After, NC.Initial;
    ExampleValid(f);
    assert f.graph.Internal(1);
    NC.InitialProper(f, worklist);
    ExampleNested(f);
    ER.NestedLoopNeverEnds(f, worklist, 0, 1, SITE, n);
  }

  /** In particular the run of the code does not end. */
  lemma RunNeverEnds(f: Problem, n: nat)
    requires IsInput(f, Code())
    ensures f.Valid() && NR.RunOf(f, n).worklist != []
  {
    hide AllCells, Graph.Valid, Graph.Distinct, Graph.Entered, DI.Explored, Scan, NC.After, NC.Initial;
    ExampleValid(f);
    DI.ExploredFromEntry(f);
    NeverEnds(f, DI.First(f), n);
  }

  lemma ExampleNested(f: Problem)
    requires IsInput(f, Code()) && f.Valid() && f.graph == G5()
    ensures ER.NestedLoop(f, 0, 1, SITE)
  {
    hide AllCells, Graph.Valid, Scan;
    assert CellOf(f.code[1].outputs[0]) == Some(Gpr(3));
    assert EffectOf(f, 1, 1, Gpr(3)) == Gen(SITE);
    assert Born(f, SITE);
  }
}
