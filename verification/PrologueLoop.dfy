/** A function with a loop on which the run of the code ends with everything found. */
module PrologueLoop {
  import opened Wrappers
  import opened Instructions
  import opened MachineCode
  import opened ControlFlowGraphs
  import opened BlockInvariants
  import opened BlockConstruction
  import opened BuiltProblems
  import opened ExampleGraphs
  import opened ExampleRuns
  import opened FlowContexts
  import opened ReachingDefinitions
  import DI = DataFlowInvariants
  import NC = NodeCounting
  import NV = NodeConvergence
  import opened NodeRuns
  import LF = LoopFreeRuns

  /** r3 = 1; do {} while (c); return r3; */
  function Code(): seq<Insn> {
    [Define(3), BranchTo(1), RETURN]
  }

  // ---- Its blocks, as they are made ----

  function G0(): Graph {
    Graph([Block(0, 0, false)],
          [NONE])
  }

  function G1(): Graph {
    Graph([Block(0, 1, false), Block(1, 1, false)],
          [PSEntry([], [1]), PSEntry([0], [])])
  }

  function G2(): Graph {
    Graph([Block(0, 1, false), Block(1, 1, false)],
          [PSEntry([], [1]), PSEntry([0, 1], [1]), NONE])
  }

  function G3(): Graph {
    Graph([Block(0, 1, false), Block(1, 1, false), Block(2, 2, false)],
          [PSEntry([], [1]), PSEntry([0, 1], [1, 2]), PSEntry([1], []), NONE])
  }

  function G4(): Graph {
    Graph([Block(0, 1, false), Block(1, 1, false), Block(2, 2, true), NewBlock(2, RUNTIME)],
          [PSEntry([], [1]), PSEntry([0, 1], [1, 2]), PSEntry([1], [3]), PSEntry([2], []), NONE])
  }

  function G5(): Graph {
    Graph([Block(0, 1, false), Block(1, 1, false), Block(2, 2, true), NewBlock(2, RUNTIME)],
          [PSEntry([], [1, 2]), PSEntry([0, 1], [1, 2]), PSEntry([1, 0], [3]), PSEntry([2], []), NONE, NONE])
  }

  lemma Scanned2()
    ensures ValidCode(Code()) && Scan(Code(), G3(), 2, 2) == Some(G4())
  {
    hide Scan, EndIn, Follow, Taken;
    EndsInReturn(Code(), G3(), 2, 2, 2, G4());
  }

  lemma Scanned1()
    ensures ValidCode(Code()) && Scan(Code(), G1(), 1, 1) == Some(G4())
  {
    hide Scan, EndIn, Follow, Taken;
    Edge1();
    Edge2();
    EndsInBranch(Code(), G1(), 1, 1, 1, 1, G2(), G4());
  }

  lemma Scanned0()
    ensures ValidCode(Code()) && Scan(Code(), G0(), 0, 0) == Some(G5())
  {
    hide Scan, EndIn, Follow, Taken, Runs;
    Edge0();
    Edge4();
    PlainFirst(Code(), G0(), 0);
    EndsInBranch(Code(), G0(), 0, 0, 1, 1, G4(), G5());
  }

  lemma Edge1()
    ensures ValidCode(Code()) && Follow(Code(), G1(), 1, 1, 1) == Some(G2())
  {
    hide Scan, EndIn, Follow, Taken;
    FollowsOld(Code(), G1(), 1, 1, 1, 1, G2());
  }

  lemma Edge2()
    ensures ValidCode(Code()) && Follow(Code(), G2(), 1, 1, 2) == Some(G4())
  {
    hide Scan, EndIn, Follow, Taken;
    Scanned2();
    FollowsNew(Code(), G2(), 1, 1, 2, G3(), G4());
  }

  lemma Edge0()
    ensures ValidCode(Code()) && Follow(Code(), G0(), 0, 1, 1) == Some(G4())
  {
    hide Scan, EndIn, Follow, Taken;
    Scanned1();
    FollowsNew(Code(), G0(), 0, 1, 1, G1(), G4());
  }

  lemma Edge4()
    ensures ValidCode(Code()) && Follow(Code(), G4(), 0, 1, 2) == Some(G5())
  {
    hide Scan, EndIn, Follow, Taken;
    FollowsOld(Code(), G4(), 0, 1, 2, 2, G5());
  }

  lemma Blocks()
    ensures ValidCode(Code()) && Constructed(Code()) == Some(G5())
  {
    hide Scan;
    Scanned0();
    SameEqual(G0(), ENTRY);
  }

  lemma ExampleValid(f: Problem)
    requires IsInput(f, Code())
    ensures f.Valid() && DI.Connected(f) && f.graph == G5()
  {
    hide AllCells, Scan, Built, Problem.Valid, G5, Code, DI.Connected;
    Blocks();
    InputValid(f, Code(), G5());
  }

  // ---- The run ----

  lemma OnlyEntryDefines(f: Problem, d: Site)
    requires IsInput(f, Code()) && f.Valid() && f.graph == G5() && Born(f, d)
    ensures d.block == 0
  {
    hide AllCells, Graph.Valid, Scan, CellOf, Clear;
    PlainEffect(f, d.block, d.pc, d.cell);
  }

  lemma EntryOnce(f: Problem)
    requires IsInput(f, Code()) && f.Valid() && f.graph == G5()
    ensures NV.Once(f, DI.First(f), 0)
  {
    hide AllCells, Graph.Valid, Scan;
    var w := DI.First(f);
    assert [] + [0] <= w;
    assert w[0] == ([] + [0])[0];
    assert NV.OnceAt(f, w, 0);
  }

  /** It has a loop, every definition comes one way, and so the run of the code ends with everything found. */
  lemma LoopEndsRight(f: Problem) returns (n: nat)
    requires IsInput(f, Code())
    ensures f.Valid() && !LF.LoopFree(f) && NV.AllOneWay(f, DI.First(f))
    ensures RunOf(f, n).worklist == [] && LeastFixpoint(f, NC.OutSites(RunOf(f, n).out))
  {
    hide AllCells, Graph.Valid, Scan, DI.First, RunOf, LeastFixpoint, Born, NV.Once, NV.OneWay, NC.OutSites;
    ExampleValid(f);
    EntryOnce(f);
    assert LF.InnerStep(f, 1, 1);
    assert LF.Leads(f, [1, 1], 1, 1);
    forall c
      ensures NV.OneWay(f, DI.First(f), c)
    {
      forall d | Born(f, d) { OnlyEntryDefines(f, d); }
      NV.OnceDefinedOneWay(f, DI.First(f), c);
    }
    n := OneWayRun(f);
  }
}
