/** The sinks of a block after any number of visits, and how they depend on what came to it. */
module SinkTheorems {
  import opened Instructions
  import opened MachineCode
  import opened ControlFlowGraphs
  import opened FlowContexts
  import opened ReachingDefinitions
  import opened DataFlowNodes
  import opened DataFlowInvariants

  // ---- Order ----

  function PcOf(s: Shape): nat { s.pc }

  ghost predicate InOrder(f: Problem, from: nat, pc: nat, s: seq<Shape>)
    requires pc <= |f.code|
  {
    && (forall k :: 0 <= k < |s| ==>
          && s[k].SinkShape? && from <= PcOf(s[k]) < pc
          && (f.code[PcOf(s[k])].isStore || f.code[PcOf(s[k])].kind.Branch?))
    && (forall k, m :: 0 <= k < m < |s| ==> PcOf(s[k]) < PcOf(s[m]))
    && (forall q :: from <= q < pc && (f.code[q].isStore || f.code[q].kind.Branch?) ==> SinkFor(s, q))
  }

  ghost predicate SinkFor(s: seq<Shape>, q: nat) {
    exists k :: 0 <= k < |s| && PcOf(s[k]) == q
  }

  /** The sinks expected of a block are in strictly increasing instruction order, one for each store or branch. */
  lemma {:induction false} SinksInOrder(f: Problem, b: nat, pc: nat, entry: Context<Site>)
    requires b < |f.graph.blocks| && f.Start(b) <= pc <= |f.code|
    ensures InOrder(f, f.Start(b), pc, ExpectedSinks(f, b, pc, entry))
    decreases pc
  {
    hide AllCells, ExpectedOperands, Before, MakesSink, InOrder;
    if pc > f.Start(b) {
      SinksInOrder(f, b, pc - 1, entry);
      var s := ExpectedSinks(f, b, pc - 1, entry);
      if MakesSink(f.code[pc - 1]) {
        OneMoreInOrder(f, f.Start(b), pc, s,
                       SinkShape(pc - 1, ExpectedOperands(f.code[pc - 1], Before(f, b, pc - 1, entry))));
      } else {
        NoMoreInOrder(f, f.Start(b), pc, s);
      }
    } else {
      NothingInOrder(f, pc);
    }
  }

  lemma NothingInOrder(f: Problem, pc: nat)
    requires pc <= |f.code|
    ensures InOrder(f, pc, pc, [])
  {
  }

  lemma NoMoreInOrder(f: Problem, from: nat, pc: nat, s: seq<Shape>)
    requires from < pc <= |f.code| && InOrder(f, from, pc - 1, s) && !MakesSink(f.code[pc - 1])
    ensures InOrder(f, from, pc, s + [])
  {
    hide SinkFor;
    assert s + [] == s;
  }

  lemma OneMoreInOrder(f: Problem, from: nat, pc: nat, s: seq<Shape>, sink: Shape)
    requires from < pc <= |f.code| && InOrder(f, from, pc - 1, s)
    requires sink.SinkShape? && PcOf(sink) == pc - 1 && MakesSink(f.code[pc - 1])
    ensures InOrder(f, from, pc, s + [sink])
  {
    var t := s + [sink];
    assert PcOf(t[|s|]) == pc - 1;
    forall q | from <= q < pc - 1 && SinkFor(s, q)
      ensures SinkFor(t, q)
    {
      var k :| 0 <= k < |s| && PcOf(s[k]) == q;
      assert PcOf(t[k]) == q;
    }
  }

  /** Return values at the end of the block, with definitions; and only of an exit block. */
  ghost predicate ReturnsAtEnd(f: Problem, b: nat, s: seq<Shape>)
    requires b < |f.graph.blocks|
  {
    && (s != [] ==> f.graph.blocks[b].isExit)
    && forall k :: 0 <= k < |s| ==>
         && s[k].ReturnShape? && s[k].pc == f.graph.blocks[b].end && s[k].location in f.definedByCall
         && s[k].operand.DefOperand? && s[k].operand.sites != {}
  }

  lemma {:induction false} ExpectedReturnsAtEnd(f: Problem, b: nat, locations: seq<Location>, at: Context<Site>)
    requires b < |f.graph.blocks| && f.graph.blocks[b].isExit && forall l :: l in locations ==> l in f.definedByCall
    ensures ReturnsAtEnd(f, b, ExpectedReturns(f.graph.blocks[b].end, locations, at))
    decreases |locations|
  {
    hide AllCells, CellOf;
    if locations != [] {
      var i := |locations| - 1;
      assert locations[i] in locations;
      ExpectedReturnsAtEnd(f, b, locations[..i], at);
    }
  }

  /** First the sinks of the block's stores and branches in order, then its return values. */
  ghost predicate InBlockOrder(f: Problem, b: nat, s: seq<Shape>)
    requires f.Valid() && f.graph.Internal(b)
  {
    exists m :: 0 <= m <= |s| && InOrder(f, f.Start(b), f.Stop(b), s[..m]) && ReturnsAtEnd(f, b, s[m..])
  }

  /** Whatever came to a block, its sinks are one per store or branch of its range, in strictly increasing instruction
      order, followed only by return values. */
  lemma SunkInOrder(f: Problem, r: Results, b: nat, entry: Context<Site>)
    requires f.Valid() && f.graph.Internal(b) && SunkFrom(f, r, b, entry)
    ensures InBlockOrder(f, b, ShapesOf(f, r.nodes, r.sinks[b]))
  {
    hide AllCells, InOrder, ReturnsAtEnd, UpToDate, DefinitionsOnly, Sinks, ShapesOf, Graph.Valid;
    var s := ExpectedSinks(f, b, f.Stop(b), entry);
    SinksInOrder(f, b, f.Stop(b), entry);
    var t := if f.graph.blocks[b].isExit
             then ExpectedReturns(f.graph.blocks[b].end, f.definedByCall, Before(f, b, f.Stop(b), entry)) else [];
    if f.graph.blocks[b].isExit {
      ExpectedReturnsAtEnd(f, b, f.definedByCall, Before(f, b, f.Stop(b), entry));
    } else {
      NoReturns(f, b);
    }
    assert (s + t)[..|s|] == s && (s + t)[|s|..] == t;
    assert ExpectedShapes(f, b, entry) == s + t;
  }

  lemma NoReturns(f: Problem, b: nat)
    requires b < |f.graph.blocks|
    ensures ReturnsAtEnd(f, b, [])
  {
  }

  /** So it is of every block of a complete pass. */
  lemma CompleteInOrder(f: Problem, r: Results, b: nat)
    requires Complete(f, r.nodes, r.contexts, r.sinks) && f.graph.Internal(b)
    ensures b < |r.sinks| && Sinks(f, r.nodes, r.sinks[b]) && InBlockOrder(f, b, ShapesOf(f, r.nodes, r.sinks[b]))
  {
    hide AllCells, InBlockOrder, SiteOuts, LeastFixpoint, EntryContext, ExpectedShapes, ShapesOf, UpToDate, Graph.Valid;
    var (out, q) := (SiteOuts(r.nodes, r.contexts), Results(r.nodes, r.contexts, r.sinks));
    assert Sunk(f, q, out, b);
    SunkInOrder(f, q, b, EntryContext(f, out, b));
  }

  // ---- Monotonicity ----

  /** Reading fewer definitions: the same operand otherwise. */
  predicate OperandWithin(x: Operand, y: Operand) {
    || x == y
    || (x.InputOperand? && y.DefOperand?)
    || (x.DefOperand? && y.DefOperand? && x.sites <= y.sites)
  }

  predicate ShapeWithin(x: Shape, y: Shape) {
    && x.SinkShape? && y.SinkShape? && x.pc == y.pc && |x.operands| == |y.operands|
    && forall i :: 0 <= i < |x.operands| ==> OperandWithin(x.operands[i], y.operands[i])
  }

  predicate ShapesWithin(s: seq<Shape>, t: seq<Shape>) {
    |s| == |t| && forall k :: 0 <= k < |s| ==> ShapeWithin(s[k], t[k])
  }

  lemma OperandsWithin(insn: Insn, x: Context<Site>, y: Context<Site>)
    requires Within(x, y)
    ensures var (s, t) := (ExpectedOperands(insn, x), ExpectedOperands(insn, y));
      |s| == |t| && forall i :: 0 <= i < |s| ==> OperandWithin(s[i], t[i])
  {
    hide AllCells, CellOf;
  }

  lemma BeforeWithin(f: Problem, b: nat, pc: nat, x: Context<Site>, y: Context<Site>)
    requires b < |f.graph.blocks| && pc <= |f.code| && Within(x, y)
    ensures Within(Before(f, b, pc, x), Before(f, b, pc, y))
  {
    hide AllCells, Through;
    forall c | c in AllCells() { ThroughMonotone(f, b, pc, c, x[c], y[c]); }
  }

  /** The sinks of a visit to which less came are for the same stores and branches, with operands that read fewer
      definitions. */
  lemma {:induction false} SinksWithin(f: Problem, b: nat, pc: nat, x: Context<Site>, y: Context<Site>)
    requires b < |f.graph.blocks| && pc <= |f.code| && Within(x, y)
    ensures ShapesWithin(ExpectedSinks(f, b, pc, x), ExpectedSinks(f, b, pc, y))
    decreases pc
  {
    hide AllCells, ExpectedOperands, Before, OperandWithin, MakesSink, Within;
    if pc > f.Start(b) {
      SinksWithin(f, b, pc - 1, x, y);
      BeforeWithin(f, b, pc - 1, x, y);
      OperandsWithin(f.code[pc - 1], Before(f, b, pc - 1, x), Before(f, b, pc - 1, y));
    }
  }
}
