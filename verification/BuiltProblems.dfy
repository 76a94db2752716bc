/** What block construction gives the data-flow pass. */
module BuiltProblems {
  import opened Wrappers
  import opened Instructions
  import opened MachineCode
  import opened ControlFlowGraphs
  import opened BlockInvariants
  import opened BlockConstruction
  import BT = BlockTheorems
  import opened FlowContexts
  import opened CallingConvention
  import opened ReachingDefinitions
  import DI = DataFlowInvariants

  /** Every internal block is entered from block 0 by a path over internal blocks. */
  lemma {:induction false} BlocksEntered(code: seq<Insn>, g: Graph, j: nat)
    requires Built(code, g) && g.Internal(j)
    ensures g.Entered(j)
    decreases j
  {
    hide Reachable, SettledFrom, Graph.Path, Graph.Dual, Graph.UniqueStarts;
    if j == 0 {
      g.EntryEntered();
    } else {
      assert HasCreator(g, j);
      var i: nat :| i < j && i < |g.psTable| && j in g.psTable[i].succ;
      assert g.Internal(i);
      BlocksEntered(code, g, i);
      g.EdgeEntered(i, j);
    }
  }

  lemma BuiltIsProblem(f: Problem)
    requires Built(f.code, f.graph) && AllKnown(f.killedByCall) && AllKnown(f.definedByCall)
    ensures f.Valid() && DI.Connected(f)
  {
    hide AllCells, Settled, Graph.Entered, Reachable, HasCreator;
    BT.EntryInternal(f.code, f.graph);
    forall b | f.graph.Internal(b)
      ensures f.graph.blocks[b].start <= f.graph.blocks[b].end < |f.code| && f.graph.Entered(b)
    {
      BT.SettledRange(f.code, f.graph, b);
      BlocksEntered(f.code, f.graph, b);
    }
  }

  /** A function with the blocks that are constructed for it. */
  ghost predicate IsInput(f: Problem, code: seq<Insn>) {
    && ValidCode(code) && f.code == code && Constructed(code) == Some(f.graph)
    && AllKnown(f.killedByCall) && AllKnown(f.definedByCall)
  }

  lemma InputValid(f: Problem, code: seq<Insn>, g: Graph)
    requires IsInput(f, code) && Constructed(code) == Some(g)
    ensures f.Valid() && DI.Connected(f) && f.graph == g && Built(code, g)
  {
    hide AllCells, Scan, Built, Problem.Valid, DI.Connected;
    ConstructedBuilt(code);
    BuiltIsProblem(f);
  }

  /** A call takes effect after every other instruction of its block: it is the last one. */
  lemma CallIsLast(f: Problem, b: nat, pc: nat)
    requires Built(f.code, f.graph) && f.graph.Internal(b) && Holds(f.graph.blocks[b], pc) && pc < |f.code|
    requires IsCall(f, b, pc)
    ensures pc == f.graph.blocks[b].end
  {
    hide Reachable, HasCreator, Graph.Valid;
    BT.SettledBlock(f.code, f.graph, b);
  }

  /** What a branch that links does to a register: it defines those a call returns values in, clears the others a call
      clears, and keeps the rest, except what it lists as its own results. */
  lemma CallEffect(f: Problem, b: nat, loc: Location)
    requires f.Valid() && Built(f.code, f.graph) && f.graph.Internal(b) && Known(loc)
    requires f.code[f.graph.blocks[b].end].kind.Branch? && f.code[f.graph.blocks[b].end].kind.link
    requires !f.code[f.graph.blocks[b].end].isStore && AllKnown(f.code[f.graph.blocks[b].end].outputs)
    ensures var (pc, c) := (f.graph.blocks[b].end, CellOf(loc).value);
      EffectOf(f, b, pc, c)
      == if Lists(f.definedByCall, loc) then Gen(Site(b, pc, c, true))
         else if Lists(f.killedByCall, loc) then Kill
         else if Lists(f.code[pc].outputs, loc) then Gen(Site(b, pc, c, false))
         else Pass
  {
    hide AllCells, Built, CellOf, Lists, Names, AllKnown, Graph.Dual, Graph.UniqueStarts, Graph.OutsideIsLeaf;
    BT.FlagsMeaning(f.code, f.graph, b);
    BT.SettledBlock(f.code, f.graph, b);
    ListsIffNames(f.definedByCall, loc);
    ListsIffNames(f.killedByCall, loc);
    ListsIffNames(f.code[f.graph.blocks[b].end].outputs, loc);
  }

  /** Under the tool's calling convention the registers that keep their definitions behind a call are the general
      registers 1, 2 and 13 to 31, the floating-point registers from 14, the condition bits 9 to 20, the
      quantization registers and the second halves of the paired singles. */
  lemma KeptByCall(f: Problem, b: nat, loc: Location)
    requires f.Valid() && Built(f.code, f.graph) && f.graph.Internal(b) && Known(loc)
    requires f.killedByCall == KilledByCall() && f.definedByCall == DefinedByCall()
    requires f.code[f.graph.blocks[b].end].kind.Branch? && f.code[f.graph.blocks[b].end].kind.link
    requires !f.code[f.graph.blocks[b].end].isStore && f.code[f.graph.blocks[b].end].outputs == []
    ensures EffectOf(f, b, f.graph.blocks[b].end, CellOf(loc).value) == Pass <==>
      match loc.space
      case GPR => loc.value in {1, 2} || 13 <= loc.value
      case FPR => 14 <= loc.value
      case CR_BIT => 9 <= loc.value <= 20
      case SPR => 912 <= loc.value
      case _ => true
  {
    hide AllCells, Built, CellOf, Known, KilledByCall, DefinedByCall, Graph.Dual, Graph.UniqueStarts,
         Graph.OutsideIsLeaf;
    CallEffect(f, b, loc);
    KnownRegister(loc);
    forall l
      ensures l in f.definedByCall ==> l in f.killedByCall
      ensures l in f.killedByCall && SameRegister(l, loc) ==> l == loc
    {
      ClearedByCall(l);
      ReturnedByCall(l);
    }
    ClearedByCall(loc);
    assert Lists(f.killedByCall, loc) <==> loc in f.killedByCall;
    assert Lists(f.definedByCall, loc) ==> loc in f.killedByCall;
  }

  /** The blocks' instructions are reachable, and all that are reachable unless control falls off the end. */
  lemma UnknownReachable(f: Problem)
    requires f.Valid() && Built(f.code, f.graph)
    ensures (exists b :: f.graph.Internal(b) && !DI.KnownBlock(f, b)) ==>
      exists p :: 0 <= p < |f.code| && Reachable(f.code, p) && !DI.KnownRegisters(f.code[p])
    ensures !FallsOff(f.code) && (forall b :: f.graph.Internal(b) ==> DI.KnownBlock(f, b)) ==>
      forall p :: 0 <= p < |f.code| && Reachable(f.code, p) ==> DI.KnownRegisters(f.code[p])
  {
    hide AllCells, Built, DI.KnownRegisters, Reachable, Settled, Graph.Dual, Graph.UniqueStarts, Graph.OutsideIsLeaf;
    if b: nat :| f.graph.Internal(b) && !DI.KnownBlock(f, b) {
      var pc :| f.Start(b) <= pc < f.Stop(b) && !DI.KnownRegisters(f.code[pc]);
      BT.EntryInternal(f.code, f.graph);
      BT.SettledRange(f.code, f.graph, b);
      assert BT.InScan(f.code, f.graph, BT.Place(b, pc));
      BT.ScannedIffReachable(f.code, f.graph, pc);
    }
    if !FallsOff(f.code) {
      forall p | 0 <= p < |f.code| && Reachable(f.code, p)
        ensures exists b :: f.graph.Internal(b) && Holds(f.graph.blocks[b], p)
      {
        BT.RangesCoverReachable(f.code, f.graph, p);
      }
    }
  }
}
