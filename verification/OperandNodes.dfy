/** What the nodes made for one instruction are, and which nodes a register holds after it. */
module OperandNodes {
  import opened Wrappers
  import opened Instructions
  import opened MachineCode
  import opened ControlFlowGraphs
  import opened FlowContexts
  import opened ReachingDefinitions
  import opened DataFlowNodes
  import opened DataFlowInvariants
  import opened CanonicalNodes

  /** The node read for a register that holds `held`: an input of the function if that is nothing, the definition if it
      is one, and otherwise a phi node over them all. */
  ghost predicate ReadsRegister(nodes: seq<Node>, id: nat, pc: nat, loc: Location, held: set<nat>) {
    && id < |nodes|
    && var n := nodes[id];
      if held == {} then n.kind == FunctionInputNode(loc) && n.index == pc && n.inputs == []
      else if |held| == 1 then id in held
      else n.kind == PhiNode(loc) && n.index == pc && Elements(n.inputs) == held && |n.inputs| == |held|
  }

  predicate AreReferences(nodes: seq<Node>, ids: seq<nat>, pc: nat, refs: seq<Relocation>) {
    |ids| == |refs| && forall k :: 0 <= k < |refs| ==> IsLeaf(nodes, ids[k], pc, ReferenceNode(k, refs[k]))
  }

  predicate AreImmediates(nodes: seq<Node>, ids: seq<nat>, pc: nat, imms: seq<int>) {
    |ids| == |imms| && forall k :: 0 <= k < |imms| ==> IsLeaf(nodes, ids[k], pc, ImmediateNode(k, imms[k]))
  }

  ghost predicate AreRegisters(nodes: seq<Node>, ids: seq<nat>, pc: nat, locs: seq<Location>, ctx: Context<nat>)
    requires AllKnown(locs)
  {
    && |ids| == |locs|
    && forall k :: 0 <= k < |locs| ==>
         assert Known(locs[k]); ReadsRegister(nodes, ids[k], pc, locs[k], Held(ctx, CellOf(locs[k]).value))
  }

  /** The inputs for an instruction, in order: a node for each reference, for each immediate, and for each register. */
  ghost predicate Reads(nodes: seq<Node>, ids: seq<nat>, pc: nat, insn: Insn, ctx: Context<nat>)
    requires AllKnown(insn.inputs)
  {
    var (r, m) := (|insn.refs|, |insn.imms|);
    && |ids| == r + m + |insn.inputs|
    && AreReferences(nodes, ids[..r], pc, insn.refs)
    && AreImmediates(nodes, ids[r..r + m], pc, insn.imms)
    && AreRegisters(nodes, ids[r + m..], pc, insn.inputs, ctx)
  }

  predicate IsLeaf(nodes: seq<Node>, id: nat, pc: nat, kind: NodeKind) {
    id < |nodes| && nodes[id].kind == kind && nodes[id].index == pc && nodes[id].inputs == []
  }

  lemma {:induction false} ReferencesMade(nodes: seq<Node>, b: nat, pc: nat, refs: seq<Relocation>)
    ensures var (ns, ids) := WithReferences(nodes, b, pc, refs);
      nodes <= ns && NoneMade(ns, |nodes|) && AreReferences(ns, ids, pc, refs)
    decreases |refs|
  {
    if refs != [] { ReferencesMade(nodes, b, pc, refs[..|refs| - 1]); }
  }

  lemma {:induction false} ImmediatesMade(nodes: seq<Node>, b: nat, pc: nat, imms: seq<int>)
    ensures var (ns, ids) := WithImmediates(nodes, b, pc, imms);
      nodes <= ns && NoneMade(ns, |nodes|) && AreImmediates(ns, ids, pc, imms)
    decreases |imms|
  {
    if imms != [] { ImmediatesMade(nodes, b, pc, imms[..|imms| - 1]); }
  }

  ghost predicate HeldBelow(nodes: seq<Node>, ctx: Context<nat>) {
    forall c, id :: id in Held(ctx, c) ==> id < |nodes|
  }

  lemma {:induction false} RegistersMade(nodes: seq<Node>, b: nat, pc: nat, locs: seq<Location>, ctx: Context<nat>)
    requires AllKnown(locs) && HeldBelow(nodes, ctx)
    ensures var (ns, ids) := WithRegisters(nodes, b, pc, locs, ctx);
      nodes <= ns && NoneMade(ns, |nodes|) && AreRegisters(ns, ids, pc, locs, ctx)
    decreases |locs|
  {
    hide AllCells, CellOf, Held, Ordered;
    if locs != [] {
      var i := |locs| - 1;
      RegistersMade(nodes, b, pc, locs[..i], ctx);
      assert Known(locs[i]);
      var (ns, ids) := WithRegisters(nodes, b, pc, locs[..i], ctx);
      var held := Held(ctx, CellOf(locs[i]).value);
      if |held| == 1 { assert TheOnly(held) in held; }
      assert |held| == 0 ==> held == {};
    }
  }

  lemma OperandsMade(nodes: seq<Node>, b: nat, pc: nat, insn: Insn, ctx: Context<nat>)
    requires AllKnown(insn.inputs) && HeldBelow(nodes, ctx)
    ensures var (ns, ids) := WithOperands(nodes, b, pc, insn, ctx);
      nodes <= ns && NoneMade(ns, |nodes|) && Reads(ns, ids, pc, insn, ctx)
  {
    hide AllCells, Held, AreReferences, AreImmediates, AreRegisters, WithReferences, WithImmediates, WithRegisters,
         CarriesOperands;
    var (ns1, refs) := WithReferences(nodes, b, pc, insn.refs);
    var (ns2, imms) := WithImmediates(ns1, b, pc, insn.imms);
    var (ns3, regs) := WithRegisters(ns2, b, pc, insn.inputs, ctx);
    ReferencesMade(nodes, b, pc, insn.refs);
    ImmediatesMade(ns1, b, pc, insn.imms);
    RegistersMade(ns2, b, pc, insn.inputs, ctx);
    ReadsInOrder(ns1, ns2, ns3, refs, imms, regs, pc, insn, ctx);
  }

  lemma ReadsInOrder(ns1: seq<Node>, ns2: seq<Node>, ns3: seq<Node>, refs: seq<nat>, imms: seq<nat>, regs: seq<nat>,
                     pc: nat, insn: Insn, ctx: Context<nat>)
    requires ns1 <= ns2 <= ns3 && AllKnown(insn.inputs) && AreReferences(ns1, refs, pc, insn.refs)
    requires AreImmediates(ns2, imms, pc, insn.imms) && AreRegisters(ns3, regs, pc, insn.inputs, ctx)
    ensures Reads(ns3, refs + imms + regs, pc, insn, ctx)
  {
    hide AllCells, ReadsRegister;
    var (r, m, ids) := (|refs|, |imms|, refs + imms + regs);
    assert ids[..r] == refs && ids[r..r + m] == imms && ids[r + m..] == regs;
    LeavesStable(ns1, ns3, refs, imms, pc, insn);
    LeavesStable(ns2, ns3, refs, imms, pc, insn);
  }

  lemma LeavesStable(nodes: seq<Node>, nodes': seq<Node>, refs: seq<nat>, imms: seq<nat>, pc: nat, insn: Insn)
    requires nodes <= nodes'
    ensures AreReferences(nodes, refs, pc, insn.refs) ==> AreReferences(nodes', refs, pc, insn.refs)
    ensures AreImmediates(nodes, imms, pc, insn.imms) ==> AreImmediates(nodes', imms, pc, insn.imms)
  {
  }

  lemma ReadsStable(nodes: seq<Node>, nodes': seq<Node>, ids: seq<nat>, pc: nat, insn: Insn, ctx: Context<nat>)
    requires nodes <= nodes' && AllKnown(insn.inputs) && Reads(nodes, ids, pc, insn, ctx)
    ensures Reads(nodes', ids, pc, insn, ctx)
  {
    hide AllCells, CellOf, Held, AreReferences, AreImmediates;
    var (r, m) := (|insn.refs|, |insn.imms|);
    LeavesStable(nodes, nodes', ids[..r], ids[r..r + m], pc, insn);
  }

  /** The same of the nodes as they are made, whatever the order of phi inputs. */
  lemma CanonReads(f: Problem, nodes: seq<Node>, ids: seq<nat>, pc: nat, insn: Insn, ctx: Context<nat>)
    requires AllWellMade(f, nodes) && AllKnown(insn.inputs) && Reads(Canon(nodes), ids, pc, insn, ctx)
    ensures Reads(nodes, ids, pc, insn, ctx)
  {
    hide AllCells, CellOf, Held, Rightful, Ordered, AllWellMade;
    forall id: nat | id < |nodes|
      ensures Canon(nodes)[id].kind == nodes[id].kind && Canon(nodes)[id].index == nodes[id].index
      ensures !nodes[id].kind.PhiNode? ==> Canon(nodes)[id] == nodes[id]
      ensures nodes[id].kind.PhiNode? ==>
        && |Canon(nodes)[id].inputs| == |nodes[id].inputs|
        && Elements(Canon(nodes)[id].inputs) == Elements(nodes[id].inputs)
    {
      CanonInputs(f, nodes, id);
    }
  }

  lemma CanonInputs(f: Problem, nodes: seq<Node>, id: nat)
    requires AllWellMade(f, nodes) && id < |nodes|
    ensures nodes[id].kind.PhiNode? ==>
      |Canon(nodes)[id].inputs| == |nodes[id].inputs| && Elements(Canon(nodes)[id].inputs) == Elements(nodes[id].inputs)
  {
    hide AllCells, Rightful, Ordered;
    assert WellMade(f, nodes, id);
  }

  // ---- What registers hold afterwards ----

  /** A new node that defines the register. */
  ghost predicate Defines(nodes: seq<Node>, from: nat, id: nat, loc: Location) {
    && from <= id < |nodes| && (nodes[id].kind.ResultNode? || nodes[id].kind.CallReturnNode?)
    && SameRegister(nodes[id].kind.location, loc)
  }

  /** A register that a call returns a value in holds the new node for it alone, one that a call clears nothing, one
      among the results the new node of the last result that names it, and any other register what it held. */
  ghost predicate HeldAfter(f: Problem, b: nat, pc: nat, from: nat, held: set<nat>, nodes: seq<Node>, held': set<nat>,
                            loc: Location)
    requires b < |f.graph.blocks| && pc < |f.code|
  {
    var insn := f.code[pc];
    var calls := !insn.isStore && insn.kind.Branch? && f.graph.blocks[b].endsInCall;
    if calls && Lists(f.definedByCall, loc) then
      exists id :: held' == {id} && Defines(nodes, from, id, loc) && nodes[id].kind.CallReturnNode?
    else if calls && Lists(f.killedByCall, loc) then held' == {}
    else if Lists(insn.outputs, loc) then
      exists id :: held' == {id} && Defines(nodes, from, id, loc) && nodes[id].kind.ResultNode?
                   && LastResult(insn, nodes[id].kind.opindex, loc)
    else held' == held
  }

  ghost predicate LastResult(insn: Insn, i: nat, loc: Location) {
    && i < |insn.outputs| && SameRegister(insn.outputs[i], loc)
    && forall k :: i < k < |insn.outputs| ==> !SameRegister(insn.outputs[k], loc)
  }

  /** What one instruction makes: results, call returns and sinks with the instruction's inputs, a sink exactly for a
      store or a branch, and the registers' new contents. */
  ghost predicate InsnMade(f: Problem, b: nat, pc: nat, nodes: seq<Node>, ctx: Context<nat>, nodes': seq<Node>,
                           ctx': Context<nat>, made: seq<nat>)
    requires b < |f.graph.blocks| && pc < |f.code| && KnownRegisters(f.code[pc])
  {
    && nodes <= nodes'
    && (forall id :: |nodes| <= id < |nodes'| && CarriesOperands(nodes'[id]) ==>
          && nodes'[id].index == pc && nodes'[id].block == b
          && Reads(nodes', nodes'[id].inputs, pc, f.code[pc], ctx))
    && (forall loc :: Known(loc) ==>
          var c := CellOf(loc).value; HeldAfter(f, b, pc, |nodes|, Held(ctx, c), nodes', Held(ctx', c), loc))
    && if f.code[pc].isStore || f.code[pc].kind.Branch?
       then |made| == 1 && |nodes| <= made[0] < |nodes'| && nodes'[made[0]].kind.SinkNode?
       else made == []
  }

  lemma ReadsDefinitions(nodes: seq<Node>, id: nat, pc: nat, loc: Location, ctx: Context<nat>)
    requires Known(loc) && DefinitionsOnly(nodes, ctx)
    requires ReadsRegister(nodes, id, pc, loc, Held(ctx, CellOf(loc).value))
    ensures ReadsSome(nodes, id, loc)
  {
    hide AllCells, CellOf, SameRegister;
    var held := Held(ctx, CellOf(loc).value);
    assert Definitions(nodes, held) && InCell(nodes, held, CellOf(loc).value);
    forall k | k in held
      ensures DefinesSame(nodes, k, loc)
    {
      SameCellIff(nodes[k].kind.location, loc);
    }
    if |held| > 1 {
      forall k | 0 <= k < |nodes[id].inputs|
        ensures DefinesSame(nodes, nodes[id].inputs[k], loc)
      {
        assert nodes[id].inputs[k] in Elements(nodes[id].inputs);
      }
    }
    assert |held| == 0 <==> held == {};
  }

  lemma ReadsListed(nodes: seq<Node>, ids: seq<nat>, pc: nat, insn: Insn, ctx: Context<nat>)
    requires AllKnown(insn.inputs) && DefinitionsOnly(nodes, ctx) && Reads(nodes, ids, pc, insn, ctx)
    ensures ReadsInsn(nodes, ids, insn)
  {
    hide AllCells, CellOf, Held, DefinitionsOnly, ReadsSome, ReadsRegister;
    var (r, m) := (|insn.refs|, |insn.imms|);
    forall i | 0 <= i < |ids|
      ensures ReadsInput(nodes, ids[i], insn, i)
    {
      if i < r {
        assert IsLeaf(nodes, ids[..r][i], pc, ReferenceNode(i, insn.refs[i]));
      } else if i < r + m {
        assert IsLeaf(nodes, ids[r..r + m][i - r], pc, ImmediateNode(i - r, insn.imms[i - r]));
      } else {
        var k := i - r - m;
        assert ids[r + m..][k] == ids[i] && Known(insn.inputs[k]);
        ReadsDefinitions(nodes, ids[i], pc, insn.inputs[k], ctx);
      }
    }
  }

  // ---- The instruction as specified makes that ----

  lemma {:induction false} DefinitionsMade(nodes: seq<Node>, ctx: Context<nat>, b: nat, pc: nat, locs: seq<Location>,
                                           fromCall: bool, inputs: seq<nat>)
    requires AllKnown(locs)
    ensures var ns := WithDefinitions(nodes, ctx, b, pc, locs, fromCall, inputs).0;
      && nodes <= ns && |ns| == |nodes| + |locs|
      && forall k :: 0 <= k < |locs| ==>
           ns[|nodes| + k] == Node(if fromCall then CallReturnNode(locs[k]) else ResultNode(k, locs[k]), pc, inputs, b)
    decreases |locs|
  {
    hide AllCells, CellOf;
    if locs != [] { DefinitionsMade(nodes, ctx, b, pc, locs[..|locs| - 1], fromCall, inputs); }
  }

  lemma {:induction false} DefinitionsHeld(nodes: seq<Node>, ctx: Context<nat>, b: nat, pc: nat, locs: seq<Location>,
                                           fromCall: bool, inputs: seq<nat>, c: Cell)
    requires AllKnown(locs)
    ensures HoldsLast(ctx, WithDefinitions(nodes, ctx, b, pc, locs, fromCall, inputs).1, locs, |nodes|, c)
    decreases |locs|
  {
    hide AllCells, CellOf, Held, HoldsLast;
    if locs == [] {
      HoldsNone(ctx, |nodes|, c);
    } else {
      var i := |locs| - 1;
      assert Known(locs[i]);
      DefinitionsMade(nodes, ctx, b, pc, locs[..i], fromCall, inputs);
      DefinitionsHeld(nodes, ctx, b, pc, locs[..i], fromCall, inputs, c);
      HoldsLastMore(ctx, WithDefinitions(nodes, ctx, b, pc, locs[..i], fromCall, inputs).1, locs, |nodes|, c);
    }
  }

  lemma HoldsNone(ctx: Context<nat>, from: nat, c: Cell)
    ensures HoldsLast(ctx, ctx, [], from, c)
  {
  }

  /** The cell holds the node of the last register in the list that names it, or what it held if none does. */
  ghost predicate HoldsLast(ctx: Context<nat>, ctx': Context<nat>, locs: seq<Location>, from: nat, c: Cell) {
    if Names(locs, c) then
      exists k :: 0 <= k < |locs| && NamedLast(locs, k, c) && Held(ctx', c) == {from + k}
    else Held(ctx', c) == Held(ctx, c)
  }

  ghost predicate NamedLast(locs: seq<Location>, k: nat, c: Cell)
    requires k < |locs|
  {
    CellOf(locs[k]) == Some(c) && forall m :: k < m < |locs| ==> CellOf(locs[m]) != Some(c)
  }

  lemma HoldsLastMore(ctx: Context<nat>, mid: Context<nat>, locs: seq<Location>, from: nat, c: Cell)
    requires locs != [] && Known(locs[|locs| - 1]) && HoldsLast(ctx, mid, locs[..|locs| - 1], from, c)
    ensures HoldsLast(ctx, mid[CellOf(locs[|locs| - 1]).value := {from + |locs| - 1}], locs, from, c)
  {
    hide AllCells, CellOf, Names;
    var i := |locs| - 1;
    NamesOneMore(locs, i, c);
    assert locs[..i + 1] == locs;
    if CellOf(locs[i]) == Some(c) {
      assert NamedLast(locs, i, c);
    } else if Names(locs[..i], c) {
      var k :| 0 <= k < i && NamedLast(locs[..i], k, c) && Held(mid, c) == {from + k};
      assert NamedLast(locs, k, c);
    }
  }

  lemma {:induction false} KillsMade(ctx: Context<nat>, locs: seq<Location>, c: Cell)
    requires AllKnown(locs)
    ensures Held(WithKills(ctx, locs), c) == if Names(locs, c) then {} else Held(ctx, c)
    decreases |locs|
  {
    hide AllCells, CellOf, Names;
    if locs == [] {
      NamesNothing(c);
    } else {
      var i := |locs| - 1;
      assert Known(locs[i]);
      KillsMade(ctx, locs[..i], c);
      NamesOneMore(locs, i, c);
      assert locs[..i + 1] == locs;
    }
  }

  lemma NamesNothing(c: Cell)
    ensures !Names([], c)
  {
  }

  /** The nodes from `from` on are for the instruction, with these inputs. */
  ghost predicate AllWith(nodes: seq<Node>, from: nat, b: nat, pc: nat, inputs: seq<nat>) {
    forall id :: from <= id < |nodes| ==> nodes[id].index == pc && nodes[id].block == b && nodes[id].inputs == inputs
  }

  lemma LastNamed(nodes: seq<Node>, from: nat, b: nat, pc: nat, insn: Insn, inputs: seq<nat>, held: set<nat>,
                  loc: Location)
    requires Known(loc) && AllKnown(insn.outputs) && from + |insn.outputs| <= |nodes|
    requires forall k :: 0 <= k < |insn.outputs| ==>
      nodes[from + k] == Node(ResultNode(k, insn.outputs[k]), pc, inputs, b)
    requires exists k :: 0 <= k < |insn.outputs| && NamedLast(insn.outputs, k, CellOf(loc).value) && held == {from + k}
    ensures exists id :: held == {id} && Defines(nodes, from, id, loc) && nodes[id].kind.ResultNode?
                         && LastResult(insn, nodes[id].kind.opindex, loc)
  {
    hide AllCells, CellOf, SameRegister;
    var k :| 0 <= k < |insn.outputs| && NamedLast(insn.outputs, k, CellOf(loc).value) && held == {from + k};
    forall m | 0 <= m < |insn.outputs|
      ensures SameRegister(insn.outputs[m], loc) <==> CellOf(insn.outputs[m]) == CellOf(loc)
    {
      assert Known(insn.outputs[m]);
      SameCellIff(insn.outputs[m], loc);
    }
    assert Defines(nodes, from, from + k, loc) && LastResult(insn, nodes[from + k].kind.opindex, loc);
  }

  lemma CallNamed(nodes: seq<Node>, from: nat, b: nat, pc: nat, locs: seq<Location>, inputs: seq<nat>, held: set<nat>,
                  loc: Location)
    requires Known(loc) && AllKnown(locs) && from + |locs| <= |nodes|
    requires forall k :: 0 <= k < |locs| ==> nodes[from + k] == Node(CallReturnNode(locs[k]), pc, inputs, b)
    requires exists k :: 0 <= k < |locs| && NamedLast(locs, k, CellOf(loc).value) && held == {from + k}
    ensures exists id :: held == {id} && Defines(nodes, from, id, loc) && nodes[id].kind.CallReturnNode?
  {
    hide AllCells, CellOf, SameRegister;
    var k :| 0 <= k < |locs| && NamedLast(locs, k, CellOf(loc).value) && held == {from + k};
    assert Known(locs[k]);
    SameCellIff(locs[k], loc);
    assert Defines(nodes, from, from + k, loc);
  }

  /** Without a call: results, and a sink for a store or a branch. */
  lemma PlainHeld(f: Problem, b: nat, pc: nat, nodes: seq<Node>, ctx: Context<nat>, loc: Location)
    requires f.Valid() && b < |f.graph.blocks| && pc < |f.code| && KnownRegisters(f.code[pc]) && HeldBelow(nodes, ctx)
    requires Known(loc) && !IsCall(f, b, pc)
    ensures var ((ns, ctx', made), c) := (WithInsn(f, b, pc, nodes, ctx), CellOf(loc).value);
      HeldAfter(f, b, pc, |nodes|, Held(ctx, c), ns, Held(ctx', c), loc)
  {
    hide AllCells, CellOf, SameRegister, Held, Lists, Names, WithOperands, WithDefinitions, LastResult, Defines, Reads,
         CarriesOperands, Graph.Valid, NamedLast;
    var (insn, c) := (f.code[pc], CellOf(loc).value);
    var (ns1, inputs) := WithOperands(nodes, b, pc, insn, ctx);
    OperandsMade(nodes, b, pc, insn, ctx);
    DefinitionsMade(ns1, ctx, b, pc, insn.outputs, false, inputs);
    DefinitionsHeld(ns1, ctx, b, pc, insn.outputs, false, inputs, c);
    ListsIffNames(insn.outputs, loc);
    var (ns, ctx', made) := WithInsn(f, b, pc, nodes, ctx);
    if Names(insn.outputs, c) {
      LastNamed(ns, |ns1|, b, pc, insn, inputs, Held(ctx', c), loc);
      var id :| Held(ctx', c) == {id} && Defines(ns, |ns1|, id, loc) && ns[id].kind.ResultNode?
                && LastResult(insn, ns[id].kind.opindex, loc);
      DefinesEarlier(ns, |ns1|, |nodes|, id, loc);
    }
  }

  lemma DefinesEarlier(nodes: seq<Node>, from: nat, earlier: nat, id: nat, loc: Location)
    requires Defines(nodes, from, id, loc) && earlier <= from
    ensures Defines(nodes, earlier, id, loc)
  {
  }

  /** With a call: then the kills, and the values the call returns. */
  lemma CallHeld(f: Problem, b: nat, pc: nat, nodes: seq<Node>, ctx: Context<nat>, loc: Location)
    requires f.Valid() && b < |f.graph.blocks| && pc < |f.code| && KnownRegisters(f.code[pc]) && HeldBelow(nodes, ctx)
    requires Known(loc) && IsCall(f, b, pc)
    ensures var ((ns, ctx', made), c) := (WithInsn(f, b, pc, nodes, ctx), CellOf(loc).value);
      HeldAfter(f, b, pc, |nodes|, Held(ctx, c), ns, Held(ctx', c), loc)
  {
    hide AllCells, CellOf, SameRegister, Held, Lists, Names, WithOperands, WithDefinitions, WithKills, LastResult,
         Defines, Reads, CarriesOperands, Graph.Valid, NamedLast;
    var (insn, c) := (f.code[pc], CellOf(loc).value);
    var (ns1, inputs) := WithOperands(nodes, b, pc, insn, ctx);
    OperandsMade(nodes, b, pc, insn, ctx);
    DefinitionsMade(ns1, ctx, b, pc, insn.outputs, false, inputs);
    DefinitionsHeld(ns1, ctx, b, pc, insn.outputs, false, inputs, c);
    var (ns2, ctx1) := WithDefinitions(ns1, ctx, b, pc, insn.outputs, false, inputs);
    var (ns3, ctx2) := (ns2 + [Node(SinkNode, pc, inputs, b)], WithKills(ctx1, f.killedByCall));
    KillsMade(ctx1, f.killedByCall, c);
    DefinitionsMade(ns3, ctx2, b, pc, f.definedByCall, true, inputs);
    DefinitionsHeld(ns3, ctx2, b, pc, f.definedByCall, true, inputs, c);
    ListsIffNames(insn.outputs, loc);
    ListsIffNames(f.killedByCall, loc);
    ListsIffNames(f.definedByCall, loc);
    var (ns, ctx', made) := WithInsn(f, b, pc, nodes, ctx);
    if Names(f.definedByCall, c) {
      CallNamed(ns, |ns3|, b, pc, f.definedByCall, inputs, Held(ctx', c), loc);
      var id :| Held(ctx', c) == {id} && Defines(ns, |ns3|, id, loc) && ns[id].kind.CallReturnNode?;
      DefinesEarlier(ns, |ns3|, |nodes|, id, loc);
    } else if !Names(f.killedByCall, c) && Names(insn.outputs, c) {
      LastNamed(ns, |ns1|, b, pc, insn, inputs, Held(ctx', c), loc);
      var id :| Held(ctx', c) == {id} && Defines(ns, |ns1|, id, loc) && ns[id].kind.ResultNode?
                && LastResult(insn, ns[id].kind.opindex, loc);
      DefinesEarlier(ns, |ns1|, |nodes|, id, loc);
    }
  }

  /** All nodes that carry operands carry the instruction's. */
  lemma InputsCarried(f: Problem, b: nat, pc: nat, nodes: seq<Node>, ctx: Context<nat>)
    requires f.Valid() && b < |f.graph.blocks| && pc < |f.code| && KnownRegisters(f.code[pc]) && HeldBelow(nodes, ctx)
    ensures var (ns, ctx', made) := WithInsn(f, b, pc, nodes, ctx);
      && nodes <= ns
      && (forall id :: |nodes| <= id < |ns| && CarriesOperands(ns[id]) ==>
            ns[id].index == pc && ns[id].block == b && Reads(ns, ns[id].inputs, pc, f.code[pc], ctx))
      && if f.code[pc].isStore || f.code[pc].kind.Branch?
         then |made| == 1 && |nodes| <= made[0] < |ns| && ns[made[0]].kind.SinkNode?
         else made == []
  {
    hide AllCells, CellOf, Held, WithOperands, WithDefinitions, WithKills, Reads, CarriesOperands, Graph.Valid;
    var insn := f.code[pc];
    var (ns1, inputs) := WithOperands(nodes, b, pc, insn, ctx);
    OperandsMade(nodes, b, pc, insn, ctx);
    DefinitionsMade(ns1, ctx, b, pc, insn.outputs, false, inputs);
    var (ns2, ctx1) := WithDefinitions(ns1, ctx, b, pc, insn.outputs, false, inputs);
    var ns3 := ns2 + [Node(SinkNode, pc, inputs, b)];
    DefinitionsMade(ns3, WithKills(ctx1, f.killedByCall), b, pc, f.definedByCall, true, inputs);
    var (ns, ctx', made) := WithInsn(f, b, pc, nodes, ctx);
    assert ns1 <= ns;
    ReadsStable(ns1, ns, inputs, pc, insn, ctx);
    DefinitionsWith(ns1, ns2, b, pc, insn.outputs, false, inputs);
    if MakesSink(insn) && IsCall(f, b, pc) { DefinitionsWith(ns3, ns, b, pc, f.definedByCall, true, inputs); }
    assert AllWith(ns, |ns1|, b, pc, inputs);
  }

  lemma DefinitionsWith(nodes: seq<Node>, ns: seq<Node>, b: nat, pc: nat, locs: seq<Location>, fromCall: bool,
                        inputs: seq<nat>)
    requires nodes <= ns && |ns| == |nodes| + |locs|
    requires forall k :: 0 <= k < |locs| ==>
      ns[|nodes| + k] == Node(if fromCall then CallReturnNode(locs[k]) else ResultNode(k, locs[k]), pc, inputs, b)
    ensures AllWith(ns, |nodes|, b, pc, inputs)
  {
    forall id | |nodes| <= id < |ns|
      ensures ns[id].index == pc && ns[id].block == b && ns[id].inputs == inputs
    {
      var k := id - |nodes|;
      assert ns[|nodes| + k]
          == Node(if fromCall then CallReturnNode(locs[k]) else ResultNode(k, locs[k]), pc, inputs, b);
    }
  }

  lemma SpecifiedInsn(f: Problem, b: nat, pc: nat, nodes: seq<Node>, ctx: Context<nat>)
    requires f.Valid() && b < |f.graph.blocks| && pc < |f.code| && KnownRegisters(f.code[pc]) && HeldBelow(nodes, ctx)
    ensures var (ns, ctx', made) := WithInsn(f, b, pc, nodes, ctx); InsnMade(f, b, pc, nodes, ctx, ns, ctx', made)
  {
    hide AllCells, CellOf, Held, WithInsn, HeldAfter, Reads, CarriesOperands, KnownRegisters, Graph.Valid;
    InputsCarried(f, b, pc, nodes, ctx);
    forall loc | Known(loc)
      ensures var ((ns, ctx', made), c) := (WithInsn(f, b, pc, nodes, ctx), CellOf(loc).value);
        HeldAfter(f, b, pc, |nodes|, Held(ctx, c), ns, Held(ctx', c), loc)
    {
      if IsCall(f, b, pc) { CallHeld(f, b, pc, nodes, ctx, loc); } else { PlainHeld(f, b, pc, nodes, ctx, loc); }
    }
  }

  lemma CanonKinds(nodes: seq<Node>, id: nat)
    requires id < |nodes|
    ensures Canon(nodes)[id].kind == nodes[id].kind && Canon(nodes)[id].index == nodes[id].index
    ensures Canon(nodes)[id].block == nodes[id].block
    ensures !nodes[id].kind.PhiNode? ==> Canon(nodes)[id] == nodes[id]
  {
    hide Ordered;
  }

  lemma CanonHeldAfter(f: Problem, b: nat, pc: nat, from: nat, held: set<nat>, nodes: seq<Node>, held': set<nat>,
                       loc: Location)
    requires b < |f.graph.blocks| && pc < |f.code| && HeldAfter(f, b, pc, from, held, Canon(nodes), held', loc)
    ensures HeldAfter(f, b, pc, from, held, nodes, held', loc)
  {
    hide AllCells, Canon, Lists, LastResult, SameRegister;
    forall id: nat | id < |nodes| { CanonKinds(nodes, id); }
    assert forall id :: Defines(Canon(nodes), from, id, loc) ==> Defines(nodes, from, id, loc);
  }

  /** So do the nodes as they are made. */
  lemma InsnIsMade(f: Problem, b: nat, pc: nat, nodes: seq<Node>, ctx: Context<nat>, nodes': seq<Node>,
                   ctx': Context<nat>, made: seq<nat>)
    requires f.Valid() && b < |f.graph.blocks| && pc < |f.code| && KnownRegisters(f.code[pc])
    requires nodes <= nodes' && AllWellMade(f, nodes') && DefinitionsOnly(nodes, ctx)
    requires (Canon(nodes'), ctx', made) == WithInsn(f, b, pc, Canon(nodes), ctx)
    ensures InsnMade(f, b, pc, nodes, ctx, nodes', ctx', made)
  {
    hide AllCells, CellOf, Held, WithInsn, HeldAfter, Reads, Canon, AllWellMade, Graph.Valid;
    HeldDefinitions(nodes, ctx);
    SpecifiedInsn(f, b, pc, Canon(nodes), ctx);
    forall id: nat | id < |nodes'| { CanonKinds(nodes', id); }
    forall id | |nodes| <= id < |nodes'| && CarriesOperands(nodes'[id])
      ensures Reads(nodes', nodes'[id].inputs, pc, f.code[pc], ctx)
    {
      CanonReads(f, nodes', nodes'[id].inputs, pc, f.code[pc], ctx);
    }
    forall loc | Known(loc)
      ensures var c := CellOf(loc).value; HeldAfter(f, b, pc, |nodes|, Held(ctx, c), nodes', Held(ctx', c), loc)
    {
      var c := CellOf(loc).value;
      CanonHeldAfter(f, b, pc, |nodes|, Held(ctx, c), nodes', Held(ctx', c), loc);
    }
  }

  lemma HeldDefinitions(nodes: seq<Node>, ctx: Context<nat>)
    requires DefinitionsOnly(nodes, ctx)
    ensures HeldBelow(Canon(nodes), ctx)
  {
    hide AllCells;
    forall c, id | id in Held(ctx, c)
      ensures id < |nodes|
    {
      assert Definitions(nodes, ctx[c]);
    }
  }

  // ---- Return values ----

  /** The registers in the list that hold something, in order. */
  ghost function Returning(locs: seq<Location>, ctx: Context<nat>): seq<Location>
    requires AllKnown(locs)
  {
    if locs == [] then []
    else
      var last := locs[|locs| - 1];
      assert Known(last);
      Returning(locs[..|locs| - 1], ctx) + if Held(ctx, CellOf(last).value) != {} then [last] else []
  }

  /** Each register that holds something is among them as often as it is listed, and no other. */
  lemma {:induction false} ReturningAll(locs: seq<Location>, ctx: Context<nat>, loc: Location)
    requires AllKnown(locs) && Known(loc)
    ensures multiset(Returning(locs, ctx))[loc] == if Held(ctx, CellOf(loc).value) != {} then multiset(locs)[loc] else 0
    decreases |locs|
  {
    hide AllCells, CellOf, Held;
    if locs != [] {
      var (init, last) := (locs[..|locs| - 1], locs[|locs| - 1]);
      assert locs == init + [last] && Known(last);
      ReturningAll(init, ctx, loc);
    }
  }

  /** A return node at the end of the block that reads what the register holds. */
  ghost predicate ReturnFor(f: Problem, b: nat, nodes: seq<Node>, id: nat, loc: Location, ctx: Context<nat>)
    requires b < |f.graph.blocks| && Known(loc)
  {
    && id < |nodes|
    && var n := nodes[id];
      && n.kind == ReturnNode(loc) && n.index == f.graph.blocks[b].end && n.block == b && |n.inputs| == 1
      && ReadsRegister(nodes, n.inputs[0], |f.code|, loc, Held(ctx, CellOf(loc).value))
  }

  /** One for each register in the list that holds something. */
  ghost predicate ReturnsMade(f: Problem, b: nat, nodes: seq<Node>, made: seq<nat>, locs: seq<Location>,
                              ctx: Context<nat>)
    requires b < |f.graph.blocks| && AllKnown(locs)
  {
    && |made| == |Returning(locs, ctx)|
    && forall k :: 0 <= k < |made| ==>
         Known(Returning(locs, ctx)[k]) && ReturnFor(f, b, nodes, made[k], Returning(locs, ctx)[k], ctx)
  }

  lemma NoneReturning(f: Problem, b: nat, nodes: seq<Node>, ctx: Context<nat>)
    requires b < |f.graph.blocks|
    ensures ReturnsMade(f, b, nodes, [], [], ctx)
  {
  }

  lemma ReturnsOneMore(f: Problem, b: nat, nodes: seq<Node>, nodes': seq<Node>, made: seq<nat>, one: seq<nat>,
                       locs: seq<Location>, ctx: Context<nat>)
    requires b < |f.graph.blocks| && AllKnown(locs) && locs != [] && nodes <= nodes'
    requires ReturnsMade(f, b, nodes, made, locs[..|locs| - 1], ctx) && Known(locs[|locs| - 1])
    requires if Held(ctx, CellOf(locs[|locs| - 1]).value) == {} then one == []
             else |one| == 1 && ReturnFor(f, b, nodes', one[0], locs[|locs| - 1], ctx)
    ensures ReturnsMade(f, b, nodes', made + one, locs, ctx)
  {
    hide AllCells, CellOf, Held;
    var (r, s) := (Returning(locs[..|locs| - 1], ctx), Returning(locs, ctx));
    forall k | 0 <= k < |made|
      ensures Known(r[k]) && s[k] == r[k] && ReturnFor(f, b, nodes', made[k], r[k], ctx)
    {
      assert ReturnFor(f, b, nodes, made[k], r[k], ctx);
    }
  }
}
