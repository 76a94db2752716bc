/** The data-flow pass over a function's blocks (src/data_flow/DataFlowAnalysis.cpp). */
module DataFlowAnalysis {
  import opened Instructions
  import opened MachineCode
  import opened ControlFlowGraphs
  import opened FlowContexts
  import opened ReachingDefinitions
  import opened ChaoticIteration
  import opened DataFlowNodes
  import opened DataFlowInvariants
  import opened CanonicalNodes
  import opened OperandNodes
  import NC = NodeCounting
  import opened NodeConvergence
  import opened NodeRuns

  class DataFlowAnalysis {
    var worklist: seq<nat>
    var nodes: seq<Node>
    var blockContexts: seq<Context<nat>>
    var sinks: seq<seq<nat>>

    constructor ()
      ensures worklist == [] && nodes == [] && blockContexts == [] && sinks == []
    {
      worklist, nodes, blockContexts, sinks := [], [], [], [];
    }

    method NewNode(f: Problem, n: Node) returns (id: nat)
      requires AllWellMade(f, nodes) && WellMade(f, nodes + [n], |nodes|)
      modifies `nodes
      ensures nodes == old(nodes) + [n] && id == |old(nodes)| && AllWellMade(f, nodes)
      ensures Canon(nodes) == Canon(old(nodes)) + [CanonNode(n)]
    {
      hide WellMade, AllWellMade;
      AppendWellMade(f, nodes, n);
      CanonAppend(nodes, n);
      id := |nodes|;
      nodes := nodes + [n];
    }

    // ---- Operands ----

    /** The elements of a set, in a fixed but arbitrary order. */
    static method Listed(ids: set<nat>) returns (r: seq<nat>)
      ensures (set k | k in r) == ids && |r| == |ids|
      ensures forall i :: 0 <= i < |r| ==> r[i] in ids
    {
      r := [];
      var left := ids;
      while left != {}
        invariant left <= ids && |r| + |left| == |ids|
        invariant forall i :: 0 <= i < |r| ==> r[i] in ids - left
        invariant forall k :: k in ids - left ==> k in r
        decreases left
      {
        var k :| k in left;
        left := left - {k};
        r := r + [k];
      }
    }

    /** The operand for a register: a new input of the function, the one definition, or a new phi node. */
    method ReadRegister(f: Problem, b: nat, pc: nat, location: Location, defs: set<nat>) returns (id: nat)
      requires AllWellMade(f, nodes) && Definitions(nodes, defs)
      modifies `nodes
      ensures old(nodes) <= nodes && AllWellMade(f, nodes) && NoneMade(nodes, |old(nodes)|) && id < |nodes|
      ensures OperandOf(nodes, id) == Read(location, Sites(old(nodes), defs))
      ensures (Canon(nodes), id) == WithRegister(Canon(old(nodes)), b, pc, location, defs)
      ensures ReadsRegister(nodes, id, pc, location, defs)
    {
      hide AllCells, Known, AllWellMade, Canon, Ordered;
      NoSites(nodes, defs);
      if |defs| == 0 {
        id := NewNode(f, Node(FunctionInputNode(location), pc, [], b));
      } else if |defs| == 1 {
        id :| id in defs;
        SingletonSet(defs, id);
        assert TheOnly(defs) in defs;
      } else {
        var inputs := Listed(defs);
        assert Elements(inputs) == defs;
        id := NewNode(f, Node(PhiNode(location), pc, inputs, b));
        assert nodes[id].inputs == inputs;
        CanonPhi(location, pc, inputs, b, defs);
        SitesStable(old(nodes), nodes, defs);
      }
    }

    static lemma SingletonSet(s: set<nat>, x: nat)
      requires x in s && |s| == 1
      ensures s == {x}
    {
      assert |s - {x}| == 0;
      assert s == (s - {x}) + {x};
    }

    method ReadReferences(f: Problem, b: nat, pc: nat, refs: seq<Relocation>) returns (ids: seq<nat>)
      requires AllWellMade(f, nodes)
      modifies `nodes
      ensures old(nodes) <= nodes && AllWellMade(f, nodes) && NoneMade(nodes, |old(nodes)|)
      ensures forall i :: 0 <= i < |ids| ==> ids[i] < |nodes|
      ensures OperandsOf(nodes, ids) == seq(|refs|, i requires 0 <= i < |refs| => RefOperand(refs[i]))
      ensures (Canon(nodes), ids) == WithReferences(Canon(old(nodes)), b, pc, refs)
    {
      hide AllWellMade, Canon;
      ids := [];
      for i := 0 to |refs|
        invariant old(nodes) <= nodes && AllWellMade(f, nodes) && NoneMade(nodes, |old(nodes)|) && |ids| == i
        invariant forall k :: 0 <= k < i ==> ids[k] < |nodes| && OperandOf(nodes, ids[k]) == RefOperand(refs[k])
        invariant (Canon(nodes), ids) == WithReferences(Canon(old(nodes)), b, pc, refs[..i])
      {
        assert refs[..i + 1][..i] == refs[..i];
        var id := NewNode(f, Node(ReferenceNode(i, refs[i]), pc, [], b));
        ids := ids + [id];
      }
      assert refs[..|refs|] == refs;
    }

    method ReadImmediates(f: Problem, b: nat, pc: nat, imms: seq<int>) returns (ids: seq<nat>)
      requires AllWellMade(f, nodes)
      modifies `nodes
      ensures old(nodes) <= nodes && AllWellMade(f, nodes) && NoneMade(nodes, |old(nodes)|)
      ensures forall i :: 0 <= i < |ids| ==> ids[i] < |nodes|
      ensures OperandsOf(nodes, ids) == seq(|imms|, i requires 0 <= i < |imms| => ImmOperand(imms[i]))
      ensures (Canon(nodes), ids) == WithImmediates(Canon(old(nodes)), b, pc, imms)
    {
      hide AllWellMade, Canon;
      ids := [];
      for i := 0 to |imms|
        invariant old(nodes) <= nodes && AllWellMade(f, nodes) && NoneMade(nodes, |old(nodes)|) && |ids| == i
        invariant forall k :: 0 <= k < i ==> ids[k] < |nodes| && OperandOf(nodes, ids[k]) == ImmOperand(imms[k])
        invariant (Canon(nodes), ids) == WithImmediates(Canon(old(nodes)), b, pc, imms[..i])
      {
        assert imms[..i + 1][..i] == imms[..i];
        var id := NewNode(f, Node(ImmediateNode(i, imms[i]), pc, [], b));
        ids := ids + [id];
      }
      assert imms[..|imms|] == imms;
    }

    method ReadRegisters(f: Problem, b: nat, pc: nat, locs: seq<Location>, ctx: Context<nat>) returns (ids: seq<nat>)
      requires AllWellMade(f, nodes) && AllKnown(locs) && DefinitionsOnly(nodes, ctx)
      modifies `nodes
      ensures old(nodes) <= nodes && AllWellMade(f, nodes) && NoneMade(nodes, |old(nodes)|)
      ensures forall i :: 0 <= i < |ids| ==> ids[i] < |nodes|
      ensures OperandsOf(nodes, ids)
           == seq(|locs|, i requires 0 <= i < |locs| => ReadAt(locs[i], old(SiteContext(nodes, ctx))))
      ensures (Canon(nodes), ids) == WithRegisters(Canon(old(nodes)), b, pc, locs, ctx)
    {
      hide AllCells, AllWellMade, OperandOf, CellOf, Canon, WithRegister, ReadsRegister;
      ghost var at := SiteContext(nodes, ctx);
      ids := [];
      for i := 0 to |locs|
        invariant old(nodes) <= nodes && AllWellMade(f, nodes) && NoneMade(nodes, |old(nodes)|) && |ids| == i
        invariant forall k :: 0 <= k < i ==> ids[k] < |nodes| && OperandOf(nodes, ids[k]) == ReadAt(locs[k], at)
        invariant (Canon(nodes), ids) == WithRegisters(Canon(old(nodes)), b, pc, locs[..i], ctx)
      {
        ghost var before := nodes;
        assert Known(locs[i]) && locs[..i + 1][..i] == locs[..i];
        var defs := ctx[CellOf(locs[i]).value];
        SitesStable(old(nodes), nodes, defs);
        var id := ReadRegister(f, b, pc, locs[i], defs);
        forall k | 0 <= k < i
          ensures OperandOf(nodes, ids[k]) == ReadAt(locs[k], at)
        {
          OperandStable(f, before, nodes, ids[k]);
        }
        ids := ids + [id];
      }
      assert locs[..|locs|] == locs;
    }

    method ReadOperands(f: Problem, b: nat, pc: nat, ctx: Context<nat>) returns (ids: seq<nat>)
      requires AllWellMade(f, nodes) && DefinitionsOnly(nodes, ctx)
      requires pc < |f.code| && AllKnown(f.code[pc].inputs)
      modifies `nodes
      ensures old(nodes) <= nodes && AllWellMade(f, nodes) && NoneMade(nodes, |old(nodes)|)
      ensures forall i :: 0 <= i < |ids| ==> ids[i] < |nodes|
      ensures OperandsOf(nodes, ids) == ExpectedOperands(f.code[pc], old(SiteContext(nodes, ctx)))
      ensures (Canon(nodes), ids) == WithOperands(Canon(old(nodes)), b, pc, f.code[pc], ctx)
      ensures Reads(nodes, ids, pc, f.code[pc], ctx) && ReadsInsn(nodes, ids, f.code[pc])
    {
      hide AllCells, AllWellMade, OperandOf, DefinitionsOnly, ReadAt, Canon, WithReferences, WithImmediates,
           WithRegisters, Reads, ReadsInsn;
      ghost var nodes0 := nodes;
      var refs := ReadReferences(f, b, pc, f.code[pc].refs);
      ghost var nodes1 := nodes;
      var imms := ReadImmediates(f, b, pc, f.code[pc].imms);
      ghost var nodes2 := nodes;
      SiteContextStable(nodes0, nodes2, ctx);
      var regs := ReadRegisters(f, b, pc, f.code[pc].inputs, ctx);
      OperandsStable(f, nodes1, nodes, refs);
      OperandsStable(f, nodes2, nodes, imms);
      ids := refs + imms + regs;
      assert OperandsOf(nodes, ids) == OperandsOf(nodes, refs) + OperandsOf(nodes, imms) + OperandsOf(nodes, regs);
      HeldDefinitions(nodes0, ctx);
      OperandsMade(Canon(nodes0), b, pc, f.code[pc], ctx);
      CanonReads(f, nodes, ids, pc, f.code[pc], ctx);
      SiteContextStable(nodes0, nodes, ctx);
      ReadsListed(nodes, ids, pc, f.code[pc], ctx);
    }

    // ---- Definitions ----

    /** The loop over an instruction's results, or over the registers a call returns values in. */
    method DefineAll(f: Problem, b: nat, pc: nat, locs: seq<Location>, fromCall: bool,
                     inputs: seq<nat>, flowContext: FlowContext)
      requires AllWellMade(f, nodes) && AllKnown(locs)
      requires f.graph.Internal(b) && Holds(f.graph.blocks[b], pc) && pc < |f.code|
      requires if fromCall then locs == f.definedByCall && IsCall(f, b, pc) else locs == f.code[pc].outputs
      requires (forall i :: 0 <= i < |inputs| ==> inputs[i] < |nodes|) && ReadsInsn(nodes, inputs, f.code[pc])
      requires flowContext.Valid() && DefinitionsOnly(nodes, flowContext.Value())
      modifies `nodes, flowContext
      ensures old(nodes) <= nodes && AllWellMade(f, nodes)
      ensures flowContext.Valid() && DefinitionsOnly(nodes, flowContext.Value())
      ensures SiteContext(nodes, flowContext.Value())
           == Defined(old(SiteContext(nodes, flowContext.Value())), b, pc, locs, fromCall)
      ensures MadeAt(f, nodes, |old(nodes)|, b, pc, old(OperandsOf(nodes, inputs)))
      ensures Replaced(old(flowContext.Value()), flowContext.Value(), locs, |old(nodes)|)
      ensures (Canon(nodes), flowContext.Value())
           == WithDefinitions(Canon(old(nodes)), old(flowContext.Value()), b, pc, locs, fromCall, inputs)
      ensures ReadsInsn(nodes, inputs, f.code[pc])
    {
      hide AllCells, CellSet, CellOf, AllWellMade, DefinitionsOnly, Sites, SiteContext, Defined, OperandsOf, MadeAt,
           IsCall, Replaced, Names, Canon, WithDefinitions, ReadsInsn;
      ghost var operands := OperandsOf(nodes, inputs);
      NoneMadeAt(f, nodes, |nodes|, b, pc, operands);
      ghost var at := SiteContext(nodes, flowContext.Value());
      DefinedNone(at, b, pc, fromCall);
      ReplacedNone(flowContext.Value(), |nodes|);
      SameCells(nodes, flowContext.Value());
      NoDefinitions(Canon(nodes), flowContext.Value(), b, pc, fromCall, inputs);
      for i := 0 to |locs|
        invariant old(nodes) <= nodes && AllWellMade(f, nodes)
        invariant MadeAt(f, nodes, |old(nodes)|, b, pc, operands) && OperandsOf(nodes, inputs) == operands
        invariant ReadsInsn(nodes, inputs, f.code[pc])
        invariant flowContext.Valid() && DefinitionsOnly(nodes, flowContext.Value())
        invariant SiteContext(nodes, flowContext.Value()) == Defined(at, b, pc, locs[..i], fromCall)
        invariant Replaced(old(flowContext.Value()), flowContext.Value(), locs[..i], |old(nodes)|)
        invariant (Canon(nodes), flowContext.Value())
               == WithDefinitions(Canon(old(nodes)), old(flowContext.Value()), b, pc, locs[..i], fromCall, inputs)
      {
        ghost var before, ctx := nodes, flowContext.Value();
        assert Known(locs[i]);
        DefinitionsOneMore(Canon(old(nodes)), old(flowContext.Value()), b, pc, locs, i, fromCall, inputs);
        var kind := if fromCall then CallReturnNode(locs[i]) else ResultNode(i, locs[i]);
        ReadsInsnStable(nodes, nodes + [Node(kind, pc, inputs, b)], inputs, f.code[pc]);
        var id := NewNode(f, Node(kind, pc, inputs, b));
        OperandsStable(f, before, nodes, inputs);
        ReadsInsnStable(before, nodes, inputs, f.code[pc]);
        OneMadeAt(f, nodes, id, b, pc, operands);
        MadeAtStable(f, before, nodes, |old(nodes)|, b, pc, operands);
        flowContext.SetDefinition(locs[i], id);
        ReplacedOneMore(old(flowContext.Value()), ctx, locs, i, |old(nodes)|, {id});
        SiteContextStable(before, nodes, ctx);
        SingleSite(nodes, id);
        SiteContextUpdate(nodes, ctx, CellOf(locs[i]).value, {id});
        DefinedOneMore(at, b, pc, locs, i, fromCall);
      }
      assert locs[..|locs|] == locs;
    }

    static lemma DefinedNone(at: Context<Site>, b: nat, pc: nat, fromCall: bool)
      ensures Defined(at, b, pc, [], fromCall) == at && Killed(at, []) == at
    {
    }

    static lemma SameCells(nodes: seq<Node>, ctx: Context<nat>)
      ensures SiteContext(nodes, ctx).Keys == ctx.Keys
    {
    }

    method KillAll(f: Problem, locs: seq<Location>, flowContext: FlowContext, ghost from: nat)
      requires AllKnown(locs) && flowContext.Valid() && DefinitionsOnly(nodes, flowContext.Value())
      modifies flowContext
      ensures flowContext.Valid() && DefinitionsOnly(nodes, flowContext.Value())
      ensures SiteContext(nodes, flowContext.Value()) == Killed(old(SiteContext(nodes, flowContext.Value())), locs)
      ensures Replaced(old(flowContext.Value()), flowContext.Value(), locs, from)
      ensures flowContext.Value() == WithKills(old(flowContext.Value()), locs)
    {
      hide AllCells, CellOf, DefinitionsOnly, Sites, SiteContext, Killed, Replaced, Names;
      ReplacedNone(flowContext.Value(), from);
      ghost var at := SiteContext(nodes, flowContext.Value());
      DefinedNone(at, 0, 0, false);
      SameCells(nodes, flowContext.Value());
      for i := 0 to |locs|
        invariant flowContext.Valid() && DefinitionsOnly(nodes, flowContext.Value())
        invariant SiteContext(nodes, flowContext.Value()) == Killed(at, locs[..i])
        invariant Replaced(old(flowContext.Value()), flowContext.Value(), locs[..i], from)
        invariant flowContext.Value() == WithKills(old(flowContext.Value()), locs[..i])
      {
        ghost var ctx := flowContext.Value();
        assert Known(locs[i]) && locs[..i + 1][..i] == locs[..i];
        flowContext.KillDefinition(locs[i]);
        ReplacedOneMore(old(flowContext.Value()), ctx, locs, i, from, {});
        NoSites(nodes, {});
        SiteContextUpdate(nodes, ctx, CellOf(locs[i]).value, {});
        KilledOneMore(at, locs, i);
      }
      assert locs[..|locs|] == locs;
    }

    // ---- One block ----

    /** The union of the contexts at the end of the predecessors. */
    method InitBlockContext(f: Problem, b: nat) returns (flowContext: FlowContext)
      requires f.Valid() && b < |f.graph.blocks| == |blockContexts|
      requires AllDefinitions(nodes, blockContexts)
      ensures fresh(flowContext) && flowContext.Valid() && DefinitionsOnly(nodes, flowContext.Value())
      ensures EntersWith(f, nodes, blockContexts, b, flowContext.Value())
      ensures JoinsAll(f, blockContexts, b, flowContext.Value())
    {
      hide AllCells, AllDefinitions, Joined, EntersWith, Graph.Dual, Graph.UniqueStarts, Graph.OutsideIsLeaf;
      flowContext := new FlowContext();
      var pred := f.graph.psTable[b].pred;
      JoinedNone(blockContexts);
      for i := 0 to |pred|
        invariant fresh(flowContext) && flowContext.Valid()
        invariant forall c :: c in AllCells() ==> flowContext.At(c) == Joined(blockContexts, pred[..i], c)
      {
        ghost var before := flowContext.Value();
        DefinitionsAt(nodes, blockContexts, pred[i]);
        flowContext.ContextUnion(blockContexts[pred[i]]);
        forall c | c in AllCells()
          ensures flowContext.At(c) == Joined(blockContexts, pred[..i + 1], c)
        {
          assert before[c] == Joined(blockContexts, pred[..i], c);
          JoinedOneMore(blockContexts, pred, i, c);
        }
      }
      assert pred[..|pred|] == pred;
      JoinedIsEntry(f, nodes, blockContexts, b, flowContext.Value());
    }

    /** One instruction: its operands, its results, its sink, and the call it may make.  `ok` is false when a
        register list names a register the context has no cell for. */
    method VisitInsn(f: Problem, b: nat, pc: nat, flowContext: FlowContext) returns (ok: bool, made: seq<nat>)
      requires f.Valid() && AllWellMade(f, nodes)
      requires f.graph.Internal(b) && Holds(f.graph.blocks[b], pc)
      requires flowContext.Valid() && DefinitionsOnly(nodes, flowContext.Value())
      modifies `nodes, flowContext
      ensures ok <==> KnownRegisters(f.code[pc])
      ensures ok ==> old(nodes) <= nodes && AllWellMade(f, nodes)
      ensures ok ==> flowContext.Valid() && DefinitionsOnly(nodes, flowContext.Value())
      ensures ok ==> SiteContext(nodes, flowContext.Value())
                     == After(f, b, pc, old(SiteContext(nodes, flowContext.Value())))
      ensures ok ==> Sinks(f, nodes, made) && ShapesOf(f, nodes, made)
                     == SinkAt(f, pc, old(SiteContext(nodes, flowContext.Value())))
      ensures ok ==> MadeAt(f, nodes, |old(nodes)|, b, pc,
                            ExpectedOperands(f.code[pc], old(SiteContext(nodes, flowContext.Value()))))
      ensures ok ==> Refreshed(f, b, pc, old(flowContext.Value()), flowContext.Value(), |old(nodes)|)
      ensures ok ==> (Canon(nodes), flowContext.Value(), made)
                     == WithInsn(f, b, pc, Canon(old(nodes)), old(flowContext.Value()))
      ensures ok ==> InsnMade(f, b, pc, old(nodes), old(flowContext.Value()), nodes, flowContext.Value(), made)
    {
      hide AllCells, CellOf, AllKnown, AllWellMade, DefinitionsOnly, SiteContext, Defined, Killed, OperandsOf,
           ExpectedOperands, Sinks, ShapesOf, MadeAt, Replaced, Refreshed, Canon, WithOperands, WithDefinitions,
           WithKills, InsnMade, ReadsInsn, Reads;
      var insn := f.code[pc];
      if !AllKnown(insn.inputs) || !AllKnown(insn.outputs) { return false, []; }
      ghost var at := SiteContext(nodes, flowContext.Value());
      var inputs := ReadOperands(f, b, pc, flowContext.Value());
      SiteContextStable(old(nodes), nodes, flowContext.Value());
      ghost var nodes1 := nodes;
      ghost var operands := OperandsOf(nodes, inputs);
      NoneMadeAt(f, nodes, |old(nodes)|, b, pc, operands);
      ghost var ctx0 := flowContext.Value();
      DefineAll(f, b, pc, insn.outputs, false, inputs, flowContext);
      ghost var ctx1 := flowContext.Value();
      ReplacedEarlier(ctx0, ctx1, insn.outputs, |nodes1|, |old(nodes)|);
      if !IsCall(f, b, pc) { RefreshedPlain(f, b, pc, ctx0, ctx1, |old(nodes)|); }
      OperandsStable(f, nodes1, nodes, inputs);
      MadeAtStable(f, nodes1, nodes, |old(nodes)|, b, pc, operands);
      made := [];
      NoShapes(f, nodes);
      if MakesSink(insn) {
        ghost var nodes3 := nodes;
        made := MakeSink(f, b, pc, inputs, flowContext.Value());
        ghost var nodes2 := nodes;
        MadeAtStable(f, nodes3, nodes, |old(nodes)|, b, pc, operands);
        if !insn.isStore && f.graph.blocks[b].endsInCall {
          KillAll(f, f.killedByCall, flowContext, |old(nodes)|);
          ghost var ctx2 := flowContext.Value();
          DefineAll(f, b, pc, f.definedByCall, true, inputs, flowContext);
          ShapesStable(f, nodes2, nodes, made);
          RefreshedCall(f, b, pc, ctx0, ctx1, ctx2, flowContext.Value(), |old(nodes)|, |nodes2|);
          MadeAtStable(f, nodes2, nodes, |old(nodes)|, b, pc, operands);
        }
      }
      AfterComposed(f, b, pc, at);
      InsnIsMade(f, b, pc, old(nodes), ctx0, nodes, flowContext.Value(), made);
      ok := true;
    }

    method MakeSink(f: Problem, b: nat, pc: nat, inputs: seq<nat>, ghost ctx: Context<nat>) returns (made: seq<nat>)
      requires AllWellMade(f, nodes) && f.graph.Internal(b) && Holds(f.graph.blocks[b], pc)
      requires pc < |f.code| && MakesSink(f.code[pc])
      requires (forall i :: 0 <= i < |inputs| ==> inputs[i] < |nodes|) && ReadsInsn(nodes, inputs, f.code[pc])
      requires DefinitionsOnly(nodes, ctx)
      modifies `nodes
      ensures old(nodes) <= nodes && AllWellMade(f, nodes)
      ensures DefinitionsOnly(nodes, ctx) && SiteContext(nodes, ctx) == old(SiteContext(nodes, ctx))
      ensures Sinks(f, nodes, made)
      ensures ShapesOf(f, nodes, made) == [SinkShape(pc, old(OperandsOf(nodes, inputs)))]
      ensures OperandsOf(nodes, inputs) == old(OperandsOf(nodes, inputs))
      ensures MadeAt(f, nodes, |old(nodes)|, b, pc, old(OperandsOf(nodes, inputs)))
      ensures Canon(nodes) == Canon(old(nodes)) + [Node(SinkNode, pc, inputs, b)] && made == [|old(nodes)|]
      ensures ReadsInsn(nodes, inputs, f.code[pc])
    {
      hide AllCells, AllWellMade, DefinitionsOnly, SiteContext, OperandOf, MadeAt, MakesSink, Canon, ReadsInsn;
      ReadsInsnStable(nodes, nodes + [Node(SinkNode, pc, inputs, b)], inputs, f.code[pc]);
      var sink := NewNode(f, Node(SinkNode, pc, inputs, b));
      SiteContextStable(old(nodes), nodes, ctx);
      OperandsStable(f, old(nodes), nodes, inputs);
      OneMadeAt(f, nodes, sink, b, pc, OperandsOf(nodes, inputs));
      made := [sink];
    }

    /** All instructions of a block.  The sinks made are the block's, in order. */
    method VisitInsns(f: Problem, b: nat, flowContext: FlowContext) returns (ok: bool, blockSinks: seq<nat>)
      requires f.Valid() && AllWellMade(f, nodes) && f.graph.Internal(b)
      requires flowContext.Valid() && DefinitionsOnly(nodes, flowContext.Value())
      modifies `nodes, flowContext
      ensures ok <==> KnownBlock(f, b)
      ensures ok ==> old(nodes) <= nodes && AllWellMade(f, nodes)
      ensures ok ==> flowContext.Valid() && DefinitionsOnly(nodes, flowContext.Value())
      ensures ok ==> SiteContext(nodes, flowContext.Value())
                     == Before(f, b, f.Stop(b), old(SiteContext(nodes, flowContext.Value())))
      ensures ok ==> Sinks(f, nodes, blockSinks) && ShapesOf(f, nodes, blockSinks)
                     == ExpectedSinks(f, b, f.Stop(b), old(SiteContext(nodes, flowContext.Value())))
      ensures ok ==> MadeIn(f, nodes, |old(nodes)|, b, f.Stop(b), old(SiteContext(nodes, flowContext.Value())))
      ensures ok ==> Own(nodes, flowContext.Value(), |old(nodes)|, b, f.Stop(b))
      ensures ok ==> Renewed(f, b, f.Stop(b), old(flowContext.Value()), flowContext.Value(), |old(nodes)|)
      ensures ok ==> (Canon(nodes), flowContext.Value(), blockSinks)
                     == WithInsns(f, b, f.Stop(b), Canon(old(nodes)), old(flowContext.Value()))
    {
      hide AllCells, Canon, WithInsn, KnownRegisters, AllWellMade, DefinitionsOnly, SiteContext, Before, After,
           SinkAt, Sinks, ShapesOf,
           ExpectedSinks, MadeAt, MadeIn, Own, Refreshed, Renewed, CellSet, Known,
           ExpectedOperands, Graph.Valid;
      ghost var entry := SiteContext(nodes, flowContext.Value());
      blockSinks := [];
      NoShapes(f, nodes);
      ExpectedAtStart(f, b, entry);
      NothingMadeIn(f, nodes, b, entry);
      OwnAtStart(f, nodes, flowContext.Value(), b);
      RenewedAtStart(f, b, flowContext.Value(), |nodes|);
      var pc := f.graph.blocks[b].start;
      while pc <= f.graph.blocks[b].end
        invariant f.Start(b) <= pc <= f.Stop(b)
        invariant forall q :: f.Start(b) <= q < pc ==> KnownRegisters(f.code[q])
        invariant old(nodes) <= nodes && AllWellMade(f, nodes)
        invariant flowContext.Valid() && DefinitionsOnly(nodes, flowContext.Value())
        invariant SiteContext(nodes, flowContext.Value()) == Before(f, b, pc, entry)
        invariant Sinks(f, nodes, blockSinks) && ShapesOf(f, nodes, blockSinks) == ExpectedSinks(f, b, pc, entry)
        invariant MadeIn(f, nodes, |old(nodes)|, b, pc, entry)
        invariant Own(nodes, flowContext.Value(), |old(nodes)|, b, pc)
        invariant Renewed(f, b, pc, old(flowContext.Value()), flowContext.Value(), |old(nodes)|)
        invariant (Canon(nodes), flowContext.Value(), blockSinks)
               == WithInsns(f, b, pc, Canon(old(nodes)), old(flowContext.Value()))
      {
        ghost var (before, ctx) := (nodes, flowContext.Value());
        var made;
        ok, made := VisitInsn(f, b, pc, flowContext);
        if !ok { return; }
        OwnStep(f, before, nodes, ctx, flowContext.Value(), |old(nodes)|, b, pc);
        RenewedStep(f, b, pc, old(flowContext.Value()), ctx, flowContext.Value(), |old(nodes)|, |before|);
        ShapesStable(f, before, nodes, blockSinks);
        ShapesConcat(f, nodes, blockSinks, made);
        ExpectedStep(f, b, pc, entry);
        MadeInStep(f, before, nodes, |old(nodes)|, b, pc, entry);
        blockSinks := blockSinks + made;
        pc := pc + 1;
      }
      ok := true;
    }

    /** The return values of an exit block. */
    method MakeReturns(f: Problem, b: nat, ctx: Context<nat>) returns (made: seq<nat>)
      requires f.Valid() && AllWellMade(f, nodes) && f.graph.Internal(b) && DefinitionsOnly(nodes, ctx)
      requires f.graph.blocks[b].isExit
      modifies `nodes
      ensures old(nodes) <= nodes && AllWellMade(f, nodes)
      ensures Sinks(f, nodes, made)
      ensures ShapesOf(f, nodes, made)
           == ExpectedReturns(f.graph.blocks[b].end, f.definedByCall, old(SiteContext(nodes, ctx)))
      ensures (Canon(nodes), made) == WithReturns(f, b, f.definedByCall, Canon(old(nodes)), ctx)
      ensures ReturnsMade(f, b, nodes, made, f.definedByCall, ctx)
    {
      hide AllCells, CellOf, AllWellMade, DefinitionsOnly, Sinks, ShapesOf, Sites, OperandOf, Canon, WithReturn,
           ReturnsMade, Graph.Valid;
      ghost var at := SiteContext(nodes, ctx);
      var (end, locs) := (f.graph.blocks[b].end, f.definedByCall);
      made := [];
      NoShapes(f, nodes);
      NoneReturning(f, b, nodes, ctx);
      for i := 0 to |locs|
        invariant old(nodes) <= nodes && AllWellMade(f, nodes)
        invariant Sinks(f, nodes, made) && ShapesOf(f, nodes, made) == ExpectedReturns(end, locs[..i], at)
        invariant (Canon(nodes), made) == WithReturns(f, b, locs[..i], Canon(old(nodes)), ctx)
        invariant ReturnsMade(f, b, nodes, made, locs[..i], ctx)
      {
        ghost var before := nodes;
        assert Known(locs[i]) && locs[..i + 1][..i] == locs[..i];
        var one := MakeReturn(f, b, locs[i], ctx, at);
        ReturnsOneMore(f, b, before, nodes, made, one, locs[..i + 1], ctx);
        ShapesStable(f, before, nodes, made);
        ShapesConcat(f, nodes, made, one);
        made := made + one;
      }
      assert locs[..|locs|] == locs;
    }

    method MakeReturn(f: Problem, b: nat, loc: Location, ctx: Context<nat>, ghost at: Context<Site>)
      returns (made: seq<nat>)
      requires f.Valid() && AllWellMade(f, nodes) && f.graph.Internal(b) && Known(loc)
      requires f.graph.blocks[b].isExit && loc in f.definedByCall
      requires exists before :: before <= nodes && DefinitionsOnly(before, ctx) && at == SiteContext(before, ctx)
      modifies `nodes
      ensures old(nodes) <= nodes && AllWellMade(f, nodes)
      ensures Sinks(f, nodes, made)
      ensures ShapesOf(f, nodes, made)
           == if ReadAt(loc, at).DefOperand? then [ReturnShape(f.graph.blocks[b].end, loc, ReadAt(loc, at))] else []
      ensures (Canon(nodes), made) == WithReturn(f, b, loc, Canon(old(nodes)), ctx)
      ensures if Held(ctx, CellOf(loc).value) == {} then made == []
              else |made| == 1 && ReturnFor(f, b, nodes, made[0], loc, ctx)
    {
      hide AllCells, CellOf, AllWellMade, OperandOf, Canon, WithRegister, Graph.Valid;
      ghost var before :| before <= nodes && DefinitionsOnly(before, ctx) && at == SiteContext(before, ctx);
      var defs := ctx[CellOf(loc).value];
      SitesStable(before, nodes, defs);
      NoSites(nodes, defs);
      made := [];
      if |defs| > 0 {
        ghost var nodes1 := nodes;
        var def := ReadRegister(f, b, |f.code|, loc, defs);
        ghost var nodes2 := nodes;
        var ret := NewNode(f, Node(ReturnNode(loc), f.graph.blocks[b].end, [def], b));
        OperandStable(f, nodes2, nodes, def);
        made := [ret];
      }
    }

    /** One visit.  `changed` compares the number of definition sites per cell before and after; `counted` is the
        comparison of the number of nodes. */
    method VisitBlock(f: Problem, b: nat) returns (ok: bool, changed: bool, counted: bool)
      requires State(f) && f.graph.Internal(b)
      modifies `nodes, `blockContexts, `sinks
      ensures ok <==> KnownBlock(f, b)
      ensures ok ==> State(f) && old(nodes) <= nodes
      ensures ok ==> SiteOuts(nodes, blockContexts) == Visited(f, old(SiteOuts(nodes, blockContexts)), b)
      ensures ok ==> (changed <==>
                        Sizes(old(SiteOuts(nodes, blockContexts))[b]) != Sizes(SiteOuts(nodes, blockContexts)[b]))
      ensures ok ==> ShapesOf(f, nodes, sinks[b])
                     == ExpectedShapes(f, b, EntryContext(f, old(SiteOuts(nodes, blockContexts)), b))
      ensures ok ==> (counted <==> Sizes(old(blockContexts[b])) != Sizes(blockContexts[b]))
      ensures ok ==> sinks == old(sinks)[b := sinks[b]]
      ensures ok ==> UpToDate(f, nodes, blockContexts[b], b, EntryContext(f, old(SiteOuts(nodes, blockContexts)), b))
      ensures ok ==> blockContexts == old(blockContexts)[b := blockContexts[b]]
      ensures ok ==> exists entry :: VisitDone(f, old(AllResults()), AllResults(), b, entry)
    {
      hide AllCells, KnownBlock, AllWellMade, DefinitionsOnly, Sinks, ShapesOf, SiteContext, EntryContext, Before,
           ExpectedSinks, ExpectedReturns, Graph.Valid, AllDefinitions, MadeIn, Own, UpToDate, JoinsAll, Renewed,
           RecomputedContext, Shaped, Sizes, Known, CellSet, Canon, WithInsns, WithReturns, JoinedContext;
      ghost var out := SiteOuts(nodes, blockContexts);
      var prevSizes := Sizes(SiteContext(nodes, blockContexts[b]));
      var prevCounts := Sizes(blockContexts[b]);
      var flowContext := InitBlockContext(f, b);
      JoinedIsContext(f, blockContexts, b, flowContext.Value());
      ghost var (given, entry) := (flowContext.Value(), SiteContext(nodes, flowContext.Value()));
      var blockSinks;
      ok, blockSinks := VisitInsns(f, b, flowContext);
      if !ok { return ok, false, false; }
      ghost var nodes1 := nodes;
      var ctx := flowContext.Value();
      OwnUpToDate(f, nodes, ctx, |old(nodes)|, b, entry);
      if f.graph.blocks[b].isExit {
        var returns' := MakeReturns(f, b, ctx);
        ShapesStable(f, nodes1, nodes, blockSinks);
        ShapesConcat(f, nodes, blockSinks, returns');
        blockSinks := blockSinks + returns';
      }
      UpToDateStable(f, nodes1, nodes, ctx, b, entry);
      SiteContextStable(nodes1, nodes, ctx);
      StateStable(f, old(nodes), nodes, blockContexts, sinks);
      blockContexts := blockContexts[b := ctx];
      sinks := sinks[b := blockSinks];
      var postSizes := Sizes(SiteContext(nodes, ctx));
      changed, counted := prevSizes != postSizes, prevCounts != Sizes(ctx);
      BeforeStopIsRecomputed(f, out, b);
      StateUpdated(f, nodes, old(blockContexts), blockContexts, old(sinks), sinks, b);
      assert VisitDone(f, old(AllResults()), AllResults(), b, given);
    }

    function AllResults(): Results
      reads this
    {
      Results(nodes, blockContexts, sinks)
    }

    ghost predicate State(f: Problem)
      reads this
    {
      StateOf(f, nodes, blockContexts, sinks)
    }

    // ---- The worklist ----

    /** Every internal block that can be reached from the entry, once each, in depth-first order. */
    method InitWorklist(f: Problem)
      requires f.Valid()
      modifies `worklist
      ensures worklist == Explored(f, [], 0) && f.graph.Distinct(worklist)
      ensures forall b :: f.graph.Internal(b) ==> (b in worklist <==> f.graph.Entered(b))
    {
      worklist := [];
      InitWorklistRecurse(f, 0);
      ExploredFromEntry(f);
    }

    method InitWorklistRecurse(f: Problem, b: nat)
      requires f.Valid() && f.graph.Internal(b) && b !in worklist
      modifies `worklist
      decreases Unlisted(f, worklist)
      ensures worklist == Explored(f, old(worklist), b)
    {
      hide Graph.Dual, Graph.UniqueStarts, Graph.OutsideIsLeaf;
      UnlistedLess(f, worklist, worklist + [b], b);
      worklist := worklist + [b];
      ghost var start := worklist;
      var succ := f.graph.psTable[b].succ;
      for i := 0 to |succ|
        invariant worklist == AllExplored(f, start, succ[..i])
      {
        assert succ[..i + 1][..i] == succ[..i];
        var s := succ[i];
        if f.graph.Internal(s) && s !in worklist {
          UnlistedShrinks(f, start, worklist);
          InitWorklistRecurse(f, s);
        }
      }
      assert succ[..|succ|] == succ;
    }

    /** Inserts the successors that are not waiting yet in front. */
    method PushSuccessors(f: Problem, b: nat)
      requires f.Valid() && f.graph.Distinct(worklist) && f.graph.Internal(b)
      modifies `worklist
      ensures worklist == f.graph.Pushed(old(worklist), f.graph.psTable[b].succ)
      ensures f.graph.Distinct(worklist)
      ensures (forall k :: k in old(worklist) ==> k in worklist) && SuccessorsListed(f, worklist, b)
    {
      hide Graph.Dual, Graph.UniqueStarts, Graph.OutsideIsLeaf;
      var succ := f.graph.psTable[b].succ;
      for i := 0 to |succ|
        invariant worklist == f.graph.Pushed(old(worklist), succ[..i])
      {
        assert succ[..i + 1][..i] == succ[..i];
        var s := succ[i];
        if f.graph.Internal(s) && s !in worklist {
          worklist := [s] + worklist;
        }
      }
      assert succ[..|succ|] == succ;
      f.graph.PushedDistinct(old(worklist), succ);
      f.graph.PushedMembers(old(worklist), succ);
    }

    /** Holds whenever the next block is taken from the worklist. */
    ghost predicate Running(f: Problem)
      reads this
    {
      && State(f) && f.graph.Distinct(worklist)
      && var out := SiteOuts(nodes, blockContexts);
        && Growing(f, out) && OthersSolved(f, out, set k | k in worklist)
        && OthersSunk(f, AllResults(), out, set k | k in worklist)
    }

    /** The whole run from a given worklist.  `ok` is false when a visited instruction names a register the
        context has no cell for. */
    method FunctionDFAImpl(f: Problem) returns (ok: bool)
      requires Running(f)
      modifies this
      decreases Missing(f, SiteOuts(nodes, blockContexts)), |worklist|
      ensures ok ==> Running(f) && worklist == [] && old(nodes) <= nodes
      ensures ok ==> forall b :: b in old(worklist) ==> f.graph.Internal(b) && KnownBlock(f, b)
      ensures !ok ==> exists b :: f.graph.Internal(b) && !KnownBlock(f, b)
    {
      hide AllCells, KnownBlock, Growing, OthersSolved, OthersSunk, Visited, StateOf, Missing, SiteOuts, UpToDate,
           DefinitionsOnly, ShapesOf, ExpectedShapes, EntryContext, AllWellMade, JoinsAll, Renewed;
      StateFacts(f, nodes, blockContexts, sinks);
      if worklist == [] { return true; }
      var b := worklist[0];
      ghost var (before, out, r) := (worklist, SiteOuts(nodes, blockContexts), AllResults());
      worklist := worklist[1..];
      f.graph.TailDistinct(before);
      var changed, counted;
      ok, changed, counted := VisitBlock(f, b);
      if !ok { return; }
      StateFacts(f, nodes, blockContexts, sinks);
      VisitGrows(f, out, b);
      SizesDetectChange(f, out, b);
      if changed {
        PushSuccessors(f, b);
        ChangeShrinksMissing(f, out, b);
      }
      WaitingAfter(before, worklist, b);
      VisitSolves(f, out, b, set k | k in before, set k | k in worklist);
      StillSunk(f, r, AllResults(), out, b, set k | k in before, set k | k in worklist);
      ok := FunctionDFAImpl(f);
    }

    static lemma NothingWaiting(worklist: seq<nat>)
      requires worklist == []
      ensures (set k | k in worklist) == {}
    {
    }

    method FunctionDFA(f: Problem) returns (ok: bool)
      requires f.Valid() && Connected(f) && nodes == []
      modifies this
      ensures ok <==> forall b :: f.graph.Internal(b) ==> KnownBlock(f, b)
      ensures ok ==> State(f) && Complete(f, nodes, blockContexts, sinks)
    {
      hide AllCells, KnownBlock, Growing, Sunk, Solved, Graph.Valid, Graph.Entered, StateOf, SiteOuts, LeastFixpoint;
      InitWorklist(f);
      blockContexts := seq(|f.graph.blocks|, _ => EmptyContext());
      sinks := seq(|f.graph.blocks|, _ => []);
      InitialState(f, blockContexts, sinks);
      StateFacts(f, nodes, blockContexts, sinks);
      ok := FunctionDFAImpl(f);
      if ok {
        NothingWaiting(worklist);
        AllSolvedIsLeast(f, SiteOuts(nodes, blockContexts));
      }
    }

    // ---- The run that compares numbers of nodes ----

    /** The state is that of the node-counting run after `n` visits. */
    ghost predicate Follows(f: Problem, stamps: seq<nat>, n: nat)
      reads this
    {
      Following(f, n, stamps, AllResults(), worklist)
    }

    /** At most `limit` more visits, after `n`, with the change test of the code. */
    method FunctionDFAImplByNodes(f: Problem, limit: nat, ghost stamps: seq<nat>, ghost n: nat)
      returns (ok: bool, ghost stamps': seq<nat>)
      requires Follows(f, stamps, n)
      modifies this
      decreases limit
      ensures ok ==> Follows(f, stamps', n + limit)
      ensures !ok ==> f.Valid() && exists b :: f.graph.Internal(b) && !KnownBlock(f, b)
    {
      hide AllCells, KnownBlock, Following;
      stamps' := stamps;
      if limit == 0 { return true, stamps'; }
      if worklist == [] {
        EndedFollows(f, n, stamps, AllResults());
      } else {
        ok, stamps' := VisitNext(f, stamps, n);
        if !ok { return; }
      }
      ok, stamps' := FunctionDFAImplByNodes(f, limit - 1, stamps', n + 1);
    }

    /** One block is taken from the worklist and visited. */
    method VisitNext(f: Problem, ghost stamps: seq<nat>, ghost n: nat) returns (ok: bool, ghost stamps': seq<nat>)
      requires Follows(f, stamps, n) && worklist != []
      modifies this
      ensures ok ==> Follows(f, stamps', n + 1)
      ensures !ok ==> f.Valid() && exists b :: f.graph.Internal(b) && !KnownBlock(f, b)
    {
      hide AllCells, KnownBlock, Visited, StateOf, SiteOuts, UpToDate, ShapesOf, ExpectedShapes, EntryContext,
           Graph.Valid, Graph.Distinct, Graph.Pushed, SuccessorsListed, Shaped, Sizes, Following, VisitDone, RunOf,
           AllWellMade, Sinks, DefinitionsOnly, SiteContext, CellSet;
      ghost var (before, wl) := (AllResults(), worklist);
      stamps' := stamps;
      FollowingHead(f, n, stamps, before, worklist);
      StateFacts(f, nodes, blockContexts, sinks);
      var b := worklist[0];
      worklist := worklist[1..];
      var changed, counted;
      ok, changed, counted := VisitBlock(f, b);
      if !ok { return; }
      StateFacts(f, nodes, blockContexts, sinks);
      ghost var entry :| VisitDone(f, before, AllResults(), b, entry);
      if counted { PushSuccessors(f, b); }
      OneMore(f, n, stamps, before, AllResults(), wl, worklist, entry);
      stamps' := Stamped(stamps, |nodes| - |before.nodes|, RunOf(f, n).visits + 1);
    }

    /** The pass as the code makes it, cut off after `limit` visits.  It need not end, and when it ends it need not
        have found everything; but what it finds is right, and every block has the sinks of its last visit.  If
        changes are noticed, a pass that has ended is complete. */
    method FunctionDFAByNodes(f: Problem, limit: nat) returns (ok: bool, ghost stamps: seq<nat>)
      requires f.Valid() && Connected(f) && nodes == []
      modifies this
      ensures ok ==> State(f) && Follows(f, stamps, limit)
      ensures ok ==> var out := SiteOuts(nodes, blockContexts);
                       Leq(out, PathOuts(f)) && (OthersSolved(f, out, {}) <==> LeastFixpoint(f, out))
      ensures ok && worklist == [] && Noticed(f, First(f)) ==> Complete(f, nodes, blockContexts, sinks)
      ensures ok && worklist == [] ==> forall b :: f.graph.Internal(b) ==> KnownBlock(f, b)
      ensures !ok ==> exists b :: f.graph.Internal(b) && !KnownBlock(f, b)
    {
      hide AllCells, CellSet, KnownBlock, StateOf, SiteOuts, LeastFixpoint, OthersSolved, PathOuts, Following, Explored,
           Noticed, Complete, Leq, Shaped, First, Connected, Graph.Valid, Graph.Distinct, Graph.Entered;
      InitWorklist(f);
      blockContexts := seq(|f.graph.blocks|, _ => EmptyContext());
      sinks := seq(|f.graph.blocks|, _ => []);
      RunBegins(f, blockContexts, sinks);
      ok, stamps := FunctionDFAImplByNodes(f, limit, [], 0);
      if ok {
        FollowingHead(f, limit, stamps, AllResults(), worklist);
        RunStops(f, limit, stamps, AllResults(), worklist);
      }
    }

    static lemma NoShapes(f: Problem, nodes: seq<Node>)
      requires AllWellMade(f, nodes)
      ensures Sinks(f, nodes, []) && ShapesOf(f, nodes, []) == []
    {
    }
  }
}
