/** Nodes that differ only in the order of phi inputs mean the same. */
module ReorderedPhis {
  import opened MachineCode
  import opened ControlFlowGraphs
  import opened FlowContexts
  import opened ReachingDefinitions
  import opened DataFlowNodes
  import opened DataFlowInvariants
  import opened CanonicalNodes

  ghost predicate DistinctInputs(nodes: seq<Node>) {
    forall i {:trigger nodes[i]} :: 0 <= i < |nodes| && nodes[i].kind.PhiNode? ==>
      |Elements(nodes[i].inputs)| == |nodes[i].inputs|
  }

  /** The same nodes, up to the order of phi inputs. */
  ghost predicate SameNodes(n: seq<Node>, m: seq<Node>) {
    Canon(n) == Canon(m) && DistinctInputs(n) && DistinctInputs(m)
  }

  lemma SameNode(n: seq<Node>, m: seq<Node>, i: nat)
    requires SameNodes(n, m) && i < |n|
    ensures |n| == |m|
    ensures n[i].kind == m[i].kind && n[i].index == m[i].index && n[i].block == m[i].block
    ensures !n[i].kind.PhiNode? ==> n[i] == m[i]
    ensures |n[i].inputs| == |m[i].inputs| && Elements(n[i].inputs) == Elements(m[i].inputs)
  {
    hide Ordered;
    assert |Canon(n)| == |Canon(m)|;
    assert CanonNode(n[i]) == Canon(n)[i] == Canon(m)[i] == CanonNode(m[i]);
    assert n[i].kind == CanonNode(n[i]).kind == CanonNode(m[i]).kind == m[i].kind;
    assert n[i].index == CanonNode(n[i]).index == CanonNode(m[i]).index == m[i].index;
    assert n[i].block == CanonNode(n[i]).block == CanonNode(m[i]).block == m[i].block;
    if n[i].kind.PhiNode? {
      assert Elements(Ordered(Elements(n[i].inputs))) == Elements(Ordered(Elements(m[i].inputs)));
    }
  }

  lemma SameSize(n: seq<Node>, m: seq<Node>)
    requires SameNodes(n, m)
    ensures |n| == |m|
  {
    assert |Canon(n)| == |Canon(m)|;
  }

  lemma SameSites(n: seq<Node>, m: seq<Node>, ids: set<nat>)
    requires SameNodes(n, m)
    ensures Sites(n, ids) == Sites(m, ids)
    ensures Definitions(n, ids) <==> Definitions(m, ids)
    ensures forall c :: InCell(n, ids, c) <==> InCell(m, ids, c)
  {
    hide AllCells, CellOf, Canon, DistinctInputs;
    SameSize(n, m);
    forall id: nat | id < |n|
      ensures IsDefinition(n[id]) <==> IsDefinition(m[id])
      ensures IsDefinition(n[id]) ==> n[id] == m[id]
    {
      SameNode(n, m, id);
    }
  }

  lemma SameContext(n: seq<Node>, m: seq<Node>, ctx: Context<nat>)
    requires SameNodes(n, m)
    ensures SiteContext(n, ctx) == SiteContext(m, ctx)
    ensures DefinitionsOnly(n, ctx) <==> DefinitionsOnly(m, ctx)
  {
    hide AllCells, Sites, Definitions, InCell, SameNodes;
    forall c | c in ctx { SameSites(n, m, ctx[c]); }
  }

  lemma SameOuts(n: seq<Node>, m: seq<Node>, contexts: seq<Context<nat>>)
    requires SameNodes(n, m)
    ensures SiteOuts(n, contexts) == SiteOuts(m, contexts)
  {
    hide SameNodes, SiteContext;
    forall k | 0 <= k < |contexts| { SameContext(n, m, contexts[k]); }
  }

  lemma SameOperand(n: seq<Node>, m: seq<Node>, id: nat)
    requires SameNodes(n, m) && id < |n|
    ensures id < |m| && OperandOf(n, id) == OperandOf(m, id)
  {
    hide AllCells, Canon, DistinctInputs, Sites;
    SameNode(n, m, id);
    SameSites(n, m, {id});
    if n[id].kind.PhiNode? {
      SameSites(n, m, Elements(n[id].inputs));
      assert (set k | k in n[id].inputs) == Elements(n[id].inputs);
      assert (set k | k in m[id].inputs) == Elements(m[id].inputs);
    }
  }

  lemma SameOperands(n: seq<Node>, m: seq<Node>, ids: seq<nat>)
    requires SameNodes(n, m) && forall i :: 0 <= i < |ids| ==> ids[i] < |n|
    ensures |n| == |m| && OperandsOf(n, ids) == OperandsOf(m, ids)
  {
    hide SameNodes, OperandOf;
    SameSize(n, m);
    forall i | 0 <= i < |ids| { SameOperand(n, m, ids[i]); }
  }

  lemma SameReads(n: seq<Node>, m: seq<Node>, ids: seq<nat>, insn: Insn)
    requires SameNodes(n, m) && ReadsInsn(n, ids, insn)
    ensures ReadsInsn(m, ids, insn)
  {
    hide SameNodes, ReadsSome;
    SameSize(n, m);
    forall i | 0 <= i < |ids|
      ensures ReadsInput(m, ids[i], insn, i)
    {
      assert ReadsInput(n, ids[i], insn, i);
      var k := i - |insn.refs| - |insn.imms|;
      if k >= 0 { SameReadsSome(n, m, ids[i], insn.inputs[k]); } else { SameNode(n, m, ids[i]); }
    }
  }

  lemma SameReadsSome(n: seq<Node>, m: seq<Node>, id: nat, loc: Location)
    requires SameNodes(n, m) && ReadsSome(n, id, loc)
    ensures ReadsSome(m, id, loc)
  {
    hide SameNodes, IsDefinition, SameRegister;
    SameSize(n, m);
    SameNode(n, m, id);
    DefinitionSame(n[id], m[id]);
    if n[id].kind.PhiNode? {
      forall k | 0 <= k < |m[id].inputs|
        ensures DefinesSame(m, m[id].inputs[k], loc)
      {
        assert m[id].inputs[k] in Elements(n[id].inputs);
        var j :| 0 <= j < |n[id].inputs| && n[id].inputs[j] == m[id].inputs[k];
        assert DefinesSame(n, n[id].inputs[j], loc);
        SameNode(n, m, m[id].inputs[k]);
        DefinitionSame(n[m[id].inputs[k]], m[m[id].inputs[k]]);
      }
    }
  }

  lemma SameWellMade(f: Problem, n: seq<Node>, m: seq<Node>)
    requires SameNodes(n, m) && AllWellMade(f, n)
    ensures AllWellMade(f, m)
  {
    hide AllCells, Known, Canon, Rightful, IsDefinition, ReadsInsn;
    SameSize(n, m);
    forall id | 0 <= id < |m|
      ensures WellMade(f, m, id)
    {
      assert WellMade(f, n, id);
      SameNode(n, m, id);
      RightfulSame(f, n[id], m[id]);
      RightfulIndex(f, n[id]);
      if CarriesOperands(n[id]) { SameReads(n, m, n[id].inputs, f.code[n[id].index]); }
      forall i | 0 <= i < |m[id].inputs|
        ensures m[id].inputs[i] < id && (m[id].kind.PhiNode? ==> IsDefinition(m[m[id].inputs[i]]))
      {
        assert m[id].inputs[i] in Elements(n[id].inputs);
        var j :| 0 <= j < |n[id].inputs| && n[id].inputs[j] == m[id].inputs[i];
        SameNode(n, m, m[id].inputs[i]);
        DefinitionSame(n[n[id].inputs[j]], m[n[id].inputs[j]]);
      }
    }
  }

  lemma RightfulSame(f: Problem, n: Node, m: Node)
    requires n.kind == m.kind && (!n.kind.PhiNode? ==> n == m) && Rightful(f, n)
    ensures Rightful(f, m)
  {
  }

  lemma DefinitionSame(n: Node, m: Node)
    requires n.kind == m.kind
    ensures IsDefinition(n) <==> IsDefinition(m)
  {
  }

  lemma SameShapes(f: Problem, n: seq<Node>, m: seq<Node>, ids: seq<nat>)
    requires SameNodes(n, m) && Sinks(f, n, ids)
    ensures Sinks(f, m, ids) && ShapesOf(f, n, ids) == ShapesOf(f, m, ids)
  {
    hide AllCells, SameNodes, Known, OperandsOf;
    SameWellMade(f, n, m);
    SameSize(n, m);
    forall i | 0 <= i < |ids|
      ensures IsSink(m[ids[i]]) && n[ids[i]] == m[ids[i]]
      ensures WellMade(f, n, ids[i]) && ShapeOf(n, ids[i]) == ShapeOf(m, ids[i])
    {
      assert WellMade(f, n, ids[i]);
      SameNode(n, m, ids[i]);
      SameOperands(n, m, n[ids[i]].inputs);
    }
  }

  /** What is known of a block's sinks and definitions is known of the reordered ones. */
  lemma SameSunk(f: Problem, r: Results, m: seq<Node>, b: nat, entry: Context<Site>)
    requires f.Valid() && f.graph.Internal(b) && SameNodes(r.nodes, m) && SunkFrom(f, r, b, entry)
    ensures SunkFrom(f, r.(nodes := m), b, entry)
  {
    hide AllCells, SameNodes, ShapesOf, ExpectedShapes, DefinitionsOnly, UpToDate, Graph.Valid, AllWellMade;
    SameShapes(f, r.nodes, m, r.sinks[b]);
    SameContext(r.nodes, m, r.contexts[b]);
    SameUpToDate(f, r.nodes, m, r.contexts[b], b, entry);
  }

  lemma SameUpToDate(f: Problem, n: seq<Node>, m: seq<Node>, ctx: Context<nat>, b: nat, entry: Context<Site>)
    requires SameNodes(n, m) && AllWellMade(f, n) && AllWellMade(f, m) && b < |f.graph.blocks|
    requires DefinitionsOnly(n, ctx) && UpToDate(f, n, ctx, b, entry)
    ensures UpToDate(f, m, ctx, b, entry)
  {
    hide AllCells, SameNodes, Rightful, EffectOf, OperandsOf, ExpectedOperands, Before, DefinitionsOnly;
    SameSize(n, m);
    forall c, id | id in Held(ctx, c) && id < |m| && m[id].block == b
      ensures n[id] == m[id] && WellMade(f, n, id) && OperandsOf(n, n[id].inputs) == OperandsOf(m, m[id].inputs)
    {
      MadeHereNotPassed(f, n, ctx, c, id);
      SameNode(n, m, id);
      assert WellMade(f, n, id);
      SameOperands(n, m, n[id].inputs);
    }
  }
}
