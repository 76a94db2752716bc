/** The three parts together: block construction, then data flow, then comparison (src/cli/ppc2cpp.cpp). */
module Pipeline {
  import opened Instructions
  import opened MachineCode
  import opened ControlFlowGraphs
  import opened BlockInvariants
  import BT = BlockTheorems
  import CFA = ControlFlowAnalysis
  import opened FlowContexts
  import opened ReachingDefinitions
  import opened DataFlowNodes
  import opened BuiltProblems
  import DFA = DataFlowAnalysis
  import DI = DataFlowInvariants
  import opened FlowEquivalence
  import opened ProgramComparators
  import opened Wrappers
  import opened BlockConstruction
  import opened CanonicalNodes
  import opened NodeConvergence
  import opened NodeRuns
  import opened ReorderedPhis
  import opened SameCode
  import NC = NodeCounting

  // ---- What the data-flow pass gives the comparison ----

  /** The nodes of a finished pass form a graph the comparison accepts, in which every instruction is found. */
  lemma PassGivesFlow(f: Problem, nodes: seq<Node>, contexts: seq<Context<nat>>, sinks: seq<seq<nat>>)
    requires DI.StateOf(f, nodes, contexts, sinks) && Built(f.code, f.graph)
    ensures var flow := Flow(f.code, f.graph, nodes, sinks); flow.Valid() && AllFound(flow) && DistinctInputs(nodes)
    ensures AllWellMade(f, nodes)
  {
    hide AllCells, Settled, Reachable, HasCreator, Graph.Dual, Graph.UniqueStarts, Graph.OutsideIsLeaf, DI.SiteOuts,
         IsDefinition, DefinitionsOnly, FirstHolding;
    forall i, k | 0 <= i < |nodes| && 0 <= k < |nodes[i].inputs|
      ensures nodes[i].inputs[k] < i
    {
      assert WellMade(f, nodes, i);
    }
    forall i | 0 <= i < |nodes| && Located(nodes[i].kind)
      ensures nodes[i].index < |f.code| && FirstHolding(f.graph.blocks, nodes[i].index) != -1
    {
      assert WellMade(f, nodes, i);
      BT.SettledRange(f.code, f.graph, nodes[i].block);
      BT.FirstMatchIsOutermost(f.code, f.graph, nodes[i].index);
    }
    forall b, k | 0 <= b < |sinks| && 0 <= k < |sinks[b]|
      ensures sinks[b][k] < |nodes|
    {
      assert Sinks(f, nodes, sinks[b]);
    }
    forall i | 0 <= i < |nodes| && nodes[i].kind.PhiNode?
      ensures |Elements(nodes[i].inputs)| == |nodes[i].inputs|
    {
      assert WellMade(f, nodes, i);
    }
  }

  /** No analysis: an assertion fails, a target has no location, or a reachable instruction names a register that the
      context has no cell for. */
  ghost predicate Refused(code: seq<Insn>) {
    Stuck(code) || exists p :: 0 <= p < |code| && Reachable(code, p) && !DI.KnownRegisters(code[p])
  }

  /** The flow is what the two analyses make of its code: the blocks are built, the contexts are the least solution,
      and the sinks are those of one more pass over it. */
  ghost predicate Analysed(flow: Flow, killedByCall: seq<Location>, definedByCall: seq<Location>,
                           contexts: seq<Context<nat>>) {
    && ValidCode(flow.code) && Constructed(flow.code) == Some(flow.graph) && Built(flow.code, flow.graph)
    && flow.Valid() && AllFound(flow)
    && DI.Complete(Problem(flow.code, flow.graph, killedByCall, definedByCall), flow.nodes, contexts, flow.sinks)
  }

  /** Both analyses of one function. */
  method Analyse(code: seq<Insn>, killedByCall: seq<Location>, definedByCall: seq<Location>)
    returns (ok: bool, flow: Flow, ghost contexts: seq<Context<nat>>)
    requires ValidCode(code) && AllKnown(killedByCall) && AllKnown(definedByCall)
    ensures !ok ==> Refused(code)
    ensures ok && !FallsOff(code) ==> !Refused(code)
    ensures ok ==> flow.code == code && Analysed(flow, killedByCall, definedByCall, contexts)
  {
    hide AllCells, Built, DI.StateOf, DI.Complete, DI.Connected, DI.KnownRegisters, Reachable, AllKnown;
    flow, contexts := Flow(code, Graph([], []), [], []), [];
    var cfg := new ControlFlowGraph();
    ok := CFA.FunctionCFA(cfg, code);
    if !ok { return; }
    var f := Problem(code, cfg.Value(), killedByCall, definedByCall);
    BuiltIsProblem(f);
    var dfa := new DFA.DataFlowAnalysis();
    ok := dfa.FunctionDFA(f);
    UnknownReachable(f);
    if !ok { return; }
    contexts := dfa.blockContexts;
    flow := Flow(code, f.graph, dfa.nodes, dfa.sinks);
    PassGivesFlow(f, dfa.nodes, dfa.blockContexts, dfa.sinks);
  }

  /** Two functions are analysed and their flows compared.  A function's own flow always matches itself. */
  method CheckFlow(code1: seq<Insn>, code2: seq<Insn>, killedByCall: seq<Location>, definedByCall: seq<Location>)
    returns (ok: bool, equal: bool, ghost flow1: Flow, ghost flow2: Flow)
    requires ValidCode(code1) && ValidCode(code2) && AllKnown(killedByCall) && AllKnown(definedByCall)
    ensures !ok ==> Refused(code1) || Refused(code2)
    ensures ok ==> flow1.code == code1 && exists out1 :: Analysed(flow1, killedByCall, definedByCall, out1)
    ensures ok ==> flow2.code == code2 && exists out2 :: Analysed(flow2, killedByCall, definedByCall, out2)
    ensures ok ==> FlowsMatch(flow1, flow1) && FlowsMatch(flow2, flow2)
    ensures ok ==> (equal <==> FlowsMatch(flow1, flow2))
  {
    hide AllCells, Built, DI.Complete, FlowsMatch, AllFound, Flow.Valid, AllKnown, Refused;
    equal := false;
    var f1, f2;
    ghost var out1, out2, expanded;
    ok, f1, out1 := Analyse(code1, killedByCall, definedByCall);
    flow1, flow2 := f1, f1;
    if !ok { return; }
    ok, f2, out2 := Analyse(code2, killedByCall, definedByCall);
    flow2 := f2;
    if !ok { return; }
    FlowsMatchReflexive(f1);
    FlowsMatchReflexive(f2);
    var comparator := new ProgramComparator();
    equal, expanded := comparator.CompareFunctionFlows(f1, f2);
  }

  // ---- With the change test of the code ----

  /** The flow is what the two analyses of the code make of it in `limit` visits: the blocks are those constructed,
      the nodes, contexts and sinks are those of the run, phi inputs in some order.  If the run has ended and changes
      are noticed, they are complete. */
  ghost predicate AnalysedByNodes(flow: Flow, killedByCall: seq<Location>, definedByCall: seq<Location>,
                                  contexts: seq<Context<nat>>, limit: nat) {
    && ValidCode(flow.code) && Constructed(flow.code) == Some(flow.graph)
    && flow.Valid() && AllFound(flow) && DistinctInputs(flow.nodes)
    && var f := Problem(flow.code, flow.graph, killedByCall, definedByCall);
      && f.Valid() && DI.Connected(f) && AllWellMade(f, flow.nodes)
      && DI.Results(Canon(flow.nodes), contexts, flow.sinks) == PassOf(f, limit)
      && AsGiven(f, limit, DI.Results(flow.nodes, contexts, flow.sinks))
      && (RunOf(f, limit).worklist == [] && Noticed(f, DI.First(f)) ==>
            DI.Complete(f, flow.nodes, contexts, flow.sinks))
  }

  /** Nothing is left to visit. */
  ghost predicate Ended(flow: Flow, killedByCall: seq<Location>, definedByCall: seq<Location>, limit: nat) {
    var f := Problem(flow.code, flow.graph, killedByCall, definedByCall);
    f.Valid() && RunOf(f, limit).worklist == []
  }

  /** Both analyses of one function, cut off after `limit` visits. */
  method AnalyseByNodes(code: seq<Insn>, killedByCall: seq<Location>, definedByCall: seq<Location>, limit: nat)
    returns (ok: bool, ended: bool, flow: Flow, ghost contexts: seq<Context<nat>>)
    requires ValidCode(code) && AllKnown(killedByCall) && AllKnown(definedByCall)
    ensures !ok ==> Refused(code)
    ensures ok && ended && !FallsOff(code) ==> !Refused(code)
    ensures ok ==> flow.code == code && AnalysedByNodes(flow, killedByCall, definedByCall, contexts, limit)
    ensures ok ==> (ended <==> Ended(flow, killedByCall, definedByCall, limit))
  {
    hide AllCells, Built, DI.StateOf, DI.Complete, DI.Connected, DI.KnownRegisters, Reachable, AllKnown, Scan, AsGiven,
         PassOf, RunOf, Represents, VisitedKnown, Noticed, Canon;
    flow, contexts, ended := Flow(code, Graph([], []), [], []), [], false;
    var cfg := new ControlFlowGraph();
    ok := CFA.FunctionCFA(cfg, code);
    if !ok { return; }
    var f := Problem(code, cfg.Value(), killedByCall, definedByCall);
    BuiltIsProblem(f);
    var dfa := new DFA.DataFlowAnalysis();
    ghost var stamps;
    ok, stamps := dfa.FunctionDFAByNodes(f, limit);
    UnknownReachable(f);
    if !ok { return; }
    contexts, ended := dfa.blockContexts, dfa.worklist == [];
    flow := Flow(code, f.graph, dfa.nodes, dfa.sinks);
    PassGivesFlow(f, dfa.nodes, dfa.blockContexts, dfa.sinks);
  }

  /** Two functions are analysed and their flows compared: the answer of the tool, if both runs have ended within the
      limit. */
  method CheckFlowByNodes(code1: seq<Insn>, code2: seq<Insn>, killedByCall: seq<Location>,
                          definedByCall: seq<Location>, limit: nat)
    returns (ok: bool, ended: bool, equal: bool, ghost flow1: Flow, ghost flow2: Flow)
    requires ValidCode(code1) && ValidCode(code2) && AllKnown(killedByCall) && AllKnown(definedByCall)
    ensures !ok ==> Refused(code1) || Refused(code2)
    ensures ok ==> flow1.code == code1
    ensures ok ==> exists out1 :: AnalysedByNodes(flow1, killedByCall, definedByCall, out1, limit)
    ensures ok ==> flow2.code == code2
    ensures ok ==> exists out2 :: AnalysedByNodes(flow2, killedByCall, definedByCall, out2, limit)
    ensures ok ==> (ended <==> Ended(flow1, killedByCall, definedByCall, limit)
                               && Ended(flow2, killedByCall, definedByCall, limit))
    ensures ok && ended ==> (equal <==> FlowsMatch(flow1, flow2))
  {
    hide AllCells, FlowsMatch, AllKnown, Refused, Ended, Scan, AsGiven, PassOf, RunOf, Noticed, Canon, DI.Complete,
         DI.Connected, DistinctInputs, AllFound;
    equal, ended := false, false;
    var f1, f2, ended1, ended2;
    ghost var out1, out2, expanded;
    ok, ended1, f1, out1 := AnalyseByNodes(code1, killedByCall, definedByCall, limit);
    flow1, flow2 := f1, f1;
    if !ok { return; }
    ok, ended2, f2, out2 := AnalyseByNodes(code2, killedByCall, definedByCall, limit);
    flow2 := f2;
    if !ok { return; }
    ended := ended1 && ended2;
    if ended {
      var comparator := new ProgramComparator();
      equal, expanded := comparator.CompareFunctionFlows(f1, f2);
    }
  }

  /** An ended run makes nothing more. */
  lemma {:induction false} EndedPass(f: Problem, limit: nat, more: nat)
    requires f.Valid() && RunOf(f, limit).worklist == []
    ensures PassOf(f, limit + more) == PassOf(f, limit) && RunOf(f, limit + more) == RunOf(f, limit)
    decreases more
  {
    hide AllCells, VisitMakes, DI.First, NC.Initial, NC.After, Problem.Valid;
    if more > 0 {
      EndedPass(f, limit, more - 1);
      NC.EmptyStays(f, RunOf(f, limit));
      RunNext(f, limit + more - 1);
    }
  }

  lemma RunNext(f: Problem, n: nat)
    requires f.Valid()
    ensures RunOf(f, n + 1) == NC.Advance(f, RunOf(f, n))
  {
    hide AllCells, DI.First, NC.Initial, NC.Advance, Graph.Valid;
  }

  /** Two analyses of the same code, if both runs have ended, differ at most in the order of phi inputs; so what is
      said of such flows in `SameCode` applies to them. */
  lemma SameCodeAlike(flow1: Flow, flow2: Flow, killedByCall: seq<Location>, definedByCall: seq<Location>,
                      contexts1: seq<Context<nat>>, contexts2: seq<Context<nat>>, limit1: nat, limit2: nat)
    requires AnalysedByNodes(flow1, killedByCall, definedByCall, contexts1, limit1)
    requires AnalysedByNodes(flow2, killedByCall, definedByCall, contexts2, limit2)
    requires flow1.code == flow2.code
    requires Ended(flow1, killedByCall, definedByCall, limit1) && Ended(flow2, killedByCall, definedByCall, limit2)
    ensures Alike(flow1, flow2)
  {
    hide AllCells, AsGiven, PassOf, RunOf, Noticed, Canon, Scan, DI.Complete, DI.Connected, AllFound;
    var f := Problem(flow1.code, flow1.graph, killedByCall, definedByCall);
    if limit1 <= limit2 { EndedPass(f, limit1, limit2 - limit1); } else { EndedPass(f, limit2, limit1 - limit2); }
  }

  /** A flow that differs only in the order of phi inputs could as well have been made. */
  lemma ReorderedAnalysed(flow: Flow, other: Flow, killedByCall: seq<Location>, definedByCall: seq<Location>,
                          contexts: seq<Context<nat>>, limit: nat)
    requires AnalysedByNodes(flow, killedByCall, definedByCall, contexts, limit) && Alike(flow, other)
    ensures AnalysedByNodes(other, killedByCall, definedByCall, contexts, limit)
  {
    hide AllCells, AsGiven, PassOf, RunOf, Noticed, Canon, Scan, DI.Complete, DI.Connected, Problem.Valid, SameNodes;
    var f := Problem(flow.code, flow.graph, killedByCall, definedByCall);
    ReorderedFound(flow, other);
    ReorderedGiven(f, limit, DI.Results(flow.nodes, contexts, flow.sinks), other.nodes);
    ReorderedParts(flow, other);
    SameWellMade(f, flow.nodes, other.nodes);
    if DI.Complete(f, flow.nodes, contexts, flow.sinks) {
      ReorderedComplete(f, flow.nodes, other.nodes, contexts, flow.sinks);
    }
  }

  lemma ReorderedParts(flow: Flow, other: Flow)
    requires Alike(flow, other)
    ensures Canon(flow.nodes) == Canon(other.nodes) && DistinctInputs(other.nodes)
  {
  }

  lemma ReorderedFound(flow: Flow, other: Flow)
    requires Alike(flow, other) && AllFound(flow)
    ensures AllFound(other)
  {
    hide SameNodes, Flow.Valid, FirstHolding;
    AlikeParts(flow, other);
    SameSize(flow.nodes, other.nodes);
    forall i | 0 <= i < |other.nodes| && Located(other.nodes[i].kind)
      ensures FirstHolding(other.graph.blocks, other.nodes[i].index) != -1
    {
      SameNode(flow.nodes, other.nodes, i);
    }
  }

  lemma ReorderedGiven(f: Problem, limit: nat, r: DI.Results, nodes: seq<Node>)
    requires f.Valid() && AsGiven(f, limit, r) && SameNodes(r.nodes, nodes)
    ensures AsGiven(f, limit, r.(nodes := nodes))
  {
    hide AllCells, SameNodes, DI.SunkFrom, Given, Graph.Valid;
    forall b | f.graph.Internal(b) && Given(f, limit, b).Some?
      ensures DI.SunkFrom(f, r.(nodes := nodes), b, Given(f, limit, b).value)
    {
      SameSunk(f, r, nodes, b, Given(f, limit, b).value);
    }
  }

  lemma ReorderedComplete(f: Problem, nodes: seq<Node>, other: seq<Node>, contexts: seq<Context<nat>>,
                          sinks: seq<seq<nat>>)
    requires SameNodes(nodes, other) && DI.Complete(f, nodes, contexts, sinks)
    ensures DI.Complete(f, other, contexts, sinks)
  {
    hide AllCells, SameNodes, DI.SunkFrom, DI.SiteOuts, DI.EntryContext, LeastFixpoint, Graph.Valid;
    SameOuts(nodes, other, contexts);
    var out := DI.SiteOuts(nodes, contexts);
    forall b | f.graph.Internal(b)
      ensures DI.Sunk(f, DI.Results(other, contexts, sinks), out, b)
    {
      assert DI.Sunk(f, DI.Results(nodes, contexts, sinks), out, b);
      SameSunk(f, DI.Results(nodes, contexts, sinks), other, b, DI.EntryContext(f, out, b));
    }
  }

  /** Another result the analysis of the same code can end with. */
  ghost predicate AnotherResult(flow: Flow, other: Flow, killedByCall: seq<Location>, definedByCall: seq<Location>) {
    && other.code == flow.code
    && exists contexts, limit :: AnalysedByNodes(other, killedByCall, definedByCall, contexts, limit)
                                 && Ended(other, killedByCall, definedByCall, limit)
  }

  /** An analysed function matches every other result of its own analysis, exactly if no phi node in use has two inputs
      with different trees. */
  lemma MatchesItselfIff(flow: Flow, killedByCall: seq<Location>, definedByCall: seq<Location>,
                         contexts: seq<Context<nat>>, limit: nat)
    requires AnalysedByNodes(flow, killedByCall, definedByCall, contexts, limit)
    requires Ended(flow, killedByCall, definedByCall, limit)
    ensures (forall other :: AnotherResult(flow, other, killedByCall, definedByCall) ==>
               other.Valid() && FlowsMatch(flow, other)) <==> UniformPhis(flow)
  {
    hide AllCells, AnalysedByNodes, Alike, FlowsMatch, UniformPhis, Ended, Flow.Valid, AllFound, DistinctInputs;
    AnalysedFlow(flow, killedByCall, definedByCall, contexts, limit);
    AllOrdersMatchIff(flow);
    forall other | AnotherResult(flow, other, killedByCall, definedByCall)
      ensures Alike(flow, other) && other.Valid()
    {
      var contexts', limit' :| AnalysedByNodes(other, killedByCall, definedByCall, contexts', limit')
                               && Ended(other, killedByCall, definedByCall, limit');
      SameCodeAlike(flow, other, killedByCall, definedByCall, contexts, contexts', limit, limit');
      AlikeParts(flow, other);
    }
    forall other | Alike(flow, other)
      ensures AnotherResult(flow, other, killedByCall, definedByCall)
    {
      ReorderedAnalysed(flow, other, killedByCall, definedByCall, contexts, limit);
      AlikeEnded(flow, other, killedByCall, definedByCall, limit);
    }
  }

  lemma AlikeEnded(flow: Flow, other: Flow, killedByCall: seq<Location>, definedByCall: seq<Location>, limit: nat)
    requires Alike(flow, other) && Ended(flow, killedByCall, definedByCall, limit)
    ensures other.code == flow.code && Ended(other, killedByCall, definedByCall, limit)
  {
    hide SameNodes, RunOf, Problem.Valid;
  }

  lemma AnalysedFlow(flow: Flow, killedByCall: seq<Location>, definedByCall: seq<Location>,
                     contexts: seq<Context<nat>>, limit: nat)
    requires AnalysedByNodes(flow, killedByCall, definedByCall, contexts, limit)
    ensures flow.Valid() && AllFound(flow) && DistinctInputs(flow.nodes)
  {
  }

  // ---- What equal flows have in common ----

  /** An instruction of an analysed function is read with all its operands, so matching nodes stand for instructions
      with the same references and immediates, and as many registers. */
  lemma MatchingNodesSameOperands(f1: Problem, f2: Problem, flow1: Flow, flow2: Flow, i: nat, j: nat)
    requires flow1.Valid() && flow2.Valid() && f1.code == flow1.code && f2.code == flow2.code
    requires AllWellMade(f1, flow1.nodes) && AllWellMade(f2, flow2.nodes)
    requires i < |flow1.nodes| && j < |flow2.nodes| && Match(flow1, flow2, i, j) && CarriesOperands(flow1.nodes[i])
    ensures flow1.nodes[i].index < |flow1.code| && flow2.nodes[j].index < |flow2.code|
    ensures var (m, n) := (flow1.code[flow1.nodes[i].index], flow2.code[flow2.nodes[j].index]);
      m.refs == n.refs && m.imms == n.imms && |m.inputs| == |n.inputs|
  {
    hide AllCells, Known, AllWellMade, Match, SamePlace, Rightful, ReadsInsn, Flow.Valid;
    MatchInFields(flow1, flow2, i, j);
    NodeReads(f1, flow1.nodes, i);
    NodeReads(f2, flow2.nodes, j);
    var (m, n) := (flow1.code[flow1.nodes[i].index], flow2.code[flow2.nodes[j].index]);
    var (a, b) := (flow1.nodes[i].inputs, flow2.nodes[j].inputs);
    forall k | 0 <= k < |a|
      ensures a[k] < |flow1.nodes| && b[k] < |flow2.nodes| && SameLeaf(flow1.nodes[a[k]].kind, flow2.nodes[b[k]].kind)
    {
      MatchInFields(flow1, flow2, a[k], b[k]);
    }
    SameLists(flow1.nodes, flow2.nodes, a, b, m, n);
  }

  lemma NodeReads(f: Problem, nodes: seq<Node>, id: nat)
    requires AllWellMade(f, nodes) && id < |nodes| && CarriesOperands(nodes[id])
    ensures nodes[id].index < |f.code| && ReadsInsn(nodes, nodes[id].inputs, f.code[nodes[id].index])
  {
    hide AllCells, Known, ReadsInsn;
    assert WellMade(f, nodes, id);
    RightfulIndex(f, nodes[id]);
  }

  /** The two kinds are both references, equal ones, or both immediates, equal ones, or neither. */
  predicate SameLeaf(x: NodeKind, y: NodeKind) {
    && (x.ReferenceNode? <==> y.ReferenceNode?) && (x.ReferenceNode? ==> x.reloc == y.reloc)
    && (x.ImmediateNode? <==> y.ImmediateNode?) && (x.ImmediateNode? ==> x.value == y.value)
  }

  ghost predicate SameLeaves(n1: seq<Node>, n2: seq<Node>, a: seq<nat>, b: seq<nat>) {
    && |a| == |b|
    && forall k :: 0 <= k < |a| ==> a[k] < |n1| && b[k] < |n2| && SameLeaf(n1[a[k]].kind, n2[b[k]].kind)
  }

  lemma SameLists(n1: seq<Node>, n2: seq<Node>, a: seq<nat>, b: seq<nat>, m: Insn, n: Insn)
    requires ReadsInsn(n1, a, m) && ReadsInsn(n2, b, n) && SameLeaves(n1, n2, a, b)
    ensures m.refs == n.refs && m.imms == n.imms && |m.inputs| == |n.inputs|
  {
    if |m.refs| < |n.refs| { SameInput(n1, n2, a, b, m, n, |m.refs|); }
    if |n.refs| < |m.refs| { SameInput(n1, n2, a, b, m, n, |n.refs|); }
    var (e, g) := (|m.refs| + |m.imms|, |n.refs| + |n.imms|);
    if e < g { SameInput(n1, n2, a, b, m, n, e); }
    if g < e { SameInput(n1, n2, a, b, m, n, g); }
    forall i | 0 <= i < |m.refs|
      ensures m.refs[i] == n.refs[i]
    {
      SameInput(n1, n2, a, b, m, n, i);
    }
    forall i | 0 <= i < |m.imms|
      ensures m.imms[i] == n.imms[i]
    {
      SameInput(n1, n2, a, b, m, n, |m.refs| + i);
    }
  }

  lemma SameInput(n1: seq<Node>, n2: seq<Node>, a: seq<nat>, b: seq<nat>, m: Insn, n: Insn, k: nat)
    requires ReadsInsn(n1, a, m) && ReadsInsn(n2, b, n) && SameLeaves(n1, n2, a, b) && k < |a|
    ensures (k < |m.refs| <==> k < |n.refs|) && (k < |m.refs| ==> m.refs[k] == n.refs[k])
    ensures k < |m.refs| + |m.imms| <==> k < |n.refs| + |n.imms|
    ensures |m.refs| == |n.refs| && |m.refs| <= k < |m.refs| + |m.imms| ==>
      m.imms[k - |m.refs|] == n.imms[k - |n.refs|]
  {
    hide SameRegister, Known;
    assert ReadsInput(n1, a[k], m, k) && ReadsInput(n2, b[k], n, k);
  }

  /** Both are sinks of instructions with the same opcode, references and immediates, and as many registers, or neither
      is. */
  predicate SameStore(flow1: Flow, flow2: Flow, i: nat, j: nat)
    requires i < |flow1.nodes| && j < |flow2.nodes|
  {
    var (m, n) := (flow1.nodes[i], flow2.nodes[j]);
    && (m.kind.SinkNode? <==> n.kind.SinkNode?)
    && (m.kind.SinkNode? ==>
          && m.index < |flow1.code| && n.index < |flow2.code|
          && var (x, y) := (flow1.code[m.index], flow2.code[n.index]);
            x.opcode == y.opcode && x.refs == y.refs && x.imms == y.imms && |x.inputs| == |y.inputs|)
  }

  lemma MatchingSinks(f1: Problem, f2: Problem, flow1: Flow, flow2: Flow, b: nat, k: nat)
    requires flow1.Valid() && flow2.Valid() && f1.code == flow1.code && f2.code == flow2.code
    requires AllWellMade(f1, flow1.nodes) && AllWellMade(f2, flow2.nodes)
    requires FlowsMatch(flow1, flow2) && b < |flow1.sinks| && k < |flow1.sinks[b]|
    ensures b < |flow2.sinks| && k < |flow2.sinks[b]|
    ensures flow1.sinks[b][k] < |flow1.nodes| && flow2.sinks[b][k] < |flow2.nodes|
    ensures SameStore(flow1, flow2, flow1.sinks[b][k], flow2.sinks[b][k])
  {
    hide AllCells, Known, AllWellMade, Match, FirstIn;
    assert SinksMatch(flow1, flow2, b);
    var (i, j) := (flow1.sinks[b][k], flow2.sinks[b][k]);
    MatchInFields(flow1, flow2, i, j);
    if flow1.nodes[i].kind.SinkNode? { MatchingNodesSameOperands(f1, f2, flow1, flow2, i, j); }
  }

  /** If the tool finds two functions equal, the stores and branches of their blocks correspond one by one, with the
      same opcodes, references and immediates. */
  lemma EqualFlowsSameStores(flow1: Flow, flow2: Flow, killedByCall: seq<Location>, definedByCall: seq<Location>,
                             contexts1: seq<Context<nat>>, contexts2: seq<Context<nat>>, limit1: nat, limit2: nat,
                             b: nat, k: nat)
    requires AnalysedByNodes(flow1, killedByCall, definedByCall, contexts1, limit1)
    requires AnalysedByNodes(flow2, killedByCall, definedByCall, contexts2, limit2)
    requires FlowsMatch(flow1, flow2) && b < |flow1.sinks| && k < |flow1.sinks[b]|
    ensures b < |flow2.sinks| && k < |flow2.sinks[b]|
    ensures flow1.sinks[b][k] < |flow1.nodes| && flow2.sinks[b][k] < |flow2.nodes|
    ensures SameStore(flow1, flow2, flow1.sinks[b][k], flow2.sinks[b][k])
  {
    hide AllCells, AsGiven, PassOf, RunOf, Noticed, Canon, Scan, DI.Complete, DI.Connected, Problem.Valid, FlowsMatch,
         AllWellMade, AllFound, DistinctInputs, Flow.Valid;
    var f1 := Problem(flow1.code, flow1.graph, killedByCall, definedByCall);
    var f2 := Problem(flow2.code, flow2.graph, killedByCall, definedByCall);
    MatchingSinks(f1, f2, flow1, flow2, b, k);
  }
}
