/** The nodes of the data-flow pass, exactly, except for the order of phi inputs: the code takes it from a hash set. */
module CanonicalNodes {
  import opened MachineCode
  import opened ControlFlowGraphs
  import opened FlowContexts
  import opened ReachingDefinitions
  import opened DataFlowNodes
  import opened DataFlowInvariants

  // ---- Phi inputs in a fixed order ----

  ghost function Ordered(s: set<nat>): (r: seq<nat>)
    ensures |r| == |s| && Elements(r) == s
  {
    if s == {} then []
    else
      var x :| x in s;
      var r := Ordered(s - {x});
      assert forall k :: k in [x] + r <==> k == x || k in r;
      [x] + r
  }

  ghost function CanonNode(n: Node): Node {
    if n.kind.PhiNode? then n.(inputs := Ordered(Elements(n.inputs))) else n
  }

  ghost function Canon(nodes: seq<Node>): (r: seq<Node>)
    ensures |r| == |nodes|
  {
    seq(|nodes|, i requires 0 <= i < |nodes| => CanonNode(nodes[i]))
  }

  lemma CanonAppend(nodes: seq<Node>, n: Node)
    ensures Canon(nodes + [n]) == Canon(nodes) + [CanonNode(n)]
  {
  }

  lemma CanonPhi(location: Location, pc: nat, inputs: seq<nat>, b: nat, ids: set<nat>)
    requires (set k | k in inputs) == ids
    ensures CanonNode(Node(PhiNode(location), pc, inputs, b)) == Node(PhiNode(location), pc, Ordered(ids), b)
  {
    assert Elements(inputs) == ids;
  }

  // ---- Operands ----

  ghost function TheOnly(s: set<nat>): (x: nat)
    requires |s| == 1
    ensures x in s
  {
    assert s != {};
    var x :| x in s;
    x
  }

  /** The operand for a register that holds these nodes, and the nodes after it is made. */
  ghost function WithRegister(nodes: seq<Node>, b: nat, pc: nat, location: Location, defs: set<nat>): (seq<Node>, nat) {
    if |defs| == 0 then (nodes + [Node(FunctionInputNode(location), pc, [], b)], |nodes|)
    else if |defs| == 1 then (nodes, TheOnly(defs))
    else (nodes + [Node(PhiNode(location), pc, Ordered(defs), b)], |nodes|)
  }

  ghost function WithReferences(nodes: seq<Node>, b: nat, pc: nat, refs: seq<Relocation>): (seq<Node>, seq<nat>) {
    if refs == [] then (nodes, [])
    else
      var i := |refs| - 1;
      var (ns, ids) := WithReferences(nodes, b, pc, refs[..i]);
      (ns + [Node(ReferenceNode(i, refs[i]), pc, [], b)], ids + [|ns|])
  }

  ghost function WithImmediates(nodes: seq<Node>, b: nat, pc: nat, imms: seq<int>): (seq<Node>, seq<nat>) {
    if imms == [] then (nodes, [])
    else
      var i := |imms| - 1;
      var (ns, ids) := WithImmediates(nodes, b, pc, imms[..i]);
      (ns + [Node(ImmediateNode(i, imms[i]), pc, [], b)], ids + [|ns|])
  }

  ghost function WithRegisters(nodes: seq<Node>, b: nat, pc: nat, locs: seq<Location>, ctx: Context<nat>)
    : (seq<Node>, seq<nat>)
    requires AllKnown(locs)
  {
    if locs == [] then (nodes, [])
    else
      var i := |locs| - 1;
      assert Known(locs[i]);
      var (ns, ids) := WithRegisters(nodes, b, pc, locs[..i], ctx);
      var (ns', id) := WithRegister(ns, b, pc, locs[i], Held(ctx, CellOf(locs[i]).value));
      (ns', ids + [id])
  }

  ghost function WithOperands(nodes: seq<Node>, b: nat, pc: nat, insn: Insn, ctx: Context<nat>): (seq<Node>, seq<nat>)
    requires AllKnown(insn.inputs)
  {
    var (ns1, refs) := WithReferences(nodes, b, pc, insn.refs);
    var (ns2, imms) := WithImmediates(ns1, b, pc, insn.imms);
    var (ns3, regs) := WithRegisters(ns2, b, pc, insn.inputs, ctx);
    (ns3, refs + imms + regs)
  }

  // ---- Definitions, sinks ----

  ghost function WithDefinitions(nodes: seq<Node>, ctx: Context<nat>, b: nat, pc: nat, locs: seq<Location>,
                                 fromCall: bool, inputs: seq<nat>): (seq<Node>, Context<nat>)
    requires AllKnown(locs)
  {
    if locs == [] then (nodes, ctx)
    else
      var i := |locs| - 1;
      assert Known(locs[i]);
      var (ns, ctx1) := WithDefinitions(nodes, ctx, b, pc, locs[..i], fromCall, inputs);
      var kind := if fromCall then CallReturnNode(locs[i]) else ResultNode(i, locs[i]);
      (ns + [Node(kind, pc, inputs, b)], ctx1[CellOf(locs[i]).value := {|ns|}])
  }

  lemma NoDefinitions(nodes: seq<Node>, ctx: Context<nat>, b: nat, pc: nat, fromCall: bool, inputs: seq<nat>)
    ensures WithDefinitions(nodes, ctx, b, pc, [], fromCall, inputs) == (nodes, ctx)
  {
  }

  lemma DefinitionsOneMore(nodes: seq<Node>, ctx: Context<nat>, b: nat, pc: nat, locs: seq<Location>, i: nat,
                           fromCall: bool, inputs: seq<nat>)
    requires AllKnown(locs) && i < |locs|
    ensures var (ns, ctx1) := WithDefinitions(nodes, ctx, b, pc, locs[..i], fromCall, inputs);
      WithDefinitions(nodes, ctx, b, pc, locs[..i + 1], fromCall, inputs)
      == (ns + [Node(if fromCall then CallReturnNode(locs[i]) else ResultNode(i, locs[i]), pc, inputs, b)],
          ctx1[CellOf(locs[i]).value := {|ns|}])
  {
    hide AllCells, CellOf;
    assert locs[..i + 1][..i] == locs[..i];
  }

  ghost function WithKills(ctx: Context<nat>, locs: seq<Location>): Context<nat>
    requires AllKnown(locs)
  {
    if locs == [] then ctx
    else
      assert Known(locs[|locs| - 1]);
      WithKills(ctx, locs[..|locs| - 1])[CellOf(locs[|locs| - 1]).value := {}]
  }

  /** One instruction: the nodes, the context and the sinks it makes. */
  ghost function WithInsn(f: Problem, b: nat, pc: nat, nodes: seq<Node>, ctx: Context<nat>)
    : (seq<Node>, Context<nat>, seq<nat>)
    requires f.Valid() && b < |f.graph.blocks| && pc < |f.code| && KnownRegisters(f.code[pc])
  {
    var insn := f.code[pc];
    var (ns1, inputs) := WithOperands(nodes, b, pc, insn, ctx);
    var (ns2, ctx1) := WithDefinitions(ns1, ctx, b, pc, insn.outputs, false, inputs);
    if !MakesSink(insn) then (ns2, ctx1, [])
    else
      var ns3 := ns2 + [Node(SinkNode, pc, inputs, b)];
      if !IsCall(f, b, pc) then (ns3, ctx1, [|ns2|])
      else
        var (ns4, ctx2) := WithDefinitions(ns3, WithKills(ctx1, f.killedByCall), b, pc, f.definedByCall, true, inputs);
        (ns4, ctx2, [|ns2|])
  }

  /** The instructions of a block before `pc`. */
  ghost function WithInsns(f: Problem, b: nat, pc: nat, nodes: seq<Node>, ctx: Context<nat>)
    : (seq<Node>, Context<nat>, seq<nat>)
    requires f.Valid() && f.graph.Internal(b) && pc <= f.Stop(b)
    requires forall q :: f.Start(b) <= q < pc ==> KnownRegisters(f.code[q])
  {
    if pc <= f.Start(b) then (nodes, ctx, [])
    else
      var (ns, ctx1, sinks) := WithInsns(f, b, pc - 1, nodes, ctx);
      var (ns', ctx2, made) := WithInsn(f, b, pc - 1, ns, ctx1);
      (ns', ctx2, sinks + made)
  }

  ghost function WithReturn(f: Problem, b: nat, loc: Location, nodes: seq<Node>, ctx: Context<nat>)
    : (seq<Node>, seq<nat>)
    requires f.Valid() && f.graph.Internal(b) && Known(loc)
  {
    var defs := Held(ctx, CellOf(loc).value);
    if |defs| == 0 then (nodes, [])
    else
      var (ns, id) := WithRegister(nodes, b, |f.code|, loc, defs);
      (ns + [Node(ReturnNode(loc), f.graph.blocks[b].end, [id], b)], [|ns|])
  }

  ghost function WithReturns(f: Problem, b: nat, locs: seq<Location>, nodes: seq<Node>, ctx: Context<nat>)
    : (seq<Node>, seq<nat>)
    requires f.Valid() && f.graph.Internal(b) && AllKnown(locs)
  {
    if locs == [] then (nodes, [])
    else
      var i := |locs| - 1;
      assert Known(locs[i]);
      var (ns, made) := WithReturns(f, b, locs[..i], nodes, ctx);
      var (ns', one) := WithReturn(f, b, locs[i], ns, ctx);
      (ns', made + one)
  }

  ghost function JoinedContext(f: Problem, contexts: seq<Context<nat>>, b: nat): Context<nat>
    requires f.Valid() && b < |f.graph.psTable|
  {
    map c | c in AllCells() :: Joined(contexts, f.graph.psTable[b].pred, c)
  }

  /** One visit: the nodes, the context of the block and its sinks. */
  ghost function WithVisit(f: Problem, b: nat, nodes: seq<Node>, contexts: seq<Context<nat>>)
    : (seq<Node>, Context<nat>, seq<nat>)
    requires f.Valid() && f.graph.Internal(b) && KnownBlock(f, b) && b < |f.graph.psTable|
  {
    var (ns, ctx, sinks) := WithInsns(f, b, f.Stop(b), nodes, JoinedContext(f, contexts, b));
    if !f.graph.blocks[b].isExit then (ns, ctx, sinks)
    else
      var (ns', returns') := WithReturns(f, b, f.definedByCall, ns, ctx);
      (ns', ctx, sinks + returns')
  }

  lemma JoinedIsContext(f: Problem, contexts: seq<Context<nat>>, b: nat, ctx: Context<nat>)
    requires f.Valid() && JoinsAll(f, contexts, b, ctx)
    ensures b < |f.graph.psTable|
    ensures ctx == JoinedContext(f, contexts, b)
  {
    hide AllCells, Joined, Graph.Valid;
  }
}
